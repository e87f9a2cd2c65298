/** The chained hash map of cstructs/map.c on the linked lists of cstructs/list.c.

    A C `List *` is the address of a link: a bucket's cell or the `next` field of a list entry.  It is
    modelled by the datatype Link; finding returns one, and unsetting edits the list through it. */
module HashMap {
  import opened Common
  import opened HashTable

  class Entry {
    const item: Pair
    var next: Entry?

    constructor (item: Pair, next: Entry?)
      ensures this.item == item && this.next == next
    {
      this.item, this.next := item, next;
    }
  }

  datatype Link = Bucket(index: nat) | Next(of: Entry)

  /** What a pair holds. */
  datatype Rec = Rec(key: Ptr, value: Ptr)

  /** The calls made to the key releaser and to the value releaser, in order. */
  datatype Log = Log(keys: seq<Ptr>, values: seq<Ptr>)

  /** The abstract state: the pairs owned with what they hold, and the releases made. */
  datatype View = View(contents: map<Pair, Rec>, log: Log)

  /** What the client of a map supplies; isKey tells the pointers that it uses as keys.  A releaser may be
      absent (NULL). */
  datatype Config = Config(isKey: Ptr -> bool, hash: Ptr -> int, eq: (Ptr, Ptr) -> bool, releasesKeys: bool, releasesValues: bool)

  /** The client's side of the contract: on its keys eq is an equivalence, and eq keys hash alike. */
  ghost predicate HashRespectsEq(cfg: Config) {
    && (forall a :: cfg.isKey(a) ==> cfg.eq(a, a))
    && (forall a, b :: cfg.isKey(a) && cfg.isKey(b) && cfg.eq(a, b) ==> cfg.eq(b, a) && cfg.hash(a) == cfg.hash(b))
    && (forall a, b, c :: cfg.isKey(a) && cfg.isKey(b) && cfg.isKey(c) && cfg.eq(a, b) && cfg.eq(b, c) ==> cfg.eq(a, c))
  }

  ghost predicate Matches(eq: (Ptr, Ptr) -> bool, c: map<Pair, Rec>, p: Pair, needle: Ptr) {
    p in c && eq(c[p].key, needle)
  }

  ghost predicate HasMatch(eq: (Ptr, Ptr) -> bool, c: map<Pair, Rec>, needle: Ptr) {
    exists p :: p in c && Matches(eq, c, p, needle)
  }

  /** The pairs hold keys of the client, and no two of them eq keys. */
  ghost predicate EqFree(cfg: Config, c: map<Pair, Rec>) {
    && (forall p :: p in c ==> cfg.isKey(c[p].key))
    && (forall p, q :: p in c && q in c && p != q ==> !cfg.eq(c[p].key, c[q].key))
  }

  function KeysOf(rs: seq<Rec>): (r: seq<Ptr>)
    ensures |r| == |rs|
  {
    seq(|rs|, i requires 0 <= i < |rs| => rs[i].key)
  }

  function ValuesOf(rs: seq<Rec>): (r: seq<Ptr>)
    ensures |r| == |rs|
  {
    seq(|rs|, i requires 0 <= i < |rs| => rs[i].value)
  }

  /** What the pairs of s hold; every use is of pairs of c. */
  function RecsOf(s: seq<Pair>, c: map<Pair, Rec>): (r: seq<Rec>)
    ensures |r| == |s|
  {
    seq(|s|, i requires 0 <= i < |s| => if s[i] in c then c[s[i]] else Rec(0, 0))
  }

  /** The log after the given records are released to the releasers that are present. */
  function Release(cfg: Config, log: Log, rs: seq<Rec>): Log {
    Log(log.keys + (if cfg.releasesKeys then KeysOf(rs) else []),
        log.values + (if cfg.releasesValues then ValuesOf(rs) else []))
  }

  lemma ReleaseConcat(cfg: Config, log: Log, a: seq<Rec>, b: seq<Rec>)
    ensures Release(cfg, Release(cfg, log, a), b) == Release(cfg, log, a + b)
    ensures Release(cfg, log, []) == log
  {
    assert KeysOf(a + b) == KeysOf(a) + KeysOf(b);
    assert ValuesOf(a + b) == ValuesOf(a) + ValuesOf(b);
  }

  lemma RecsOfConcat(a: seq<Pair>, b: seq<Pair>, c: map<Pair, Rec>)
    ensures RecsOf(a + b, c) == RecsOf(a, c) + RecsOf(b, c)
  {
  }

  ghost function At(c: seq<Entry>, j: nat): Entry? {
    if j < |c| then c[j] else null
  }

  /** The entries of c, and no others, are linked from head, in order: the chain is acyclic. */
  ghost predicate Linked(head: Entry?, c: seq<Entry>)
    reads c
  {
    head == At(c, 0) && forall j {:trigger c[j]} :: 0 <= j < |c| ==> c[j].next == At(c, j + 1)
  }

  /** No entry is in two places. */
  ghost predicate Apart(chains: seq<seq<Entry>>, entries: set<Entry>) {
    && (forall i :: 0 <= i < |chains| ==> forall e <- chains[i] :: e in entries)
    && (forall i :: 0 <= i < |chains| ==> NoDup(chains[i]))
    && (forall i, k :: 0 <= i < |chains| && 0 <= k < |chains| && i != k ==> forall e <- chains[i] :: e !in chains[k])
  }

  lemma ApartWithout(chains: seq<seq<Entry>>, entries: set<Entry>, i: nat, j: nat)
    requires Apart(chains, entries) && i < |chains| && j < |chains[i]|
    ensures Apart(chains[i := RemoveAt(chains[i], j)], entries)
    ensures forall k :: 0 <= k < |chains| && k != i ==> forall e <- chains[i] :: e !in chains[k]
  {
    RemoveAtKeepsRest(chains[i], j);
  }

  lemma ApartAlso(chains: seq<seq<Entry>>, entries: set<Entry>, m: nat)
    requires Apart(chains, entries)
    ensures Apart(chains + seq(m, _ => []), entries)
  {
  }

  /** Linking past entry j of an acyclic chain. */
  lemma LinkedPast(head: Entry?, c: seq<Entry>, j: nat)
    requires NoDup(c) && j < |c| && head == (if j == 0 then At(c, 1) else c[0])
    requires forall k {:trigger c[k]} :: 0 <= k < |c| && k != j - 1 ==> c[k].next == At(c, k + 1)
    requires j > 0 ==> c[j - 1].next == At(c, j + 1)
    ensures Linked(head, RemoveAt(c, j))
  {
    var c' := RemoveAt(c, j);
    forall k {:trigger c'[k]} | 0 <= k < |c'| ensures c'[k].next == At(c', k + 1) {
      assert c'[k] == if k < j then c[k] else c[k + 1];
    }
  }

  ghost function Items(c: seq<Entry>): (r: seq<Pair>)
    ensures |r| == |c|
  {
    seq(|c|, j requires 0 <= j < |c| => c[j].item)
  }

  ghost function Shape(chains: seq<seq<Entry>>): (r: seq<seq<Pair>>)
    ensures |r| == |chains|
  {
    seq(|chains|, i requires 0 <= i < |chains| => Items(chains[i]))
  }

  lemma ItemsRemoveAt(c: seq<Entry>, j: nat)
    requires j < |c|
    ensures Items(RemoveAt(c, j)) == RemoveAt(Items(c), j)
  {
    forall k | 0 <= k < |c| - 1 ensures Items(RemoveAt(c, j))[k] == RemoveAt(Items(c), j)[k] {
      assert RemoveAt(c, j)[k] == if k < j then c[k] else c[k + 1];
    }
  }

  lemma HeadOfRest(stay: seq<Pair>, was: seq<Pair>, t: nat)
    requires t <= |was|
    ensures t < |was| ==> (stay + was[t..])[|stay|] == was[t]
  {
  }

  lemma SplitNone(was: seq<Pair>, n: nat, b: nat)
    requires n > 0
    ensures Stay(was[..0], n, b) == [] && Move(was[..0], n, b) == []
  {
  }

  /** Taking one more pair of a chain in the split: it either stays in place or is taken out and pushed. */
  lemma SplitStep(was: seq<Pair>, n: nat, b: nat, t: nat)
    requires n > 0 && t < |was|
    ensures var stay, rest := Stay(was[..t], n, b), was[t..];
            if Slot(was[t].home, n) == b then
              stay + rest == Stay(was[..t + 1], n, b) + was[t + 1..] && Move(was[..t + 1], n, b) == Move(was[..t], n, b)
              && |Stay(was[..t + 1], n, b)| == |stay| + 1
            else
              RemoveAt(stay + rest, |stay|) == Stay(was[..t + 1], n, b) + was[t + 1..]
              && Move(was[..t + 1], n, b) == [was[t]] + Move(was[..t], n, b)
              && |Stay(was[..t + 1], n, b)| == |stay|
  {
    assert was[..t + 1][..t] == was[..t];
    assert was[t..] == [was[t]] + was[t + 1..];
  }

  /** map__set: the pair eq to key is updated in place, or a pair new to the map is added; a releaser sees
      the replaced pointer unless it is the one being stored. */
  ghost predicate SetStep(cfg: Config, v: View, v': View, key: Ptr, value: Ptr, pair: Pair) {
    && v'.contents == v.contents[pair := Rec(key, value)]
    && if pair in v.contents then
         var was := v.contents[pair];
         && cfg.eq(was.key, key)
         && v'.log.keys == v.log.keys + (if cfg.releasesKeys && was.key != key then [was.key] else [])
         && v'.log.values == v.log.values + (if cfg.releasesValues && was.value != value then [was.value] else [])
       else
         !HasMatch(cfg.eq, v.contents, key) && v'.log == v.log
  }

  /** map__unset: the pair eq to key leaves and is released; without one nothing changes. */
  ghost predicate UnsetStep(cfg: Config, v: View, v': View, key: Ptr) {
    if HasMatch(cfg.eq, v.contents, key) then
      exists p :: p in v.contents && Matches(cfg.eq, v.contents, p, key) &&
                  v' == View(v.contents - {p}, Release(cfg, v.log, [v.contents[p]]))
    else v' == v
  }

  lemma CardinalityOfRemoval(c: map<Pair, Rec>, p: Pair)
    requires p in c
    ensures |c - {p}| == |c| - 1
  {
    assert (c - {p}).Keys == c.Keys - {p};
    assert |c - {p}| == |(c - {p}).Keys| && |c| == |c.Keys|;
  }

  lemma UnsetFound(cfg: Config, v: View, key: Ptr, p: Pair)
    requires Matches(cfg.eq, v.contents, p, key)
    ensures UnsetStep(cfg, v, View(v.contents - {p}, Release(cfg, v.log, [v.contents[p]])), key)
  {
  }

  lemma UnsetNothing(cfg: Config, v: View, key: Ptr)
    requires !HasMatch(cfg.eq, v.contents, key)
    ensures UnsetStep(cfg, v, v, key)
  {
  }

  /** map__clear and map__delete: every pair is released, each once, in the given order. */
  ghost predicate ClearStep(cfg: Config, v: View, v': View, order: seq<Pair>) {
    && NoDup(order) && Elems(order) == v.contents.Keys
    && v' == View(map[], Release(cfg, v.log, RecsOf(order, v.contents)))
  }

  /** Replacing a key by an eq one keeps the keys eq-free. */
  lemma EqFreeReplace(cfg: Config, c: map<Pair, Rec>, p: Pair, r: Rec)
    requires EqFree(cfg, c) && HashRespectsEq(cfg) && Matches(cfg.eq, c, p, r.key) && cfg.isKey(r.key)
    ensures EqFree(cfg, c[p := r]) && cfg.hash(c[p].key) == cfg.hash(r.key)
  {
    forall q | q in c && q != p ensures !cfg.eq(c[q].key, r.key) && !cfg.eq(r.key, c[q].key) {
      assert cfg.eq(c[p].key, r.key) && cfg.eq(r.key, c[p].key);
    }
  }

  lemma EqFreeRemove(cfg: Config, c: map<Pair, Rec>, p: Pair)
    requires EqFree(cfg, c)
    ensures EqFree(cfg, c - {p})
  {
  }

  lemma EqFreeAdd(cfg: Config, c: map<Pair, Rec>, p: Pair, r: Rec)
    requires EqFree(cfg, c) && HashRespectsEq(cfg) && p !in c && cfg.isKey(r.key)
    requires !HasMatch(cfg.eq, c, r.key)
    ensures EqFree(cfg, c[p := r])
  {
    forall q | q in c ensures !cfg.eq(c[q].key, r.key) && !cfg.eq(r.key, c[q].key) {
      assert !Matches(cfg.eq, c, q, r.key);
    }
  }

  ghost function Pow2(k: nat): nat {
    if k == 0 then 1 else 2 * Pow2(k - 1)
  }

  /** Bucket i and bucket i + m after double_size has handled the first k buckets of an m-bucket table. */
  ghost function DoneLow(was: seq<seq<Pair>>, n: nat, i: nat, k: nat): seq<Pair>
    requires n > 0 && i < |was|
  {
    if i < k then Stay(was[i], n, i) else was[i]
  }

  ghost function DoneHigh(was: seq<seq<Pair>>, n: nat, i: nat, k: nat): seq<Pair>
    requires n > 0 && i < |was|
  {
    if i < k then Move(was[i], n, i) else []
  }

  /** The pairs that resizing to n buckets moves out of the first k buckets. */
  ghost function MovedUpTo(was: seq<seq<Pair>>, n: nat, k: nat): nat
    requires n > 0 && k <= |was|
  {
    if k == 0 then 0 else MovedUpTo(was, n, k - 1) + |Move(was[k - 1], n, k - 1)|
  }

  lemma RecsNext(c: seq<Entry>, contents: map<Pair, Rec>, t: nat)
    requires t < |c| && forall p <- Items(c) :: p in contents
    ensures c[t].item in contents && c[t..][1..] == c[t + 1..]
    ensures var rs := RecsOf(Items(c), contents); rs[..t + 1] == rs[..t] + [contents[c[t].item]]
  {
    assert Items(c)[t] == c[t].item;
  }

  lemma ReleaseStep(cfg: Config, log: Log, was: seq<seq<Pair>>, k: nat, c: map<Pair, Rec>)
    requires k < |was|
    ensures Release(cfg, Release(cfg, log, RecsOf(Flat(was[..k]), c)), RecsOf(was[k], c))
         == Release(cfg, log, RecsOf(Flat(was[..k + 1]), c))
  {
    assert was[..k + 1][..k] == was[..k];
    RecsOfConcat(Flat(was[..k]), was[k], c);
    ReleaseConcat(cfg, log, RecsOf(Flat(was[..k]), c), RecsOf(was[k], c));
  }

  lemma PlacedMembers(table: seq<seq<Pair>>, pairs: set<Pair>)
    requires |table| > 0 && Placed(table, pairs)
    ensures forall k :: 0 <= k < |table| ==> forall p <- table[k] :: p in pairs
  {
    forall k | 0 <= k < |table| ensures forall p <- table[k] :: p in pairs {
      assert ChainOk(table[k], |table|, k, pairs);
    }
  }

  lemma EmptyPlaced(table: seq<seq<Pair>>)
    requires |table| > 0 && forall i :: 0 <= i < |table| ==> table[i] == []
    ensures Placed(table, {})
  {
  }

  /** Bucket k's chain sits in the iteration order after those of the buckets before it. */
  lemma {:induction false} FlatSplit(table: seq<seq<Pair>>, k: nat)
    requires k < |table|
    ensures |Flat(table[..k])| + |table[k]| <= |Flat(table)|
    ensures k == |table| - 1 ==> |Flat(table[..k])| + |table[k]| == |Flat(table)|
    ensures forall j :: 0 <= j < |table[k]| ==> Flat(table)[|Flat(table[..k])| + j] == table[k][j]
  {
    var last := |table| - 1;
    if k < last {
      FlatSplit(table[..last], k);
      assert table[..last][..k] == table[..k];
    }
  }

  lemma FlatEmpty(c: map<Pair, Rec>)
    ensures RecsOf(Flat([]), c) == []
  {
  }

  lemma EmptyEqFree(cfg: Config)
    ensures EqFree(cfg, map[])
  {
  }

  lemma QuotientAtLeast3(a: nat, n: nat)
    requires n > 0
    ensures a / n >= 3 <==> a >= 3 * n
  {
    assert a == (a / n) * n + a % n;
    assert a / n >= 3 ==> (a / n) * n >= 3 * n;
    assert a / n <= 2 ==> (a / n) * n <= 2 * n;
  }

  /** A resize moves no more pairs than the map holds. */
  lemma MovedIsBounded(was: seq<seq<Pair>>, pairs: set<Pair>)
    requires |was| > 0 && Placed(was, pairs)
    ensures MovedUpTo(was, 2 * |was|, |was|) <= |pairs|
  {
    MovedAtMostFlat(was, 2 * |was|, |was|);
    FlatVisitsEachOnce(was, pairs);
    assert was[..|was|] == was;
    LengthOfNoDup(Flat(was));
  }

  lemma {:induction false} MovedAtMostFlat(was: seq<seq<Pair>>, n: nat, k: nat)
    requires n > 0 && k <= |was|
    ensures MovedUpTo(was, n, k) <= |Flat(was[..k])|
  {
    if k > 0 {
      MovedAtMostFlat(was, n, k - 1);
      SplitKeepsAll(was[k - 1], n, k - 1);
      assert was[..k][..k - 1] == was[..k - 1];
    }
  }

  lemma LowSlots(was: seq<seq<Pair>>, pairs: set<Pair>, i: nat)
    requires i < |was| && Placed(was, pairs)
    ensures forall p <- was[i] :: p in pairs && (Slot(p.home, 2 * |was|) == i || Slot(p.home, 2 * |was|) == i + |was|)
  {
    assert ChainOk(was[i], |was|, i, pairs);
    forall p <- was[i] ensures Slot(p.home, 2 * |was|) == i || Slot(p.home, 2 * |was|) == i + |was| {
      SlotDoubles(p.home, |was|);
    }
  }

  /** Bucket m, where double_size stops, holds pairs that were pushed there and stay there. */
  lemma HighSlots(was: seq<seq<Pair>>, pairs: set<Pair>)
    requires |was| > 0 && Placed(was, pairs)
    ensures var m := |was|; var c := Move(was[0], 2 * m, 0);
                            (forall p <- c :: p in pairs && Slot(p.home, 2 * m) == m) && Stay(c, 2 * m, m) == c && Move(c, 2 * m, m) == []
  {
    var m := |was|;
    SplitIsOk(was[0], m, 0, pairs);
    AllStay(Move(was[0], 2 * m, 0), 2 * m, m);
  }

  lemma {:induction false} AllStay(c: seq<Pair>, n: nat, i: nat)
    requires n > 0 && forall p <- c :: Slot(p.home, n) == i
    ensures Stay(c, n, i) == c && Move(c, n, i) == []
  {
    if c != [] {
      AllStay(c[..|c| - 1], n, i);
      assert c == c[..|c| - 1] + [c[|c| - 1]];
    }
  }

  lemma DoubledIs(was: seq<seq<Pair>>, now: seq<seq<Pair>>)
    requires |was| > 0 && |now| == 2 * |was|
    requires forall i :: 0 <= i < |was| ==> now[i] == DoneLow(was, |now|, i, |was|)
    requires forall i :: |was| <= i < |now| ==> now[i] == DoneHigh(was, |now|, i - |was|, |was|)
    ensures now == Doubled(was)
  {
  }

  class Map {
    var count: nat
    var buckets: array<Entry?>
    const cfg: Config

    // The calls made to the client's releasers, in order.
    var log: Log

    ghost var chains: seq<seq<Entry>>
    ghost var entries: set<Entry>
    ghost var contents: map<Pair, Rec>

    // Growth accounting: table doublings, the highest count, pairs inserted, pairs moved by resizes.
    ghost var doublings: nat
    ghost var peak: nat
    ghost var inserted: nat
    ghost var moved: nat

    /** The chains are the lists in the heap; no entry is in two places. */
    ghost predicate Heap()
      reads this`chains, this`buckets, this`entries, buckets, entries
    {
      && |chains| == buckets.Length > 0
      && Apart(chains, entries)
      && (forall i :: 0 <= i < |chains| ==> Linked(buckets[i], chains[i]))
    }

    /** Each pair holds what `contents` says and its home is its key's unsigned hash. */
    ghost predicate Records()
      reads this`contents, contents.Keys
    {
      forall p <- contents :: p.key == contents[p].key && p.value == contents[p].value
                              && ToUnsigned(cfg.hash(p.key)) == p.home
    }

    ghost predicate Growth()
      reads this`buckets, this`doublings, this`count, this`peak, this`inserted, this`moved
    {
      && buckets.Length == MIN_BUCKETS * Pow2(doublings)
      && count < 3 * buckets.Length
      && count <= peak <= inserted
      && (buckets.Length > MIN_BUCKETS ==> 2 * peak >= 3 * buckets.Length)
      && buckets.Length >= MIN_BUCKETS
      && moved <= 3 * (buckets.Length - MIN_BUCKETS)
    }

    ghost predicate Core()
      reads this`chains, this`buckets, this`entries, this`contents, buckets, entries, contents.Keys
    {
      && Heap()
      && Placed(Shape(chains), contents.Keys)
      && Records()
      && EqFree(cfg, contents)
      && HashRespectsEq(cfg)
    }

    ghost predicate Valid()
      reads this, buckets, entries, contents.Keys
    {
      Core() && count == |contents| && Growth()
    }

    ghost function Abs(): View
      reads this
    {
      View(contents, log)
    }

    constructor (cfg: Config)
      requires HashRespectsEq(cfg)
      ensures Valid() && Abs() == View(map[], Log([], [])) && this.cfg == cfg
      ensures fresh(buckets) && fresh(entries) && fresh(contents.Keys)
      ensures buckets.Length == MIN_BUCKETS && peak == inserted == moved == 0
    {
      this.cfg := cfg;
      count, log := 0, Log([], []);
      buckets := new Entry?[MIN_BUCKETS](_ => null);
      chains, entries, contents := seq(MIN_BUCKETS, _ => []), {}, map[];
      doublings, peak, inserted, moved := 0, 0, 0, 0;
      new;
      hide Core, HashRespectsEq;
      EmptyCore();
    }

    // ----- Lists -----

    ghost function LinkAt(i: nat, j: nat): Link
      requires i < |chains| && j <= |chains[i]|
      reads this`chains
    {
      if j == 0 then Bucket(i) else Next(chains[i][j - 1])
    }

    /** The link is that of entry j of chain i, which holds pair p. */
    ghost predicate Designates(link: Link, i: nat, j: nat, p: Pair)
      reads this`chains
    {
      i < |chains| && j < |chains[i]| && link == LinkAt(i, j) && chains[i][j].item == p
    }

    /** `*link`. */
    function Load(link: Link): Entry?
      requires link.Bucket? ==> link.index < buckets.Length
      reads this, buckets, if link.Next? then {link.of} else {}
    {
      match link
      case Bucket(i) => buckets[i]
      case Next(e) => e.next
    }

    lemma HeapLengths()
      requires Heap()
      ensures |chains| == buckets.Length > 0
    {
    }

    lemma ShapeLengths()
      requires Heap()
      ensures |Shape(chains)| == |chains| == buckets.Length > 0
    {
    }

    lemma LinkStart(i: nat)
      requires Heap() && i < |chains|
      ensures buckets.Length == |chains| && Load(LinkAt(i, 0)) == At(chains[i], 0)
    {
    }

    lemma LinkStep(i: nat, j: nat)
      requires Heap() && i < |chains| && j < |chains[i]|
      ensures Load(LinkAt(i, j + 1)) == At(chains[i], j + 1)
    {
      assert Linked(buckets[i], chains[i]);
    }

    lemma LoadDesignated(link: Link, i: nat, j: nat, p: Pair)
      requires Heap() && Designates(link, i, j, p)
      ensures link.Bucket? ==> link.index < buckets.Length
      ensures Load(link) != null && Load(link).item == p
    {
      if j > 0 { LinkStep(i, j - 1); } else { LinkStart(i); }
    }

    /** `(*link)->item`. */
    method ItemAt(link: Link, ghost i: nat, ghost j: nat, ghost p: Pair) returns (pair: Pair)
      requires Heap() && Designates(link, i, j, p)
      ensures pair == p
    {
      LoadDesignated(link, i, j, p);
      pair := Load(link).item;
    }

    method Store(link: Link, e: Entry?)
      requires link.Bucket? ==> link.index < buckets.Length
      modifies buckets, if link.Next? then {link.of} else {}
      ensures link.Bucket? ==> buckets[..] == old(buckets[..])[link.index := e]
      ensures link.Next? ==> link.of.next == e && buckets[..] == old(buckets[..])
    {
      match link
      case Bucket(i) => buckets[i] := e;
      case Next(of) => of.next := e;
    }

    /** list__insert on a bucket. */
    method ListInsert(i: nat, item: Pair)
      requires Heap() && i < |chains|
      modifies buckets, this`chains, this`entries
      ensures Heap()
      ensures |chains| == |old(chains)|
      ensures Items(chains[i]) == [item] + Items(old(chains)[i])
      ensures chains == old(chains)[i := chains[i]]
      ensures chains[i] != [] && chains[i][1..] == old(chains)[i]
      ensures fresh(entries - old(entries)) && old(entries) <= entries
    {
      var e := new Entry(item, buckets[i]);
      buckets[i] := e;
      forall k | 0 <= k < |chains| && k != i ensures Linked(buckets[k], chains[k]) && e !in chains[k] {
        assert old(Linked(buckets[k], chains[k]));
      }
      assert old(Linked(buckets[i], chains[i])) && e !in chains[i];
      chains, entries := chains[i := [e] + chains[i]], entries + {e};
    }

    /** list__remove_first through the link that designates entry j of chain i. */
    method ListRemoveFirst(link: Link, ghost i: nat, ghost j: nat)
      requires Heap() && i < |chains| && j < |chains[i]| && link == LinkAt(i, j)
      modifies buckets, entries, this`chains
      ensures Heap()
      ensures chains == old(chains)[i := RemoveAt(old(chains)[i], j)]
    {
      LoadDesignated(link, i, j, chains[i][j].item);
      var removed := Load(link);
      ghost var c := chains[i];
      ApartWithout(chains, entries, i, j);
      hide Apart;
      Store(link, removed.next);
      LinkedPast(buckets[i], c, j);
      forall k | 0 <= k < |chains| && k != i ensures Linked(buckets[k], chains[k]) {
        assert old(Linked(buckets[k], chains[k]));
        assert j > 0 ==> c[j - 1] in c && c[j - 1] !in chains[k];
      }
      chains := chains[i := RemoveAt(c, j)];
    }

    /** list__find_entry on bucket i. */
    method ListFindEntry(i: nat, needle: Ptr) returns (found: Option<Link>, ghost j: nat)
      requires Heap() && i < |chains|
      ensures found.Some? ==> j < |chains[i]| && found.value == LinkAt(i, j) && cfg.eq(chains[i][j].item.key, needle)
      ensures found.None? ==> forall e <- chains[i] :: !cfg.eq(e.item.key, needle)
    {
      var iter := Bucket(i);
      j := 0;
      while Load(iter) != null
        invariant j <= |chains[i]| && iter == LinkAt(i, j)
        invariant Load(iter) == At(chains[i], j)
        invariant forall k :: 0 <= k < j ==> !cfg.eq(chains[i][k].item.key, needle)
        decreases |chains[i]| - j
      {
        if cfg.eq(Load(iter).item.key, needle) { return Some(iter), j; }
        iter, j := Next(Load(iter)), j + 1;
      }
      found := None;
    }

    // ----- Resizing -----

    /** The link of entry j of chain i, when the pair there belongs elsewhere: unlink it and push it there. */
    method MoveAcross(link: Link, to: nat, pair: Pair, ghost i: nat, ghost j: nat)
      requires Heap() && i < |chains| && to < |chains| && i != to
      requires j < |chains[i]| && link == LinkAt(i, j) && chains[i][j].item == pair
      modifies buckets, entries, this`chains, this`entries
      ensures Heap() && |chains| == |old(chains)|
      ensures Items(chains[i]) == RemoveAt(Items(old(chains)[i]), j)
      ensures Items(chains[to]) == [pair] + Items(old(chains)[to])
      ensures forall k :: 0 <= k < |chains| && k != i && k != to ==> chains[k] == old(chains)[k]
      ensures fresh(entries - old(entries)) && old(entries) <= entries
      ensures link == LinkAt(i, j) && Load(link) == At(chains[i], j)
    {
      ItemsRemoveAt(chains[i], j);
      ListRemoveFirst(link, i, j);
      ListInsert(to, pair);
    }

    /** The inner loop of double_size on bucket b, when every pair of it belongs in b or in target. */
    method SplitBucket(b: nat, ghost target: nat)
      requires Heap() && b < |chains| && target < |chains| && b != target
      requires forall p <- Items(chains[b]) :: ToUnsigned(cfg.hash(p.key)) == p.home
      requires forall p <- Items(chains[b]) :: Slot(p.home, |chains|) == b || Slot(p.home, |chains|) == target
      modifies buckets, entries, this`chains, this`entries, this`moved
      ensures Heap() && |chains| == |old(chains)|
      ensures Items(chains[b]) == Stay(Items(old(chains)[b]), |chains|, b)
      ensures Items(chains[target]) == Move(Items(old(chains)[b]), |chains|, b) + Items(old(chains)[target])
      ensures forall i :: 0 <= i < |chains| && i != b && i != target ==> chains[i] == old(chains)[i]
      ensures fresh(entries - old(entries))
      ensures moved == old(moved) + |Move(Items(old(chains)[b]), |chains|, b)|
    {
      LinkStart(b);
      SplitNone(Items(chains[b]), buckets.Length, b);
      hide Heap, Stay, Move, Slot;
      ghost var was, others := Items(chains[b]), Items(chains[target]);
      ghost var t, j := 0, 0;
      assert Stay(was[..0], buckets.Length, b) + was[0..] == was && [] + others == others;
      var entry := Bucket(b);
      assert Splitting(b, target, was, others, t, j, entry);
      while Load(entry) != null
        invariant |chains| == |old(chains)| && fresh(entries - old(entries))
        invariant Splitting(b, target, was, others, t, j, entry)
        invariant forall i :: 0 <= i < |chains| && i != b && i != target ==> chains[i] == old(chains)[i]
        invariant moved == old(moved) + |Move(was[..t], |chains|, b)|
        decreases |was| - t
      {
        entry, j := SplitNext(b, target, was, others, t, j, entry);
        t := t + 1;
      }
      assert was[..t] == was;
    }

    /** The first t pairs of the bucket have been looked at; the link is that of entry j, the next one to look at. */
    ghost predicate Splitting(b: nat, target: nat, was: seq<Pair>, others: seq<Pair>, t: nat, j: nat, entry: Link)
      reads this, buckets, entries, if entry.Next? then {entry.of} else {}
    {
      && Heap() && b < |chains| && target < |chains| && |chains| == buckets.Length
      && t <= |was| && j == |Stay(was[..t], |chains|, b)| <= |chains[b]|
      && Items(chains[b]) == Stay(was[..t], |chains|, b) + was[t..]
      && Items(chains[target]) == Move(was[..t], |chains|, b) + others
      && entry == LinkAt(b, j) && (entry.Bucket? ==> entry.index < buckets.Length) && Load(entry) == At(chains[b], j)
    }

    /** Look at one pair: it stays, or it moves to the front of its bucket. */
    method SplitNext(b: nat, ghost target: nat, ghost was: seq<Pair>, ghost others: seq<Pair>, ghost t: nat, ghost j: nat, entry: Link)
      returns (entry': Link, ghost j': nat)
      requires Splitting(b, target, was, others, t, j, entry) && Load(entry) != null && b != target
      requires forall p <- was :: ToUnsigned(cfg.hash(p.key)) == p.home
      requires forall p <- was :: Slot(p.home, |chains|) == b || Slot(p.home, |chains|) == target
      modifies buckets, entries, this`chains, this`entries, this`moved
      ensures t < |was| && |chains| == |old(chains)| && Splitting(b, target, was, others, t + 1, j', entry')
      ensures forall i :: 0 <= i < |chains| && i != b && i != target ==> chains[i] == old(chains)[i]
      ensures fresh(entries - old(entries)) && old(entries) <= entries
      ensures moved == old(moved) + |Move(was[..t + 1], |chains|, b)| - |Move(was[..t], |chains|, b)|
    {
      hide Heap, Stay, Move, Slot;
      var n := buckets.Length;
      var pair := Load(entry).item;
      assert pair == Items(chains[b])[j];
      HeadOfRest(Stay(was[..t], n, b), was, t);
      var h := ToUnsigned(cfg.hash(pair.key));
      var bucketIndex := h % n;
      SlotIsRemainder(h, n);
      SplitStep(was, n, b, t);
      if bucketIndex == b {
        LinkStep(b, j);
        entry', j' := Next(Load(entry)), j + 1;
      } else {
        MoveAcross(entry, bucketIndex, pair, b, j);
        moved := moved + 1;
        entry', j' := entry, j;
      }
    }

    /** double_size has handled the first k buckets of the table that was `was`. */
    ghost predicate Progress(was: seq<seq<Pair>>, k: nat)
      reads this`chains, this`buckets, this`entries, this`contents, buckets, entries, contents.Keys
    {
      && Heap() && Records() && |was| > 0 && |chains| == 2 * |was| && Placed(was, contents.Keys)
      && (forall i :: 0 <= i < |was| ==> Items(chains[i]) == DoneLow(was, |chains|, i, k))
      && (forall i :: |was| <= i < |chains| ==> Items(chains[i]) == DoneHigh(was, |chains|, i - |was|, k))
    }

    lemma RecordHomes()
      requires Records()
      ensures forall p <- contents :: ToUnsigned(cfg.hash(p.key)) == p.home
    {
    }

    method SplitAt(index: nat, ghost was: seq<seq<Pair>>)
      requires Progress(was, index) && index <= |was|
      modifies buckets, entries, this`chains, this`entries, this`moved
      ensures Progress(was, if index < |was| then index + 1 else index)
      ensures fresh(entries - old(entries))
      ensures moved == old(moved) + if index < |was| then |Move(was[index], 2 * |was|, index)| else 0
    {
      hide Heap, Stay, Move, Placed, Records, Slot;
      ghost var m := |was|;
      ghost var target := if index < m then index + m else 0;
      if index < m { LowSlots(was, contents.Keys, index); } else { HighSlots(was, contents.Keys); }
      RecordHomes();
      assert forall p <- Items(chains[index]) :: p in contents;
      SplitBucket(index, target);
    }

    /** Double the bucket cells; the new half is zeroed. */
    method GrowBuckets()
      requires Heap()
      modifies this`buckets, this`chains
      ensures Heap() && fresh(buckets)
      ensures chains == old(chains) + seq(|old(chains)|, _ => [])
      ensures buckets.Length == 2 * |old(chains)|
    {
      var m := buckets.Length;
      var cells := new Entry?[2 * m](_ => null);
      forall i | 0 <= i < m { cells[i] := buckets[i]; }
      ghost var was := chains;
      ApartAlso(chains, entries, m);
      chains := chains + seq(m, _ => []);
      hide Apart;
      forall i | 0 <= i < 2 * m ensures Linked(cells[i], chains[i]) {
        assert i < m ==> chains[i] == was[i] && Linked(buckets[i], was[i]);
      }
      buckets := cells;
    }

    /** The state in which double_size starts its loop. */
    method StartDoubling()
      requires Heap() && Records() && Placed(Shape(chains), contents.Keys)
      modifies this`buckets, this`chains
      ensures fresh(buckets) && buckets.Length == 2 * |old(chains)| > 0
      ensures Progress(Shape(old(chains)), 0)
    {
      GrowBuckets();
    }

    lemma ProgressEnds(was: seq<seq<Pair>>)
      requires Progress(was, |was|)
      ensures Heap() && Records() && Shape(chains) == Doubled(was)
    {
      hide Heap, Records, Placed;
      DoubledIs(was, Shape(chains));
    }

    /** double_size splits buckets 0..m in place while it pushes onto buckets m..2m; it stops after
        bucket m, which only holds what was pushed there. */
    method DoubleSize()
      requires Heap() && Records() && Placed(Shape(chains), contents.Keys)
      modifies buckets, entries, this`buckets, this`chains, this`entries, this`moved
      ensures Heap() && Records() && fresh(buckets) && fresh(entries - old(entries))
      ensures Shape(chains) == Doubled(Shape(old(chains)))
      ensures moved == old(moved) + MovedUpTo(Shape(old(chains)), 2 * |old(chains)|, |old(chains)|)
      ensures buckets.Length == 2 * old(buckets.Length)
    {
      hide Stay, Move, Placed, Records, Shape, Doubled, Progress, MovedUpTo;
      ghost var was := Shape(chains);
      StartDoubling();
      hide Heap;
      SplitAll(was);
      ProgressEnds(was);
    }

    /** The loop of double_size. */
    method SplitAll(ghost was: seq<seq<Pair>>)
      requires Progress(was, 0) && buckets.Length == 2 * |was| > 0
      modifies buckets, entries, this`chains, this`entries, this`moved
      ensures Progress(was, |was|) && fresh(entries - old(entries))
      ensures moved == old(moved) + MovedUpTo(was, 2 * |was|, |was|)
    {
      hide Progress, Move;
      var n := buckets.Length;
      var index := 0;
      while index < n
        invariant index <= |was| && Progress(was, index) && fresh(entries - old(entries))
        invariant moved == old(moved) + MovedUpTo(was, n, index)
      {
        SplitAt(index, was);
        if index >= n / 2 { break; }
        index := index + 1;
      }
    }

    // ----- The public operations -----

    /** The pair p is the one whose key is eq to needle, and holds what the map says it holds. */
    ghost predicate IsMatch(p: Pair, needle: Ptr)
      reads this`contents, p
    {
      Matches(cfg.eq, contents, p, needle) && contents[p] == Rec(p.key, p.value)
    }

    lemma MatchIsIn(p: Pair, needle: Ptr)
      requires IsMatch(p, needle)
      ensures p in contents
    {
    }

    /** find_with_hash: the link of the pair whose key is eq to needle, if there is one. */
    method FindWithHash(needle: Ptr, h: int) returns (found: Option<Link>, ghost i: nat, ghost j: nat, ghost p: Pair?)
      requires Core() && cfg.isKey(needle) && h == cfg.hash(needle)
      ensures found.Some? ==> p != null && Designates(found.value, i, j, p) && IsMatch(p, needle)
      ensures found.None? ==> !HasMatch(cfg.eq, contents, needle)
    {
      var n := buckets.Length;
      var index := ToUnsigned(h) % n;
      SlotIsRemainder(ToUnsigned(h), n);
      i, p := index, null;
      found, j := ListFindEntry(index, needle);
      if found.Some? {
        p := chains[i][j].item;
        assert ChainOk(Shape(chains)[i], n, i, contents.Keys) && Shape(chains)[i][j] == p;
      } else {
        forall q <- contents ensures !cfg.eq(contents[q].key, needle) {
          if q.home == ToUnsigned(h) {
            assert q in Shape(chains)[Slot(q.home, n)];
            var k :| 0 <= k < |chains[i]| && Items(chains[i])[k] == q;
            assert q == chains[i][k].item;
          }
        }
      }
    }

    /** map__get */
    method Get(needle: Ptr) returns (pair: Pair?)
      requires Valid() && cfg.isKey(needle)
      ensures pair != null ==> IsMatch(pair, needle)
      ensures pair == null ==> !HasMatch(cfg.eq, contents, needle)
    {
      hide HasMatch;
      var entry, i, j, p := FindWithHash(needle, cfg.hash(needle));
      match entry
      case None => pair := null;
      case Some(link) => pair := ItemAt(link, i, j, p);
    }

    /** The load test of map__set: C divides the two ints and compares the quotient with MAX_LOAD, 2.5. */
    method LoadExceeded() returns (full: bool)
      requires buckets.Length > 0
      ensures full <==> count + 1 >= 3 * buckets.Length
    {
      var load := (count + 1) / buckets.Length;
      QuotientAtLeast3(count + 1, buckets.Length);
      full := 2 * load > 5;
    }

    /** double_size keeps the map: same pairs, same contents, re-filed under the doubled table. */
    method Resize()
      requires Core()
      modifies buckets, entries, this`buckets, this`chains, this`entries, this`moved
      ensures Core() && fresh(buckets) && fresh(entries - old(entries))
      ensures buckets.Length == 2 * old(buckets.Length)
      ensures moved <= old(moved) + |contents|
      ensures moved == old(moved) + MovedUpTo(old(Shape(chains)), 2 * old(buckets.Length), old(buckets.Length))
    {
      hide Heap, Stay, Move, Placed, Records, Shape, Doubled, EqFree, HashRespectsEq;
      ghost var was := Shape(chains);
      ShapeLengths();
      DoublingKeepsPlacement(was, contents.Keys);
      MovedIsBounded(was, contents.Keys);
      DoubleSize();
    }

    /** Double the table if one more pair would overload it. */
    method MakeRoom()
      requires Valid()
      modifies buckets, entries, this`buckets, this`chains, this`entries, this`moved, this`doublings
      ensures Core()
      ensures buckets == old(buckets) || fresh(buckets)
      ensures fresh(entries - old(entries))
      ensures if count + 1 >= 3 * old(buckets.Length) then buckets.Length == 2 * old(buckets.Length)
              else buckets.Length == old(buckets.Length)
      ensures buckets.Length == MIN_BUCKETS * Pow2(doublings)
      ensures moved <= 3 * (buckets.Length - MIN_BUCKETS)
      ensures moved == old(moved)
                       + if buckets.Length == old(buckets.Length) then 0
                       else MovedUpTo(old(Shape(chains)), 2 * old(buckets.Length), old(buckets.Length))
    {
      hide Core, MovedUpTo;
      var full := LoadExceeded();
      if full {
        Resize();
        doublings := doublings + 1;
      }
    }

    /** The releases that storing key and value over pair's present ones calls for. */
    method ReleaseReplaced(pair: Pair, key: Ptr, value: Ptr)
      modifies this`log
      ensures log.keys == old(log.keys) + (if cfg.releasesKeys && pair.key != key then [pair.key] else [])
      ensures log.values == old(log.values) + (if cfg.releasesValues && pair.value != value then [pair.value] else [])
    {
      if cfg.releasesKeys && pair.key != key { log := log.(keys := log.keys + [pair.key]); }
      if cfg.releasesValues && pair.value != value { log := log.(values := log.values + [pair.value]); }
    }

    method StoreFields(pair: Pair, key: Ptr, value: Ptr)
      requires Records() && pair in contents && ToUnsigned(cfg.hash(key)) == pair.home
      modifies pair, this`contents
      ensures Records() && contents == old(contents)[pair := Rec(key, value)]
      ensures contents.Keys == old(contents.Keys)
    {
      pair.key := key;
      pair.value := value;
      contents := contents[pair := Rec(key, value)];
      assert contents.Keys == old(contents.Keys);
    }

    /** Store an eq key and a value in a pair of the map. */
    method Overwrite(pair: Pair, key: Ptr, value: Ptr)
      requires Core() && Matches(cfg.eq, contents, pair, key) && cfg.isKey(key)
      modifies pair, this`contents
      ensures Core() && contents == old(contents)[pair := Rec(key, value)]
      ensures contents.Keys == old(contents.Keys)
    {
      assert ToUnsigned(cfg.hash(key)) == pair.home by { EqFreeReplace(cfg, contents, pair, Rec(key, value)); }
      EqFreeReplace(cfg, contents, pair, Rec(key, value));
      hide Heap, Placed, Shape, EqFree, HashRespectsEq, Records;
      StoreFields(pair, key, value);
    }

    /** The update branch of map__set. */
    method Replace(pair: Pair, key: Ptr, value: Ptr)
      requires Core() && Matches(cfg.eq, contents, pair, key) && cfg.isKey(key) && contents[pair] == Rec(pair.key, pair.value)
      modifies pair, this`contents, this`log
      ensures Core() && SetStep(cfg, old(Abs()), Abs(), key, value, pair)
      ensures contents.Keys == old(contents.Keys)
    {
      hide Core, HasMatch;
      ReleaseReplaced(pair, key, value);
      Overwrite(pair, key, value);
    }

    /** The tail of map__set for a new pair: file it at the front of its bucket. */
    method FileNew(pair: Pair, key: Ptr, value: Ptr, h: int)
      requires Core() && pair !in contents && cfg.isKey(key)
      requires pair.key == key && pair.value == value && h == cfg.hash(key) && pair.home == ToUnsigned(h)
      requires !HasMatch(cfg.eq, contents, key)
      modifies buckets, this`contents, this`chains, this`entries
      ensures Core() && contents == old(contents)[pair := Rec(key, value)]
      ensures fresh(entries - old(entries))
    {
      hide Heap, Placed, EqFree, HashRespectsEq, HasMatch;
      ShapeLengths();
      var n := buckets.Length;
      var index := ToUnsigned(h) % n;
      SlotIsRemainder(ToUnsigned(h), n);
      InsertionKeepsPlacement(Shape(chains), contents.Keys, pair);
      EqFreeAdd(cfg, contents, pair, Rec(key, value));
      hide ToUnsigned;
      ListInsert(index, pair);
      assert Shape(chains) == Shape(old(chains))[index := [pair] + Shape(old(chains))[index]];
      contents := contents[pair := Rec(key, value)];
      assert contents.Keys == old(contents.Keys) + {pair};
    }

    /** The new-pair branch of map__set. */
    method Add(key: Ptr, value: Ptr, h: int) returns (pair: Pair)
      requires Valid() && cfg.isKey(key) && h == cfg.hash(key) && !HasMatch(cfg.eq, contents, key)
      modifies this, buckets, entries
      ensures Valid() && fresh(pair) && contents == old(contents)[pair := Rec(key, value)]
      ensures log == old(log) && inserted == old(inserted) + 1 && peak == Max(old(peak), count) && moved >= old(moved)
      ensures buckets == old(buckets) || fresh(buckets)
      ensures fresh(entries - old(entries))
    {
      hide Core, MovedUpTo, HasMatch, Pow2, ToUnsigned;
      pair := new Pair(key, value, ToUnsigned(h));
      MakeRoom();
      FileNew(pair, key, value, h);
      CountNew();
    }

    method CountNew()
      requires count < 3 * buckets.Length - 1 && count <= peak <= inserted && buckets.Length >= MIN_BUCKETS
      requires buckets.Length == MIN_BUCKETS * Pow2(doublings) && moved <= 3 * (buckets.Length - MIN_BUCKETS)
      requires buckets.Length > MIN_BUCKETS ==> 2 * peak >= 3 * buckets.Length || 2 * (count + 1) >= 3 * buckets.Length
      modifies this`count, this`inserted, this`peak
      ensures Growth() && count == old(count) + 1 && inserted == old(inserted) + 1 && peak == Max(old(peak), count)
    {
      count := count + 1;
      inserted, peak := inserted + 1, Max(peak, count);
    }

    method Set(key: Ptr, value: Ptr) returns (pair: Pair)
      requires Valid() && cfg.isKey(key)
      modifies this, buckets, entries, contents.Keys
      ensures Valid() && SetStep(cfg, old(Abs()), Abs(), key, value, pair)
      ensures pair in old(contents) || fresh(pair)
      ensures inserted == old(inserted) + (if pair in old(contents) then 0 else 1)
      ensures peak == Max(old(peak), count) && moved >= old(moved)
      ensures buckets == old(buckets) || fresh(buckets)
      ensures fresh(entries - old(entries))
    {
      hide Heap, Placed, Records, EqFree, HashRespectsEq, HasMatch;
      var h := cfg.hash(key);
      var entry, i, j, p := FindWithHash(key, h);
      if entry.Some? {
        pair := ItemAt(entry.value, i, j, p);
        Replace(pair, key, value);
        assert |contents| == |contents.Keys|;
      } else {
        pair := Add(key, value, h);
      }
    }

    /** release_and_free_pair */
    method ReleasePair(pair: Pair)
      modifies this`log
      ensures log == Release(cfg, old(log), [Rec(pair.key, pair.value)])
    {
      if cfg.releasesKeys { log := log.(keys := log.keys + [pair.key]); }
      if cfg.releasesValues { log := log.(values := log.values + [pair.value]); }
    }

    lemma CoreHeap()
      requires Core()
      ensures Heap()
    {
    }

    method Unlink(link: Link, ghost i: nat, ghost j: nat, ghost p: Pair)
      requires Core() && Designates(link, i, j, p) && p in contents
      modifies buckets, entries, this`chains, this`contents
      ensures Core() && contents == old(contents) - {p}
    {
      hide Heap, Placed, EqFree, HashRespectsEq;
      ghost var was := Shape(chains);
      ShapeLengths();
      RemovalKeepsPlacement(was, contents.Keys, i, j);
      ItemsRemoveAt(chains[i], j);
      EqFreeRemove(cfg, contents, p);
      ListRemoveFirst(link, i, j);
      assert Shape(chains) == was[i := RemoveAt(was[i], j)];
      contents := contents - {p};
      assert contents.Keys == old(contents.Keys) - {p};
    }

    method CountGone()
      requires Growth() && count > 0
      modifies this`count
      ensures Growth() && count == old(count) - 1
    {
      count := count - 1;
    }

    /** The rest of map__unset once the entry is found. */
    method Drop(link: Link, ghost i: nat, ghost j: nat, ghost p: Pair)
      requires Valid() && Designates(link, i, j, p) && p in contents && contents[p] == Rec(p.key, p.value)
      modifies buckets, entries, this`chains, this`contents, this`log, this`count
      ensures Valid()
      ensures Abs() == View(old(contents) - {p}, Release(cfg, old(log), [old(contents)[p]]))
    {
      hide Core, Heap, Growth, Release, Designates, Pow2;
      CoreHeap();
      ghost var rest := contents - {p};
      CardinalityOfRemoval(contents, p);
      var pair := ItemAt(link, i, j, p);
      ReleasePair(pair);
      Unlink(link, i, j, p);
      assert contents == rest && count == |rest| + 1;
      CountGone();
    }

    method Unset(key: Ptr)
      requires Valid() && cfg.isKey(key)
      modifies buckets, entries, this`chains, this`contents, this`log, this`count
      ensures Valid() && UnsetStep(cfg, old(Abs()), Abs(), key)
    {
      assert Core();
      ghost var was := Abs();
      hide Valid, Core, Heap, UnsetStep, HasMatch, Designates, Release, Matches;
      var entry, i, j, p := FindWithHash(key, cfg.hash(key));
      if entry.None? {
        UnsetNothing(cfg, was, key);
      } else {
        assert p in was.contents by { MatchIsIn(p, key); }
        UnsetFound(cfg, was, key, p);
        Drop(entry.value, i, j, p);
      }
    }

    lemma RecordOf(p: Pair)
      requires Records() && p in contents
      ensures contents[p] == Rec(p.key, p.value)
    {
    }

    /** Take the first entry of a chain off its bucket. */
    method AdvanceHead(i: nat)
      requires Heap() && i < |chains| && chains[i] != []
      modifies buckets, this`chains
      ensures Heap() && chains == old(chains)[i := old(chains)[i][1..]]
      ensures buckets[i] == At(chains[i], 0)
    {
      ghost var c := chains[i];
      assert Linked(buckets[i], c);
      buckets[i] := buckets[i].next;
      chains := chains[i := c[1..]];
      assert Linked(buckets[i], c[1..]);
    }

    /** Release the first pair of a chain and free its entry. */
    method PopFront(i: nat)
      requires Heap() && Records() && i < |chains| && chains[i] != [] && chains[i][0].item in contents
      modifies buckets, this`chains, this`log
      ensures Heap() && Records() && chains == old(chains)[i := old(chains)[i][1..]]
      ensures buckets[i] == At(chains[i], 0)
      ensures log == Release(cfg, old(log), [contents[old(chains)[i][0].item]])
    {
      hide Heap, Records, Release;
      LinkStart(i);
      RecordOf(chains[i][0].item);
      ReleasePair(buckets[i].item);
      AdvanceHead(i);
    }

    /** list__delete_and_release on a bucket, as release_bucket calls it. */
    method ReleaseBucket(i: nat)
      requires Heap() && Records() && i < |chains| && forall p <- Items(chains[i]) :: p in contents
      modifies buckets, this`chains, this`log
      ensures Heap() && Records() && chains == old(chains)[i := []]
      ensures log == Release(cfg, old(log), RecsOf(Items(old(chains)[i]), contents))
    {
      LinkStart(i);
      ghost var was, rs, t := chains[i], RecsOf(Items(chains[i]), contents), 0;
      ReleaseConcat(cfg, log, [], []);
      hide Heap, Records, Release, RecsOf, Items;
      while buckets[i] != null
        invariant Heap() && Records() && t <= |was| && chains == old(chains)[i := was[t..]]
        invariant buckets.Length == |chains| && buckets[i] == At(chains[i], 0)
        invariant log == Release(cfg, old(log), rs[..t])
        decreases |was| - t
      {
        RecsNext(was, contents, t);
        ReleaseConcat(cfg, old(log), rs[..t], [contents[was[t].item]]);
        PopFront(i);
        t := t + 1;
      }
      assert rs[..t] == rs;
    }

    /** The releases of map__clear and of map__delete: buckets in order, each list from its head. */
    method ReleaseBuckets(ghost was: seq<seq<Pair>>)
      requires Heap() && Records() && Shape(chains) == was && forall i :: 0 <= i < |was| ==> forall p <- was[i] :: p in contents
      modifies buckets, this`chains, this`log
      ensures Heap() && |chains| == |was| && forall i :: 0 <= i < |was| ==> chains[i] == []
      ensures log == Release(cfg, old(log), RecsOf(Flat(was), contents))
    {
      ShapeLengths();
      assert was[..0] == [];
      ReleaseConcat(cfg, log, [], []);
      hide Heap, Records, Release, RecsOf, Flat;
      assert RecsOf(Flat(was[..0]), contents) == [] by { FlatEmpty(contents); }
      for index := 0 to buckets.Length
        invariant Heap() && Records() && |chains| == |was| == buckets.Length
        invariant forall i :: index <= i < |was| ==> Items(chains[i]) == was[i]
        invariant forall i :: 0 <= i < index ==> chains[i] == []
        invariant log == Release(cfg, old(log), RecsOf(Flat(was[..index]), contents))
      {
        ReleaseStep(cfg, old(log), was, index, contents);
        ReleaseBucket(index);
      }
      assert was[..|was|] == was;
    }

    /** The order of a release, and of an iteration: each pair of the map exactly once. */
    lemma FlatOrder()
      requires Core()
      ensures var order := Flat(Shape(chains)); NoDup(order) && Elems(order) == contents.Keys
    {
      ShapeLengths();
      FlatVisitsEachOnce(Shape(chains), contents.Keys);
    }

    lemma CoreMembers()
      requires Core()
      ensures Heap() && Records() && HashRespectsEq(cfg)
      ensures forall i :: 0 <= i < |Shape(chains)| ==> forall p <- Shape(chains)[i] :: p in contents
    {
      ShapeLengths();
      PlacedMembers(Shape(chains), contents.Keys);
    }

    lemma KeysAreOk()
      requires Core()
      ensures EqFree(cfg, contents) && HashRespectsEq(cfg)
    {
    }

    lemma EmptyCore()
      requires Heap() && contents == map[] && HashRespectsEq(cfg)
      requires forall i :: 0 <= i < |chains| ==> chains[i] == []
      ensures Core()
    {
      ShapeLengths();
      EmptyPlaced(Shape(chains));
      EmptyEqFree(cfg);
    }

    method ReleaseAll()
      requires Core()
      modifies buckets, this`chains, this`contents, this`log
      ensures Core() && contents == map[]
      ensures log == Release(cfg, old(log), RecsOf(Flat(old(Shape(chains))), old(contents)))
    {
      hide Core, Heap, Records, HashRespectsEq, Release, Flat, RecsOf;
      CoreMembers();
      ReleaseBuckets(Shape(chains));
      contents := map[];
      EmptyCore();
    }

    method Clear() returns (ghost order: seq<Pair>)
      requires Valid()
      modifies buckets, this`chains, this`contents, this`log, this`count
      ensures Valid() && ClearStep(cfg, old(Abs()), Abs(), order)
    {
      hide Core, Release, Flat, NoDup, Elems, Pow2, RecsOf, Shape;
      FlatOrder();
      order := Flat(Shape(chains));
      ReleaseAll();
      count := 0;
    }

    /** map__delete: the releases of a clear; the bucket cells are freed. */
    method Delete() returns (ghost order: seq<Pair>)
      requires Valid()
      modifies buckets, this`chains, this`contents, this`log, this`count, this`buckets
      ensures ClearStep(cfg, old(Abs()), Abs(), order) && buckets.Length == 0
    {
      order := Clear();
      hide ClearStep;
      buckets := new Entry?[0];
    }

    // ----- Iteration -----

    /** The cursor (i, p) of map__for stands before the v-th pair of the iteration order, at entry j of
        bucket i, or at the end of that bucket. */
    ghost predicate Stands(i: int, p: Entry?, v: nat, j: nat)
      reads this`chains
    {
      if i == -1 then p == null && v == 0
      else 0 <= i < |chains| && j <= |chains[i]| && p == At(chains[i], j) && v == |Flat(Shape(chains)[..i])| + j
    }

    lemma StandsAtNextBucket(i: int, v: nat, j: nat)
      requires Heap() && Stands(i, null, v, j) && -1 <= i < |chains| - 1
      ensures Stands(i + 1, buckets[i + 1], v, 0)
    {
      LinkStart(i + 1);
      var shape := Shape(chains);
      if i >= 0 { assert shape[..i + 1][..i] == shape[..i] && |shape[i]| == |chains[i]|; }
    }

    lemma StandsAtItem(i: int, p: Entry, v: nat, j: nat)
      requires Heap() && Stands(i, p, v, j)
      ensures v < |Flat(Shape(chains))| && Flat(Shape(chains))[v] == p.item && Stands(i, p.next, v + 1, j + 1)
    {
      FlatSplit(Shape(chains), i);
      LinkStep(i, j);
      assert Shape(chains)[i][j] == p.item;
    }

    lemma StandsAtEnd(i: int, v: nat, j: nat)
      requires Heap() && Stands(i, null, v, j) && i == |chains| - 1
      ensures v == |Flat(Shape(chains))|
    {
      FlatSplit(Shape(chains), i);
    }

    /** map__next: the next pair and the cursor past it, or NULL with the cursor marked as finished. */
    method Advance(i: int, p: Entry?, ghost v: nat, ghost j: nat)
      returns (item: Pair?, i': int, p': Entry?, done: bool, ghost j': nat)
      requires Heap() && -1 <= i < |chains| && Stands(i, p, v, j)
      ensures var order := Flat(Shape(chains));
              && v <= |order| && done == (v == |order|) && done == (item == null) && -1 <= i' < |chains|
              && (!done ==> item == order[v] && Stands(i', p', v + 1, j'))
    {
      var index, entry := i, p;
      j' := j;
      HeapLengths();
      hide Heap, Stands, Flat, Shape;
      while entry == null && index < buckets.Length - 1
        invariant -1 <= index < |chains| && Stands(index, entry, v, j')
        decreases buckets.Length - index
      {
        StandsAtNextBucket(index, v, j');
        index := index + 1;
        entry, j' := buckets[index], 0;
      }
      if entry == null && index == buckets.Length - 1 {
        StandsAtEnd(index, v, j');
        return null, index, null, true, j';
      }
      StandsAtItem(index, entry, v, j');
      return entry.item, index, entry.next, false, j' + 1;
    }

    /** A map__for loop over an unmodified map. */
    method ForEach() returns (visited: seq<Pair>)
      requires Valid()
      ensures NoDup(visited) && Elems(visited) == contents.Keys
    {
      hide Core, Heap, Stands, Flat, Shape, NoDup, Elems, Pow2;
      StandsAtStart();
      FlatOrder();
      ghost var order := Flat(Shape(chains));
      visited := [];
      var item, i, p, done, j := Advance(-1, null, 0, 0);
      while item != null
        invariant |visited| <= |order| && visited == order[..|visited|]
        invariant done == (|visited| == |order|) && done == (item == null)
        invariant -1 <= i < |chains| && (!done ==> item == order[|visited|] && Stands(i, p, |visited| + 1, j))
        decreases |order| - |visited|
      {
        visited := visited + [item];
        item, i, p, done, j := Advance(i, p, |visited|, j);
      }
      assert order[..|order|] == order;
    }

    lemma StandsAtStart()
      requires Core()
      ensures Heap() && |chains| > 0 && Stands(-1, null, 0, 0)
    {
    }
  }
}
