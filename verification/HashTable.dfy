/** Bucket tables as values: what `double_size` does to the chains of pairs, bucket by bucket.

    Nothing here reads the heap.  A pair's bucket depends only on its `home`, the unsigned form of its
    key's hash, which never changes while the pair is in a map: replacing a key stores one that is eq,
    and eq keys hash alike. */
module HashTable {
  import opened Common

  const MIN_BUCKETS: nat := 16
  const UNSIGNED_RANGE: nat := 0x1_0000_0000

  /** The value of `(unsigned int)h` for a C int h. */
  function ToUnsigned(h: int): (u: nat)
    ensures u < UNSIGNED_RANGE
    ensures 0 <= h < UNSIGNED_RANGE ==> u == h
  {
    h % UNSIGNED_RANGE
  }

  /** A key-value pair, allocated when its key is first set and freed when the key leaves the map. */
  class Pair {
    var key: Ptr
    var value: Ptr
    ghost const home: nat

    constructor (key: Ptr, value: Ptr, ghost home: nat)
      ensures this.key == key && this.value == value && this.home == home
    {
      this.key, this.value, this.home := key, value, home;
    }
  }

  /** Chain i of an n-bucket table holds pairs of `pairs` that belong in bucket i, none twice. */
  ghost predicate ChainOk(chain: seq<Pair>, n: nat, i: nat, pairs: set<Pair>)
    requires n > 0
  {
    NoDup(chain) && forall p <- chain :: p in pairs && Slot(p.home, n) == i
  }

  /** Every pair of `pairs` lies in its bucket of the table, once, and nothing else does. */
  ghost predicate Placed(table: seq<seq<Pair>>, pairs: set<Pair>)
    requires |table| > 0
  {
    && (forall i :: 0 <= i < |table| ==> ChainOk(table[i], |table|, i, pairs))
    && (forall p <- pairs :: p in table[Slot(p.home, |table|)])
  }

  /** The pairs of a chain that stay in bucket i of an n-bucket table, in order. */
  ghost function Stay(chain: seq<Pair>, n: nat, i: nat): seq<Pair>
    requires n > 0
  {
    if chain == [] then []
    else
      var last := chain[|chain| - 1];
      Stay(chain[..|chain| - 1], n, i) + (if Slot(last.home, n) == i then [last] else [])
  }

  /** The pairs of a chain that leave bucket i; each is pushed on the front of its new bucket. */
  ghost function Move(chain: seq<Pair>, n: nat, i: nat): seq<Pair>
    requires n > 0
  {
    if chain == [] then []
    else
      var last := chain[|chain| - 1];
      (if Slot(last.home, n) == i then [] else [last]) + Move(chain[..|chain| - 1], n, i)
  }

  /** The table that `double_size` leaves: bucket i of m is split between buckets i and i + m. */
  ghost function Doubled(table: seq<seq<Pair>>): (r: seq<seq<Pair>>)
    requires |table| > 0
  {
    var m := |table|;
    seq(2 * m, i requires 0 <= i < 2 * m => if i < m then Stay(table[i], 2 * m, i) else Move(table[i - m], 2 * m, i - m))
  }

  /** The bucket of a hash in an n-bucket table, the remainder of h by n (SlotIsRemainder). */
  function Slot(h: nat, n: nat): (i: nat)
    requires n > 0
    ensures i < n
  {
    if h < n then h else Slot(h - n, n)
  }

  lemma {:induction false} SlotIsRemainder(h: nat, n: nat)
    requires n > 0
    ensures Slot(h, n) == h % n
  {
    if h >= n {
      SlotIsRemainder(h - n, n);
      RemainderIs(h, n, (h - n) / n + 1, (h - n) % n);
    }
  }

  lemma RemainderIs(h: nat, n: nat, q: nat, r: nat)
    requires n > 0 && r < n && h == q * n + r
    ensures h % n == r
  {
    var d: int := h / n - q;
    assert d * n == r - h % n;
    assert d >= 1 ==> d * n >= n;
    assert d <= -1 ==> d * n + n <= 0;
  }

  /** Doubling the modulus either keeps a remainder or raises it by the old modulus. */
  lemma {:induction false} SlotDoubles(h: nat, m: nat)
    requires m > 0
    ensures Slot(h, 2 * m) == Slot(h, m) || Slot(h, 2 * m) == Slot(h, m) + m
  {
    if h >= 2 * m {
      SlotDoubles(h - 2 * m, m);
    }
  }

  /** A split chain keeps its pairs, each on the side its home says. */
  lemma {:induction false} SplitKeepsAll(chain: seq<Pair>, n: nat, i: nat)
    requires n > 0
    ensures forall p <- chain :: p in (if Slot(p.home, n) == i then Stay(chain, n, i) else Move(chain, n, i))
    ensures forall p <- Stay(chain, n, i) :: p in chain && Slot(p.home, n) == i
    ensures forall p <- Move(chain, n, i) :: p in chain && Slot(p.home, n) != i
    ensures |Stay(chain, n, i)| + |Move(chain, n, i)| == |chain|
    ensures NoDup(chain) ==> NoDup(Stay(chain, n, i)) && NoDup(Move(chain, n, i))
  {
    if chain != [] {
      var init := chain[..|chain| - 1];
      SplitKeepsAll(init, n, i);
      assert chain == init + [chain[|chain| - 1]];
      if NoDup(chain) {
        assert NoDup(init);
        assert chain[|chain| - 1] !in init;
      }
    }
  }

  /** Filing a new pair at the front of its bucket. */
  lemma InsertionKeepsPlacement(table: seq<seq<Pair>>, pairs: set<Pair>, p: Pair)
    requires |table| > 0 && Placed(table, pairs) && p !in pairs
    ensures var i := Slot(p.home, |table|); Placed(table[i := [p] + table[i]], pairs + {p})
  {
    var i := Slot(p.home, |table|);
    var now := table[i := [p] + table[i]];
    forall k | 0 <= k < |now| ensures ChainOk(now[k], |now|, k, pairs + {p}) {
      assert ChainOk(table[k], |table|, k, pairs);
    }
    forall q <- pairs + {p} ensures q in now[Slot(q.home, |now|)] {
      assert q in pairs ==> q in table[Slot(q.home, |table|)];
    }
  }

  /** Taking one pair out of its bucket. */
  lemma RemovalKeepsPlacement(table: seq<seq<Pair>>, pairs: set<Pair>, i: nat, j: nat)
    requires |table| > 0 && Placed(table, pairs) && i < |table| && j < |table[i]|
    ensures Placed(table[i := RemoveAt(table[i], j)], pairs - {table[i][j]})
  {
    var p, now := table[i][j], table[i := RemoveAt(table[i], j)];
    assert ChainOk(table[i], |table|, i, pairs);
    RemoveAtKeepsRest(table[i], j);
    forall k | 0 <= k < |now| ensures ChainOk(now[k], |now|, k, pairs - {p}) {
      assert ChainOk(table[k], |table|, k, pairs);
    }
    forall q <- pairs - {p} ensures q in now[Slot(q.home, |now|)] {
      assert q in table[Slot(q.home, |table|)];
    }
  }

  lemma SplitIsOk(chain: seq<Pair>, m: nat, i: nat, pairs: set<Pair>)
    requires m > 0 && i < m && ChainOk(chain, m, i, pairs)
    ensures ChainOk(Stay(chain, 2 * m, i), 2 * m, i, pairs)
    ensures ChainOk(Move(chain, 2 * m, i), 2 * m, i + m, pairs)
  {
    SplitKeepsAll(chain, 2 * m, i);
    forall p <- Move(chain, 2 * m, i) ensures Slot(p.home, 2 * m) == i + m {
      SlotDoubles(p.home, m);
    }
  }

  /** Doubling re-files every pair under the doubled modulus: none lost, none duplicated. */
  lemma DoublingKeepsPlacement(table: seq<seq<Pair>>, pairs: set<Pair>)
    requires |table| > 0 && Placed(table, pairs)
    ensures Placed(Doubled(table), pairs)
  {
    var m := |table|;
    var r := Doubled(table);
    forall i | 0 <= i < 2 * m ensures ChainOk(r[i], 2 * m, i, pairs) {
      var b := if i < m then i else i - m;
      SplitIsOk(table[b], m, b, pairs);
    }
    forall p <- pairs ensures p in r[Slot(p.home, 2 * m)] {
      var b := Slot(p.home, m);
      SlotDoubles(p.home, m);
      assert p in table[b];
      SplitKeepsAll(table[b], 2 * m, b);
    }
  }

  /** All the chains, bucket 0 first: the order in which `map__for` visits the pairs. */
  ghost function Flat(table: seq<seq<Pair>>): (r: seq<Pair>)
  {
    if table == [] then [] else Flat(table[..|table| - 1]) + table[|table| - 1]
  }

  lemma {:induction false} FlatElements(table: seq<seq<Pair>>, n: nat, pairs: set<Pair>)
    requires n > 0 && |table| <= n
    requires forall i :: 0 <= i < |table| ==> ChainOk(table[i], n, i, pairs)
    ensures NoDup(Flat(table))
    ensures forall p <- Flat(table) :: p in pairs && Slot(p.home, n) < |table|
    ensures forall i :: 0 <= i < |table| ==> forall p <- table[i] :: p in Flat(table)
  {
    if table != [] {
      var k := |table| - 1;
      FlatElements(table[..k], n, pairs);
      forall p <- table[k] ensures p !in Flat(table[..k]) {
        assert ChainOk(table[k], n, k, pairs);
      }
      NoDupConcat(Flat(table[..k]), table[k]);
    }
  }

  /** The bucket-by-bucket order visits every pair of the map exactly once. */
  lemma FlatVisitsEachOnce(table: seq<seq<Pair>>, pairs: set<Pair>)
    requires |table| > 0 && Placed(table, pairs)
    ensures NoDup(Flat(table)) && Elems(Flat(table)) == pairs
  {
    FlatElements(table, |table|, pairs);
    forall p <- pairs ensures p in Flat(table) {
      assert p in table[Slot(p.home, |table|)];
    }
  }
}
