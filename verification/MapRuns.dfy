/** What any run of a map's operations comes to: the map behaves as a finite map from eq classes of keys,
    and every pointer handed over is released exactly once.

    A run is a list of operations, each with the pair it used or the order it released pairs in, and the
    abstract states between them; the method Run performs any list of commands on a map and shows that this
    is such a run. */
module MapRuns {
  import opened Common
  import opened HashTable
  import opened HashMap

  datatype Op =
    | SetOp(key: Ptr, value: Ptr, pair: Pair)
    | GetOp(key: Ptr, answer: Option<Rec>)
    | UnsetOp(key: Ptr)
    | ClearOp(order: seq<Pair>)

  ghost predicate Step(cfg: Config, v: View, op: Op, v': View) {
    match op
    case SetOp(key, value, pair) => cfg.isKey(key) && SetStep(cfg, v, v', key, value, pair)
    case GetOp(key, answer) => cfg.isKey(key) && v' == v && Answers(cfg, v.contents, key, answer)
    case UnsetOp(key) => cfg.isKey(key) && UnsetStep(cfg, v, v', key)
    case ClearOp(order) => ClearStep(cfg, v, v', order)
  }

  const NEW_MAP: View := View(map[], Log([], []))

  ghost predicate IsRun(cfg: Config, ops: seq<Op>, states: seq<View>) {
    && |states| == |ops| + 1 && states[0] == NEW_MAP
    && forall i :: 0 <= i < |ops| ==> Step(cfg, states[i], ops[i], states[i + 1])
  }

  // ----- Lookups -----

  /** The reference: the record that the last set of an eq key stored, unless an unset of an eq key or a
      clear came after it. */
  ghost function Latest(cfg: Config, ops: seq<Op>, needle: Ptr): Option<Rec> {
    if ops == [] then None
    else
      match ops[|ops| - 1]
      case SetOp(key, value, _) => if cfg.eq(key, needle) then Some(Rec(key, value)) else Latest(cfg, ops[..|ops| - 1], needle)
      case GetOp(_, _) => Latest(cfg, ops[..|ops| - 1], needle)
      case UnsetOp(key) => if cfg.eq(key, needle) then None else Latest(cfg, ops[..|ops| - 1], needle)
      case ClearOp(_) => None
  }

  /** What a lookup in contents c may answer for a needle. */
  ghost predicate Answers(cfg: Config, c: map<Pair, Rec>, needle: Ptr, answer: Option<Rec>) {
    match answer
    case None => !HasMatch(cfg.eq, c, needle)
    case Some(r) => HasMatch(cfg.eq, c, needle) && forall p :: p in c && Matches(cfg.eq, c, p, needle) ==> c[p] == r
  }

  lemma RunPrefix(cfg: Config, ops: seq<Op>, states: seq<View>)
    requires IsRun(cfg, ops, states) && ops != []
    ensures IsRun(cfg, ops[..|ops| - 1], states[..|states| - 1])
    ensures Step(cfg, states[|ops| - 1], ops[|ops| - 1], states[|ops|])
  {
  }

  lemma SameClass(cfg: Config, a: Ptr, b: Ptr, x: Ptr)
    requires HashRespectsEq(cfg) && cfg.isKey(a) && cfg.isKey(b) && cfg.isKey(x) && cfg.eq(a, b)
    ensures cfg.eq(a, x) <==> cfg.eq(b, x)
    ensures cfg.eq(x, a) <==> cfg.eq(x, b)
    ensures cfg.eq(a, x) <==> cfg.eq(x, a)
  {
  }

  lemma StepKeepsKeys(cfg: Config, v: View, op: Op, v': View)
    requires HashRespectsEq(cfg) && EqFree(cfg, v.contents) && Step(cfg, v, op, v')
    ensures EqFree(cfg, v'.contents)
  {
    match op
    case SetOp(key, value, pair) =>
      if pair in v.contents {
        EqFreeReplace(cfg, v.contents, pair, Rec(key, value));
      } else {
        EqFreeAdd(cfg, v.contents, pair, Rec(key, value));
      }
    case GetOp(_, _) =>
    case UnsetOp(_) =>
    case ClearOp(_) =>
  }

  /** In every state of a run the keys are the client's, and no two are eq. */
  lemma {:induction false} RunKeepsKeys(cfg: Config, ops: seq<Op>, states: seq<View>, i: nat)
    requires HashRespectsEq(cfg) && IsRun(cfg, ops, states) && i <= |ops|
    ensures EqFree(cfg, states[i].contents)
  {
    if i > 0 {
      RunKeepsKeys(cfg, ops, states, i - 1);
      assert Step(cfg, states[i - 1], ops[i - 1], states[i]);
      hide Step, EqFree, HashRespectsEq;
      StepKeepsKeys(cfg, states[i - 1], ops[i - 1], states[i]);
    }
  }

  lemma SetAnswers(cfg: Config, v: View, v': View, key: Ptr, value: Ptr, pair: Pair, needle: Ptr, was: Option<Rec>)
    requires HashRespectsEq(cfg) && EqFree(cfg, v.contents) && cfg.isKey(key) && cfg.isKey(needle)
    requires SetStep(cfg, v, v', key, value, pair) && Answers(cfg, v.contents, needle, was)
    ensures EqFree(cfg, v'.contents)
    ensures Answers(cfg, v'.contents, needle, if cfg.eq(key, needle) then Some(Rec(key, value)) else was)
  {
    var c, c' := v.contents, v'.contents;
    if pair in c {
      EqFreeReplace(cfg, c, pair, Rec(key, value));
      SameClass(cfg, c[pair].key, key, needle);
    } else {
      EqFreeAdd(cfg, c, pair, Rec(key, value));
    }
    if cfg.eq(key, needle) {
      assert Matches(cfg.eq, c', pair, needle);
      forall p | p in c' && p != pair ensures !cfg.eq(c'[p].key, needle) {
        SameClass(cfg, key, needle, c'[p].key);
      }
    } else if was.Some? {
      var p: Pair :| p in c && Matches(cfg.eq, c, p, needle);
      assert p in c' && Matches(cfg.eq, c', p, needle);
    }
  }

  lemma UnsetAnswers(cfg: Config, v: View, v': View, key: Ptr, needle: Ptr, was: Option<Rec>)
    requires HashRespectsEq(cfg) && EqFree(cfg, v.contents) && cfg.isKey(key) && cfg.isKey(needle)
    requires UnsetStep(cfg, v, v', key) && Answers(cfg, v.contents, needle, was)
    ensures EqFree(cfg, v'.contents)
    ensures Answers(cfg, v'.contents, needle, if cfg.eq(key, needle) then None else was)
  {
    var c, c' := v.contents, v'.contents;
    if HasMatch(cfg.eq, c, key) {
      var p: Pair :| p in c && Matches(cfg.eq, c, p, key) && c' == c - {p};
      SameClass(cfg, c[p].key, key, needle);
      forall q: Pair | q in c' && cfg.eq(key, needle) ensures !cfg.eq(c'[q].key, needle) {
        SameClass(cfg, c[p].key, needle, c[q].key);
      }
      if !cfg.eq(key, needle) && was.Some? {
        var q: Pair :| q in c && Matches(cfg.eq, c, q, needle);
        assert q in c' && Matches(cfg.eq, c', q, needle);
      }
    } else {
      forall q: Pair | q in c && cfg.eq(key, needle) ensures !cfg.eq(c[q].key, needle) {
        SameClass(cfg, key, needle, c[q].key);
        assert !Matches(cfg.eq, c, q, key);
      }
    }
  }

  /** After any run, a lookup answers what the last relevant operation says. */
  lemma {:induction false} LookupsAgree(cfg: Config, ops: seq<Op>, states: seq<View>, needle: Ptr)
    requires HashRespectsEq(cfg) && IsRun(cfg, ops, states) && cfg.isKey(needle)
    ensures EqFree(cfg, states[|ops|].contents)
    ensures Answers(cfg, states[|ops|].contents, needle, Latest(cfg, ops, needle))
  {
    if ops != [] {
      var n := |ops| - 1;
      RunPrefix(cfg, ops, states);
      LookupsAgree(cfg, ops[..n], states[..n + 1], needle);
      match ops[n]
      case SetOp(key, value, pair) =>
        SetAnswers(cfg, states[n], states[n + 1], key, value, pair, needle, Latest(cfg, ops[..n], needle));
      case GetOp(_, _) =>
      case UnsetOp(key) =>
        UnsetAnswers(cfg, states[n], states[n + 1], key, needle, Latest(cfg, ops[..n], needle));
      case ClearOp(order) =>
    }
  }

  lemma AnswerIsUnique(cfg: Config, c: map<Pair, Rec>, needle: Ptr, a: Option<Rec>, b: Option<Rec>)
    requires Answers(cfg, c, needle, a) && Answers(cfg, c, needle, b)
    ensures a == b
  {
  }

  /** Every get of a run answers what the last relevant operation before it says. */
  lemma GetsAgree(cfg: Config, ops: seq<Op>, states: seq<View>, i: nat)
    requires HashRespectsEq(cfg) && IsRun(cfg, ops, states) && i < |ops| && ops[i].GetOp?
    ensures ops[i].answer == Latest(cfg, ops[..i], ops[i].key)
  {
    assert Step(cfg, states[i], ops[i], states[i + 1]);
    assert IsRun(cfg, ops[..i], states[..i + 1]);
    hide Step, Latest;
    LookupsAgree(cfg, ops[..i], states[..i + 1], ops[i].key);
    AnswerIsUnique(cfg, states[i].contents, ops[i].key, ops[i].answer, Latest(cfg, ops[..i], ops[i].key));
  }

  /** A pair object stays the map's own pair, under an eq key, through every set and every resize, until an
      unset of an eq key or a clear. */
  lemma {:induction false} PairStays(cfg: Config, ops: seq<Op>, states: seq<View>, i: nat, j: nat, p: Pair)
    requires HashRespectsEq(cfg) && IsRun(cfg, ops, states) && i <= j <= |ops|
    requires p in states[i].contents
    requires forall k :: i <= k < j ==> !ops[k].ClearOp?
    requires forall k :: i <= k < j && ops[k].UnsetOp? ==> !cfg.eq(states[i].contents[p].key, ops[k].key)
    ensures p in states[j].contents && cfg.eq(states[i].contents[p].key, states[j].contents[p].key)
    decreases j - i
  {
    RunKeepsKeys(cfg, ops, states, i);
    if i < j {
      PairStays(cfg, ops, states, i, j - 1, p);
      RunKeepsKeys(cfg, ops, states, j - 1);
      var first, was := states[i].contents[p].key, states[j - 1].contents[p].key;
      assert Step(cfg, states[j - 1], ops[j - 1], states[j]);
      match ops[j - 1]
      case SetOp(key, _, pair) =>
        if pair == p { SameClass(cfg, was, key, first); SameClass(cfg, first, was, first); }
      case GetOp(_, _) =>
      case UnsetOp(key) => SameClass(cfg, first, was, key);
      case ClearOp(_) =>
    }
  }

  // ----- Releases -----

  /** Which pointer each pair holds, as its key or as its value. */
  ghost function Held(c: map<Pair, Rec>, keys: bool): (h: map<Pair, Ptr>)
    ensures h.Keys == c.Keys
  {
    map p | p in c :: PartOf(c[p], keys)
  }

  ghost predicate Holds(held: map<Pair, Ptr>, x: Ptr) {
    exists p :: p in held && held[p] == x
  }

  /** Every pointer given is either held, by one pair, or was released once; no other pointer was released. */
  ghost predicate Once(held: map<Pair, Ptr>, log: seq<Ptr>, given: set<Ptr>) {
    && (forall p :: p in held ==> held[p] in given)
    && (forall p, q :: p in held && q in held && held[p] == held[q] ==> p == q)
    && (forall x :: multiset(log)[x] == if x in given && !Holds(held, x) then 1 else 0)
  }

  lemma OnceAdd(held: map<Pair, Ptr>, log: seq<Ptr>, given: set<Ptr>, p: Pair, x: Ptr)
    requires Once(held, log, given) && p !in held && x !in given
    ensures Once(held[p := x], log, given + {x})
  {
    var held' := held[p := x];
    forall y ensures Holds(held', y) <==> Holds(held, y) || y == x {
      if Holds(held, y) { var q: Pair :| q in held && held[q] == y; assert held'[q] == y; }
      if y == x { assert held'[p] == y; }
    }
  }

  lemma OnceRemove(held: map<Pair, Ptr>, log: seq<Ptr>, given: set<Ptr>, p: Pair)
    requires Once(held, log, given) && p in held
    ensures Once(held - {p}, log + [held[p]], given)
  {
    var held' := held - {p};
    forall y ensures Holds(held', y) <==> Holds(held, y) && y != held[p] {
      if Holds(held, y) && y != held[p] { var q: Pair :| q in held && held[q] == y; assert q in held' && held'[q] == y; }
    }
    assert Holds(held, held[p]);
    forall x ensures multiset(log + [held[p]])[x] == if x in given && !Holds(held', x) then 1 else 0 {
      assert multiset(log + [held[p]]) == multiset(log) + multiset{held[p]};
    }
  }

  lemma OnceReplace(held: map<Pair, Ptr>, log: seq<Ptr>, given: set<Ptr>, p: Pair, x: Ptr)
    requires Once(held, log, given) && p in held && (x == held[p] || x !in given)
    ensures Once(held[p := x], log + (if held[p] != x then [held[p]] else []), given + {x})
  {
    if x == held[p] {
      assert held[p := x] == held && given + {x} == given && log + [] == log;
    } else {
      OnceRemove(held, log, given, p);
      OnceAdd(held - {p}, log + [held[p]], given, p, x);
      assert (held - {p})[p := x] == held[p := x];
    }
  }

  ghost function HeldBy(order: seq<Pair>, held: map<Pair, Ptr>): seq<Ptr> {
    if order == [] then []
    else [if order[0] in held then held[order[0]] else 0] + HeldBy(order[1..], held - {order[0]})
  }

  lemma {:induction false} HeldByAt(order: seq<Pair>, held: map<Pair, Ptr>)
    requires NoDup(order)
    ensures |HeldBy(order, held)| == |order|
    ensures forall i :: 0 <= i < |order| ==> HeldBy(order, held)[i] == if order[i] in held then held[order[i]] else 0
  {
    if order != [] {
      var rest := order[1..];
      HeldByAt(rest, held - {order[0]});
      forall i | 1 <= i < |order|
        ensures HeldBy(order, held)[i] == if order[i] in held then held[order[i]] else 0
      {
        assert rest[i - 1] == order[i];
      }
    }
  }

  lemma OrderTail(order: seq<Pair>, pairs: set<Pair>)
    requires order != [] && NoDup(order) && Elems(order) == pairs
    ensures order[0] in pairs && NoDup(order[1..]) && Elems(order[1..]) == pairs - {order[0]}
  {
    assert order == [order[0]] + order[1..];
    assert order[0] in Elems(order) && order[0] !in order[1..];
    forall q ensures q in Elems(order[1..]) <==> q in pairs - {order[0]} {
      assert q in Elems(order) <==> q == order[0] || q in order[1..];
    }
  }

  lemma {:induction false} OnceClear(held: map<Pair, Ptr>, log: seq<Ptr>, given: set<Ptr>, order: seq<Pair>)
    requires Once(held, log, given) && NoDup(order) && Elems(order) == held.Keys
    ensures Once(map[], log + HeldBy(order, held), given)
  {
    if order == [] {
      assert held.Keys == {} && held == map[] && log + [] == log;
    } else {
      hide Once;
      OrderTail(order, held.Keys);
      OnceRemove(held, log, given, order[0]);
      OnceClear(held - {order[0]}, log + [held[order[0]]], given, order[1..]);
      assert log + HeldBy(order, held) == (log + [held[order[0]]]) + HeldBy(order[1..], held - {order[0]});
    }
  }

  /** The pointers handed over as keys, or as values, by the first k operations. */
  ghost function Given(ops: seq<Op>, keys: bool): set<Ptr> {
    set op <- ops | op.SetOp? :: PartOf(Rec(op.key, op.value), keys)
  }

  /** The caller's discipline: each set hands over a pointer never handed over before, or stores again the
      one its pair already holds. */
  ghost predicate FreshPointers(cfg: Config, ops: seq<Op>, states: seq<View>, keys: bool)
    requires |states| == |ops| + 1
  {
    forall i :: 0 <= i < |ops| && ops[i].SetOp? ==>
                  var x := PartOf(Rec(ops[i].key, ops[i].value), keys);
                  var held := Held(states[i].contents, keys);
                  x !in Given(ops[..i], keys) || (ops[i].pair in held && held[ops[i].pair] == x)
  }

  ghost function LogOf(v: View, keys: bool): seq<Ptr> {
    if keys then v.log.keys else v.log.values
  }

  function PartOf(r: Rec, keys: bool): Ptr {
    if keys then r.key else r.value
  }

  lemma SetKeepsOnce(cfg: Config, v: View, v': View, key: Ptr, value: Ptr, pair: Pair, keys: bool, given: set<Ptr>)
    requires SetStep(cfg, v, v', key, value, pair) && Once(Held(v.contents, keys), LogOf(v, keys), given)
    requires if keys then cfg.releasesKeys else cfg.releasesValues
    requires var held, x := Held(v.contents, keys), PartOf(Rec(key, value), keys);
             x !in given || (pair in held && held[pair] == x)
    ensures Once(Held(v'.contents, keys), LogOf(v', keys), given + {PartOf(Rec(key, value), keys)})
  {
    var held, x := Held(v.contents, keys), PartOf(Rec(key, value), keys);
    assert Held(v'.contents, keys) == held[pair := x];
    hide Once, HasMatch;
    if pair in held {
      OnceReplace(held, LogOf(v, keys), given, pair, x);
    } else {
      OnceAdd(held, LogOf(v, keys), given, pair, x);
    }
  }

  lemma UnsetKeepsOnce(cfg: Config, v: View, v': View, key: Ptr, keys: bool, given: set<Ptr>)
    requires UnsetStep(cfg, v, v', key) && Once(Held(v.contents, keys), LogOf(v, keys), given)
    requires if keys then cfg.releasesKeys else cfg.releasesValues
    ensures Once(Held(v'.contents, keys), LogOf(v', keys), given)
  {
    hide Once;
    if HasMatch(cfg.eq, v.contents, key) {
      var p: Pair :| p in v.contents && Matches(cfg.eq, v.contents, p, key)
                     && v' == View(v.contents - {p}, Release(cfg, v.log, [v.contents[p]]));
      assert Held(v'.contents, keys) == Held(v.contents, keys) - {p};
      assert KeysOf([v.contents[p]]) == [v.contents[p].key] && ValuesOf([v.contents[p]]) == [v.contents[p].value];
      OnceRemove(Held(v.contents, keys), LogOf(v, keys), given, p);
    }
  }

  lemma ClearKeepsOnce(cfg: Config, v: View, v': View, order: seq<Pair>, keys: bool, given: set<Ptr>)
    requires ClearStep(cfg, v, v', order) && Once(Held(v.contents, keys), LogOf(v, keys), given)
    requires if keys then cfg.releasesKeys else cfg.releasesValues
    ensures Once(Held(v'.contents, keys), LogOf(v', keys), given)
  {
    hide Once;
    var held := Held(v.contents, keys);
    OnceClear(held, LogOf(v, keys), given, order);
    assert Held(v'.contents, keys) == map[];
    HeldByAt(order, held);
    var rs := RecsOf(order, v.contents);
    forall i | 0 <= i < |order| ensures order[i] in held { assert order[i] in Elems(order); }
    assert (if keys then KeysOf(rs) else ValuesOf(rs)) == HeldBy(order, held);
  }

  lemma StepKeepsOnce(cfg: Config, v: View, op: Op, v': View, keys: bool, given: set<Ptr>)
    requires Step(cfg, v, op, v') && Once(Held(v.contents, keys), LogOf(v, keys), given)
    requires if keys then cfg.releasesKeys else cfg.releasesValues
    requires op.SetOp? ==>
               var held, x := Held(v.contents, keys), PartOf(Rec(op.key, op.value), keys);
               x !in given || (op.pair in held && held[op.pair] == x)
    ensures Once(Held(v'.contents, keys), LogOf(v', keys),
                 if op.SetOp? then given + {PartOf(Rec(op.key, op.value), keys)} else given)
  {
    hide Once, SetStep, UnsetStep, ClearStep, Answers;
    match op
    case SetOp(key, value, pair) => SetKeepsOnce(cfg, v, v', key, value, pair, keys, given);
    case GetOp(_, _) =>
    case UnsetOp(key) => UnsetKeepsOnce(cfg, v, v', key, keys, given);
    case ClearOp(order) => ClearKeepsOnce(cfg, v, v', order, keys, given);
  }

  lemma GivenSnoc(ops: seq<Op>, keys: bool)
    requires ops != []
    ensures var n, op := |ops| - 1, ops[|ops| - 1];
            Given(ops, keys) == if op.SetOp? then Given(ops[..n], keys) + {PartOf(Rec(op.key, op.value), keys)}
            else Given(ops[..n], keys)
  {
    assert ops == ops[..|ops| - 1] + [ops[|ops| - 1]];
  }

  lemma FreshPrefix(cfg: Config, ops: seq<Op>, states: seq<View>, keys: bool)
    requires ops != [] && |states| == |ops| + 1 && FreshPointers(cfg, ops, states, keys)
    ensures FreshPointers(cfg, ops[..|ops| - 1], states[..|ops|], keys)
  {
    var n := |ops| - 1;
    forall i | 0 <= i < n && ops[..n][i].SetOp?
      ensures var x := PartOf(Rec(ops[..n][i].key, ops[..n][i].value), keys);
              var held := Held(states[..n + 1][i].contents, keys);
              x !in Given(ops[..n][..i], keys) || (ops[..n][i].pair in held && held[ops[..n][i].pair] == x)
    {
      assert ops[..n][..i] == ops[..i] && ops[..n][i] == ops[i] && states[..n + 1][i] == states[i];
    }
  }

  /** After any run that hands over fresh pointers, every pointer handed over is still held by one pair and
      was never released, or is held by none and was released exactly once. */
  lemma {:induction false} ReleasedExactlyOnce(cfg: Config, ops: seq<Op>, states: seq<View>, keys: bool)
    requires IsRun(cfg, ops, states) && FreshPointers(cfg, ops, states, keys)
    requires if keys then cfg.releasesKeys else cfg.releasesValues
    ensures Once(Held(states[|ops|].contents, keys), LogOf(states[|ops|], keys), Given(ops, keys))
  {
    if ops == [] {
      assert Held(NEW_MAP.contents, keys) == map[];
    } else {
      hide Once, Step, Holds, Given;
      var n := |ops| - 1;
      RunPrefix(cfg, ops, states);
      FreshPrefix(cfg, ops, states, keys);
      ReleasedExactlyOnce(cfg, ops[..n], states[..n + 1], keys);
      GivenSnoc(ops, keys);
      StepKeepsOnce(cfg, states[n], ops[n], states[n + 1], keys, Given(ops[..n], keys));
    }
  }

  // ----- Runs of the program -----

  datatype Command = Set(key: Ptr, value: Ptr) | Get(key: Ptr) | Unset(key: Ptr) | Clear

  /** The command names a key of the client. */
  predicate IsCommand(cfg: Config, c: Command) {
    !c.Clear? ==> cfg.isKey(c.key)
  }

  /** The operation is what performing the command came to. */
  ghost predicate Performs(op: Op, c: Command) {
    match c
    case Set(key, value) => op.SetOp? && op.key == key && op.value == value
    case Get(key) => op.GetOp? && op.key == key
    case Unset(key) => op == UnsetOp(key)
    case Clear => op.ClearOp?
  }

  lemma MatchAnswers(cfg: Config, c: map<Pair, Rec>, key: Ptr, pair: Pair)
    requires HashRespectsEq(cfg) && EqFree(cfg, c) && cfg.isKey(key) && Matches(cfg.eq, c, pair, key)
    ensures Answers(cfg, c, key, Some(c[pair]))
  {
    forall p | p in c && Matches(cfg.eq, c, p, key) ensures p == pair {
      SameClass(cfg, c[p].key, key, c[pair].key);
    }
  }

  method Lookup(m: Map, key: Ptr) returns (answer: Option<Rec>)
    requires m.Valid() && m.cfg.isKey(key)
    ensures Answers(m.cfg, m.contents, key, answer)
  {
    m.KeysAreOk();
    hide Map.Core, EqFree, HashRespectsEq;
    var pair := m.Get(key);
    if pair == null { return None; }
    answer := Some(Rec(pair.key, pair.value));
    MatchAnswers(m.cfg, m.contents, key, pair);
  }

  /** One command; the answer is that of a get. */
  method Perform(m: Map, c: Command) returns (answer: Option<Rec>, ghost op: Op)
    requires m.Valid() && IsCommand(m.cfg, c)
    modifies m, m.buckets, m.entries, m.contents.Keys
    ensures m.Valid() && Performs(op, c) && Step(m.cfg, old(m.Abs()), op, m.Abs())
    ensures c.Get? ==> op.GetOp? && op.answer == answer
    ensures (m.buckets == old(m.buckets) || fresh(m.buckets)) && fresh(m.entries - old(m.entries))
    ensures fresh(m.contents.Keys - old(m.contents.Keys))
  {
    hide SetStep, UnsetStep, Answers, Map.Valid;
    answer := None;
    match c
    case Set(key, value) =>
      var pair := m.Set(key, value);
      op := SetOp(key, value, pair);
      SetKeys(m.cfg, old(m.Abs()), m.Abs(), key, value, pair);
    case Get(key) =>
      answer := Lookup(m, key);
      op := GetOp(key, answer);
    case Unset(key) =>
      m.Unset(key);
      op := UnsetOp(key);
      UnsetKeys(m.cfg, old(m.Abs()), m.Abs(), key);
    case Clear =>
      ghost var order := m.Clear();
      op := ClearOp(order);
  }

  lemma SetKeys(cfg: Config, v: View, v': View, key: Ptr, value: Ptr, pair: Pair)
    requires SetStep(cfg, v, v', key, value, pair)
    ensures v'.contents.Keys == v.contents.Keys + {pair}
  {
  }

  lemma UnsetKeys(cfg: Config, v: View, v': View, key: Ptr)
    requires UnsetStep(cfg, v, v', key)
    ensures v'.contents.Keys <= v.contents.Keys
  {
  }

  /** Any commands on a new map: together they are a run, the map is valid at the end, and each get has
      answered what the last relevant command before it says. */
  method Run(cfg: Config, commands: seq<Command>)
    returns (m: Map, answers: seq<Option<Rec>>, ghost ops: seq<Op>, ghost states: seq<View>)
    requires HashRespectsEq(cfg) && forall c <- commands :: IsCommand(cfg, c)
    ensures fresh(m) && fresh(m.buckets) && m.Valid() && m.cfg == cfg
    ensures IsRun(cfg, ops, states) && |states| == |ops| + 1 && m.Abs() == states[|ops|]
    ensures |ops| == |commands| && forall i :: 0 <= i < |ops| ==> Performs(ops[i], commands[i])
    ensures |answers| == |commands|
    ensures forall i :: 0 <= i < |ops| && commands[i].Get? ==> answers[i] == Latest(cfg, ops[..i], commands[i].key)
  {
    hide *;
    m := new Map(cfg);
    answers, ops, states := [], [], [m.Abs()];
    StartsSoFar(cfg, commands, m.Abs());
    for i := 0 to |commands|
      invariant fresh(m) && fresh(m.buckets) && fresh(m.entries) && fresh(m.contents.Keys)
      invariant m.Valid() && m.cfg == cfg
      invariant SoFar(cfg, commands, i, answers, ops, states) && |states| == i + 1 && m.Abs() == states[i]
    {
      answers, ops, states := Take(m, commands, i, answers, ops, states);
    }
    AllGetsAgree(cfg, commands, ops, states, answers);
  }

  /** The first i commands have been a run. */
  ghost predicate SoFar(cfg: Config, commands: seq<Command>, i: nat, answers: seq<Option<Rec>>, ops: seq<Op>, states: seq<View>) {
    && i <= |commands| && |answers| == |ops| == i && IsRun(cfg, ops, states)
    && (forall k :: 0 <= k < i ==> Performs(ops[k], commands[k]))
    && (forall k :: 0 <= k < i && commands[k].Get? ==> ops[k].GetOp? && answers[k] == ops[k].answer)
  }

  lemma StartsSoFar(cfg: Config, commands: seq<Command>, v: View)
    requires v == View(map[], Log([], []))
    ensures SoFar(cfg, commands, 0, [], [], [v])
  {
  }

  lemma SoFarAlso(cfg: Config, commands: seq<Command>, i: nat, answers: seq<Option<Rec>>, ops: seq<Op>, states: seq<View>,
                  answer: Option<Rec>, op: Op, v: View)
    requires SoFar(cfg, commands, i, answers, ops, states) && |states| == i + 1 && i < |commands|
    requires Performs(op, commands[i]) && Step(cfg, states[i], op, v)
    requires commands[i].Get? ==> op.GetOp? && op.answer == answer
    ensures SoFar(cfg, commands, i + 1, answers + [answer], ops + [op], states + [v])
  {
    hide Performs, Step;
    RunGrows(cfg, ops, states, op, v);
  }

  /** The next command of a run. */
  method Take(m: Map, commands: seq<Command>, i: nat, answers: seq<Option<Rec>>, ghost ops: seq<Op>, ghost states: seq<View>)
    returns (answers': seq<Option<Rec>>, ghost ops': seq<Op>, ghost states': seq<View>)
    requires m.Valid() && i < |commands| && forall c <- commands :: IsCommand(m.cfg, c)
    requires SoFar(m.cfg, commands, i, answers, ops, states) && |states| == i + 1 && states[i] == m.Abs()
    modifies m, m.buckets, m.entries, m.contents.Keys
    ensures m.Valid() && (m.buckets == old(m.buckets) || fresh(m.buckets)) && fresh(m.entries - old(m.entries))
    ensures fresh(m.contents.Keys - old(m.contents.Keys))
    ensures SoFar(m.cfg, commands, i + 1, answers', ops', states') && |states'| == i + 2 && m.Abs() == states'[i + 1]
  {
    hide *;
    var answer;
    ghost var op;
    assert commands[i] in commands;
    answer, op := Perform(m, commands[i]);
    SoFarAlso(m.cfg, commands, i, answers, ops, states, answer, op, m.Abs());
    answers', ops', states' := answers + [answer], ops + [op], states + [m.Abs()];
  }

  lemma RunGrows(cfg: Config, ops: seq<Op>, states: seq<View>, op: Op, v: View)
    requires IsRun(cfg, ops, states) && Step(cfg, states[|ops|], op, v)
    ensures IsRun(cfg, ops + [op], states + [v])
  {
    hide Step;
  }

  lemma AllGetsAgree(cfg: Config, commands: seq<Command>, ops: seq<Op>, states: seq<View>, answers: seq<Option<Rec>>)
    requires HashRespectsEq(cfg) && SoFar(cfg, commands, |commands|, answers, ops, states)
    ensures IsRun(cfg, ops, states) && |ops| == |commands| == |answers|
    ensures forall i :: 0 <= i < |ops| ==> Performs(ops[i], commands[i])
    ensures forall i :: 0 <= i < |ops| && commands[i].Get? ==> answers[i] == Latest(cfg, ops[..i], commands[i].key)
  {
    forall i | 0 <= i < |ops| && commands[i].Get?
      ensures answers[i] == Latest(cfg, ops[..i], commands[i].key)
    {
      assert Performs(ops[i], commands[i]);
      hide IsRun, Latest, HashRespectsEq;
      GetsAgree(cfg, ops, states, i);
    }
  }

  /** A map from its creation to its end: the commands, and then map__delete. */
  method Lifetime(cfg: Config, commands: seq<Command>)
    returns (ghost ops: seq<Op>, ghost states: seq<View>, released: Log)
    requires HashRespectsEq(cfg) && forall c <- commands :: IsCommand(cfg, c)
    ensures IsRun(cfg, ops, states) && |ops| == |commands| + 1 && |states| == |ops| + 1
    ensures ops[|commands|].ClearOp? && states[|ops|].log == released
    ensures forall i :: 0 <= i < |commands| ==> Performs(ops[i], commands[i])
  {
    hide *;
    var m, answers;
    m, answers, ops, states := Run(cfg, commands);
    ghost var v := m.Abs();
    ghost var order := m.Delete();
    released := LogNow(m);
    ClearIsStep(cfg, v, order, m.Abs());
    RunGrows(cfg, ops, states, ClearOp(order), m.Abs());
    ops, states := ops + [ClearOp(order)], states + [m.Abs()];
  }

  lemma ClearIsStep(cfg: Config, v: View, order: seq<Pair>, v': View)
    requires ClearStep(cfg, v, v', order)
    ensures Step(cfg, v, ClearOp(order), v')
  {
  }

  method LogNow(m: Map) returns (log: Log)
    ensures log == m.Abs().log
  {
    log := m.log;
  }

  /** Over the whole life of a map that is given fresh pointers, every pointer given is released exactly once,
      and no other pointer is. */
  lemma AllReleasedOnce(cfg: Config, ops: seq<Op>, states: seq<View>, keys: bool)
    requires IsRun(cfg, ops, states) && FreshPointers(cfg, ops, states, keys)
    requires if keys then cfg.releasesKeys else cfg.releasesValues
    requires ops != [] && ops[|ops| - 1].ClearOp?
    ensures forall x :: multiset(LogOf(states[|ops|], keys))[x] == if x in Given(ops, keys) then 1 else 0
  {
    ReleasedExactlyOnce(cfg, ops, states, keys);
    assert Step(cfg, states[|ops| - 1], ops[|ops| - 1], states[|ops|]);
    assert Held(states[|ops|].contents, keys) == map[];
  }

  // ----- Growth -----

  /** The bounds that every valid map meets: 16 * 2^k buckets, a load below 3, buckets beyond the first 16
      only after a count of at least 3/2 of them, and at most two moves per inserted pair. */
  lemma GrowthBounds(m: Map)
    requires m.Valid()
    ensures m.buckets.Length == MIN_BUCKETS * Pow2(m.doublings) && m.count < 3 * m.buckets.Length
    ensures m.buckets.Length > MIN_BUCKETS ==> 2 * m.peak >= 3 * m.buckets.Length
    ensures m.moved <= 2 * m.inserted
  {
  }
}
