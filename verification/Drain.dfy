/** Removal by swapping with the last item, as array__remove_and_fill does it, and the draining of a list of
    indices that were recorded before any of the swaps. */
module Drain {
  import opened Common

  /** array__remove_and_fill on the live items.  The index of a removal that comes too late may lie past the
      live items: the last item is then copied to dead memory, and the count drops all the same. */
  function RemoveAndFill<T>(s: seq<T>, i: nat): (r: seq<T>)
    requires s != []
    ensures |r| == |s| - 1
  {
    var last := |s| - 1;
    if i < last then s[..last][i := s[last]] else s[..last]
  }

  /** Removing at each recorded index in turn. */
  function DrainAll<T>(s: seq<T>, rs: seq<nat>): (r: seq<T>)
    requires |rs| <= |s|
    ensures |r| == |s| - |rs|
    decreases |rs|
  {
    if rs == [] then s else DrainAll(RemoveAndFill(s, rs[0]), rs[1..])
  }

  /** Where the item at position p of n ends up, told from the recorded indices alone; -1 if it is dropped.
      The removal that finds position p last in the array moves its item to the index removed then, unless
      that index is not below p. */
  function Lands(n: nat, rs: seq<nat>, p: nat): int
    requires |rs| <= n && p < n
  {
    if p < n - |rs| then p
    else
      var q := rs[n - 1 - p];
      if q < p then Lands(n, rs, q) else -1
  }

  /** Every item that is not to be removed lands somewhere. */
  ghost predicate OrderOk(n: nat, rs: seq<nat>)
    requires |rs| <= n
  {
    forall p: nat :: p < n && p !in rs ==> Lands(n, rs, p) >= 0
  }

  ghost predicate Indices(n: nat, rs: seq<nat>) {
    |rs| <= n && NoDup(rs) && forall j :: 0 <= j < |rs| ==> rs[j] < n
  }

  /** The drain removes the marked items and no others. */
  ghost predicate RemovesMarked<T>(s: seq<T>, rs: seq<nat>)
    requires |rs| <= |s|
  {
    forall p: nat :: p < |s| ==> (s[p] in DrainAll(s, rs) <==> p !in rs)
  }

  lemma RemoveAndFillKeeps<T>(s: seq<T>, i: nat)
    requires s != [] && NoDup(s)
    ensures NoDup(RemoveAndFill(s, i)) && forall x <- RemoveAndFill(s, i) :: x in s
    ensures i < |s| ==> s[i] !in RemoveAndFill(s, i)
    ensures i >= |s| ==> s[|s| - 1] !in RemoveAndFill(s, i)
  {
  }

  /** Lands only looks at the indices removed while the array was longer than p. */
  lemma {:induction false} LandsLater(n: nat, rs: seq<nat>, p: nat)
    requires 0 < |rs| <= n && p < n - 1
    ensures Lands(n, rs, p) == Lands(n - 1, rs[1..], p)
  {
    if p >= n - |rs| {
      var q := rs[n - 1 - p];
      if q < p { LandsLater(n, rs, q); }
    }
  }

  lemma {:induction false} DrainKeeps<T>(s: seq<T>, rs: seq<nat>)
    requires |rs| <= |s| && NoDup(s)
    ensures NoDup(DrainAll(s, rs)) && forall x <- DrainAll(s, rs) :: x in s
    decreases |rs|
  {
    if rs != [] {
      RemoveAndFillKeeps(s, rs[0]);
      DrainKeeps(RemoveAndFill(s, rs[0]), rs[1..]);
    }
  }

  /** What Lands says of the item at position p is so. */
  ghost predicate FateOk<T>(s: seq<T>, rs: seq<nat>, p: nat)
    requires |rs| <= |s| && p < |s|
  {
    var q := Lands(|s|, rs, p);
    q < |s| - |rs| && if q >= 0 then DrainAll(s, rs)[q] == s[p] else s[p] !in DrainAll(s, rs)
  }

  /** Lands tells the fate of every unmarked item. */
  lemma LandsIsFate<T>(s: seq<T>, rs: seq<nat>, p: nat)
    requires NoDup(s) && |rs| <= |s| && NoDup(rs) && p < |s| && p !in rs
    ensures Lands(|s|, rs, p) < |s| - |rs|
    ensures var q := Lands(|s|, rs, p);
            if q >= 0 then DrainAll(s, rs)[q] == s[p] else s[p] !in DrainAll(s, rs)
  {
    Fate(s, rs, p);
    hide Lands, DrainAll, NoDup;
  }

  lemma {:induction false} Fate<T>(s: seq<T>, rs: seq<nat>, p: nat)
    requires NoDup(s) && |rs| <= |s| && NoDup(rs) && p < |s| && p !in rs
    ensures FateOk(s, rs, p)
    decreases |rs|
  {
    hide NoDup, RemoveAndFill, FateOk, Lands, DrainAll;
    if rs == [] {
      NoneGoes(s, p);
    } else {
      var n, r, s1, rest := |s|, rs[0], RemoveAndFill(s, rs[0]), rs[1..];
      RemoveAndFillKeeps(s, r);
      RemoveAndFillMoves(s, r);
      NoDupTail(rs);
      var p1 := if p < n - 1 then p else r;
      if p1 < n - 1 {
        Fate(s1, rest, p1);
        LandsLater(n, rs, p1);
        SameFate(s, rs, p, p1);
      } else {
        LastGoes(s, rs);
      }
    }
  }

  lemma NoneGoes<T>(s: seq<T>, p: nat)
    requires p < |s|
    ensures FateOk(s, [], p)
  {
  }

  /** The last item goes first if nothing below it is removed first. */
  lemma LastGoes<T>(s: seq<T>, rs: seq<nat>)
    requires 0 < |rs| <= |s| && NoDup(s) && rs[0] >= |s| - 1 && s[|s| - 1] !in RemoveAndFill(s, rs[0])
    ensures FateOk(s, rs, |s| - 1)
  {
    var s1, rest := RemoveAndFill(s, rs[0]), rs[1..];
    assert Lands(|s|, rs, |s| - 1) == -1 && DrainAll(s, rs) == DrainAll(s1, rest);
    RemoveAndFillKeeps(s, rs[0]);
    hide Lands, DrainAll, RemoveAndFill, NoDup;
    DrainKeeps(s1, rest);
  }

  lemma SameFate<T>(s: seq<T>, rs: seq<nat>, p: nat, p1: nat)
    requires 0 < |rs| <= |s| && p < |s| && p1 < |s| - 1 && p1 == (if p < |s| - 1 then p else rs[0])
    requires RemoveAndFill(s, rs[0])[p1] == s[p] && FateOk(RemoveAndFill(s, rs[0]), rs[1..], p1)
    requires Lands(|s|, rs, p1) == Lands(|s| - 1, rs[1..], p1)
    ensures FateOk(s, rs, p)
  {
    assert DrainAll(s, rs) == DrainAll(RemoveAndFill(s, rs[0]), rs[1..]);
    assert Lands(|s|, rs, p) == Lands(|s| - 1, rs[1..], p1);
    hide Lands, DrainAll, RemoveAndFill;
  }

  lemma RemoveAndFillMoves<T>(s: seq<T>, i: nat)
    requires s != [] && NoDup(s)
    ensures var r, last := RemoveAndFill(s, i), |s| - 1;
            && (forall p :: 0 <= p < last && p != i ==> r[p] == s[p])
            && if i < last then r[i] == s[last] else s[last] !in r
  {
  }

  ghost function MarkedItems<T>(s: seq<T>, rs: seq<nat>): (m: seq<T>)
    requires forall j :: 0 <= j < |rs| ==> rs[j] < |s|
  {
    seq(|rs|, j requires 0 <= j < |rs| => s[rs[j]])
  }

  lemma MarkedSize<T>(s: seq<T>, rs: seq<nat>)
    requires NoDup(s) && Indices(|s|, rs)
    ensures var m := Elems(MarkedItems(s, rs)); m <= Elems(s) && |Elems(s) - m| == |s| - |rs|
    ensures forall p: nat :: p < |s| ==> (s[p] in Elems(MarkedItems(s, rs)) <==> p in rs)
  {
    var m := MarkedItems(s, rs);
    forall j, k | 0 <= j < k < |m| ensures m[j] != m[k] {
      assert rs[j] != rs[k];
    }
    LengthOfNoDup(s);
    LengthOfNoDup(m);
    forall x <- m ensures x in s {}
    assert Elems(m) <= Elems(s);
    forall p: nat | p < |s| ensures s[p] in m <==> p in rs {
      if p in rs {
        var j :| 0 <= j < |rs| && rs[j] == p;
        assert m[j] == s[p];
      }
    }
  }

  /** As many items remain as are unmarked, so if every unmarked one remains, no marked one does. */
  lemma UnmarkedAreAll<T>(s: seq<T>, rs: seq<nat>, d: seq<T>)
    requires NoDup(s) && Indices(|s|, rs) && |d| == |s| - |rs| && NoDup(d)
    requires forall p: nat :: p < |s| && p !in rs ==> s[p] in d
    ensures forall p: nat :: p < |s| && p in rs ==> s[p] !in d
  {
    var m := Elems(MarkedItems(s, rs));
    MarkedSize(s, rs);
    LengthOfNoDup(d);
    hide MarkedItems, NoDup, Indices;
    forall x <- Elems(s) - m ensures x in Elems(d) {
      var p :| 0 <= p < |s| && s[p] == x;
    }
    SubsetOfSameSize(Elems(s) - m, Elems(d));
    forall p: nat | p < |s| && p in rs ensures s[p] !in d {
      assert s[p] in m && s[p] !in Elems(d);
    }
  }

  lemma SubsetOfSameSize<T>(a: set<T>, b: set<T>)
    requires a <= b && |a| == |b|
    ensures a == b
  {
    assert |b - a| == |b| - |a|;
  }

  ghost function Below(n: nat): (b: set<nat>)
    ensures |b| == n && forall x: nat :: x in b <==> x < n
  {
    if n == 0 then {} else Below(n - 1) + {n - 1}
  }

  /** There cannot be more different indices than items. */
  lemma IndicesFit(n: nat, rs: seq<nat>)
    requires NoDup(rs) && forall j :: 0 <= j < |rs| ==> rs[j] < n
    ensures |rs| <= n && Indices(n, rs)
  {
    LengthOfNoDup(rs);
    assert Elems(rs) <= Below(n);
    assert |Below(n) - Elems(rs)| == |Below(n)| - |Elems(rs)|;
  }

  /** The drain removes exactly the marked items if and only if every unmarked item lands. */
  lemma DrainRemovesMarkedIff<T>(s: seq<T>, rs: seq<nat>)
    requires NoDup(s) && Indices(|s|, rs)
    ensures RemovesMarked(s, rs) <==> OrderOk(|s|, rs)
  {
    var d := DrainAll(s, rs);
    DrainKeeps(s, rs);
    forall p: nat | p < |s| && p !in rs
      ensures Lands(|s|, rs, p) >= 0 <==> s[p] in d
    {
      LandsIsFate(s, rs, p);
    }
    if OrderOk(|s|, rs) {
      UnmarkedAreAll(s, rs, d);
    }
  }

  /** A condition on each index by itself that is enough: the j-th removal (from 0) is at most n - 1 - j. */
  ghost predicate InRange(n: nat, rs: seq<nat>) {
    forall j :: 0 <= j < |rs| ==> rs[j] <= n - 1 - j
  }

  lemma InRangeIsOk(n: nat, rs: seq<nat>)
    requires Indices(n, rs) && InRange(n, rs)
    ensures OrderOk(n, rs)
  {
    forall p: nat | p < n && p !in rs ensures Lands(n, rs, p) >= 0 {
      InRangeLands(n, rs, p);
    }
  }

  lemma {:induction false} InRangeLands(n: nat, rs: seq<nat>, p: nat)
    requires Indices(n, rs) && InRange(n, rs) && p < n
    requires p >= n - |rs| ==> rs[n - 1 - p] != p
    ensures Lands(n, rs, p) >= 0
  {
    if p >= n - |rs| {
      var q := rs[n - 1 - p];
      assert q < p;
      InRangeLands(n, rs, q);
    }
  }

  /** Any strictly descending list will do, and so will any single removal. */
  lemma DescendingIsOk(n: nat, rs: seq<nat>)
    requires Indices(n, rs) && forall i, j :: 0 <= i < j < |rs| ==> rs[i] > rs[j]
    ensures OrderOk(n, rs)
  {
    forall j | 0 <= j < |rs| ensures rs[j] <= n - 1 - j { DescendingAt(n, rs, j); }
    InRangeIsOk(n, rs);
  }

  lemma {:induction false} DescendingAt(n: nat, rs: seq<nat>, j: nat)
    requires Indices(n, rs) && (forall i, k :: 0 <= i < k < |rs| ==> rs[i] > rs[k]) && j < |rs|
    ensures rs[j] <= n - 1 - j
  {
    if j > 0 { DescendingAt(n, rs, j - 1); } else { assert rs[0] in rs; }
  }

  ghost predicate Ascends(rs: seq<nat>) {
    forall i, j :: 0 <= i < j < |rs| ==> rs[i] < rs[j]
  }

  /** Removals of one polling pass are recorded in ascending order.  The drain is then right if and only if each
      unmarked item among the last |rs| is moved down to a slot below those. */
  lemma AscendingIff(n: nat, rs: seq<nat>)
    requires Indices(n, rs) && Ascends(rs)
    ensures OrderOk(n, rs) <==> forall p: nat :: n - |rs| <= p < n && p !in rs ==> rs[n - 1 - p] < n - |rs|
  {
    forall p: nat | n - |rs| <= p < n ensures Lands(n, rs, p) >= 0 <==> rs[n - 1 - p] < n - |rs| {
      AscendingLands(n, rs, p);
    }
  }

  lemma AscendingLands(n: nat, rs: seq<nat>, p: nat)
    requires Indices(n, rs) && Ascends(rs) && n - |rs| <= p < n
    ensures Lands(n, rs, p) >= 0 <==> rs[n - 1 - p] < n - |rs|
  {
    var q := rs[n - 1 - p];
    if n - |rs| <= q < p {
      assert rs[n - 1 - q] > q;
    }
  }

  /** Two conns that end in one pass are recorded in ascending order.  The drain is then right if and only
      if the second is not the last of the array, or the first is the one before it. */
  lemma AscendingPair(n: nat, a: nat, b: nat)
    requires a < b < n
    ensures OrderOk(n, [a, b]) <==> b < n - 1 || a == n - 2
  {
    var rs := [a, b];
    if b < n - 1 {
      InRangeIsOk(n, rs);
    } else if a == n - 2 {
      forall p: nat | p < n && p !in rs ensures Lands(n, rs, p) >= 0 {}
    } else {
      assert n - 2 !in rs && rs[n - 1 - (n - 2)] == b;
      assert Lands(n, rs, n - 2) == -1;
    }
  }

  /** Three conns, of which the first and the last end in the same pass: the drain drops the second, which is
      alive, and keeps the last, which is closed. */
  lemma FirstAndLastOfThree<T>(x: T, y: T, z: T)
    ensures DrainAll([x, y, z], [0, 2]) == [z]
  {
    assert RemoveAndFill([x, y, z], 0) == [z, y];
    assert RemoveAndFill([z, y], 2) == [z];
    assert [0, 2][1..] == [2];
    assert DrainAll([z, y], [2]) == [z];
  }
}
