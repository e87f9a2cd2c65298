/** The growable array of cstructs/array.c: a byte buffer that is moved about with memcpy, memmove, memset and
    realloc, proved to behave as a sequence of items of item_size bytes. */
module ByteArray {
  import opened Common

  /** The number of bytes of n items: n * size (TimesIsProduct). */
  function Times(n: nat, size: nat): nat {
    if n == 0 then 0 else Times(n - 1, size) + size
  }

  lemma {:induction false} TimesIsProduct(n: nat, size: nat)
    ensures Times(n, size) == n * size
  {
    if n > 0 {
      TimesIsProduct(n - 1, size);
      assert n * size == (n - 1) * size + size;
    }
  }

  lemma {:induction false} TimesAdds(a: nat, b: nat, size: nat)
    ensures Times(a + b, size) == Times(a, size) + Times(b, size)
  {
    if b > 0 { TimesAdds(a, b - 1, size); }
  }

  lemma Spliced(r: seq<byte>, b: seq<byte>, to: nat, mid: seq<byte>)
    requires |r| == |b| && to + |mid| <= |b|
    requires forall k :: 0 <= k < |b| ==> r[k] == if to <= k < to + |mid| then mid[k - to] else b[k]
    ensures r == b[..to] + mid + b[to + |mid|..]
  {
  }

  lemma SizesAround(n: nat, i: nat, size: nat)
    requires i < n
    ensures Times(i, size) == i * size && Times(n, size) == i * size + size + (n - 1 - i) * size
  {
    TimesIsProduct(i, size);
    TimesIsProduct(n - 1 - i, size);
    TimesAdds(i + 1, n - 1 - i, size);
  }

  /** All items have the array's item size. */
  ghost predicate Sized(c: seq<seq<byte>>, size: nat) {
    forall i :: 0 <= i < |c| ==> |c[i]| == size
  }

  /** The bytes of the items, one after the other. */
  ghost function Flatten(c: seq<seq<byte>>): seq<byte> {
    if c == [] then [] else Flatten(c[..|c| - 1]) + c[|c| - 1]
  }

  lemma {:induction false} FlattenConcat(a: seq<seq<byte>>, b: seq<seq<byte>>)
    ensures Flatten(a + b) == Flatten(a) + Flatten(b)
  {
    if b == [] {
      assert a + b == a;
    } else {
      FlattenConcat(a, b[..|b| - 1]);
      assert (a + b)[..|a + b| - 1] == a + b[..|b| - 1];
    }
  }

  lemma {:induction false} FlattenLength(c: seq<seq<byte>>, size: nat)
    requires Sized(c, size)
    ensures |Flatten(c)| == Times(|c|, size)
  {
    if c != [] { FlattenLength(c[..|c| - 1], size); }
  }

  /** Cutting the bytes at item i is cutting the items at i. */
  lemma FlattenCut(c: seq<seq<byte>>, size: nat, i: nat)
    requires Sized(c, size) && i <= |c|
    ensures |Flatten(c)| == Times(|c|, size) && Times(i, size) <= Times(|c|, size)
    ensures Flatten(c)[..Times(i, size)] == Flatten(c[..i]) && Flatten(c)[Times(i, size)..] == Flatten(c[i..])
  {
    assert c == c[..i] + c[i..];
    FlattenConcat(c[..i], c[i..]);
    FlattenLength(c, size);
    FlattenLength(c[..i], size);
    FlattenLength(c[i..], size);
  }

  lemma FlattenOne(item: seq<byte>)
    ensures Flatten([item]) == item
  {
    assert Flatten([item]) == Flatten([item][..0]) + item;
  }

  /** Replacing the bytes of one item by those of any number of items. */
  lemma FlattenSplice(c: seq<seq<byte>>, size: nat, i: nat, j: nat, mid: seq<seq<byte>>)
    requires Sized(c, size) && i <= j <= |c|
    ensures Times(i, size) <= Times(j, size) <= |Flatten(c)| == Times(|c|, size)
    ensures Flatten(c[..i] + mid + c[j..]) == Flatten(c)[..Times(i, size)] + Flatten(mid) + Flatten(c)[Times(j, size)..]
  {
    FlattenCut(c, size, i);
    FlattenCut(c, size, j);
    TimesAdds(i, j - i, size);
    FlattenConcat(c[..i] + mid, c[j..]);
    FlattenConcat(c[..i], mid);
  }

  lemma ItemBytes(c: seq<seq<byte>>, size: nat, i: nat)
    requires Sized(c, size) && i < |c|
    ensures Times(i, size) + size <= |Flatten(c)| && Flatten(c)[Times(i, size)..Times(i, size) + size] == c[i]
  {
    FlattenCut(c, size, i);
    FlattenCut(c, size, i + 1);
    assert c[..i + 1] == c[..i] + [c[i]];
    FlattenConcat(c[..i], [c[i]]);
    FlattenOne(c[i]);
    var f, at := Flatten(c), Times(i, size);
    assert f[..at + size] == f[..at] + c[i];
    assert f[at..at + size] == f[..at + size][at..];
  }

  ghost function Zeros(n: nat): seq<byte> {
    seq(n, _ => 0)
  }

  ghost function ZeroItems(n: nat, size: nat): (z: seq<seq<byte>>)
    ensures |z| == n && Sized(z, size)
  {
    seq(n, _ => Zeros(size))
  }

  lemma {:induction false} FlattenZeros(n: nat, size: nat)
    ensures Flatten(ZeroItems(n, size)) == Zeros(Times(n, size))
  {
    if n > 0 {
      FlattenZeros(n - 1, size);
      assert ZeroItems(n, size)[..n - 1] == ZeroItems(n - 1, size);
    }
  }

  lemma QuotientOfMultiple(i: nat, size: nat)
    requires size >= 1
    ensures (i * size) / size == i
  {
    var q: int := (i * size) / size;
    assert i * size == q * size + (i * size) % size;
    assert (i - q) * size == (i * size) % size;
    assert i - q >= 1 ==> (i - q) * size >= size;
    assert i - q <= -1 ==> (i - q) * size + size <= 0;
  }

  class Array {
    var items: array<byte>
    var count: nat
    var capacity: nat
    const itemSize: nat

    // Whether there is a releaser, and the items it has been called with, in order.
    const releases: bool
    var released: seq<seq<byte>>

    ghost var contents: seq<seq<byte>>

    // Growth accounting: the first capacity, the highest count, the items copied by reallocations.
    ghost const initial: nat
    ghost var peak: nat
    ghost var copied: nat

    ghost predicate Valid()
      reads this, items
    {
      && itemSize >= 1 && items.Length == Times(capacity, itemSize)
      && count == |contents| <= capacity && Sized(contents, itemSize)
      && Holds(Flatten(contents)) && Growth()
    }

    /** The buffer starts with the given bytes. */
    ghost predicate Holds(bytes: seq<byte>)
      reads this`items, items
    {
      |bytes| <= items.Length && items[..|bytes|] == bytes
    }

    /** Capacity stays within twice the highest count (or the first capacity), and all reallocations together
        copied no more items than the capacity has grown by. */
    ghost predicate Growth()
      reads this
    {
      && 1 <= initial <= capacity && count <= peak
      && (capacity == initial || capacity <= 2 * peak)
      && copied <= capacity - initial
    }

    constructor (capacity: int, itemSize: nat, releases: bool)
      requires itemSize >= 1
      ensures Valid() && contents == [] && fresh(items) && this.itemSize == itemSize && this.releases == releases && released == []
      ensures this.capacity == initial == (if capacity < 1 then 1 else capacity) && copied == 0 && peak == 0
    {
      var c: nat := if capacity < 1 then 1 else capacity;
      this.capacity, this.itemSize, count := c, itemSize, 0;
      this.releases, released := releases, [];
      TimesIsProduct(c, itemSize);
      items := new byte[c * itemSize](_ => 0);
      contents, initial, peak, copied := [], c, 0, 0;
    }

    // ----- The memory operations -----

    /** realloc of the buffer: the bytes held are copied, the rest is arbitrary. */
    method Realloc(newCapacity: nat)
      requires items.Length == Times(capacity, itemSize) && newCapacity >= capacity
      modifies this`items, this`capacity, this`copied
      ensures fresh(items) && items.Length == Times(newCapacity, itemSize) && capacity == newCapacity
      ensures old(items.Length) <= items.Length && items[..old(items.Length)] == old(items[..])
      ensures copied == old(copied) + old(capacity)
    {
      TimesIsProduct(newCapacity, itemSize);
      TimesAdds(capacity, newCapacity - capacity, itemSize);
      var bytes := new byte[newCapacity * itemSize](_ => 0);
      forall k | 0 <= k < items.Length { bytes[k] := items[k]; }
      copied := copied + capacity;
      items, capacity := bytes, newCapacity;
    }

    /** memcpy into the buffer. */
    method CopyIn(at: nat, data: seq<byte>)
      requires at + |data| <= items.Length
      modifies items
      ensures items[..] == old(items[..])[..at] + data + old(items[..])[at + |data|..]
    {
      forall k | 0 <= k < |data| { items[at + k] := data[k]; }
    }

    /** memmove within the buffer: the areas may overlap. */
    method MoveBytes(to: nat, from: nat, n: nat)
      requires to + n <= items.Length && from + n <= items.Length
      modifies items
      ensures items[..] == old(items[..])[..to] + old(items[..])[from..from + n] + old(items[..])[to + n..]
    {
      ghost var b := items[..];
      forall k | 0 <= k < n { items[to + k] := items[from + k]; }
      Spliced(items[..], b, to, b[from..from + n]);
    }

    // ----- Addresses -----

    /** array__item_ptr, as an offset into the buffer. */
    function ItemPtr(index: nat): nat
    {
      index * itemSize
    }

    /** array__index_of: from an item's address back to its index. */
    method IndexOf(offset: nat) returns (index: nat)
      requires itemSize >= 1
      ensures forall i: nat :: offset == ItemPtr(i) ==> index == i
    {
      index := offset / itemSize;
      forall i: nat | offset == ItemPtr(i) ensures index == i { QuotientOfMultiple(i, itemSize); }
    }

    /** The item at an index is the chunk of the buffer at its address. */
    lemma ItemAt(i: nat)
      requires Valid() && i < count
      ensures ItemPtr(i) + itemSize <= items.Length && items[ItemPtr(i)..ItemPtr(i) + itemSize] == contents[i]
    {
      TimesIsProduct(i, itemSize);
      ItemBytes(contents, itemSize, i);
      var n := |Flatten(contents)|;
      assert items[..n][ItemPtr(i)..ItemPtr(i) + itemSize] == items[ItemPtr(i)..ItemPtr(i) + itemSize];
    }

    // ----- Operations -----

    /** array__new_ptr: room for one more item, whose bytes the caller is to fill in. */
    method NewPtr() returns (offset: nat)
      requires Valid()
      modifies this`items, this`capacity, this`count, this`contents, this`peak, this`copied
      ensures Valid() && (items == old(items) || fresh(items)) && offset == ItemPtr(old(count))
      ensures |contents| == |old(contents)| + 1 && contents[..|old(contents)|] == old(contents)
      ensures peak == Max(old(peak), count)
    {
      ghost var was := contents;
      hide Flatten, Sized;
      if count == capacity {
        Realloc(2 * capacity);
        assert items[..|Flatten(was)|] == Flatten(was);
      }
      offset := ItemPtr(count);
      TimesIsProduct(count, itemSize);
      ghost var item := Extend(was);
      count, contents := count + 1, was + [item];
      peak := Max(peak, count);
    }

    /** The bytes after the items, as one more item. */
    lemma Extend(was: seq<seq<byte>>) returns (item: seq<byte>)
      requires Sized(was, itemSize) && Holds(Flatten(was)) && |was| < capacity && items.Length == Times(capacity, itemSize)
      ensures |item| == itemSize && Sized(was + [item], itemSize) && Holds(Flatten(was + [item]))
    {
      FlattenLength(was, itemSize);
      TimesAdds(|was| + 1, capacity - |was| - 1, itemSize);
      assert Times(|was| + 1, itemSize) == Times(|was|, itemSize) + itemSize;
      hide Flatten, Times;
      var at := Times(|was|, itemSize);
      assert at + itemSize <= items.Length;
      item := items[at..at + itemSize];
      FlattenConcat(was, [item]);
      FlattenOne(item);
      HoldsAlso(Flatten(was), item);
    }

    lemma HoldsAlso(bytes: seq<byte>, item: seq<byte>)
      requires Holds(bytes) && |bytes| + |item| <= items.Length && items[|bytes|..|bytes| + |item|] == item
      ensures Holds(bytes + item)
    {
      assert items[..|bytes| + |item|] == items[..|bytes|] + item;
    }

    /** Write one item's bytes over those at an index, as the callers of array__new_ptr do. */
    method WriteItem(i: nat, item: seq<byte>)
      requires Valid() && i < count && |item| == itemSize
      modifies items, this`contents
      ensures Valid() && contents == old(contents)[i := item]
    {
      TimesIsProduct(i, itemSize);
      ReplacedBytes(contents, itemSize, i, item);
      ghost var was, held := contents, Flatten(contents);
      hide Flatten, Sized;
      OverwriteItem(ItemPtr(i), item, held);
      contents := was[i := item];
    }

    method OverwriteItem(at: nat, item: seq<byte>, ghost held: seq<byte>)
      requires Holds(held) && at + |item| <= |held|
      modifies items
      ensures Holds(held[..at] + item + held[at + |item|..])
    {
      CopyIn(at, item);
    }

    /** array__add_item_ptr */
    method AddItemPtr(item: seq<byte>)
      requires Valid() && |item| == itemSize
      modifies this`items, this`capacity, this`count, this`contents, this`peak, this`copied, items
      ensures Valid() && (items == old(items) || fresh(items)) && contents == old(contents) + [item]
      ensures peak == Max(old(peak), count)
    {
      ghost var was := contents;
      hide Sized, Flatten, Array.Holds, Array.Growth;
      var offset := NewPtr();
      WriteItem(count - 1, item);
      assert contents == was + [item];
    }

    /** Capacity is at most twice the highest count so far, or the first capacity; a run that took the count up
        to n has copied fewer than 2n items. */
    lemma GrowthBounds()
      requires Valid()
      ensures count <= peak && count <= capacity <= Max(initial, 2 * peak)
      ensures copied == 0 || copied < 2 * peak
    {
    }

    /** array__append_array: the items of another array, one at a time. */
    method AppendArray(src: Array)
      requires Valid() && src.Valid() && src != this && src.items != items && src.itemSize == itemSize
      modifies this`items, this`capacity, this`count, this`contents, this`peak, this`copied, items
      ensures Valid() && (items == old(items) || fresh(items)) && contents == old(contents) + src.contents
      ensures peak == Max(old(peak), count)
    {
      GrowthBounds();
      hide Sized, Flatten, Array.Holds, Array.Growth;
      var i := 0;
      while i < src.count
        invariant Valid() && src.Valid() && i <= src.count && (items == old(items) || fresh(items)) && src.items != items
        invariant contents == old(contents) + src.contents[..i] && peak == Max(old(peak), count)
      {
        src.ItemAt(i);
        src.ItemSizeAt(i);
        AddItemPtr(src.items[src.ItemPtr(i)..src.ItemPtr(i) + src.itemSize]);
        assert src.contents[..i + 1] == src.contents[..i] + [src.contents[i]];
        i := i + 1;
      }
      assert src.contents[..i] == src.contents;
    }

    lemma ItemSizeAt(i: nat)
      requires Valid() && i < count
      ensures |contents[i]| == itemSize
    {
    }

    /** array__add_zeroed_items: double the capacity until there is room, then zero the new items. */
    method AddZeroedItems(n: nat)
      requires Valid()
      modifies this`items, this`capacity, this`count, this`contents, this`peak, this`copied, items
      ensures Valid() && (items == old(items) || fresh(items)) && contents == old(contents) + ZeroItems(n, itemSize)
      ensures peak == Max(old(peak), count)
    {
      hide Flatten, Sized;
      ghost var was := contents;
      var newCount := count + n;
      var newCapacity := capacity;
      while newCapacity < newCount
        invariant newCapacity == capacity || 2 * capacity <= newCapacity < 2 * newCount
        decreases newCount - newCapacity
      {
        newCapacity := newCapacity * 2;
      }
      if newCapacity != capacity {
        Realloc(newCapacity);
        assert items[..|Flatten(was)|] == Flatten(was);
      }
      ZerosFit(was, n);
      TimesIsProduct(count, itemSize);
      TimesIsProduct(n, itemSize);
      CopyIn(ItemPtr(count), seq(n * itemSize, _ => 0));
      assert items[..Times(newCount, itemSize)] == Flatten(was) + Zeros(Times(n, itemSize));
      count, contents := newCount, was + ZeroItems(n, itemSize);
      peak := Max(peak, count);
    }

    lemma ZerosFit(was: seq<seq<byte>>, n: nat)
      requires Sized(was, itemSize) && |was| + n <= capacity
      ensures Times(|was|, itemSize) + Times(n, itemSize) == Times(|was| + n, itemSize) <= Times(capacity, itemSize)
      ensures |Flatten(was)| == Times(|was|, itemSize) && Sized(was + ZeroItems(n, itemSize), itemSize)
      ensures Flatten(was + ZeroItems(n, itemSize)) == Flatten(was) + Zeros(Times(n, itemSize))
    {
      TimesAdds(|was|, n, itemSize);
      TimesAdds(|was| + n, capacity - |was| - n, itemSize);
      FlattenLength(was, itemSize);
      FlattenConcat(was, ZeroItems(n, itemSize));
      FlattenZeros(n, itemSize);
    }

    /** The call of the releaser, if there is one, with the item at an address. */
    method ReleaseItem(offset: nat, ghost at: nat)
      requires Valid() && at < count && offset == ItemPtr(at)
      modifies this`released
      ensures Valid() && released == old(released) + if releases then [contents[at]] else []
    {
      ItemAt(at);
      hide Flatten, Sized;
      if releases { released := released + [items[offset..offset + itemSize]]; }
    }

    /** array__clear_with_context: every item is released, in order. */
    method Clear()
      requires Valid()
      modifies this`count, this`contents, this`released
      ensures Valid() && contents == [] && released == old(released) + if releases then old(contents) else []
    {
      hide Array.Holds, Array.Growth, Flatten, Sized;
      for i := 0 to count
        invariant Valid() && contents == old(contents) && count == old(count)
        invariant released == old(released) + if releases then contents[..i] else []
      {
        ReleaseItem(ItemPtr(i), i);
        assert contents[..i + 1] == contents[..i] + [contents[i]];
      }
      assert contents[..count] == contents;
      Empty();
    }

    method Empty()
      requires Valid()
      modifies this`count, this`contents
      ensures Valid() && contents == []
    {
      count, contents := 0, [];
    }

    /** array__remove_item at the address of an item: the items behind it move down by one. */
    method RemoveItem(offset: nat, ghost at: nat)
      requires Valid() && at < count && offset == ItemPtr(at)
      modifies items, this`count, this`contents, this`released
      ensures Valid() && contents == old(contents)[..at] + old(contents)[at + 1..]
      ensures released == old(released) + if releases then [old(contents)[at]] else []
    {
      hide Array.Holds, Array.Growth, Sized;
      ReleaseItem(offset, at);
      var index := IndexOf(offset);
      MoveDown(offset, index);
    }

    /** The items behind an item move down over it. */
    method MoveDown(offset: nat, index: nat)
      requires Valid() && index < count && offset == ItemPtr(index)
      modifies items, this`count, this`contents
      ensures Valid() && contents == old(contents)[..index] + old(contents)[index + 1..]
    {
      ghost var was, bytes := contents, Flatten(contents);
      RemovedBytes(was, itemSize, index);
      hide Flatten, Sized;
      SizesAround(count, index, itemSize);
      hide Times;
      CloseGap(offset, (count - 1 - index) * itemSize, bytes);
      count, contents := count - 1, was[..index] + was[index + 1..];
    }

    /** The bytes behind the item at an offset move down over it; nothing moves if it is the last item. */
    method CloseGap(offset: nat, n: nat, ghost bytes: seq<byte>)
      requires Holds(bytes) && |bytes| == offset + itemSize + n
      modifies items
      ensures Holds(bytes[..offset] + bytes[offset + itemSize..])
    {
      if n == 0 { return; }
      ghost var b := items[..];
      MoveBytes(offset, offset + itemSize, n);
      assert b[offset + itemSize..offset + itemSize + n] == bytes[offset + itemSize..];
    }

    /** array__insert_items of items that do not lie in this array: prefix, new items, suffix. */
    method InsertItems(index: nat, bytes: seq<byte>, numItems: nat, ghost added: seq<seq<byte>>)
      requires Valid() && index <= count
      requires Sized(added, itemSize) && |added| == numItems && bytes == Flatten(added)
      modifies this`items, this`capacity, this`count, this`contents, this`peak, this`copied, items
      ensures Valid() && (items == old(items) || fresh(items))
      ensures contents == old(contents)[..index] + added + old(contents)[index..]
      ensures peak == Max(old(peak), count)
    {
      hide Flatten, Sized;
      ghost var was, held := contents, Flatten(contents);
      InsertedBytes(was, itemSize, index, added);
      var suffix := (count - index) * itemSize;
      TimesIsProduct(count - index, itemSize);
      TimesIsProduct(index, itemSize);
      TimesAdds(index, count - index, itemSize);
      AddZeroedItems(numItems);
      ZeroedHolds(was, numItems);
      OpenGap(ItemPtr(index), suffix, bytes, held);
      contents := was[..index] + added + was[index..];
    }

    lemma ZeroedHolds(was: seq<seq<byte>>, n: nat)
      requires Valid() && contents == was + ZeroItems(n, itemSize)
      ensures Holds(Flatten(was)) && |Flatten(was)| + Times(n, itemSize) <= items.Length
    {
      FlattenConcat(was, ZeroItems(n, itemSize));
      FlattenZeros(n, itemSize);
      var all, f := Flatten(contents), Flatten(was);
      assert all[..|f|] == f && items[..|all|][..|f|] == items[..|f|];
    }

    /** The suffix moves up to make room for the new bytes, which are then copied in. */
    method OpenGap(at: nat, suffix: nat, bytes: seq<byte>, ghost held: seq<byte>)
      requires Holds(held) && |held| == at + suffix && |held| + |bytes| <= items.Length
      modifies items
      ensures Holds(held[..at] + bytes + held[at..])
    {
      ghost var b := items[..];
      MoveBytes(at + |bytes|, at, suffix);
      assert b[at..at + suffix] == held[at..];
      ghost var b1 := items[..];
      assert b1[at + |bytes|..at + |bytes| + suffix] == held[at..] && b1[..at] == held[..at];
      CopyIn(at, bytes);
    }
  }

  lemma ReplacedBytes(was: seq<seq<byte>>, size: nat, i: nat, item: seq<byte>)
    requires Sized(was, size) && i < |was| && |item| == size
    ensures var f, o := Flatten(was), Times(i, size);
            |f| == Times(|was|, size) && o + size <= |f|
            && Flatten(was[i := item]) == f[..o] + item + f[o + size..]
    ensures Sized(was[i := item], size)
  {
    FlattenSplice(was, size, i, i + 1, [item]);
    FlattenOne(item);
    hide Flatten;
    assert was[i := item] == was[..i] + [item] + was[i + 1..];
  }

  lemma RemovedBytes(was: seq<seq<byte>>, size: nat, at: nat)
    requires Sized(was, size) && at < |was|
    ensures var f, o := Flatten(was), Times(at, size);
            |f| == Times(|was|, size) && o + size <= |f|
            && Flatten(was[..at] + was[at + 1..]) == f[..o] + f[o + size..]
    ensures Sized(was[..at] + was[at + 1..], size)
  {
    hide Flatten;
    FlattenSplice(was, size, at, at + 1, []);
    assert was[..at] + [] + was[at + 1..] == was[..at] + was[at + 1..];
    FlattenNothing();
    var f, o := Flatten(was), Times(at, size);
    assert f[..o] + [] == f[..o];
  }

  lemma FlattenNothing()
    ensures Flatten([]) == []
  {
  }

  lemma InsertedBytes(was: seq<seq<byte>>, size: nat, at: nat, added: seq<seq<byte>>)
    requires Sized(was, size) && Sized(added, size) && at <= |was|
    ensures var f, o := Flatten(was), Times(at, size);
            |f| == Times(|was|, size) && o <= |f| && |Flatten(added)| == Times(|added|, size)
            && Flatten(was[..at] + added + was[at..]) == f[..o] + Flatten(added) + f[o..]
    ensures Sized(was[..at] + added + was[at..], size)
  {
    FlattenSplice(was, size, at, at, added);
    FlattenLength(added, size);
    hide Flatten;
  }
}
