/** Types and sequence facts shared by the modules. */
module Common {

  type byte = x: int | 0 <= x < 0x100
  type uint16 = x: int | 0 <= x < 0x1_0000
  type uint32 = x: int | 0 <= x < 0x1_0000_0000

  function Max(a: nat, b: nat): nat {
    if a < b then b else a
  }

  // A C `void *`.
  type Ptr = int
  const NULL: Ptr := 0

  datatype Option<T> = None | Some(value: T)

  // ----- Addresses -----

  const SOCK_STREAM: uint16 := 1   // msg_tcp
  const SOCK_DGRAM: uint16 := 2    // msg_udp

  /** The four bytes of s_addr, in memory order. */
  datatype Ip = Ip(a: byte, b: byte, c: byte, d: byte)

  datatype Address = Address(ip: Ip, port: uint16, protocolType: uint16) {
    predicate IsTcp() { protocolType == SOCK_STREAM }
    predicate IsUdp() { protocolType == SOCK_DGRAM }
  }

  // ----- Sequences -----

  ghost predicate NoDup<T>(s: seq<T>) {
    forall j, k :: 0 <= j < k < |s| ==> s[j] != s[k]
  }

  ghost function Elems<T>(s: seq<T>): set<T> { set x <- s }

  lemma {:induction false} LengthOfNoDup<T>(s: seq<T>)
    requires NoDup(s)
    ensures |Elems(s)| == |s|
  {
    if s != [] {
      var last := s[|s| - 1];
      LengthOfNoDup(s[..|s| - 1]);
      assert last !in s[..|s| - 1];
      assert Elems(s) == Elems(s[..|s| - 1]) + {last};
    }
  }

  lemma NoDupTail<T>(s: seq<T>)
    requires s != [] && NoDup(s)
    ensures NoDup(s[1..]) && s[0] !in s[1..] && forall x :: x in s <==> x == s[0] || x in s[1..]
  {
    assert s == [s[0]] + s[1..];
  }

  lemma NoDupConcat<T>(a: seq<T>, b: seq<T>)
    requires NoDup(a) && NoDup(b) && forall x <- b :: x !in a
    ensures NoDup(a + b)
  {
    var s := a + b;
    forall j, k | 0 <= j < k < |s| ensures s[j] != s[k] {
      if j < |a| <= k { assert b[k - |a|] !in a; }
    }
  }

  ghost function RemoveAt<T>(s: seq<T>, j: nat): seq<T>
    requires j < |s|
  {
    s[..j] + s[j + 1..]
  }

  lemma RemoveAtKeepsRest<T>(s: seq<T>, j: nat)
    requires j < |s| && NoDup(s)
    ensures NoDup(RemoveAt(s, j)) && forall x :: x in RemoveAt(s, j) <==> x in s && x != s[j]
  {
    var r := RemoveAt(s, j);
    forall x | x in s && x != s[j] ensures x in r {
      var k :| 0 <= k < |s| && s[k] == x;
      assert r[if k < j then k else k - 1] == x;
    }
  }
}
