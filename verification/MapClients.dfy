/** The two maps of msgbox as clients of the map: conn_status, keyed by addresses in memory, and
    reply_contexts, keyed by 16-bit ids stored in pointers. */
module MapClients {
  import opened Common
  import opened HashMap

  /** (int)(intptr_t)p */
  function ToInt(p: Ptr): int {
    var u := p % 0x1_0000_0000;
    if u < 0x8000_0000 then u else u - 0x1_0000_0000
  }

  /** (uint16_t)(intptr_t)p */
  function ToUint16(p: Ptr): uint16 {
    p % 0x1_0000
  }

  lemma IdsAreThemselves(p: Ptr)
    requires IsReplyId(p)
    ensures ToUint16(p) == p && ToInt(p) == p
  {
  }

  /** reply_id_hash takes the whole pointer as an int; reply_id_eq compares its low 16 bits. */
  function ReplyIds(): Config {
    Config(IsReplyId, (p: Ptr) => ToInt(p), (p: Ptr, q: Ptr) => ToUint16(p) == ToUint16(q), false, false)
  }

  predicate IsReplyId(p: Ptr) { 0 <= p < 0x1_0000 }

  /** The pair is consistent on pointers that hold a reply id, which is all that msgbox stores, and not on
      pointers in general. */
  lemma ReplyIdsAreConsistent()
    ensures HashRespectsEq(ReplyIds())
    ensures !HashRespectsEq(ReplyIds().(isKey := _ => true))
  {
    assert ToUint16(1) == ToUint16(0x1_0001) && ToInt(1) != ToInt(0x1_0001);
    hide ToUint16, ToInt;
    forall p | IsReplyId(p) ensures ToUint16(p) == p && ToInt(p) == p { IdsAreThemselves(p); }
    assert ReplyIds().eq(1, 0x1_0001) && ReplyIds().hash(1) != ReplyIds().hash(0x1_0001);
  }

  /** address_hash: over the bytes as signed chars, in 32-bit arithmetic that wraps. */
  function AddressHash(bytes: seq<byte>): int {
    if bytes == [] then 0
    else
      var b: int := bytes[|bytes| - 1];
      ToInt(AddressHash(bytes[..|bytes| - 1]) * 234 + if b < 0x80 then b else b - 0x100)
  }

  /** The functions of conn_status, where memory holds the bytes of each Address. */
  function Addresses(memory: Ptr -> seq<byte>): Config {
    Config(_ => true, (p: Ptr) => AddressHash(memory(p)), (p: Ptr, q: Ptr) => memory(p) == memory(q), true, true)
  }

  /** The sum that address_hash computes, in whole numbers. */
  function Poly(bytes: seq<byte>): int {
    if bytes == [] then 0
    else
      var b: int := bytes[|bytes| - 1];
      Poly(bytes[..|bytes| - 1]) * 234 + if b < 0x80 then b else b - 0x100
  }

  lemma WrapOnce(x: int, b: int)
    ensures ToInt(ToInt(x) * 234 + b) == ToInt(x * 234 + b)
  {
    var k := (x - ToInt(x)) / 0x1_0000_0000;
    assert x == ToInt(x) + k * 0x1_0000_0000;
    Wrapped(ToInt(x) * 234 + b, 234 * k);
  }

  lemma Wrapped(x: int, k: int)
    ensures ToInt(x + k * 0x1_0000_0000) == ToInt(x)
  {
  }

  /** Wrapping in every step comes to wrapping once, and the result is an int. */
  lemma {:induction false} HashWrapsOnce(bytes: seq<byte>)
    ensures AddressHash(bytes) == ToInt(Poly(bytes)) && -0x8000_0000 <= AddressHash(bytes) < 0x8000_0000
  {
    if bytes != [] {
      HashWrapsOnce(bytes[..|bytes| - 1]);
      var b: int := bytes[|bytes| - 1];
      WrapOnce(Poly(bytes[..|bytes| - 1]), if b < 0x80 then b else b - 0x100);
    }
  }

  lemma AddressesAreConsistent(memory: Ptr -> seq<byte>)
    ensures HashRespectsEq(Addresses(memory))
  {
  }
}
