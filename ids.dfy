/** plano.unique_id: the first bytes of a random UUID, hex-encoded in lower case. */
module Ids {

  type Byte = b: int | 0 <= b < 256

  /** The number of bytes uuid.uuid4().bytes holds. */
  const UUID_BYTES: nat := 16

  const HEX_DIGITS: string := "0123456789abcdef"

  predicate IsHexDigit(c: char) {
    '0' <= c <= '9' || 'a' <= c <= 'f'
  }

  function HexDigit(n: nat): (c: char)
    requires n < 16
    ensures IsHexDigit(c) && DigitValue(c) == n
  {
    HEX_DIGITS[n]
  }

  function DigitValue(c: char): (n: nat)
    requires IsHexDigit(c)
    ensures n < 16
  {
    if c <= '9' then c as int - '0' as int else c as int - 'a' as int + 10
  }

  /** binascii.hexlify(...).decode(): two lower-case hex digits per byte, high nibble first. */
  function Hexlify(bytes: seq<Byte>): (s: string)
    ensures |s| == 2 * |bytes|
    ensures forall k :: 0 <= k < |s| ==> IsHexDigit(s[k])
  {
    if bytes == [] then ""
    else [HexDigit(bytes[0] / 16), HexDigit(bytes[0] % 16)] + Hexlify(bytes[1..])
  }

  /** binascii.unhexlify on lower-case digits: the decoder Hexlify is paired with. */
  function Unhexlify(s: string): seq<Byte>
    requires |s| % 2 == 0
    requires forall k :: 0 <= k < |s| ==> IsHexDigit(s[k])
  {
    if s == [] then []
    else [16 * DigitValue(s[0]) + DigitValue(s[1])] + Unhexlify(s[2..])
  }

  /** Decoding the hex text gives the bytes back. */
  lemma {:induction false} UnhexlifyHexlify(bytes: seq<Byte>)
    ensures Unhexlify(Hexlify(bytes)) == bytes
  {
    if bytes != [] {
      var s := Hexlify(bytes);
      assert s[2..] == Hexlify(bytes[1..]);
      UnhexlifyHexlify(bytes[1..]);
    }
  }

  /** unique_id(length) with `uuid` the bytes of the random UUID it draws:
      2 * length lower-case hex digits encoding the first `length` of them. */
  function UniqueId(length: nat, uuid: seq<Byte>): (id: string)
    requires 1 <= length <= 16
    requires |uuid| == UUID_BYTES
    ensures |id| == 2 * length
    ensures forall k :: 0 <= k < |id| ==> IsHexDigit(id[k])
  {
    Hexlify(uuid[..length])
  }

  /** The id determines the bytes it came from: Unhexlify reads them back. */
  lemma UniqueIdDecodes(length: nat, uuid: seq<Byte>)
    requires 1 <= length <= 16
    requires |uuid| == UUID_BYTES
    ensures Unhexlify(UniqueId(length, uuid)) == uuid[..length]
  {
    UnhexlifyHexlify(uuid[..length]);
  }

  /** Ids of one length differ whenever the UUID prefixes they encode differ. */
  lemma UniqueIdInjective(length: nat, u: seq<Byte>, v: seq<Byte>)
    requires 1 <= length <= 16
    requires |u| == UUID_BYTES && |v| == UUID_BYTES
    requires u[..length] != v[..length]
    ensures UniqueId(length, u) != UniqueId(length, v)
  {
    UniqueIdDecodes(length, u);
    UniqueIdDecodes(length, v);
  }
}
