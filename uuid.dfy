/**
 * The part of a 128-bit UUID that the build identifier relies on: its
 * sixteen octets, the nil value, the version and variant fields of
 * RFC 4122 (section 4.1.1 for the variant, section 4.1.3 for the version),
 * and the construction of a version-4 UUID from sixteen random octets
 * (section 4.4 of RFC 4122).
 *
 * Octet 6 holds the version in its high nibble; octet 8 holds the variant in
 * its most significant bits.
 */
module Uuids {

  /** Sixteen octets, the storage of a UUID, in network order. */
  type Bytes16 = s: seq<bv8> | |s| == 16 witness seq(16, i => 0)

  datatype Uuid = Uuid(bytes: Bytes16)

  /** The variant field of RFC 4122 section 4.1.1. */
  datatype Variant = Ncs | Rfc4122 | Microsoft | Future

  /** The nil UUID: all 128 bits zero. */
  const NIL: Uuid := Uuid(seq(16, i => 0))

  /** Index of the octet that carries the version in its high nibble. */
  const VERSION_OCTET := 6
  /** Index of the octet that carries the variant in its top bits. */
  const VARIANT_OCTET := 8

  /** The version number: the high nibble of octet 6. */
  function VersionNum(u: Uuid): (v: nat)
    ensures v < 16
  {
    (u.bytes[VERSION_OCTET] >> 4) as nat
  }

  /** The variant, read from the top bits of octet 8 as RFC 4122's table does. */
  function GetVariant(u: Uuid): Variant {
    var b := u.bytes[VARIANT_OCTET];
    if b & 0x80 == 0 then Ncs
    else if b & 0xC0 == 0x80 then Rfc4122
    else if b & 0xE0 == 0xC0 then Microsoft
    else Future
  }

  /** A UUID whose fixed fields say "randomly generated" (version 4, RFC 4122 variant). */
  predicate IsRandomUuid(u: Uuid) {
    VersionNum(u) == 4 && GetVariant(u) == Rfc4122
  }

  /** The version octet with its high nibble set to 4 and its low nibble kept. */
  function StampVersion4(x: bv8): bv8 {
    (x & 0x0F) | 0x40
  }

  /**
   * Builds a UUID from sixteen random octets: the variant bits become `10`
   * and the version nibble becomes 4; every other bit is the input's.
   */
  function FromRandomBytes(b: Bytes16): (u: Uuid)
    ensures IsRandomUuid(u)
    ensures forall i :: 0 <= i < 16 && i != VERSION_OCTET && i != VARIANT_OCTET ==> u.bytes[i] == b[i]
    ensures u.bytes[VERSION_OCTET] & 0x0F == b[VERSION_OCTET] & 0x0F
    ensures u.bytes[VARIANT_OCTET] & 0x3F == b[VARIANT_OCTET] & 0x3F
  {
    var withVariant := b[VARIANT_OCTET := (b[VARIANT_OCTET] & 0x3F) | 0x80];
    Uuid(withVariant[VERSION_OCTET := StampVersion4(withVariant[VERSION_OCTET])])
  }

  /** The nil UUID is not a random UUID: its version nibble is 0. */
  lemma NilIsNotRandom()
    ensures !IsRandomUuid(NIL)
  {
    assert NIL.bytes[VERSION_OCTET] == 0;
  }

  /**
   * Stamping leaves a UUID unchanged exactly when it already carries the
   * version-4 and RFC 4122 variant fields.
   */
  lemma StampFixesExactlyRandomUuids(u: Uuid)
    ensures FromRandomBytes(u.bytes) == u <==> IsRandomUuid(u)
  {
    if IsRandomUuid(u) {
      var v := u.bytes[VERSION_OCTET];
      var w := u.bytes[VARIANT_OCTET];
      assert (v >> 4) as nat == 4;
      assert v >> 4 == 4;
      assert StampVersion4(v) == v;
      assert w & 0xC0 == 0x80;
      assert (w & 0x3F) | 0x80 == w;
      var r := FromRandomBytes(u.bytes);
      assert forall i :: 0 <= i < 16 ==> r.bytes[i] == u.bytes[i];
    }
  }

  /** Stamping twice is stamping once. */
  lemma FromRandomBytesIdempotent(b: Bytes16)
    ensures FromRandomBytes(FromRandomBytes(b).bytes) == FromRandomBytes(b)
  {
    StampFixesExactlyRandomUuids(FromRandomBytes(b));
  }
}
