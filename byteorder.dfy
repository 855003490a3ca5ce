/**
 * Writing and reading a 64-bit unsigned integer as eight octets in a chosen
 * byte order, as the byteorder crate's `write_u64`/`read_u64` do. The
 * platform's native order is a parameter (`Endian`), not something the
 * model decides.
 */
module ByteOrder {

  /** The two byte orders `NativeEndian` can stand for. */
  datatype Endian = LittleEndian | BigEndian

  /** The octet of significance `j` of `n` (0 is the least significant). */
  function Octet(n: bv64, j: nat): bv8
    requires j < 8
  {
    match j
    case 0 => (n & 0xFF) as bv8
    case 1 => ((n >> 8) & 0xFF) as bv8
    case 2 => ((n >> 16) & 0xFF) as bv8
    case 3 => ((n >> 24) & 0xFF) as bv8
    case 4 => ((n >> 32) & 0xFF) as bv8
    case 5 => ((n >> 40) & 0xFF) as bv8
    case 6 => ((n >> 48) & 0xFF) as bv8
    case _ => ((n >> 56) & 0xFF) as bv8
  }

  /** The eight octets of `n`, least significant first. */
  function LeOctets(n: bv64): (b: seq<bv8>)
    ensures |b| == 8
  {
    seq(8, j requires 0 <= j < 8 => Octet(n, j))
  }

  /** The 64-bit value whose octets, least significant first, are `b`. */
  function LeWord(b: seq<bv8>): bv64
    requires |b| == 8
  {
    (b[0] as bv64) | ((b[1] as bv64) << 8)
    | ((b[2] as bv64) << 16) | ((b[3] as bv64) << 24)
    | ((b[4] as bv64) << 32) | ((b[5] as bv64) << 40)
    | ((b[6] as bv64) << 48) | ((b[7] as bv64) << 56)
  }

  /** The eight octets in the opposite order. */
  function Reverse8(b: seq<bv8>): (r: seq<bv8>)
    requires |b| == 8
    ensures |r| == 8 && forall i :: 0 <= i < 8 ==> r[i] == b[7 - i]
  {
    [b[7], b[6], b[5], b[4], b[3], b[2], b[1], b[0]]
  }

  /** The octets `write_u64` stores for `n` in the given order. */
  function U64Bytes(n: bv64, order: Endian): (b: seq<bv8>)
    ensures |b| == 8
  {
    match order
    case LittleEndian => LeOctets(n)
    case BigEndian => Reverse8(LeOctets(n))
  }

  /** The value `read_u64` reads from eight octets in the given order. */
  function ReadU64(b: seq<bv8>, order: Endian): bv64
    requires |b| == 8
  {
    match order
    case LittleEndian => LeWord(b)
    case BigEndian => LeWord(Reverse8(b))
  }

  /** The little-endian octets of a word determine the word. */
  lemma LeWordOfOctets(n: bv64)
    ensures LeWord(LeOctets(n)) == n
  {
  }

  /** Every eight octets are the little-endian octets of their word. */
  lemma LeOctetsOfWord(b: seq<bv8>)
    requires |b| == 8
    ensures LeOctets(LeWord(b)) == b
  {
  }

  /** Reading back what was written gives the value that was written. */
  lemma ReadAfterWrite(n: bv64, order: Endian)
    ensures ReadU64(U64Bytes(n, order), order) == n
  {
    var le := LeOctets(n);
    LeWordOfOctets(n);
    if order.BigEndian? {
      assert Reverse8(Reverse8(le)) == le;
    }
  }

  /** Writing what was read gives back the octets that were read. */
  lemma WriteAfterRead(b: seq<bv8>, order: Endian)
    requires |b| == 8
    ensures U64Bytes(ReadU64(b, order), order) == b
  {
    match order
    case LittleEndian =>
      LeOctetsOfWord(b);
    case BigEndian =>
      var r := Reverse8(b);
      LeOctetsOfWord(r);
      assert Reverse8(r) == b;
  }

  /** Distinct values are written as distinct octets, in either order. */
  lemma U64BytesInjective(m: bv64, n: bv64, order: Endian)
    ensures U64Bytes(m, order) == U64Bytes(n, order) <==> m == n
  {
    ReadAfterWrite(m, order);
    ReadAfterWrite(n, order);
  }

  /**
   * `write_u64`: stores `n` in the first eight octets of `buf` in the given
   * order and leaves the rest of `buf` as it was. The byteorder crate
   * asserts that `buf` holds at least eight octets.
   */
  method WriteU64(buf: array<bv8>, n: bv64, order: Endian)
    requires 8 <= buf.Length
    modifies buf
    ensures buf[..8] == U64Bytes(n, order)
    ensures buf[8..] == old(buf[8..])
  {
    var octets := U64Bytes(n, order);
    forall i | 0 <= i < 8 {
      buf[i] := octets[i];
    }
  }
}
