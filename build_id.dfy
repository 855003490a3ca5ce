/**
 * The build identifier of the running binary (src/lib.rs).
 *
 * `Calculate` streams the executable's octets into a seeded 64-bit hasher
 * through `HashWriter`, writes the digest into octets 0..8 of a zeroed
 * 16-octet buffer in the platform's byte order, and stamps the buffer as a
 * version-4 UUID. `BuildIdCell.Get` runs that calculation once and serves
 * the stored value ever after.
 *
 * The executable's octets, the platform's byte order and the hash function
 * are parameters: the model is the same for every choice of them.
 */
module BuildId {
  import opened Uuids
  import opened ByteOrder
  import opened Hashing
  import opened Io

  /** The seed the hasher is created with. */
  const SEED: bv64 := 0

  // ---------------------------------------------------------------------
  // HashWriter: an `io::Write` that feeds everything it is given to a hasher
  // ---------------------------------------------------------------------

  class HashWriter {
    /** The hasher this writer feeds; the caller keeps a reference to it too. */
    const hasher: Hasher

    constructor (hasher: Hasher)
      ensures this.hasher == hasher
    {
      this.hasher := hasher;
    }

    /** `write`: feeds all of `buf` to the hasher and reports all of it written. */
    method Write(buf: seq<bv8>) returns (r: IoResult<nat>)
      modifies hasher
      ensures hasher.fed == old(hasher.fed) + buf
      ensures r == Ok(|buf|)
    {
      hasher.Write(buf);
      r := Ok(|buf|);
    }

    /** `write_all`: one `write` of `buf`, with its count dropped. */
    method WriteAll(buf: seq<bv8>) returns (r: IoResult<()>)
      modifies hasher
      ensures hasher.fed == old(hasher.fed) + buf
      ensures r == Ok(())
    {
      var written := Write(buf);
      r := if written.Ok? then Ok(()) else Err;
    }

    /** `flush`: nothing is buffered, so it reads no state and always succeeds. */
    function Flush(): (r: IoResult<()>)
      ensures r.Ok?
    {
      Ok(())
    }
  }

  /**
   * `io::copy` from the opened executable into a `HashWriter`: reads chunks
   * into a buffer until a read returns nothing, and writes each chunk in
   * full. Whatever lengths the reads return, the hasher ends up fed with
   * exactly the unread rest of the file, in order.
   */
  method Copy(reader: ExeFile, writer: HashWriter) returns (r: IoResult<nat>)
    requires reader.Valid()
    modifies reader, writer.hasher
    ensures reader.Valid() && reader.pos == |reader.content|
    ensures writer.hasher.fed == old(writer.hasher.fed) + old(reader.Remaining())
    ensures r == Ok(|old(reader.Remaining())|)
  {
    var buf := new bv8[DEFAULT_BUF_SIZE];
    var written: nat := 0;
    ghost var start := reader.pos;
    ghost var before := writer.hasher.fed;
    while true
      invariant reader.Valid() && start <= reader.pos
      invariant writer.hasher.fed == before + reader.content[start..reader.pos]
      invariant written == reader.pos - start
      decreases |reader.content| - reader.pos
    {
      ghost var readFrom := reader.pos;
      var len := reader.Read(buf);
      if len == 0 {
        assert reader.content[start..] == reader.content[start..reader.pos];
        return Ok(written);
      }
      var chunk := buf[..len];
      assert reader.content[start..reader.pos] == reader.content[start..readFrom] + chunk;
      var w := writer.WriteAll(chunk);
      if w.Err? {
        return Err;
      }
      written := written + len;
    }
  }

  // ---------------------------------------------------------------------
  // Packing the digest and the specification of the identifier
  // ---------------------------------------------------------------------

  /** The 16-octet buffer `calculate` formats: the digest in octets 0..8, zeros after. */
  function PackDigest(d: bv64, order: Endian): (b: Bytes16)
    ensures ReadU64(b[..8], order) == d
    ensures forall i :: 8 <= i < 16 ==> b[i] == 0
  {
    ReadAfterWrite(d, order);
    var b := U64Bytes(d, order) + seq(8, i => 0);
    assert b[..8] == U64Bytes(d, order);
    b
  }

  /** The identifier of a binary whose executable is `exe`. */
  function BuildIdOf(exe: seq<bv8>, order: Endian, xxh: Digest64): Uuid {
    FromRandomBytes(PackDigest(xxh(SEED, exe), order))
  }

  /** Octets 8..16 of every identifier: the RFC 4122 variant `10` over zero bits. */
  const VARIANT_TAIL: seq<bv8> := [0x80, 0, 0, 0, 0, 0, 0, 0]

  /** Eight octets with the high nibble of the version octet overwritten by 4. */
  function WithVersion4(b: seq<bv8>): (r: seq<bv8>)
    requires |b| == 8
    ensures |r| == 8
  {
    b[VERSION_OCTET := StampVersion4(b[VERSION_OCTET])]
  }

  /**
   * Two octet strings of length 8 that agree on every bit the version stamp
   * keeps: every octet but the version octet, and that octet's low nibble.
   */
  predicate AgreeOutsideVersion(a: seq<bv8>, b: seq<bv8>)
    requires |a| == 8 && |b| == 8
  {
    && (forall i :: 0 <= i < 8 && i != VERSION_OCTET ==> a[i] == b[i])
    && a[VERSION_OCTET] & 0x0F == b[VERSION_OCTET] & 0x0F
  }

  /**
   * The identifier octet by octet: the digest's octets in the chosen order
   * with the version nibble set to 4, then the variant octet 0x80 and seven
   * zero octets.
   */
  lemma BuildIdLayout(exe: seq<bv8>, order: Endian, xxh: Digest64)
    ensures BuildIdOf(exe, order, xxh).bytes
         == WithVersion4(U64Bytes(xxh(SEED, exe), order)) + VARIANT_TAIL
  {
    var digestOctets := U64Bytes(xxh(SEED, exe), order);
    var packed := PackDigest(xxh(SEED, exe), order);
    var id := BuildIdOf(exe, order, xxh);
    var expected := WithVersion4(digestOctets) + VARIANT_TAIL;
    assert packed == digestOctets + seq(8, i => 0);
    forall i | 0 <= i < 16
      ensures id.bytes[i] == expected[i]
    {
      if i < 8 {
        assert expected[i] == WithVersion4(digestOctets)[i];
        if i == VERSION_OCTET {
          assert id.bytes[i] == StampVersion4(digestOctets[i]);
        } else {
          assert id.bytes[i] == digestOctets[i];
        }
      } else {
        assert packed[i] == 0 && expected[i] == VARIANT_TAIL[i - 8];
      }
    }
  }

  /** The identifier is a well-formed version-4, RFC 4122 variant UUID and never nil. */
  lemma BuildIdIsRandomUuid(exe: seq<bv8>, order: Endian, xxh: Digest64)
    ensures IsRandomUuid(BuildIdOf(exe, order, xxh))
    ensures BuildIdOf(exe, order, xxh) != NIL
  {
    NilIsNotRandom();
  }

  /**
   * Two executables get the same identifier exactly when their digests,
   * written in the chosen order, agree outside the version nibble: the 60
   * digest bits the identifier keeps.
   */
  lemma SameBuildIdIffDigestsAgree(exe1: seq<bv8>, exe2: seq<bv8>, order: Endian, xxh: Digest64)
    ensures BuildIdOf(exe1, order, xxh) == BuildIdOf(exe2, order, xxh)
        <==> AgreeOutsideVersion(U64Bytes(xxh(SEED, exe1), order), U64Bytes(xxh(SEED, exe2), order))
  {
    var o1, o2 := U64Bytes(xxh(SEED, exe1), order), U64Bytes(xxh(SEED, exe2), order);
    BuildIdLayout(exe1, order, xxh);
    BuildIdLayout(exe2, order, xxh);
    SameSuffixIff(WithVersion4(o1), WithVersion4(o2), VARIANT_TAIL);
    WithVersion4SameIff(o1, o2);
  }

  /** Stamping two octet strings gives the same result exactly when they agree outside the version nibble. */
  lemma WithVersion4SameIff(a: seq<bv8>, b: seq<bv8>)
    requires |a| == 8 && |b| == 8
    ensures WithVersion4(a) == WithVersion4(b) <==> AgreeOutsideVersion(a, b)
  {
    var sa, sb := WithVersion4(a), WithVersion4(b);
    if sa == sb {
      forall i | 0 <= i < 8 && i != VERSION_OCTET
        ensures a[i] == b[i]
      {
        assert a[i] == sa[i] && b[i] == sb[i];
      }
      assert sa[VERSION_OCTET] == StampVersion4(a[VERSION_OCTET]);
      assert sb[VERSION_OCTET] == StampVersion4(b[VERSION_OCTET]);
      VersionNibbleSameIff(a[VERSION_OCTET], b[VERSION_OCTET]);
    }
    if AgreeOutsideVersion(a, b) {
      VersionNibbleSameIff(a[VERSION_OCTET], b[VERSION_OCTET]);
      assert forall i :: 0 <= i < 8 ==> sa[i] == sb[i];
    }
  }

  /** Setting the high nibble to 4 identifies exactly the octets with the same low nibble. */
  lemma VersionNibbleSameIff(x: bv8, y: bv8)
    ensures StampVersion4(x) == StampVersion4(y) <==> x & 0x0F == y & 0x0F
  {
  }

  /** Two strings of equal length followed by the same suffix are equal exactly when they are. */
  lemma SameSuffixIff(x1: seq<bv8>, x2: seq<bv8>, suffix: seq<bv8>)
    requires |x1| == |x2|
    ensures x1 + suffix == x2 + suffix <==> x1 == x2
  {
    if x1 + suffix == x2 + suffix {
      assert x1 == (x1 + suffix)[..|x1|];
      assert x2 == (x2 + suffix)[..|x2|];
    }
  }

  // ---------------------------------------------------------------------
  // calculate
  // ---------------------------------------------------------------------

  /**
   * `calculate`: hash the executable, pack the digest, stamp it as a UUID.
   * The result is the specified identifier, so it depends on nothing but the
   * executable's octets, the byte order and the hash function.
   */
  method Calculate(exe: seq<bv8>, order: Endian, xxh: Digest64) returns (id: Uuid)
    ensures id == BuildIdOf(exe, order, xxh)
  {
    var hasher := new Hasher.WithSeed(xxh, SEED);
    var file := new ExeFile.Open(exe);
    var writer := new HashWriter(hasher);
    var copied := Copy(file, writer);
    assert hasher.fed == exe;

    var bytes := new bv8[16](i => 0);
    WriteU64(bytes, hasher.Finish(), order);
    assert bytes[..] == bytes[..8] + bytes[8..];
    assert bytes[..] == PackDigest(xxh(SEED, exe), order);
    id := FromRandomBytes(bytes[..]);
  }

  // ---------------------------------------------------------------------
  // get: the once-computed, process-wide identifier
  // ---------------------------------------------------------------------

  /**
   * The process-wide slot `BUILD_ID`, which starts out nil, together with the
   * `INIT` gate that records whether the calculation has run. The binary the
   * process runs is fixed for the process's lifetime.
   */
  class BuildIdCell {
    const exe: seq<bv8>
    const order: Endian
    const xxh: Digest64
    /** `BUILD_ID`. */
    var buildId: Uuid
    /** Whether `INIT` has run its closure. */
    var initDone: bool
    /** How many times the calculation has run. */
    ghost var calculations: nat

    ghost predicate Valid()
      reads this
    {
      && calculations == (if initDone then 1 else 0)
      && buildId == (if initDone then BuildIdOf(exe, order, xxh) else NIL)
    }

    /** The state at process start: nil, gate not yet passed, nothing computed. */
    constructor (exe: seq<bv8>, order: Endian, xxh: Digest64)
      ensures Valid() && !initDone
      ensures this.exe == exe && this.order == order && this.xxh == xxh
    {
      this.exe, this.order, this.xxh := exe, order, xxh;
      buildId := NIL;
      initDone := false;
      calculations := 0;
    }

    /**
     * `get`: on the first call runs the calculation and stores it; every
     * call returns the stored value. The calculation runs at most once.
     */
    method Get() returns (id: Uuid)
      requires Valid()
      modifies this
      ensures Valid() && initDone
      ensures id == buildId == BuildIdOf(exe, order, xxh)
      ensures calculations == 1
      ensures old(initDone) ==> buildId == old(buildId) && calculations == old(calculations)
    {
      if !initDone {
        buildId := Calculate(exe, order, xxh);
        calculations := calculations + 1;
        initDone := true;
      }
      id := buildId;
    }
  }

  /** The nil value in the slot means exactly "not computed yet". */
  lemma NilMeansNotComputed(cell: BuildIdCell)
    requires cell.Valid()
    ensures cell.buildId == NIL <==> !cell.initDone
  {
    if cell.initDone {
      BuildIdIsRandomUuid(cell.exe, cell.order, cell.xxh);
    }
  }

  // ---------------------------------------------------------------------
  // The crate's two tests, as verified clients
  // ---------------------------------------------------------------------

  /**
   * Test `brute`: a first calculation, then `rounds` further ones, every one
   * of which equals the first.
   */
  method CalculateRepeatedly(exe: seq<bv8>, order: Endian, xxh: Digest64, rounds: nat)
    returns (first: Uuid, results: seq<Uuid>)
    ensures first == BuildIdOf(exe, order, xxh)
    ensures |results| == rounds
    ensures forall i :: 0 <= i < rounds ==> results[i] == first
  {
    first := Calculate(exe, order, xxh);
    results := [];
    for k := 0 to rounds
      invariant |results| == k
      invariant forall i :: 0 <= i < k ==> results[i] == first
    {
      var again := Calculate(exe, order, xxh);
      results := results + [again];
    }
  }

  /** Test `get`: a direct calculation and three successive `get` calls agree. */
  method GetAgreesWithCalculate(exe: seq<bv8>, order: Endian, xxh: Digest64)
    returns (direct: Uuid, first: Uuid, second: Uuid, third: Uuid)
    ensures first == direct && second == direct && third == direct
  {
    direct := Calculate(exe, order, xxh);
    var cell := new BuildIdCell(exe, order, xxh);
    first := cell.Get();
    second := cell.Get();
    third := cell.Get();
  }
}
