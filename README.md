# build_id, modelled in Dafny

The `build_id` crate gives a UUID that stands for the build of the running
binary. Two processes that compare their UUIDs can tell whether they run the
same binary. All of its own logic is in `src/lib.rs`:

- `get` is a process-wide once-cache. The static `BUILD_ID` starts as the
  nil UUID. The `Once` gate `INIT` fills it with `calculate()` on the first
  call. Every call returns the stored value.
- `calculate` creates an xxHash64 hasher with seed 0. It copies the running
  executable's octets into the hasher with `io::copy` through `HashWriter`.
  It writes the 64-bit digest into octets 0..8 of a zeroed 16-octet buffer in
  native byte order. Then it makes a version-4 UUID of the buffer with
  `Uuid::from_random_bytes`.
- `HashWriter` is an `io::Write` that hands every buffer to the hasher
  unchanged.

The model has five files:

- `uuid.dfy` (`Uuids`): the UUID octets, the nil UUID, and the version and
  variant fields of RFC 4122 (sections 4.1.1 and 4.1.3). It also has
  `FromRandomBytes`, the version-4 construction of section 4.4 of RFC 4122.
- `byteorder.dfy` (`ByteOrder`): `write_u64`/`read_u64` in either byte order.
  `WriteU64` works in place on an array, as the source does.
- `hashing.dfy` (`Hashing`): a streaming hasher whose state is the sequence
  of octets fed so far. Its digest is a given function of the seed and that
  sequence.
- `io.dfy` (`Io`): `io::Result`, the copy buffer size, and the opened
  executable as a file. A read returns any number of octets that the buffer
  and the rest of the file allow.
- `build_id.dfy` (`BuildId`): `HashWriter`, the copy loop, the
  specification `BuildIdOf`, `Calculate`, the once-cache `BuildIdCell.Get`,
  and the crate's two tests as verified clients.

Three things are parameters of the model rather than parts of it:

- the executable's octets, `exe`;
- the platform's native byte order, `order`;
- the hash function, `xxh`.

Every property is proved for all choices of them.

The crate's doc comment (src/lib.rs:27-31 and 84-88) says it looks first
for a linker-inserted build ID (`.note.gnu.build-id`, Mach-O `LC_UUID`) and
only falls back to hashing the whole binary. The code has no such lookup:
it always hashes the executable. The build-id references at
src/lib.rs:106-107 and the type-identity lines at src/lib.rs:101-104 and
116-118 are comments. The model follows the code: one digest in octets 0..8,
octets 8..16 zero. `BuildIdLayout` shows what that means. Octet 8 of every
identifier is 0x80 and octets 9..16 are zero. Of the digest's 64 bits, 60
survive: the version nibble overwrites four of them.
`SameBuildIdIffDigestsAgree` states this as an if-and-only-if.

## Model

| member | source | states |
|---|---|---|
| `Uuids.FromRandomBytes` | src/lib.rs:113 | the result has version 4 and the RFC 4122 variant. Every octet other than 6 and 8 is the input's. The low nibble of octet 6 and the low six bits of octet 8 are the input's. |
| `Uuids.StampFixesExactlyRandomUuids` | src/lib.rs:113 | stamping a UUID leaves it unchanged if and only if it already has version 4 and the RFC 4122 variant |
| `Uuids.FromRandomBytesIdempotent` | src/lib.rs:113 | stamping twice gives the same UUID as stamping once |
| `Uuids.NilIsNotRandom` | src/lib.rs:55 | the nil UUID that `BUILD_ID` starts with is not a version-4 UUID |
| `ByteOrder.WriteU64` | src/lib.rs:112 | after the write, octets 0..8 of the buffer are the value's octets in the given order, and the rest of the buffer is unchanged |
| `ByteOrder.ReadAfterWrite` | src/lib.rs:112 | reading back the written octets in the same order gives the written value |
| `ByteOrder.WriteAfterRead` | src/lib.rs:112 | writing the value read from any eight octets gives back those octets |
| `ByteOrder.U64BytesInjective` | src/lib.rs:112 | two values are written as equal octets if and only if they are equal |
| `Hashing.Hasher.WithSeed` | src/lib.rs:99 | a new hasher has the given hash function and seed and has been fed nothing |
| `Hashing.Hasher.Finish` | src/lib.rs:112 | the digest of the seed and of everything fed so far, however it was split into writes |
| `Hashing.Hasher.Write` | src/lib.rs:123 | the hasher's input becomes its old input followed by the written octets |
| `Io.ExeFile.Open` | src/lib.rs:108 | the opened executable's read position is at the start of its content |
| `Io.ExeFile.Read` | src/lib.rs:109 | a read advances the cursor by the count it returns, within the buffer's size. The buffer's front then holds exactly the octets passed over. A read returns 0 only at end of file or when the buffer is empty. |
| `BuildId.HashWriter.constructor` | src/lib.rs:120 | the writer wraps the hasher it is given, shared with the caller |
| `BuildId.HashWriter.Write` | src/lib.rs:122-125 | the hasher's input gains exactly `buf`, and the result is `Ok` of the length of `buf` |
| `BuildId.HashWriter.WriteAll` | src/lib.rs:126-128 | the hasher's input gains `buf` once, the result is `Ok(())`, and nothing else changes |
| `BuildId.HashWriter.Flush` | src/lib.rs:129-131 | always succeeds, and reads no state, so it can change none |
| `BuildId.Copy` | src/lib.rs:109 | whatever lengths the reads return, the hasher ends up fed with its old input followed by the file's unread octets in order. The file is read to its end, and the result is `Ok` of the number of octets copied. |
| `BuildId.PackDigest` | src/lib.rs:111-112 | reading octets 0..8 of the packed buffer in the chosen order gives back the digest, and octets 8..16 are zero |
| `BuildId.BuildIdLayout` | src/lib.rs:111-113 | the identifier's octets are the digest's octets in the chosen order with the high nibble of octet 6 set to 4, then 0x80, then seven zero octets |
| `BuildId.WithVersion4SameIff` | src/lib.rs:113 | stamping the version into two 8-octet strings gives equal results if and only if they agree on every octet but 6 and on octet 6's low nibble |
| `BuildId.BuildIdIsRandomUuid` | src/lib.rs:111-113 | every identifier has version 4 and the RFC 4122 variant, so it is never the nil UUID |
| `BuildId.SameBuildIdIffDigestsAgree` | src/lib.rs:98-113 | two executables get the same identifier if and only if their digests, written in the chosen order, agree outside the version nibble. These are the 60 bits the identifier keeps. |
| `BuildId.Calculate` | src/lib.rs:98-114 | the result is `BuildIdOf` of the executable's octets. It depends on nothing else, so every calculation in a process gives the same value. |
| `BuildId.BuildIdCell.constructor` | src/lib.rs:55-56 | at process start the slot holds the nil UUID, the gate has not run and nothing has been calculated |
| `BuildId.BuildIdCell.Get` | src/lib.rs:90-97 | returns the stored value, which equals `BuildIdOf` of the executable. The calculation has then run exactly once in total. A call after the first changes nothing. |
| `BuildId.NilMeansNotComputed` | src/lib.rs:92-95 | in every reachable state, the slot holds the nil UUID if and only if the calculation has not run |
| `BuildId.CalculateRepeatedly` | src/lib.rs:137-142 | the first calculation is `BuildIdOf` of the executable, and each of the `rounds` further calculations equals it |
| `BuildId.GetAgreesWithCalculate` | src/lib.rs:144-149 | a direct calculation and three successive `get` calls all give the same value |

## Left out

- The thread safety of `sync::Once` and the `unsafe` access to `static mut BUILD_ID` are left out. Their point is concurrency. `BuildIdCell` models the sequential once-cache only: a flag, the slot, and a ghost count of calculations.
- `proc_self::exe()` and opening the executable are left out (OS file access). The executable's octets are an input. The model has no I/O errors: in the source a failed open or read reaches `unwrap` and panics, so no fallback exists to model. `io::copy`'s retry after an interrupted read is left out too.
- The xxHash algorithm (`twox_hash::XxHash`) is left out. The hash is a function parameter of type `(seed, octets) -> digest`. The model assumes that the digest depends only on the concatenation of the octets written, not on how they were split. The `Hasher` trait does not promise this in general, but xxHash64's streaming implementation does: it buffers its input into 32-octet stripes before mixing. This is what makes `calculate` independent of how `io::copy` chunks the file.
- The native byte order is chosen at compile time. The model takes it as the parameter `order` and proves everything for both orders.
- The platform build-id lookup (ELF note, Mach-O `LC_UUID`) that the doc comment describes and the type-identity fingerprint are not modelled. They exist only in comments (src/lib.rs:101-107, 116-118), not in the code.
- The UUID's textual form and its other accessors are not modelled. `Uuids` covers only what `calculate` uses and the fields that section 4.1 of RFC 4122 defines.
- build.rs is not part of this model. It only prints a cargo `rerun-if-changed` directive.
