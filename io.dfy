/**
 * The pieces of standard I/O the build identifier touches: the result of an
 * I/O call, the size of the buffer a copy uses, and the running executable
 * opened as a file whose content is given.
 */
module Io {

  /** `io::Result`. */
  datatype IoResult<T> = Ok(value: T) | Err

  /** The size of the buffer `io::copy` reads into. */
  const DEFAULT_BUF_SIZE: nat := 8 * 1024

  /**
   * The running executable opened for reading. The operating system decides
   * how many octets each read returns; the model leaves that choice open.
   */
  class ExeFile {
    /** The executable's octets. */
    const content: seq<bv8>
    /** The read cursor. */
    var pos: nat

    ghost predicate Valid()
      reads this
    {
      pos <= |content|
    }

    /** The octets not read yet. */
    ghost function Remaining(): seq<bv8>
      reads this
      requires Valid()
    {
      content[pos..]
    }

    /** Opens the file at its start. */
    constructor Open(content: seq<bv8>)
      ensures Valid()
      ensures this.content == content && pos == 0
    {
      this.content := content;
      pos := 0;
    }

    /**
     * `Read::read`: copies the next `n` unread octets into the front of
     * `buf` and advances past them. `n` is 0 only at the end of the file or
     * when `buf` is empty; otherwise it is any length the buffer and the
     * remaining content allow.
     */
    method Read(buf: array<bv8>) returns (n: nat)
      requires Valid()
      modifies this, buf
      ensures Valid()
      ensures n <= buf.Length && pos == old(pos) + n
      ensures buf[..n] == content[old(pos)..pos]
      ensures n == 0 <==> old(pos) == |content| || buf.Length == 0
    {
      var available := |content| - pos;
      if available == 0 || buf.Length == 0 {
        return 0;
      }
      var most := if buf.Length < available then buf.Length else available;
      n :| 0 < n <= most;
      forall i | 0 <= i < n {
        buf[i] := content[pos + i];
      }
      pos := pos + n;
    }
  }
}
