/** The loops that repeat a system call until the whole buffer is done. */
module BulkIo {

  type Byte = b: int | 0 <= b < 256 witness 0

  function Min(a: int, b: int): int {
    if a < b then a else b
  }

  /** What a read of up to n bytes can get at most. */
  function Available(content: seq<Byte>, offset: nat, n: nat): nat {
    if offset >= |content| then 0 else Min(n, |content| - offset)
  }

  /** An open file. The calls may do less than they are asked to, or fail with -1; `failures` counts those that do. */
  class File {
    var content: seq<Byte>
    var position: nat
    ghost var failures: nat

    constructor (content: seq<Byte>)
      ensures this.content == content && position == 0 && failures == 0
    {
      this.content, position, failures := content, 0, 0;
    }

    /** `pread`: nothing is read only at the end of the file or when nothing is asked for. */
    method Pread(buf: array<Byte>, at: nat, n: nat, offset: nat) returns (c: int)
      requires at + n <= buf.Length
      modifies this`failures, buf
      ensures failures == old(failures) + if c < 0 then 1 else 0
      ensures -1 <= c <= Available(content, offset, n)
      ensures c == 0 ==> Available(content, offset, n) == 0
      ensures forall i :: 0 <= i < buf.Length ==>
                buf[i] == if at <= i < at + c then content[offset + i - at] else old(buf[i])
    {
      var most := Available(content, offset, n);
      c :| -1 <= c <= most && (c == 0 ==> most == 0);
      if c < 0 {
        failures := failures + 1;
      }
      for k := 0 to if c < 0 then 0 else c
        invariant failures == old(failures) + if c < 0 then 1 else 0
        invariant forall i :: 0 <= i < buf.Length ==>
                    buf[i] == if at <= i < at + k then content[offset + i - at] else old(buf[i])
      {
        buf[at + k] := content[offset + k];
      }
    }

    method Read(buf: array<Byte>, at: nat, n: nat) returns (c: int)
      requires at + n <= buf.Length
      modifies this`position, this`failures, buf
      ensures failures == old(failures) + if c < 0 then 1 else 0
      ensures -1 <= c <= Available(content, old(position), n)
      ensures c == 0 ==> Available(content, old(position), n) == 0
      ensures position == if c > 0 then old(position) + c else old(position)
      ensures forall i :: 0 <= i < buf.Length ==>
                buf[i] == if at <= i < at + c then content[old(position) + i - at] else old(buf[i])
    {
      c := Pread(buf, at, n, position);
      if c > 0 {
        position := position + c;
      }
    }

    /** `write` at the end of the file: something is written unless nothing is asked for. */
    method Write(buf: array<Byte>, at: nat, n: nat) returns (c: int)
      requires at + n <= buf.Length
      modifies this`content, this`failures
      ensures failures == old(failures) + if c < 0 then 1 else 0
      ensures -1 <= c <= n && (c == 0 ==> n == 0)
      ensures content == old(content) + if c > 0 then buf[at..at + c] else []
    {
      c :| -1 <= c <= n && (c == 0 ==> n == 0);
      if c < 0 {
        failures := failures + 1;
      } else if c > 0 {
        content := content + buf[at..at + c];
      }
    }
  }

  /** Fills the buffer from the file's position, whatever the single reads deliver; fails exactly if one
      does. */
  method BulkRead(f: File, buf: array<Byte>, nbyte: nat) returns (r: int)
    requires nbyte <= buf.Length
    modifies f`position, f`failures, buf
    ensures f.failures == old(f.failures) + if r < 0 then 1 else 0
    ensures r == -1 || r == Available(f.content, old(f.position), nbyte)
    ensures r >= 0 ==> f.position == old(f.position) + r && forall i :: 0 <= i < r ==>
              buf[i] == f.content[old(f.position) + i]
    ensures forall i :: nbyte <= i < buf.Length ==> buf[i] == old(buf[i])
  {
    var len, left := 0, nbyte;
    while true
      invariant f.failures == old(f.failures)
      invariant len + left == nbyte && f.position == old(f.position) + len
      invariant len <= Available(f.content, old(f.position), nbyte)
      invariant forall i :: 0 <= i < len ==> buf[i] == f.content[old(f.position) + i]
      invariant forall i :: nbyte <= i < buf.Length ==> buf[i] == old(buf[i])
      decreases left
    {
      var c := f.Read(buf, len, left);
      if c < 0 {
        return c;
      }
      if c == 0 {
        break;
      }
      len := len + c;
      left := left - c;
      if left == 0 {
        break;
      }
    }
    r := len;
  }

  /** The same from a given offset, leaving the file's position alone. */
  method BulkPread(f: File, buf: array<Byte>, nbyte: nat, offset: nat) returns (r: int)
    requires nbyte <= buf.Length
    modifies f`failures, buf
    ensures f.failures == old(f.failures) + if r < 0 then 1 else 0
    ensures r == -1 || r == Available(f.content, offset, nbyte)
    ensures r > 0 ==> buf[..r] == f.content[offset..offset + r]
    ensures forall i :: nbyte <= i < buf.Length ==> buf[i] == old(buf[i])
  {
    var len, left, at := 0, nbyte, offset;
    while true
      invariant f.failures == old(f.failures)
      invariant len + left == nbyte && at == offset + len
      invariant len <= Available(f.content, offset, nbyte)
      invariant forall i :: 0 <= i < len ==> buf[i] == f.content[offset + i]
      invariant forall i :: nbyte <= i < buf.Length ==> buf[i] == old(buf[i])
      decreases left
    {
      var c := f.Pread(buf, len, left, at);
      if c < 0 {
        return c;
      }
      if c == 0 {
        break;
      }
      len := len + c;
      left := left - c;
      at := at + c;
      if left == 0 {
        break;
      }
    }
    r := len;
  }

  /** Appends the whole buffer, or fails, exactly if a call does, having appended a part of it. */
  method BulkWrite(f: File, buf: array<Byte>, nbyte: nat) returns (r: int)
    requires nbyte <= buf.Length
    modifies f`content, f`failures
    ensures f.failures == old(f.failures) + if r < 0 then 1 else 0
    ensures r == -1 || r == nbyte
    ensures old(f.content) <= f.content <= old(f.content) + buf[..nbyte]
    ensures r >= 0 ==> f.content == old(f.content) + buf[..nbyte]
  {
    var len: nat, left: nat := 0, nbyte;
    while true
      invariant len + left == nbyte && f.failures == old(f.failures)
      invariant f.content == old(f.content) + buf[..len]
      decreases left
    {
      var c := f.Write(buf, len, left);
      if c < 0 {
        return c;
      }
      assert buf[..len + c] == buf[..len] + buf[len..len + c];
      len := len + c;
      left := left - c;
      if left == 0 {
        break;
      }
    }
    r := len;
  }
}
