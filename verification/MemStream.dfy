/** A seekable stream in memory, and the plain file that it behaves like. */
module MemStream {
  import opened Bytes

  /** `part` is found in `s` at `i`. */
  ghost predicate At(s: seq<byte>, i: nat, part: seq<byte>) {
    i + |part| <= |s| && forall k {:trigger part[k]} | 0 <= k < |part| :: s[i + k] == part[k]
  }

  datatype SeekOrigin = SeekSet | SeekCur | SeekEnd

  /** What is in a file after `data` has been written at `pos`: a gap is filled with zeros. */
  ghost function Overlay(contents: seq<byte>, pos: nat, data: seq<byte>): (s: seq<byte>)
    ensures |s| == if pos + |data| > |contents| then pos + |data| else |contents|
  {
    var size := if pos + |data| > |contents| then pos + |data| else |contents|;
    seq(size, i requires 0 <= i < size =>
      if pos <= i < pos + |data| then data[i - pos] else if i < |contents| then contents[i] else 0)
  }

  /** How many of `n` bytes there are to read at `pos`. */
  function Available(size: nat, pos: nat, n: nat): (k: nat)
  {
    if pos >= size then 0 else if n > size - pos then size - pos else n
  }

  class MpoMemStream {
    var pos: nat
    var totalBytes: nat
    var strBuf: seq<byte>

    ghost predicate Valid()
      reads this
    {
      totalBytes == |strBuf|
    }

    constructor ()
      ensures Valid() && strBuf == [] && pos == 0
    {
      pos, totalBytes, strBuf := 0, 0, [];
    }

    method Read(buf: array<byte>, bytesToRead: nat) returns (n: nat)
      requires Valid() && bytesToRead <= buf.Length
      modifies this`pos, buf
      ensures n == Available(|strBuf|, old(pos), bytesToRead) && pos == old(pos) + n
      ensures n > 0 ==> old(pos) + n <= |strBuf| && buf[..n] == strBuf[old(pos)..old(pos) + n]
      ensures buf[n..] == old(buf[n..])
    {
      n := 0;
      var bytesLeft := 0;
      if totalBytes >= pos {
        bytesLeft := totalBytes - pos;
      }
      var toRead := bytesToRead;
      if toRead > bytesLeft {
        toRead := bytesLeft;
      }
      if toRead > 0 {
        n := toRead;
        forall i | 0 <= i < n {
          buf[i] := strBuf[pos + i];
        }
        pos := pos + n;
      }
    }

    /** Read, where `part` is known to be. */
    method ReadPart(buf: array<byte>, ghost part: seq<byte>, bytesToRead: nat) returns (n: nat)
      requires Valid() && bytesToRead <= buf.Length
      modifies this`pos, buf
      ensures n == Available(|strBuf|, old(pos), bytesToRead) && pos == old(pos) + n
      ensures old(pos) + bytesToRead <= |strBuf| ==> n == bytesToRead && buf[..n] == strBuf[old(pos)..old(pos) + n]
      ensures n > 0 ==> old(pos) + n <= |strBuf| && buf[..n] == strBuf[old(pos)..old(pos) + n]
      ensures At(strBuf, old(pos), part) && |part| == bytesToRead ==> n == bytesToRead && buf[..n] == part
    {
      n := Read(buf, bytesToRead);
    }

    method Write(data: seq<byte>) returns (n: nat)
      requires Valid()
      modifies this
      ensures Valid() && n == |data| && pos == old(pos) + n
      ensures strBuf == Overlay(old(strBuf), old(pos), data)
    {
      if |strBuf| > pos {
        var erased := if |data| < |strBuf| - pos then |data| else |strBuf| - pos;
        strBuf := strBuf[..pos] + strBuf[pos + erased..];
      } else if pos > |strBuf| {
        strBuf := strBuf + seq(pos - |strBuf|, _ => 0);
      }
      strBuf := strBuf[..pos] + data + strBuf[pos..];
      pos := pos + |data|;
      totalBytes := |strBuf|;
      n := |data|;
    }

    /** `w` has been written from the start of a stream that held `orig`. */
    ghost predicate Holds(w: seq<byte>, orig: seq<byte>)
      reads this
    {
      Valid() && pos == |w| && strBuf == w + From(orig, |w|)
    }

    /** Write, at the end of what has been written. */
    method Append(data: seq<byte>, ghost w: seq<byte>, ghost orig: seq<byte>) returns (n: nat)
      requires Holds(w, orig)
      modifies this
      ensures Holds(w + data, orig) && n == |data|
    {
      OverlayParts(strBuf, pos, data);
      n := Write(data);
    }

    /** Write over a placeholder of the same size. */
    method Patch(data: seq<byte>, ghost before: seq<byte>, ghost hole: seq<byte>, ghost after: seq<byte>) returns (n: nat)
      requires Valid() && strBuf == before + hole + after && pos == |before| && |data| == |hole|
      modifies this
      ensures Valid() && strBuf == before + data + after && pos == |before| + |data| && n == |data|
    {
      OverlayParts(strBuf, pos, data);
      n := Write(data);
    }

    method Seek(offset: int, origin: SeekOrigin) returns (ok: bool)
      requires Valid()
      modifies this`pos
      ensures var base := match origin case SeekSet => 0 case SeekCur => old(pos) case SeekEnd => |strBuf|;
              && (ok <==> base + offset >= 0)
              && pos == if ok then base + offset else old(pos)
    {
      ok := false;
      var negOffset := offset * -1;
      var neg := offset < 0;
      match origin
      case SeekEnd =>
        if !neg || negOffset <= totalBytes {
          pos := totalBytes + offset;
          ok := true;
        }
      case SeekSet =>
        if !neg {
          pos := offset;
          ok := true;
        }
      case SeekCur =>
        if !neg || negOffset <= pos {
          pos := pos + offset;
          ok := true;
        }
    }
  }

  /** Writing past the end extends the file, over a gap if need be; within it, the rest stays. */
  lemma OverlayParts(contents: seq<byte>, pos: nat, data: seq<byte>)
    requires pos <= |contents|
    ensures Overlay(contents, pos, data) == contents[..pos] + data + From(contents, pos + |data|)
  {}

  /** What is in `contents` from `pos` on. */
  function From(contents: seq<byte>, pos: nat): seq<byte> {
    if pos < |contents| then contents[pos..] else []
  }

  /** A file remembers: what was written last is read back, and what was written elsewhere stays. */
  lemma OverlayRemembers(contents: seq<byte>, pos: nat, data: seq<byte>)
    ensures var s := Overlay(contents, pos, data);
            && s[pos..pos + |data|] == data
            && (forall i | 0 <= i < |contents| && !(pos <= i < pos + |data|) :: s[i] == contents[i])
            && (forall i | |contents| <= i < pos :: s[i] == 0)
  {}
}
