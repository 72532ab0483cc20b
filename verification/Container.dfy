/** Writing and reading a blob container on a memory stream. */
module Container {
  import opened Bytes
  import opened Powers
  import opened Collections
  import Md5
  import opened MemStream
  import opened ContainerFormat

  /** The digest function that a block function gives rise to. */
  function HashOf(t: Md5.Transform): Hash {
    m => Md5.Digest(t, m)
  }

  datatype Header = Header(version: nat, totalBlobs: nat, offsetTOC: nat, totalMD5: Digest)

  /** Hashes the stream from position `start` to its end, `bufSize` bytes at a time, or to where a callback,
      which gives these answers one by one, says no. */
  method HashFrom(stream: MpoMemStream, start: nat, bufSize: nat, context: Md5.Context, answers: seq<bool>)
    returns (digest: Digest)
    requires stream.Valid() && start <= |stream.strBuf|
    requires 0 < bufSize <= Md5.WORD - 64
    requires context.buffer.Length == 64
    modifies stream`pos, context, context.buffer
    ensures start <= stream.pos <= |stream.strBuf| && stream.pos == StopAt(start, |stream.strBuf|, bufSize, answers)
    ensures digest == Md5.Digest(context.transform, stream.strBuf[start..stream.pos])
  {
    ghost var s := stream.strBuf;
    var _ := stream.Seek(start, SeekSet);
    context.Init();
    var buf := new byte[bufSize];
    var n, calls, keepGoing := bufSize, 0, true;
    while n == bufSize && keepGoing
      invariant Stopping(start, |s|, bufSize, answers, n, stream.pos, calls, keepGoing)
      invariant context.Valid() && fresh(buf) && stream.strBuf == s
      invariant context.message == s[start..stream.pos]
      decreases n == bufSize, |s| - stream.pos
    {
      ghost var pos := stream.pos;
      n := HashNext(stream, start, buf, context);
      StopNext(start, |s|, bufSize, answers, pos, calls, n);
      if calls < |answers| {
        keepGoing := answers[calls];
      }
      calls := calls + 1;
    }
    Stopped(start, |s|, bufSize, answers, n, stream.pos, calls, keepGoing);
    digest := context.Final();
  }

  /** The place of the first answer that is no. */
  function FirstNo(answers: seq<bool>): (k: nat)
    ensures k <= |answers| && (k < |answers| ==> !answers[k]) && forall j | 0 <= j < k :: answers[j]
  {
    if answers == [] || !answers[0] then 0 else 1 + FirstNo(answers[1..])
  }

  /** Where hashing stops: behind the first read that is answered with no, or at the end. */
  function StopAt(start: nat, size: nat, bufSize: nat, answers: seq<bool>): (pos: nat)
    ensures false !in answers ==> pos == size
  {
    var turns := FirstNo(answers) + 1;
    if turns <= |answers| && start + bufSize * turns <= size then start + bufSize * turns else size
  }

  predicate Stopping(start: nat, size: nat, bufSize: nat, answers: seq<bool>, n: nat, pos: nat, calls: nat, keepGoing: bool) {
    var no, full := FirstNo(answers), start + bufSize * calls;
    && (if keepGoing then calls <= no || no == |answers| else calls == no + 1 <= |answers|)
    && start <= pos <= size && (if n == bufSize then pos == full else pos == size < full)
  }

  lemma StopNext(start: nat, size: nat, bufSize: nat, answers: seq<bool>, pos: nat, calls: nat, n: nat)
    requires Stopping(start, size, bufSize, answers, bufSize, pos, calls, true)
    requires n <= bufSize && pos + n <= size && (n != bufSize ==> pos + n == size)
    ensures Stopping(start, size, bufSize, answers, n, pos + n, calls + 1, if calls < |answers| then answers[calls] else true)
  {
    assert bufSize * (calls + 1) == bufSize * calls + bufSize;
  }

  lemma Stopped(start: nat, size: nat, bufSize: nat, answers: seq<bool>, n: nat, pos: nat, calls: nat, keepGoing: bool)
    requires Stopping(start, size, bufSize, answers, n, pos, calls, keepGoing) && (n != bufSize || !keepGoing)
    ensures pos == StopAt(start, size, bufSize, answers)
  {
    if n != bufSize && calls <= FirstNo(answers) + 1 {
      TimesGrows(bufSize, calls, FirstNo(answers) + 1);
    }
  }

  lemma TimesGrows(k: nat, a: nat, b: nat)
    requires a <= b
    ensures k * a <= k * b
  {}

  /** Hashes what fits into the buffer. */
  method HashNext(stream: MpoMemStream, ghost start: nat, buf: array<byte>, context: Md5.Context) returns (n: nat)
    requires stream.Valid() && start <= stream.pos <= |stream.strBuf| && 0 < buf.Length <= Md5.WORD - 64
    requires context.Valid() && context.message == stream.strBuf[start..stream.pos] && buf != context.buffer
    modifies stream`pos, buf, context, context.buffer
    ensures n <= buf.Length && stream.pos == old(stream.pos) + n <= |stream.strBuf|
    ensures n != buf.Length ==> stream.pos == |stream.strBuf|
    ensures context.Valid() && context.message == stream.strBuf[start..stream.pos]
  {
    ghost var s, pos := stream.strBuf, stream.pos;
    n := stream.Read(buf, buf.Length);
    NextPiece(s, start, pos, n, buf[..n]);
    context.Update(buf[..n]);
  }

  lemma NextPiece(s: seq<byte>, start: nat, pos: nat, n: nat, piece: seq<byte>)
    requires start <= pos <= pos + n <= |s| && piece == s[pos..pos + n]
    ensures s[start..pos] + piece == s[start..pos + n]
  {}

  /** What an uninitialised buffer of `n` bytes holds. */
  method Garbage(n: nat) returns (bytes: seq<byte>)
    ensures |bytes| == n
  {
    var buf := new byte[n];
    bytes := buf[..];
  }

  class MpoContainer {
    const stream: MpoMemStream
    const ignoreReadIntegrity: bool
    const md5CurBlob: Md5.Context
    const md5Container: Md5.Context
    var readHeader: bool
    var wroteHeader: bool
    var headerNeedsUpdate: bool
    var writeBlobStarted: bool
    var readBlobStarted: bool
    var curBytesWritten: nat
    var curBlobStartOffset: nat
    var blobSizeBytes: nat
    var blobMD5: Digest
    var curBytesRead: nat
    var curBlobIdx: nat
    var maxBlobSizeBytes: nat
    var header: Header
    var toc: seq<nat>

    ghost const h: Hash

    // while writing: what has been written, the id of the open blob, and what the stream held before
    ghost var draft: Draft
    ghost var openId: Id
    ghost var orig: seq<byte>

    // the number of blobs that a failed ReadHeader has left, from which it is counted on; of the sum, eight
    // bytes are written
    ghost var stale: nat

    ghost function Footprint(): set<object> {
      {this, stream, md5CurBlob, md5CurBlob.buffer, md5Container, md5Container.buffer}
    }

    /** The parts are distinct, and hash alike. */
    ghost predicate Assembled()
      reads this, stream
    {
      && md5CurBlob != md5Container
      && md5CurBlob.buffer != md5Container.buffer
      && md5CurBlob.buffer.Length == 64 == md5Container.buffer.Length
      && md5CurBlob.transform == md5Container.transform
      && h == HashOf(md5CurBlob.transform)
      && stream.Valid()
    }

    /** Nothing has been written or read, except perhaps in vain. */
    ghost predicate Idle()
      reads this
    {
      && !readHeader && !wroteHeader && !headerNeedsUpdate && !writeBlobStarted && !readBlobStarted
      && toc == [] && curBlobIdx == 0 && maxBlobSizeBytes == 0
    }

    ghost predicate Writing()
      reads Footprint()
    {
      && Assembled()
      && wroteHeader && headerNeedsUpdate && !readHeader && !readBlobStarted
      && stream.Holds(BytesOf(h, draft), orig)
      && Sketched(draft, openId, writeBlobStarted)
      && toc == Offsets(draft.blobs, |draft.blobs|)
      && header.totalBlobs == stale + |draft.blobs| && curBlobIdx == |draft.blobs|
      && (writeBlobStarted ==>
            && md5CurBlob.Valid() && md5CurBlob.message == draft.data
            && curBytesWritten == |draft.data|
            && curBlobStartOffset == Offset(draft.blobs, |draft.blobs|))
    }

    /** Writing with a blob open, but for what the stream holds. */
    ghost predicate Open(d: Draft)
      reads Footprint()
    {
      && Assembled()
      && wroteHeader && headerNeedsUpdate && !readHeader && !readBlobStarted && writeBlobStarted
      && Sketched(d, openId, true)
      && toc == Offsets(d.blobs, |d.blobs|)
      && header.totalBlobs == stale + |d.blobs| && curBlobIdx == |d.blobs|
      && md5CurBlob.Valid() && md5CurBlob.message == d.data
      && curBytesWritten == |d.data|
      && curBlobStartOffset == Offset(d.blobs, |d.blobs|)
    }

    constructor (stream: MpoMemStream, ignoreReadIntegrity: bool, transform: Md5.Transform)
      requires stream.Valid()
      ensures Assembled() && Idle() && header.totalBlobs == 0 && this.stream == stream && this.ignoreReadIntegrity == ignoreReadIntegrity
      ensures fresh(Footprint() - {stream}) && md5CurBlob.transform == transform
    {
      this.stream, this.ignoreReadIntegrity := stream, ignoreReadIntegrity;
      md5CurBlob := new Md5.Context(transform);
      md5Container := new Md5.Context(transform);
      readHeader, wroteHeader, headerNeedsUpdate := false, false, false;
      writeBlobStarted, readBlobStarted := false, false;
      curBytesWritten, curBlobStartOffset, blobSizeBytes, curBytesRead := 0, 0, 0, 0;
      curBlobIdx, maxBlobSizeBytes := 0, 0;
      blobMD5 := seq(16, _ => 0);
      header := Header(0, 0, 0xFFFF_FFFF_FFFF_FFFF, seq(16, _ => 0xDD));
      toc, h := [], HashOf(transform);
    }

    /** After a ReadHeader that failed behind the number of blobs, that number stays, and is counted on from. */
    method WriteHeader() returns (ok: bool)
      requires Assembled() && (wroteHeader || readHeader || Idle())
      modifies this, stream
      ensures ok <==> !old(wroteHeader) && !old(readHeader)
      ensures ok ==> Writing() && draft.blobs == [] && !writeBlobStarted && orig == old(stream.strBuf)
      ensures ok ==> stale == old(header.totalBlobs)
      ensures !ok ==> unchanged(this) && unchanged(stream)
    {
      if wroteHeader || readHeader {
        return false;
      }
      ghost var before := stream.strBuf;
      var _ := stream.Seek(0, SeekSet);
      var md5 := Garbage(16);
      var count := Garbage(8);
      var offset := Garbage(8);
      ghost var w := Le(VERSION, 4);
      var n := stream.Append(Le(VERSION, 4), [], before);
      if n == 0 { return false; }
      assert [] + w == w;
      n := stream.Append(md5, w, before);
      if n == 0 { return false; }
      n := stream.Append(count, w + md5, before);
      if n == 0 { return false; }
      n := stream.Append(offset, w + md5 + count, before);
      if n == 0 { return false; }
      ok := true;
      wroteHeader, headerNeedsUpdate := true, true;
      draft, orig, stale := Draft(w + md5 + count + offset, [], [], []), before, header.totalBlobs;
      assert BytesOf(h, draft) == draft.header;
    }

    /** The stream part of StartWriteBlob: placeholders for size and digest, four zero bytes, the id. */
    method AppendBlobHeader(id: Id, ghost d: Draft) returns (ok: bool, ghost begun: Draft)
      requires stream.Holds(BytesOf(h, d), orig) && Sketched(d, openId, false)
      modifies stream
      ensures ok && stream.Holds(BytesOf(h, begun), orig) && old(stream.pos) == Offset(d.blobs, |d.blobs|)
      ensures Sketched(begun, id, true) && begun.blobs == d.blobs && begun.data == []
    {
      ghost var w := BytesOf(h, d);
      RecordsSize(h, d.blobs);
      begun := d;
      var size := Garbage(8);
      var n := stream.Append(size, w, orig);
      if n == 0 { return false, d; }
      var digest := Garbage(16);
      n := stream.Append(digest, w + size, orig);
      if n == 0 { return false, d; }
      var reserved: seq<byte> := [0, 0, 0, 0];
      n := stream.Append(reserved, w + size + digest, orig);
      if n == 0 { return false, d; }
      n := stream.Append(Le(id, 4), w + size + digest + reserved, orig);
      if n == 0 { return false, d; }
      BytesWhenOpened(h, d, size, digest, reserved, Le(id, 4));
      begun := d.(openHeader := size + digest + (reserved + Le(id, 4)));
      ok := true;
    }

    method StartWriteBlob(id: Id) returns (ok: bool)
      requires wroteHeader ==> Writing()
      modifies this`curBlobStartOffset, this`curBytesWritten, this`writeBlobStarted, this`draft, this`openId
      modifies stream, md5CurBlob
      ensures ok <==> wroteHeader && !old(writeBlobStarted)
      ensures ok ==> Writing() && writeBlobStarted
      ensures ok ==> openId == id && draft.data == [] && draft.blobs == old(draft).blobs
      ensures !ok ==> unchanged(this) && unchanged(stream) && unchanged(md5CurBlob)
    {
      ok := false;
      if wroteHeader && !writeBlobStarted {
        ok := BeginBlob(id);
      }
    }

    /** StartWriteBlob, once it may. */
    method BeginBlob(id: Id) returns (ok: bool)
      requires Writing() && !writeBlobStarted
      modifies this`curBlobStartOffset, this`curBytesWritten, this`writeBlobStarted, this`draft, this`openId
      modifies stream, md5CurBlob
      ensures ok && Writing() && writeBlobStarted
      ensures openId == id && draft.data == [] && draft.blobs == old(draft).blobs
    {
      curBlobStartOffset := stream.pos;
      ghost var begun;
      ok, begun := AppendBlobHeader(id, draft);
      if !ok { return; }
      md5CurBlob.Init();
      TrackBlob(id, begun);
    }

    /** The part of StartWriteBlob that concerns neither the stream nor the digest. */
    method TrackBlob(id: Id, ghost begun: Draft)
      requires Assembled() && wroteHeader && headerNeedsUpdate && !readHeader && !readBlobStarted
      requires stream.Holds(BytesOf(h, begun), orig) && Sketched(begun, id, true) && begun.data == []
      requires toc == Offsets(begun.blobs, |begun.blobs|) && curBlobIdx == |begun.blobs|
      requires header.totalBlobs == stale + |begun.blobs|
      requires curBlobStartOffset == Offset(begun.blobs, |begun.blobs|) && md5CurBlob.Valid() && md5CurBlob.message == []
      modifies this`curBytesWritten, this`writeBlobStarted, this`draft, this`openId
      ensures Writing() && writeBlobStarted && openId == id && draft == begun
    {
      openId, draft := id, begun;
      SetStarted();
    }

    method SetStarted()
      requires Assembled() && wroteHeader && headerNeedsUpdate && !readHeader && !readBlobStarted
      requires stream.Holds(BytesOf(h, draft), orig) && Sketched(draft, openId, true) && draft.data == []
      requires toc == Offsets(draft.blobs, |draft.blobs|) && curBlobIdx == |draft.blobs|
      requires header.totalBlobs == stale + |draft.blobs|
      requires curBlobStartOffset == Offset(draft.blobs, |draft.blobs|) && md5CurBlob.Valid() && md5CurBlob.message == []
      modifies this`curBytesWritten, this`writeBlobStarted
      ensures Writing() && writeBlobStarted
    {
      curBytesWritten := 0;
      writeBlobStarted := true;
    }

    method WriteToBlob(data: seq<byte>) returns (n: nat)
      requires writeBlobStarted ==> Writing()
      requires |data| <= Md5.WORD - 64
      modifies this`curBytesWritten, this`draft, stream, md5CurBlob, md5CurBlob.buffer
      ensures n == if writeBlobStarted then |data| else 0
      ensures writeBlobStarted ==> Writing() && draft == old(draft).(data := old(draft).data + data)
      ensures !writeBlobStarted ==> unchanged(this) && unchanged(stream) && unchanged(md5CurBlob)
    {
      n := 0;
      if writeBlobStarted {
        n := ExtendBlob(data);
      }
    }

    /** WriteToBlob, if a blob is open. */
    method ExtendBlob(data: seq<byte>) returns (n: nat)
      requires Writing() && writeBlobStarted && |data| <= Md5.WORD - 64
      modifies this`curBytesWritten, this`draft, stream, md5CurBlob, md5CurBlob.buffer
      ensures n == |data| && Writing() && draft == old(draft).(data := old(draft).data + data)
    {
      n := AppendData(data);
      HashData(data, n);
    }

    /** Its stream part. */
    method AppendData(data: seq<byte>) returns (n: nat)
      requires stream.Holds(BytesOf(h, draft), orig)
      modifies stream
      ensures n == |data| && stream.Holds(BytesOf(h, draft.(data := draft.data + data)), orig)
    {
      BytesWhenExtended(h, draft, data);
      n := stream.Append(data, BytesOf(h, draft), orig);
    }

    /** The rest of it. */
    method HashData(data: seq<byte>, n: nat)
      requires Open(draft) && |data| == n <= Md5.WORD - 64
      requires stream.Holds(BytesOf(h, draft.(data := draft.data + data)), orig)
      modifies this`curBytesWritten, this`draft, md5CurBlob, md5CurBlob.buffer
      ensures Writing() && draft == old(draft).(data := old(draft).data + data)
    {
      curBytesWritten := curBytesWritten + n;
      md5CurBlob.Update(data);
      draft := draft.(data := draft.data + data);
    }

    /** The stream part of EndWriteBlob: back to the blob's header, and forth again. */
    method PatchBlobHeader(ghost w: seq<byte>, ghost size: seq<byte>, ghost digest: seq<byte>, ghost after: seq<byte>)
      returns (ok: bool)
      requires Assembled() && md5CurBlob.Valid()
      requires stream.strBuf == w + size + (digest + after) && |size| == 8 && |digest| == 16 && |w| == curBlobStartOffset
      modifies stream, md5CurBlob, md5CurBlob.buffer
      ensures Assembled() && ok
      ensures stream.strBuf == w + Le(curBytesWritten, 8) + h(old(md5CurBlob.message)) + after
      ensures stream.pos == |w| + 32 + curBytesWritten
    {
      ok := stream.Seek(curBlobStartOffset, SeekSet);
      if !ok { return; }
      var n := stream.Patch(Le(curBytesWritten, 8), w, size, digest + after);
      if n == 0 { return false; }
      var md5 := md5CurBlob.Final();
      assert stream.strBuf == w + Le(curBytesWritten, 8) + digest + after;
      n := stream.Patch(md5, w + Le(curBytesWritten, 8), digest, after);
      if n == 0 { return false; }
      ok := stream.Seek(curBytesWritten + 8, SeekCur);
    }

    method EndWriteBlob() returns (ok: bool)
      requires writeBlobStarted ==> Writing()
      modifies this, stream, md5CurBlob, md5CurBlob.buffer
      ensures ok <==> old(writeBlobStarted)
      ensures ok ==> Writing() && !writeBlobStarted && orig == old(orig) && stale == old(stale)
      ensures ok ==> draft.blobs == old(draft).blobs + [Blob(old(openId), old(draft).data)]
      ensures !ok ==> unchanged(this) && unchanged(stream) && unchanged(md5CurBlob)
    {
      ok := false;
      if writeBlobStarted {
        ghost var ended;
        ok, ended := PatchBlob();
        if !ok { return; }
        RecordBlob(ended);
      }
    }

    /** The stream part of it. */
    method PatchBlob() returns (ok: bool, ghost ended: Draft)
      requires Writing() && writeBlobStarted
      modifies stream, md5CurBlob, md5CurBlob.buffer
      ensures ok && Assembled() && stream.Holds(BytesOf(h, ended), orig) && Sketched(ended, openId, false)
      ensures ended.blobs == draft.blobs + [Blob(openId, draft.data)]
      ensures toc + [curBlobStartOffset] == Offsets(ended.blobs, |ended.blobs|)
    {
      ghost var d, w, after := draft, draft.header + Records(h, draft.blobs), From(orig, |BytesOf(h, draft)|);
      BytesWhenEnded(h, d, openId, after);
      OffsetsNext(d.blobs, Blob(openId, d.data));
      ended := Ended(d, openId);
      ok := PatchBlobHeader(w, d.openHeader[..8], d.openHeader[8..24], d.openHeader[24..] + d.data + after);
    }

    /** And the rest. */
    method RecordBlob(ghost ended: Draft)
      requires Assembled() && wroteHeader && headerNeedsUpdate && !readHeader && !readBlobStarted
      requires Sketched(ended, openId, false) && stream.Holds(BytesOf(h, ended), orig)
      requires toc + [curBlobStartOffset] == Offsets(ended.blobs, |ended.blobs|)
      requires header.totalBlobs + 1 == stale + |ended.blobs| && curBlobIdx + 1 == |ended.blobs|
      modifies this`header, this`curBlobIdx, this`toc, this`draft, this`writeBlobStarted
      ensures Writing() && !writeBlobStarted && draft == ended
    {
      header := header.(totalBlobs := header.totalBlobs + 1);
      curBlobIdx := curBlobIdx + 1;
      toc := toc + [curBlobStartOffset];
      draft := ended;
      writeBlobStarted := false;
    }

    /** Closed, after a write session on a stream that held `before`. */
    ghost predicate Closed(before: seq<byte>)
      reads Footprint()
    {
      && Assembled()
      && wroteHeader && !headerNeedsUpdate && !readHeader && !readBlobStarted && !writeBlobStarted
      && header.totalBlobs == stale + |draft.blobs|
      && stream.strBuf == Written(h, draft.blobs, header.totalBlobs, before)
    }

    method AppendEntry(i: nat, ghost w: seq<byte>, ghost blobs: seq<Blob>)
      requires i < |blobs| && toc == Offsets(blobs, |blobs|) && stream.Holds(w + Table(blobs, i), orig)
      modifies stream
      ensures stream.Holds(w + Table(blobs, i + 1), orig)
    {
      OffsetsAt(blobs, |blobs|, i);
      TableNext(w, blobs, i);
      var _ := stream.Append(Le(toc[i], 8), w + Table(blobs, i), orig);
    }

    method AppendTable(ghost w: seq<byte>, ghost blobs: seq<Blob>)
      requires stream.Holds(w, orig) && toc == Offsets(blobs, |blobs|)
      modifies stream
      ensures stream.Holds(w + Table(blobs, |blobs|), orig)
    {
      NoTable(w, blobs);
      for i := 0 to |toc|
        invariant stream.Holds(w + Table(blobs, i), orig)
      {
        AppendEntry(i, w, blobs);
      }
    }

    /** Fills in the number of blobs and the place of the table. */
    method PatchCounts(ghost before: seq<byte>, ghost count: seq<byte>, ghost offset: seq<byte>, ghost body: seq<byte>)
      returns (ok: bool)
      requires stream.Valid() && stream.strBuf == before + count + (offset + body)
      requires |before| == 20 && |count| == 8 == |offset|
      modifies stream
      ensures ok && stream.Valid()
      ensures stream.strBuf == before + Le(header.totalBlobs, 8) + Le(header.offsetTOC, 8) + body
    {
      ok := stream.Seek(20, SeekSet);
      if !ok { return; }
      var n := stream.Patch(Le(header.totalBlobs, 8), before, count, offset + body);
      if n == 0 { return false; }
      Regroup3(before + Le(header.totalBlobs, 8), offset, body);
      n := stream.Patch(Le(header.offsetTOC, 8), before + Le(header.totalBlobs, 8), offset, body);
      if n == 0 { return false; }
    }

    /** Hashes everything from byte 20 on, and fills in the digest. */
    method PatchDigest(ghost version: seq<byte>, ghost digest: seq<byte>, ghost covered: seq<byte>) returns (ok: bool)
      requires Assembled() && stream.strBuf == version + digest + covered && |version| == 4 && |digest| == 16
      modifies stream, this`header, md5Container, md5Container.buffer
      ensures Assembled() && ok && header == old(header).(totalMD5 := h(covered))
      ensures stream.strBuf == version + h(covered) + covered
    {
      Suffix(version + digest, covered);
      var md5 := HashFrom(stream, 20, 1024 * 1024, md5Container, []);
      assert stream.strBuf[20..|stream.strBuf|] == covered;
      header := header.(totalMD5 := md5);
      ok := stream.Seek(4, SeekSet);
      if !ok { return; }
      var n := stream.Patch(md5, version, digest, covered);
      if n == 0 { return false; }
    }

    /** Appends the table, and fills in the header but for the digest. */
    method PatchHeader(ghost d: Draft, ghost id: Id, ghost count: nat, ghost covered: seq<byte>) returns (ok: bool)
      requires stream.Holds(BytesOf(h, d), orig) && Sketched(d, id, false) && toc == Offsets(d.blobs, |d.blobs|)
      requires header.totalBlobs == count && covered == CoveredOver(h, d.blobs, count, orig)
      modifies this`header, stream
      ensures ok && stream.Valid() && header.totalBlobs == count
      ensures stream.strBuf == Le(VERSION, 4) + d.header[4..20] + covered
    {
      ghost var body := BytesBehind(h, d.blobs, orig);
      BytesWithTable(h, d, id, orig, BytesOf(h, d) + Table(d.blobs, |d.blobs|), body);
      BytesWhenClosed(h, d, id, count, orig, body, Le(count, 8), Le(stream.pos, 8));
      header := header.(offsetTOC := stream.pos);
      AppendTable(BytesOf(h, d), d.blobs);
      ok := PatchCounts(d.header[..20], d.header[20..28], d.header[28..36], body);
    }

    /** Both, which makes a container of the draft if its number of blobs is right. */
    method WriteOut(ghost d: Draft, ghost id: Id, ghost count: nat) returns (ok: bool)
      requires Assembled() && stream.Holds(BytesOf(h, d), orig) && Sketched(d, id, false)
      requires toc == Offsets(d.blobs, |d.blobs|) && header.totalBlobs == count
      modifies this`header, stream, md5Container, md5Container.buffer
      ensures ok && Assembled() && header.totalBlobs == count && stream.strBuf == Written(h, d.blobs, count, orig)
    {
      ghost var covered := CoveredOver(h, d.blobs, count, orig);
      WrittenIs(h, d.blobs, count, orig, covered);
      ok := PatchHeader(d, id, count, covered);
      if !ok { return; }
      ok := PatchDigest(Le(VERSION, 4), d.header[4..20], covered);
    }

    /** What Close does once no blob is open. */
    method FinishHeader() returns (ok: bool)
      requires Writing() && !writeBlobStarted
      modifies this`header, this`headerNeedsUpdate, stream, md5Container, md5Container.buffer
      ensures ok && Closed(orig)
    {
      ok := WriteOut(draft, openId, header.totalBlobs);
      if !ok { return; }
      headerNeedsUpdate := false;
    }

    method Close() returns (ok: bool)
      requires headerNeedsUpdate ==> Writing()
      requires writeBlobStarted ==> headerNeedsUpdate
      modifies this, stream, md5CurBlob, md5CurBlob.buffer, md5Container, md5Container.buffer
      ensures ok
      ensures old(headerNeedsUpdate) ==> Closed(old(orig)) && stale == old(stale)
      ensures old(headerNeedsUpdate) && !old(writeBlobStarted) ==> draft.blobs == old(draft).blobs
      ensures old(writeBlobStarted) ==> draft.blobs == old(draft).blobs + [Blob(old(openId), old(draft).data)]
      ensures !old(headerNeedsUpdate) ==> unchanged(this) && unchanged(stream)
    {
      ok := true;
      if writeBlobStarted {
        var _ := EndWriteBlob();
      }
      if headerNeedsUpdate {
        ok := FinishHeader();
      }
    }

    // ---- reading ----

    ghost predicate Reading()
      reads Footprint()
    {
      && Assembled()
      && readHeader && !wroteHeader && !headerNeedsUpdate && !writeBlobStarted
      && |toc| == header.totalBlobs
      && (readBlobStarted ==> curBytesRead <= blobSizeBytes && (ignoreReadIntegrity || md5CurBlob.Valid()))
    }

    /** Reading, from a container of just these blobs. */
    ghost predicate ReadingFrom(blobs: seq<Blob>)
      reads Footprint()
    {
      && Reading()
      && IsContainer(h, stream.strBuf, blobs)
      && toc == Offsets(blobs, |blobs|)
      && header.totalMD5 == h(stream.strBuf[20..])
      && (readBlobStarted ==> InBlob(blobs))
    }

    /** The open blob's data has been read up to `curBytesRead`. */
    ghost predicate InBlob(blobs: seq<Blob>)
      reads Footprint()
    {
      && curBlobIdx < |blobs|
      && var data := blobs[curBlobIdx].data;
      && curBytesRead <= blobSizeBytes == |data|
      && blobMD5 == h(data)
      && stream.pos == Offset(blobs, curBlobIdx) + BLOB_HEADER + curBytesRead
      && (!ignoreReadIntegrity ==> md5CurBlob.message == data[..curBytesRead])
    }

    /** Reads an integer of `width` bytes; false if there are not that many left. */
    method ReadNumber(buf: array<byte>, width: nat, ghost value: nat) returns (ok: bool, u: nat)
      requires stream.Valid() && 0 < width <= buf.Length
      modifies stream`pos, buf
      ensures ok <==> old(stream.pos) + width <= |stream.strBuf|
      ensures ok ==> stream.pos == old(stream.pos) + width
      ensures ok ==> u == FromLe(stream.strBuf[old(stream.pos)..old(stream.pos) + width])
      ensures u < Pow(256, width)
      ensures At(stream.strBuf, old(stream.pos), Le(value, width)) && value < Pow(256, width) ==> ok && u == value
    {
      var n := stream.ReadPart(buf, Le(value, width), width);
      ok := n == width;
      FromLeInverse(buf[..width]);
      u := FromLe(buf[..width]);
      if value < Pow(256, width) {
        LeInverse(value, width);
      }
    }

    /** The first part of ReadHeader: the fixed fields. */
    method ReadFixedFields(ghost blobs: seq<Blob>) returns (ok: bool)
      requires stream.Valid()
      modifies stream`pos, this`header
      ensures ok <==> |stream.strBuf| >= HEADER && At(stream.strBuf, 0, Le(VERSION, 4))
      ensures ok ==> stream.pos == HEADER
      ensures header.totalBlobs == CountLeft(stream.strBuf, old(header.totalBlobs))
      ensures ok ==> var s := stream.strBuf; header == Header(VERSION, FromLe(s[20..28]), FromLe(s[28..36]), s[4..20])
      ensures |blobs| < U64 && Offset(blobs, |blobs|) < U64 && HasHeader(h, stream.strBuf, blobs) ==>
                && header.totalBlobs == |blobs| && header.offsetTOC == Offset(blobs, |blobs|)
                && header.totalMD5 == h(stream.strBuf[20..])
    {
      WordSizes();
      var _ := stream.Seek(0, SeekSet);
      var buf := new byte[16];
      var u;
      ok, u := ReadNumber(buf, 4, VERSION);
      if !ok { return; }
      VersionRead(stream.strBuf);
      header := header.(version := u);
      if u != VERSION { return false; }
      ghost var digest := if |stream.strBuf| >= 20 then h(stream.strBuf[20..]) else [];
      var n := stream.ReadPart(buf, digest, 16);
      if n != 16 { return false; }
      var md5 := buf[..16];
      assert |md5| == 16;
      header := header.(totalMD5 := md5);
      ok, u := ReadNumber(buf, 8, |blobs|);
      if !ok { return; }
      header := header.(totalBlobs := u);
      ok, u := ReadNumber(buf, 8, Offset(blobs, |blobs|));
      if !ok { return; }
      header := header.(offsetTOC := u);
    }

    /** One entry of the table of contents. */
    method ReadEntry(buf: array<byte>, ghost i: nat, ghost blobs: seq<Blob>, ghost genuine: bool) returns (u: nat)
      requires stream.Valid() && buf.Length == 16
      requires genuine ==>
                 && i < |blobs| && Offset(blobs, |blobs|) < U64
                 && HasEntries(stream.strBuf, blobs, |blobs|) && stream.pos == Offset(blobs, |blobs|) + 8 * i
      modifies stream`pos, buf
      ensures genuine ==> u == Offset(blobs, i) && stream.pos == old(stream.pos) + 8
      ensures old(stream.pos) + 8 <= |stream.strBuf| ==>
                stream.pos == old(stream.pos) + 8 && u == FromLe(stream.strBuf[old(stream.pos)..stream.pos])
    {
      ghost var expected: nat := 0;
      if genuine {
        WordSizes();
        OffsetsOrdered(blobs, i, |blobs|);
        EntryHad(stream.strBuf, blobs, |blobs|, i);
        expected := Offset(blobs, i);
      }
      var ok;
      ok, u := ReadNumber(buf, 8, expected);
    }

    /** The second part: the table of contents. */
    method ReadTable(ghost blobs: seq<Blob>, ghost genuine: bool)
      requires stream.Valid() && toc == []
      requires genuine ==>
                 && header.totalBlobs == |blobs| && header.offsetTOC == Offset(blobs, |blobs|) < 0x8000_0000_0000_0000
                 && HasEntries(stream.strBuf, blobs, |blobs|)
      modifies stream`pos, this`toc
      ensures |toc| == header.totalBlobs
      ensures TableWithin(stream.strBuf, header) ==>
                forall k: nat {:trigger toc[k]} | k < |toc| :: toc[k] == EntryOf(stream.strBuf, header.offsetTOC, k)
      ensures genuine ==> toc == Offsets(blobs, |blobs|)
    {
      WordSizes();
      var _ := stream.Seek(SignedOffset(header.offsetTOC), SeekSet);
      var buf := new byte[16];
      for i := 0 to header.totalBlobs
        invariant |toc| == i
        invariant TableWithin(stream.strBuf, header) ==>
                    && stream.pos == header.offsetTOC + 8 * i
                    && forall k: nat {:trigger toc[k]} | k < |toc| :: toc[k] == EntryOf(stream.strBuf, header.offsetTOC, k)
        invariant genuine ==> stream.pos == Offset(blobs, |blobs|) + 8 * i
        invariant genuine ==> toc == Offsets(blobs, i)
        modifies stream`pos, this`toc, buf
      {
        var u := ReadEntry(buf, i, blobs, genuine);
        toc := toc + [u];
      }
    }

    /** The third part: the size of the largest blob, from the distances between the offsets. */
    method MeasureBlobs(ghost blobs: seq<Blob>, ghost genuine: bool)
      requires genuine ==> maxBlobSizeBytes == 0 && toc == Offsets(blobs, |blobs|) && header.offsetTOC == Offset(blobs, |blobs|) < U64
      modifies this`maxBlobSizeBytes
      ensures genuine ==> maxBlobSizeBytes == Largest(blobs, |blobs|)
    {
      var stIdx := 1;
      while stIdx < |toc|
        invariant 1 <= stIdx && (toc != [] ==> stIdx <= |toc|)
        invariant genuine && toc != [] ==> maxBlobSizeBytes == Largest(blobs, stIdx - 1)
        invariant genuine && toc == [] ==> maxBlobSizeBytes == 0
      {
        var diff := SizeBetween(toc[stIdx - 1], toc[stIdx]);
        if genuine {
          OffsetsAt(blobs, |blobs|, stIdx - 1);
          OffsetsAt(blobs, |blobs|, stIdx);
          OffsetsOrdered(blobs, stIdx, |blobs|);
          DistanceIsSize(blobs, stIdx);
        }
        if diff > maxBlobSizeBytes {
          maxBlobSizeBytes := diff;
        }
        stIdx := stIdx + 1;
      }
      if toc != [] {
        var diff := SizeBetween(toc[|toc| - 1], header.offsetTOC);
        if genuine {
          OffsetsAt(blobs, |blobs|, |blobs| - 1);
          DistanceIsSize(blobs, |blobs|);
        }
        if diff > maxBlobSizeBytes {
          maxBlobSizeBytes := diff;
        }
      }
    }

    /** Accepts any stream that starts with the version and is long enough for a header. */
    method ReadHeader(ghost blobs: seq<Blob>) returns (ok: bool)
      requires Assembled() && (wroteHeader || readHeader || Idle())
      modifies this, stream`pos
      ensures ok <==> && !old(wroteHeader) && !old(readHeader)
                      && |stream.strBuf| >= HEADER && At(stream.strBuf, 0, Le(VERSION, 4))
      ensures Assembled() && (!ok ==> readHeader == old(readHeader))
      ensures !ok && old(Idle()) ==> Idle() && header.totalBlobs == CountLeft(stream.strBuf, old(header.totalBlobs))
      ensures ok ==> Reading() && !readBlobStarted && curBlobIdx == 0 && stream.pos == HEADER
      ensures ok ==> var s := stream.strBuf; header == Header(VERSION, FromLe(s[20..28]), FromLe(s[28..36]), s[4..20])
      ensures ok && TableWithin(stream.strBuf, header) ==>
                forall k: nat {:trigger toc[k]} | k < |toc| :: toc[k] == EntryOf(stream.strBuf, header.offsetTOC, k)
      ensures ok && IsContainer(h, stream.strBuf, blobs) ==>
                ReadingFrom(blobs) && maxBlobSizeBytes == Largest(blobs, |blobs|)
    {
      if wroteHeader || readHeader {
        return false;
      }
      ok := ReadFixedFields(blobs);
      if !ok { return; }
      ReadRest(blobs, IsContainer(h, stream.strBuf, blobs));
    }

    /** What ReadHeader does once it has the fixed fields. */
    method ReadRest(ghost blobs: seq<Blob>, ghost genuine: bool)
      requires Assembled() && Idle() && stream.pos == HEADER
      requires genuine ==>
                 && IsContainer(h, stream.strBuf, blobs) && header.totalBlobs == |blobs|
                 && header.offsetTOC == Offset(blobs, |blobs|) && header.totalMD5 == h(stream.strBuf[20..])
      modifies this`toc, this`maxBlobSizeBytes, this`readHeader, stream`pos
      ensures Reading() && !readBlobStarted && stream.pos == HEADER
      ensures TableWithin(stream.strBuf, header) ==>
                forall k: nat {:trigger toc[k]} | k < |toc| :: toc[k] == EntryOf(stream.strBuf, header.offsetTOC, k)
      ensures genuine ==> ReadingFrom(blobs) && maxBlobSizeBytes == Largest(blobs, |blobs|)
    {
      var curPos := stream.pos;
      ReadTable(blobs, genuine);
      MeasureBlobs(blobs, genuine);
      var _ := stream.Seek(SignedOffset(curPos), SeekSet);
      readHeader := true;
    }

    method JumpToBlob(blobIdx: nat, ghost blobs: seq<Blob>) returns (ok: bool)
      requires readHeader ==> Reading()
      requires stream.Valid()
      modifies this`curBlobIdx, stream`pos
      ensures ok <==> readHeader && !readBlobStarted && blobIdx < header.totalBlobs
      ensures ok ==> Reading() && curBlobIdx == blobIdx
      ensures ok && toc[blobIdx] < 0x8000_0000_0000_0000 ==> stream.pos == toc[blobIdx]
      ensures !ok ==> curBlobIdx == old(curBlobIdx) && stream.pos == old(stream.pos)
      ensures old(readHeader && ReadingFrom(blobs)) ==> ReadingFrom(blobs) && (ok ==> stream.pos == Offset(blobs, blobIdx))
    {
      if !readHeader || readBlobStarted {
        return false;
      }
      if blobIdx >= header.totalBlobs {
        return false;
      }
      if ReadingFrom(blobs) {
        OffsetsAt(blobs, |blobs|, blobIdx);
        OffsetsOrdered(blobs, blobIdx, |blobs|);
      }
      var _ := stream.Seek(SignedOffset(toc[blobIdx]), SeekSet);
      curBlobIdx := blobIdx;
      ok := true;
    }

    /** Reads the 32 bytes in front of a blob's data. */
    method ReadBlobHeader(ghost blobs: seq<Blob>, ghost genuine: bool) returns (ok: bool, id: nat)
      requires stream.Valid()
      requires genuine ==> curBlobIdx < |blobs| && HasRecords(h, stream.strBuf, blobs, |blobs|)
      requires genuine ==> stream.pos == Offset(blobs, curBlobIdx) && |stream.strBuf| < U64
      modifies stream`pos, this`blobSizeBytes, this`blobMD5
      ensures genuine ==>
                && ok && id == blobs[curBlobIdx].id
                && blobSizeBytes == |blobs[curBlobIdx].data| && blobMD5 == h(blobs[curBlobIdx].data)
                && stream.pos == old(stream.pos) + BLOB_HEADER
      ensures ok <==> IsReadable(stream.strBuf, old(stream.pos))
      ensures ok ==> HeaderRead(stream.strBuf, old(stream.pos), blobSizeBytes, blobMD5, id, stream.pos)
    {
      id := 0;
      ghost var b := Blob(0, []);
      if genuine {
        b := blobs[curBlobIdx];
        RecordHad(h, stream.strBuf, blobs, |blobs|, curBlobIdx);
      }
      ok := ReadSizeAndDigest(b, genuine);
      if !ok { return; }
      ok, id := ReadId(b, genuine);
    }

    method ReadSizeAndDigest(ghost b: Blob, ghost genuine: bool) returns (ok: bool)
      requires stream.Valid()
      requires genuine ==> |stream.strBuf| < U64 && |b.data| <= |stream.strBuf|
      requires genuine ==> At(stream.strBuf, stream.pos, Le(|b.data|, 8)) && At(stream.strBuf, stream.pos + 8, h(b.data))
      modifies stream`pos, this`blobSizeBytes, this`blobMD5
      ensures genuine ==> ok && blobSizeBytes == |b.data| && blobMD5 == h(b.data) && stream.pos == old(stream.pos) + 24
      ensures ok <==> old(stream.pos) + 8 < |stream.strBuf|
      ensures var s, p := stream.strBuf, old(stream.pos);
              ok ==> if p + 24 <= |s| then stream.pos == p + 24 && blobSizeBytes == FromLe(s[p..p + 8]) && blobMD5 == s[p + 8..p + 24]
                     else stream.pos == |s|
    {
      WordSizes();
      var buf := new byte[16];
      var n := stream.ReadPart(buf, Le(|b.data|, 8), 8);
      if n == 0 { return false; }
      LeInverse(if genuine then |b.data| else 0, 8);
      blobSizeBytes := FromLe(buf[..8]);
      n := stream.ReadPart(buf, h(b.data), 16);
      if n == 0 { return false; }
      blobMD5 := buf[..16];
      ok := true;
    }

    /** The four reserved bytes, which have to be 0, and the id. */
    method ReadId(ghost b: Blob, ghost genuine: bool) returns (ok: bool, id: nat)
      requires stream.Valid()
      requires genuine ==> At(stream.strBuf, stream.pos, [0, 0, 0, 0]) && At(stream.strBuf, stream.pos + 4, Le(b.id, 4))
      modifies stream`pos
      ensures genuine ==> ok && id == b.id && stream.pos == old(stream.pos) + 8
      ensures var s, p := stream.strBuf, old(stream.pos);
              && (ok <==> p + 4 < |s| && s[p..p + 4] == [0, 0, 0, 0])
              && (ok && p + 8 <= |s| ==> id == FromLe(s[p + 4..p + 8]))
              && (ok ==> stream.pos == if p + 8 <= |s| then p + 8 else |s|)
    {
      WordSizes();
      id := 0;
      var buf := new byte[16];
      var reserved: seq<byte> := [0, 0, 0, 0];
      var n := stream.ReadPart(buf, reserved, 4);
      if n == 0 { return false, id; }
      id := FromLe(buf[..4]);
      ZeroBytes(buf[..4]);
      if id != 0 { return false, id; }
      n := stream.ReadPart(buf, Le(b.id, 4), 4);
      if n == 0 { return false, id; }
      LeInverse(b.id, 4);
      id := FromLe(buf[..4]);
      ok := true;
    }

    method StartReadBlob(ghost blobs: seq<Blob>) returns (ok: bool, id: nat)
      requires readHeader ==> Reading()
      requires stream.Valid()
      modifies this`curBlobStartOffset, this`blobSizeBytes, this`blobMD5, this`curBytesRead, this`readBlobStarted
      modifies stream`pos, md5CurBlob
      ensures ok <==> && readHeader && !old(readBlobStarted) && curBlobIdx < header.totalBlobs
                      && IsReadable(stream.strBuf, old(stream.pos))
      ensures ok ==> HeaderRead(stream.strBuf, old(stream.pos), blobSizeBytes, blobMD5, id, stream.pos)
      ensures ok ==> readBlobStarted && curBytesRead == 0
      ensures readHeader ==> Reading() && (!ok ==> readBlobStarted == old(readBlobStarted))
      ensures !readHeader || old(readBlobStarted) ==> unchanged(this) && unchanged(stream) && unchanged(md5CurBlob)
      ensures ok && !ignoreReadIntegrity ==> md5CurBlob.message == []
      ensures old(readHeader && ReadingFrom(blobs)) && !old(readBlobStarted) && curBlobIdx < |blobs|
              && old(stream.pos) == Offset(blobs, curBlobIdx) ==>
                ok && ReadingFrom(blobs) && id == blobs[curBlobIdx].id
    {
      ok, id := false, 0;
      if !readHeader || readBlobStarted {
        return;
      }
      if curBlobIdx >= header.totalBlobs {
        return;
      }
      ok, id := OpenBlob(blobs, ReadingFrom(blobs) && stream.pos == Offset(blobs, curBlobIdx));
    }

    /** StartReadBlob, once it may. */
    method OpenBlob(ghost blobs: seq<Blob>, ghost genuine: bool) returns (ok: bool, id: nat)
      requires Reading() && !readBlobStarted && curBlobIdx < header.totalBlobs
      requires genuine ==> ReadingFrom(blobs) && stream.pos == Offset(blobs, curBlobIdx)
      modifies this`curBlobStartOffset, this`blobSizeBytes, this`blobMD5, this`curBytesRead, this`readBlobStarted
      modifies stream`pos, md5CurBlob
      ensures ok <==> IsReadable(stream.strBuf, old(stream.pos))
      ensures ok ==> HeaderRead(stream.strBuf, old(stream.pos), blobSizeBytes, blobMD5, id, stream.pos)
      ensures Reading() && readBlobStarted == ok && (ok ==> curBytesRead == 0)
      ensures ok && !ignoreReadIntegrity ==> md5CurBlob.message == []
      ensures genuine ==> ok && ReadingFrom(blobs) && id == blobs[curBlobIdx].id
    {
      curBlobStartOffset := stream.pos;
      ok, id := ReadBlobHeader(blobs, genuine);
      if !ok { return; }
      EnterBlob(blobs, genuine);
    }

    /** The part of StartReadBlob that does not concern the stream. */
    method EnterBlob(ghost blobs: seq<Blob>, ghost genuine: bool)
      requires Reading() && !readBlobStarted
      requires genuine ==> ReadingFrom(blobs) && curBlobIdx < |blobs|
      requires genuine ==> var data := blobs[curBlobIdx].data;
                 blobSizeBytes == |data| && blobMD5 == h(data) && stream.pos == Offset(blobs, curBlobIdx) + BLOB_HEADER
      modifies this`curBytesRead, this`readBlobStarted, md5CurBlob
      ensures Reading() && readBlobStarted && curBytesRead == 0 && (!ignoreReadIntegrity ==> md5CurBlob.message == [])
      ensures genuine ==> ReadingFrom(blobs)
    {
      if !ignoreReadIntegrity {
        md5CurBlob.Init();
      }
      curBytesRead := 0;
      readBlobStarted := true;
    }

    /** The part of ReadFromBlob that is beyond the check for the blob's end. */
    method ReadPiece(buf: array<byte>, toRead: nat, ghost blobs: seq<Blob>, ghost genuine: bool) returns (n: nat)
      requires stream.Valid() && toRead <= buf.Length && toRead <= Md5.WORD - 64
      requires buf != md5CurBlob.buffer && (ignoreReadIntegrity || md5CurBlob.Valid())
      requires genuine ==> HasRecords(h, stream.strBuf, blobs, |blobs|) && InBlob(blobs) && curBytesRead + toRead <= blobSizeBytes
      modifies this`curBytesRead, stream`pos, md5CurBlob, md5CurBlob.buffer, buf
      ensures n <= toRead && curBytesRead == old(curBytesRead) + n && stream.pos == old(stream.pos) + n
      ensures ignoreReadIntegrity || (md5CurBlob.Valid() && md5CurBlob.message == old(md5CurBlob.message) + buf[..n])
      ensures TakenFrom(stream.strBuf, old(stream.pos), toRead, buf[..n])
      ensures genuine ==> n == toRead && InBlob(blobs) && buf[..n] == blobs[curBlobIdx].data[old(curBytesRead)..curBytesRead]
    {
      ghost var part: seq<byte> := [];
      if genuine {
        part := blobs[curBlobIdx].data[curBytesRead..curBytesRead + toRead];
        PieceAt(h, stream.strBuf, blobs, curBlobIdx, curBytesRead, part, stream.pos);
      }
      n := stream.ReadPart(buf, part, toRead);
      curBytesRead := curBytesRead + n;
      if !ignoreReadIntegrity {
        md5CurBlob.Update(buf[..n]);
      }
    }

    method ReadFromBlob(buf: array<byte>, numBytes: nat, ghost blobs: seq<Blob>) returns (n: nat)
      requires readHeader ==> Reading()
      requires readBlobStarted ==> readHeader
      requires stream.Valid()
      requires numBytes <= buf.Length && numBytes <= Md5.WORD - 64
      requires buf != md5CurBlob.buffer && buf != md5Container.buffer
      modifies this`curBytesRead, stream`pos, md5CurBlob, md5CurBlob.buffer, buf
      ensures n <= numBytes && curBytesRead == old(curBytesRead) + n && stream.pos == old(stream.pos) + n
      ensures !readBlobStarted ==> n == 0 && unchanged(buf) && unchanged(stream)
      ensures readHeader ==> Reading()
      ensures readBlobStarted ==>
                && TakenFrom(stream.strBuf, old(stream.pos), Available(blobSizeBytes, old(curBytesRead), numBytes), buf[..n])
                && (!ignoreReadIntegrity ==> md5CurBlob.message == old(md5CurBlob.message) + buf[..n])
      ensures old(readHeader && ReadingFrom(blobs)) ==> ReadingFrom(blobs)
      ensures old(readHeader && ReadingFrom(blobs)) && readBlobStarted ==>
                && n == Available(blobSizeBytes, old(curBytesRead), numBytes)
                && buf[..n] == blobs[curBlobIdx].data[old(curBytesRead)..curBytesRead]
    {
      n := 0;
      if readBlobStarted {
        var toRead := numBytes;
        if toRead + curBytesRead > blobSizeBytes {
          toRead := blobSizeBytes - curBytesRead;
        }
        n := ReadPiece(buf, toRead, blobs, ReadingFrom(blobs));
      }
    }

    method CheckDigest() returns (ok: bool)
      requires ignoreReadIntegrity || md5CurBlob.Valid()
      modifies md5CurBlob, md5CurBlob.buffer
      ensures ok <==> ignoreReadIntegrity || HashOf(md5CurBlob.transform)(old(md5CurBlob.message)) == blobMD5
    {
      ok := false;
      if !ignoreReadIntegrity {
        var md5 := md5CurBlob.Final();
        if md5 == blobMD5 {
          ok := true;
        }
      } else {
        ok := true;
      }
    }

    /** True exactly when the blob has been read to its end and, unless told to ignore it, its digest is right. */
    method EndReadBlob(ghost blobs: seq<Blob>) returns (ok: bool)
      requires readHeader ==> Reading()
      requires readBlobStarted ==> readHeader
      modifies this`readBlobStarted, this`curBlobIdx, md5CurBlob, md5CurBlob.buffer
      ensures ok <==> && old(readBlobStarted) && curBytesRead == blobSizeBytes
                      && (ignoreReadIntegrity || h(old(md5CurBlob.message)) == blobMD5)
      ensures readBlobStarted <==> old(readBlobStarted) && curBytesRead != blobSizeBytes
      ensures curBlobIdx == old(curBlobIdx) + if old(readBlobStarted) && !readBlobStarted then 1 else 0
      ensures readHeader ==> Reading()
      ensures old(readHeader && ReadingFrom(blobs)) ==> ReadingFrom(blobs)
      ensures old(readHeader && ReadingFrom(blobs)) && old(readBlobStarted) && !readBlobStarted ==>
                ok && stream.pos == Offset(blobs, curBlobIdx)
    {
      ok := false;
      if readBlobStarted {
        if curBytesRead == blobSizeBytes {
          ok := LeaveBlob(blobs, ReadingFrom(blobs));
        }
      }
    }

    /** EndReadBlob, at the end of the blob. */
    method LeaveBlob(ghost blobs: seq<Blob>, ghost genuine: bool) returns (ok: bool)
      requires Reading() && readBlobStarted && curBytesRead == blobSizeBytes
      requires genuine ==> ReadingFrom(blobs)
      modifies this`readBlobStarted, this`curBlobIdx, md5CurBlob, md5CurBlob.buffer
      ensures ok <==> ignoreReadIntegrity || h(old(md5CurBlob.message)) == blobMD5
      ensures Reading() && !readBlobStarted && curBlobIdx == old(curBlobIdx) + 1
      ensures genuine ==> ok && ReadingFrom(blobs) && stream.pos == Offset(blobs, curBlobIdx)
    {
      if genuine {
        WholeBlob(blobs[curBlobIdx].data);
      }
      ok := CheckDigest();
      NextBlob(blobs, genuine);
    }

    method NextBlob(ghost blobs: seq<Blob>, ghost genuine: bool)
      requires Assembled() && readHeader && !wroteHeader && !headerNeedsUpdate && !writeBlobStarted && |toc| == header.totalBlobs
      requires genuine ==>
                 && IsContainer(h, stream.strBuf, blobs) && toc == Offsets(blobs, |blobs|)
                 && header.totalMD5 == h(stream.strBuf[20..]) && curBlobIdx < |blobs|
                 && stream.pos == Offset(blobs, curBlobIdx + 1)
      modifies this`readBlobStarted, this`curBlobIdx
      ensures Reading() && !readBlobStarted && curBlobIdx == old(curBlobIdx) + 1
      ensures genuine ==> ReadingFrom(blobs) && stream.pos == Offset(blobs, curBlobIdx)
    {
      readBlobStarted := false;
      curBlobIdx := curBlobIdx + 1;
    }

    /** True exactly when the digest in the header is that of everything behind it, or of as much as the
        callback has let it look at. Leaves the stream where it has stopped. */
    method VerifyContainer(updateIntervalBytes: nat, answers: seq<bool>, ghost blobs: seq<Blob>) returns (ok: bool)
      requires readHeader ==> Reading()
      requires stream.Valid() && (readHeader ==> |stream.strBuf| >= HEADER)
      modifies stream`pos
      ensures ok <==> && readHeader && curBlobIdx == 0 && !readBlobStarted
                      && 20 <= stream.pos <= |stream.strBuf| && header.totalMD5 == h(stream.strBuf[20..stream.pos])
      ensures readHeader && curBlobIdx == 0 && !readBlobStarted && false !in answers ==>
                stream.pos == |stream.strBuf| && (ok <==> header.totalMD5 == h(stream.strBuf[20..]))
      ensures readHeader && curBlobIdx == 0 && !readBlobStarted ==>
                stream.pos == StopAt(20, |stream.strBuf|, if 0 < updateIntervalBytes <= 0x40_0000 then updateIntervalBytes else 0x40_0000, answers)
      ensures old(readHeader && ReadingFrom(blobs)) && curBlobIdx == 0 && !readBlobStarted ==>
                ReadingFrom(blobs) && (false !in answers ==> ok)
    {
      if !readHeader { return false; }
      if curBlobIdx != 0 { return false; }
      if readBlobStarted { return false; }
      var _ := stream.Seek(0, SeekEnd);
      var bufSize := updateIntervalBytes;
      if bufSize == 0 || bufSize > 0x40_0000 {
        bufSize := 0x40_0000;
      }
      var md5c := new Md5.Context(md5CurBlob.transform);
      var md5 := HashFrom(stream, 20, bufSize, md5c, answers);
      assert stream.strBuf[20..|stream.strBuf|] == stream.strBuf[20..];
      ok := md5 == header.totalMD5;
    }
  }

  /** The number of blobs that an attempt to read a header leaves, where it was `before`. */
  ghost function CountLeft(s: seq<byte>, before: nat): nat {
    if |s| >= 28 && At(s, 0, Le(VERSION, 4)) then FromLe(s[20..28]) else before
  }

  /** All of the table that a header announces is there, within reach of a signed 64-bit offset. */
  ghost predicate TableWithin(s: seq<byte>, header: Header) {
    header.offsetTOC < 0x8000_0000_0000_0000 && header.offsetTOC + 8 * header.totalBlobs <= |s|
  }

  function EntryOf(s: seq<byte>, offset: nat, k: nat): nat
    requires offset + 8 * k + 8 <= |s|
  {
    FromLe(s[offset + 8 * k..offset + 8 * k + 8])
  }

  /** Where StartReadBlob succeeds: there are more than 28 bytes left, and the reserved ones are 0. */
  ghost predicate IsReadable(s: seq<byte>, p: nat) {
    p + 28 < |s| && s[p + 24..p + 28] == [0, 0, 0, 0]
  }

  /** What it finds there, and where it leaves the stream. */
  ghost predicate HeaderRead(s: seq<byte>, p: nat, size: nat, md5: Digest, id: nat, now: nat) {
    && p + 28 <= |s| && size == FromLe(s[p..p + 8]) && md5 == s[p + 8..p + 24]
    && now == (if p + 32 <= |s| then p + 32 else |s|)
    && (p + 32 <= |s| ==> id == FromLe(s[p + 28..p + 32]))
  }

  /** `piece` is what a read of `n` bytes at `p` finds. */
  ghost predicate TakenFrom(s: seq<byte>, p: nat, n: nat, piece: seq<byte>) {
    |piece| == Available(|s|, p, n) && (piece != [] ==> p + |piece| <= |s| && piece == s[p..p + |piece|])
  }

  lemma ZeroBytes(bytes: seq<byte>)
    requires |bytes| == 4
    ensures FromLe(bytes) == 0 <==> bytes == [0, 0, 0, 0]
  {
    FromLeInverse(bytes);
    assert Le(0, 4) == [0, 0, 0, 0];
    LeInverse(0, 4);
  }

  /** Where to find a piece of a blob's data. */
  lemma PieceAt(h: Hash, s: seq<byte>, blobs: seq<Blob>, i: nat, start: nat, piece: seq<byte>, place: nat)
    requires i < |blobs| && HasRecords(h, s, blobs, |blobs|)
    requires start + |piece| <= |blobs[i].data| && piece == blobs[i].data[start..start + |piece|]
    requires place == Offset(blobs, i) + BLOB_HEADER + start
    ensures At(s, place, piece) && blobs[i].data[..start + |piece|] == blobs[i].data[..start] + piece
  {
    RecordHad(h, s, blobs, |blobs|, i);
    AtSlice(blobs[i].data, start, |piece|);
    AtPlace(s, Offset(blobs, i) + BLOB_HEADER, blobs[i].data, start, piece, place);
  }

  lemma WholeBlob(data: seq<byte>)
    ensures data[..|data|] == data
  {}

  /** What an unsigned 64-bit position means to Seek, whose offset is signed. */
  function SignedOffset(u: nat): (offset: int)
    ensures u < 0x8000_0000_0000_0000 ==> offset == u
  {
    if u < 0x8000_0000_0000_0000 then u else u - U64
  }

  lemma VersionRead(s: seq<byte>)
    requires |s| >= 4
    ensures FromLe(s[0..4]) == VERSION <==> At(s, 0, Le(VERSION, 4))
  {
    WordSizes();
    FromLeInverse(s[0..4]);
    LeInverse(VERSION, 4);
    if At(s, 0, Le(VERSION, 4)) {
      assert s[0..4] == Le(VERSION, 4);
    }
  }

  /** The size of a blob's data, from where it and the next one start, in unsigned 64-bit arithmetic. */
  function SizeBetween(start: nat, next: nat): nat {
    ((next - start) % U64 - BLOB_HEADER) % U64
  }

  lemma DistanceIsSize(blobs: seq<Blob>, i: nat)
    requires 0 < i <= |blobs| && Offset(blobs, i) < U64
    ensures SizeBetween(Offset(blobs, i - 1), Offset(blobs, i)) == |blobs[i - 1].data|
  {}
}
