/** A container written and closed, then read back. */
module ContainerSession {
  import opened Bytes
  import opened MemStream
  import opened ContainerFormat
  import opened Container
  import Md5

  /** A blob, and the pieces in which it is written. */
  datatype Item = Item(id: Id, chunks: seq<seq<byte>>)

  function BlobOf(item: Item): Blob {
    Blob(item.id, Md5.Flatten(item.chunks))
  }

  function BlobsOf(items: seq<Item>): (blobs: seq<Blob>)
    ensures |blobs| == |items|
  {
    if items == [] then [] else BlobsOf(items[..|items| - 1]) + [BlobOf(items[|items| - 1])]
  }

  lemma BlobsNext(items: seq<Item>, i: nat)
    requires i < |items|
    ensures BlobsOf(items[..i + 1]) == BlobsOf(items[..i]) + [BlobOf(items[i])]
  {
    assert items[..i + 1][..i] == items[..i];
  }

  lemma {:induction false} BlobsAt(items: seq<Item>, i: nat)
    requires i < |items|
    ensures BlobsOf(items)[i] == BlobOf(items[i])
  {
    if i < |items| - 1 {
      BlobsAt(items[..|items| - 1], i);
    }
  }

  predicate Writable(item: Item) {
    forall i | 0 <= i < |item.chunks| :: |item.chunks[i]| <= Md5.WORD - 64
  }

  method WriteBlob(c: MpoContainer, item: Item)
    requires c.Writing() && !c.writeBlobStarted && Writable(item)
    modifies c, c.stream, c.md5CurBlob, c.md5CurBlob.buffer
    ensures c.Writing() && !c.writeBlobStarted && c.orig == old(c.orig) && c.stale == old(c.stale)
    ensures c.draft.blobs == old(c.draft).blobs + [BlobOf(item)]
  {
    var _ := c.StartWriteBlob(item.id);
    WriteChunks(c, item.chunks);
    var _ := c.EndWriteBlob();
  }

  method WriteChunks(c: MpoContainer, chunks: seq<seq<byte>>)
    requires c.Writing() && c.writeBlobStarted && c.draft.data == []
    requires forall i | 0 <= i < |chunks| :: |chunks[i]| <= Md5.WORD - 64
    modifies c`curBytesWritten, c`draft, c.stream, c.md5CurBlob, c.md5CurBlob.buffer
    ensures c.Writing() && c.draft == old(c.draft).(data := Md5.Flatten(chunks))
  {
    for i := 0 to |chunks|
      invariant c.Writing() && c.draft == old(c.draft).(data := Md5.Flatten(chunks[..i]))
    {
      var _ := c.WriteToBlob(chunks[i]);
      assert chunks[..i + 1][..i] == chunks[..i];
    }
    assert chunks[..|chunks|] == chunks;
  }

  method WriteBlobs(c: MpoContainer, items: seq<Item>)
    requires c.Writing() && !c.writeBlobStarted && c.draft.blobs == []
    requires forall i | 0 <= i < |items| :: Writable(items[i])
    modifies c, c.stream, c.md5CurBlob, c.md5CurBlob.buffer
    ensures c.Writing() && !c.writeBlobStarted && c.orig == old(c.orig) && c.stale == old(c.stale)
    ensures c.draft.blobs == BlobsOf(items)
  {
    for i := 0 to |items|
      invariant c.Writing() && !c.writeBlobStarted && c.orig == old(c.orig) && c.stale == old(c.stale)
      invariant c.draft.blobs == BlobsOf(items[..i])
    {
      WriteBlob(c, items[i]);
      BlobsNext(items, i);
    }
    assert items[..|items|] == items;
  }

  /** Whatever the stream held before, it holds a container of the items now, and beyond that what it held
      there before. */
  method WriteContainer(stream: MpoMemStream, transform: Md5.Transform, items: seq<Item>)
    requires stream.Valid() && forall i | 0 <= i < |items| :: Writable(items[i])
    modifies stream
    ensures stream.Valid() && stream.strBuf == Written(HashOf(transform), BlobsOf(items), |items|, old(stream.strBuf))
  {
    var c := new MpoContainer(stream, false, transform);
    WriteSession(c, items, HashOf(transform), BlobsOf(items), |items|);
  }

  /** Header, blobs, and the end. */
  method WriteSession(c: MpoContainer, items: seq<Item>, ghost h: Hash, ghost blobs: seq<Blob>, ghost count: nat)
    requires c.Assembled() && c.Idle() && c.h == h && blobs == BlobsOf(items) && count == c.header.totalBlobs + |items|
    requires forall i | 0 <= i < |items| :: Writable(items[i])
    modifies c, c.stream, c.md5CurBlob, c.md5CurBlob.buffer, c.md5Container, c.md5Container.buffer
    ensures c.stream.Valid() && c.stream.strBuf == Written(h, blobs, count, old(c.stream.strBuf))
  {
    var _ := c.WriteHeader();
    WriteBlobs(c, items);
    var _ := c.Close();
    assert c.header.totalBlobs == count;
  }

  predicate ReadSizes(sizes: seq<nat>) {
    sizes != [] && forall i | 0 <= i < |sizes| :: 0 < sizes[i] <= Md5.WORD - 64
  }

  /** One more piece of the open blob. */
  method ReadMore(c: MpoContainer, size: nat, data: seq<byte>, ghost blobs: seq<Blob>) returns (more: seq<byte>)
    requires c.readHeader && c.ReadingFrom(blobs) && c.readBlobStarted && c.curBytesRead < c.blobSizeBytes
    requires 0 < size <= Md5.WORD - 64
    requires data == blobs[c.curBlobIdx].data[..c.curBytesRead]
    modifies c`curBytesRead, c.stream`pos, c.md5CurBlob, c.md5CurBlob.buffer
    ensures c.ReadingFrom(blobs) && old(c.curBytesRead) < c.curBytesRead
    ensures more == blobs[c.curBlobIdx].data[..c.curBytesRead]
  {
    var buf := new byte[size];
    var n := c.ReadFromBlob(buf, size, blobs);
    NextPiece(blobs[c.curBlobIdx].data, 0, old(c.curBytesRead), n, buf[..n]);
    more := data + buf[..n];
  }

  /** Reads the open blob to its end, in pieces of the given sizes, over and over. */
  method ReadData(c: MpoContainer, sizes: seq<nat>, ghost blobs: seq<Blob>) returns (data: seq<byte>)
    requires c.readHeader && c.ReadingFrom(blobs) && c.readBlobStarted && c.curBytesRead == 0
    requires ReadSizes(sizes)
    modifies c`curBytesRead, c.stream`pos, c.md5CurBlob, c.md5CurBlob.buffer
    ensures c.ReadingFrom(blobs) && c.curBytesRead == c.blobSizeBytes
    ensures data == blobs[c.curBlobIdx].data
  {
    data := [];
    var turn := 0;
    while c.curBytesRead < c.blobSizeBytes
      invariant c.ReadingFrom(blobs) && 0 <= turn < |sizes|
      invariant data == blobs[c.curBlobIdx].data[..c.curBytesRead]
      decreases c.blobSizeBytes - c.curBytesRead
    {
      data := ReadMore(c, sizes[turn], data, blobs);
      turn := if turn + 1 < |sizes| then turn + 1 else 0;
    }
    WholeBlob(blobs[c.curBlobIdx].data);
  }

  /** Reads all of blob `i`. */
  method ReadBlob(c: MpoContainer, i: nat, sizes: seq<nat>, ghost blobs: seq<Blob>) returns (id: nat, data: seq<byte>, ok: bool)
    requires c.readHeader && c.ReadingFrom(blobs) && !c.readBlobStarted && i < |blobs|
    requires ReadSizes(sizes)
    modifies c, c.stream`pos, c.md5CurBlob, c.md5CurBlob.buffer
    ensures c.readHeader && c.ReadingFrom(blobs) && !c.readBlobStarted
    ensures ok && id == blobs[i].id && data == blobs[i].data
  {
    ok := c.JumpToBlob(i, blobs);
    ok, id := c.StartReadBlob(blobs);
    data := ReadData(c, sizes, blobs);
    ok := c.EndReadBlob(blobs);
  }

  /** Reading the open blob, of any stream: `data` is what has been found from `start` on. */
  ghost predicate Checking(c: MpoContainer, start: nat, data: seq<byte>)
    reads c.Footprint()
  {
    && c.readHeader && c.Reading() && c.readBlobStarted && !c.ignoreReadIntegrity
    && c.curBytesRead == |data| && c.md5CurBlob.message == data
    && start + |data| == c.stream.pos <= |c.stream.strBuf| && data == c.stream.strBuf[start..start + |data|]
  }

  method CheckMore(c: MpoContainer, size: nat, ghost start: nat, data: seq<byte>) returns (n: nat, more: seq<byte>)
    requires Checking(c, start, data) && 0 < size <= Md5.WORD - 64
    modifies c`curBytesRead, c.stream`pos, c.md5CurBlob, c.md5CurBlob.buffer
    ensures Checking(c, start, more) && |more| == |data| + n
    ensures n == 0 && |data| < c.blobSizeBytes ==> c.stream.pos == |c.stream.strBuf|
  {
    var buf := new byte[size];
    ghost var s, pos, end := c.stream.strBuf, c.stream.pos, c.blobSizeBytes;
    n := c.ReadFromBlob(buf, size, []);
    PieceTaken(s, start, data, buf[..n], pos, Available(end, |data|, size));
    more := data + buf[..n];
  }

  lemma PieceTaken(s: seq<byte>, start: nat, data: seq<byte>, piece: seq<byte>, pos: nat, n: nat)
    requires start + |data| == pos <= |s| && data == s[start..pos] && TakenFrom(s, pos, n, piece)
    ensures pos + |piece| <= |s| && data + piece == s[start..pos + |piece|]
    ensures piece == [] && n > 0 ==> pos == |s|
  {}

  /** The blob announced at `p`: `data` is as much of its data as there is, and it is sound exactly if that is
      all of it and has the digest that was announced. */
  ghost predicate Checked(h: Hash, s: seq<byte>, p: nat, id: nat, data: seq<byte>, sound: bool)
    requires p + 28 <= |s|
  {
    var size, start := FromLe(s[p..p + 8]), if p + 32 <= |s| then p + 32 else |s|;
    && (p + 32 <= |s| ==> id == FromLe(s[p + 28..p + 32]))
    && |data| == Available(|s|, start, size) && data == s[start..start + |data|]
    && (sound <==> |data| == size && h(data) == s[p + 8..p + 24])
  }

  /** Reads as long as there is anything to read. */
  method CheckData(c: MpoContainer, size: nat, ghost start: nat) returns (data: seq<byte>)
    requires Checking(c, start, []) && 0 < size <= Md5.WORD - 64
    modifies c`curBytesRead, c.stream`pos, c.md5CurBlob, c.md5CurBlob.buffer
    ensures Checking(c, start, data) && |data| == Available(|c.stream.strBuf|, start, c.blobSizeBytes)
  {
    data := [];
    var n := size;
    while n > 0 && c.curBytesRead < c.blobSizeBytes
      invariant Checking(c, start, data)
      invariant n == 0 ==> |data| == c.blobSizeBytes || c.stream.pos == |c.stream.strBuf|
      decreases n > 0, c.blobSizeBytes - c.curBytesRead
    {
      n, data := CheckMore(c, size, start, data);
    }
  }

  /** Reads whatever blob there is at the current position of any stream whose header was accepted, and ends it:
      that succeeds exactly if all bytes that it announces are there, and have the digest that it announces. */
  method CheckBlob(c: MpoContainer, size: nat) returns (started: bool, id: nat, data: seq<byte>, ok: bool)
    requires c.readHeader && c.Reading() && !c.readBlobStarted && !c.ignoreReadIntegrity
    requires 0 < size <= Md5.WORD - 64
    modifies c, c.stream`pos, c.md5CurBlob, c.md5CurBlob.buffer
    ensures c.readHeader && c.Reading()
    ensures started <==> old(c.curBlobIdx) < c.header.totalBlobs && IsReadable(c.stream.strBuf, old(c.stream.pos))
    ensures started ==> Checked(c.h, c.stream.strBuf, old(c.stream.pos), id, data, ok)
  {
    ok, data := false, [];
    started, id := c.StartReadBlob([]);
    if started {
      ok, data := FinishBlob(c, size, old(c.stream.pos), id);
    }
  }

  method FinishBlob(c: MpoContainer, size: nat, ghost p: nat, ghost id: nat) returns (ok: bool, data: seq<byte>)
    requires Checking(c, c.stream.pos, []) && 0 < size <= Md5.WORD - 64
    requires HeaderRead(c.stream.strBuf, p, c.blobSizeBytes, c.blobMD5, id, c.stream.pos)
    modifies c`curBytesRead, c`readBlobStarted, c`curBlobIdx, c.stream`pos, c.md5CurBlob, c.md5CurBlob.buffer
    ensures c.readHeader && c.Reading()
    ensures Checked(c.h, c.stream.strBuf, p, id, data, ok)
  {
    ghost var s, start := c.stream.strBuf, c.stream.pos;
    data := CheckData(c, size, start);
    HeaderChecked(c.h, s, p, c.blobSizeBytes, c.blobMD5, id, start, data);
    ok := c.EndReadBlob([]);
  }

  lemma HeaderChecked(h: Hash, s: seq<byte>, p: nat, size: nat, md5: Digest, id: nat, start: nat, data: seq<byte>)
    requires HeaderRead(s, p, size, md5, id, start) && |data| == Available(|s|, start, size)
    requires start + |data| <= |s| && data == s[start..start + |data|]
    ensures Checked(h, s, p, id, data, |data| == size && h(data) == md5)
  {}

  /** Whatever is written and closed, a reader gets back: every blob, in any order of visits and with any
      sizes of reads, with its id and exactly its bytes, and intact; and the whole verifies, at any
      update interval. */
  method RoundTrip(stream: MpoMemStream, transform: Md5.Transform, items: seq<Item>, ignoreReadIntegrity: bool,
                   visits: seq<nat>, sizes: seq<nat>, updateInterval: nat)
    returns (found: seq<Blob>, intact: bool, verified: bool)
    requires stream.Valid() && forall i | 0 <= i < |items| :: Writable(items[i])
    requires |stream.strBuf| < 0x8000_0000_0000_0000
    requires var blobs := BlobsOf(items); Offset(blobs, |blobs|) + 8 * |blobs| < 0x8000_0000_0000_0000
    requires forall k | 0 <= k < |visits| :: visits[k] < |items|
    requires ReadSizes(sizes)
    modifies stream
    ensures intact && verified
    ensures found == Visited(items, visits)
  {
    ghost var h, blobs := HashOf(transform), BlobsOf(items);
    WriteContainer(stream, transform, items);
    WrittenIsContainer(h, blobs, old(stream.strBuf), stream.strBuf);
    found, intact, verified := ReadContainer(stream, transform, blobs, ignoreReadIntegrity, visits, sizes, updateInterval);
    forall k | 0 <= k < |visits| ensures found[k] == BlobOf(items[visits[k]]) {
      BlobsAt(items, visits[k]);
    }
  }

  function Visited(items: seq<Item>, visits: seq<nat>): seq<Blob>
    requires forall k | 0 <= k < |visits| :: visits[k] < |items|
  {
    seq(|visits|, k requires 0 <= k < |visits| => BlobOf(items[visits[k]]))
  }

  /** A fresh reader: header, whole digest, then the blobs to visit. */
  method ReadContainer(stream: MpoMemStream, transform: Md5.Transform, ghost blobs: seq<Blob>, ignoreReadIntegrity: bool,
                       visits: seq<nat>, sizes: seq<nat>, updateInterval: nat)
    returns (found: seq<Blob>, intact: bool, verified: bool)
    requires stream.Valid() && IsContainer(HashOf(transform), stream.strBuf, blobs)
    requires forall k | 0 <= k < |visits| :: visits[k] < |blobs|
    requires ReadSizes(sizes)
    modifies stream`pos
    ensures intact && verified
    ensures |found| == |visits| && forall k | 0 <= k < |visits| :: found[k] == blobs[visits[k]]
  {
    var c := new MpoContainer(stream, ignoreReadIntegrity, transform);
    intact := c.ReadHeader(blobs);
    verified := c.VerifyContainer(updateInterval, [], blobs);
    var all;
    found, all := VisitBlobs(c, visits, sizes, blobs);
    intact := intact && all;
  }

  method VisitBlobs(c: MpoContainer, visits: seq<nat>, sizes: seq<nat>, ghost blobs: seq<Blob>)
    returns (found: seq<Blob>, intact: bool)
    requires c.readHeader && c.ReadingFrom(blobs) && !c.readBlobStarted
    requires forall k | 0 <= k < |visits| :: visits[k] < |blobs|
    requires ReadSizes(sizes)
    modifies c, c.stream`pos, c.md5CurBlob, c.md5CurBlob.buffer
    ensures intact && |found| == |visits| && forall k | 0 <= k < |visits| :: found[k] == blobs[visits[k]]
  {
    found, intact := [], true;
    for k := 0 to |visits|
      invariant c.readHeader && c.ReadingFrom(blobs) && !c.readBlobStarted && intact
      invariant |found| == k && forall j | 0 <= j < k :: found[j] == blobs[visits[j]]
    {
      var blob, ok := VisitBlob(c, visits[k], sizes, blobs);
      found, intact := found + [blob], intact && ok;
    }
  }

  method VisitBlob(c: MpoContainer, i: nat, sizes: seq<nat>, ghost blobs: seq<Blob>) returns (blob: Blob, ok: bool)
    requires c.readHeader && c.ReadingFrom(blobs) && !c.readBlobStarted && i < |blobs|
    requires ReadSizes(sizes)
    modifies c, c.stream`pos, c.md5CurBlob, c.md5CurBlob.buffer
    ensures c.readHeader && c.ReadingFrom(blobs) && !c.readBlobStarted
    ensures ok && blob == blobs[i]
  {
    var id, data;
    id, data, ok := ReadBlob(c, i, sizes, blobs);
    blob := Blob(id, data);
  }

  lemma WrittenIsContainer(h: Hash, blobs: seq<Blob>, before: seq<byte>, f: seq<byte>)
    requires f == Written(h, blobs, |blobs|, before)
    requires |before| < 0x8000_0000_0000_0000 && Offset(blobs, |blobs|) + 8 * |blobs| < 0x8000_0000_0000_0000
    ensures IsContainer(h, f, blobs)
  {
    var tail := From(before, Offset(blobs, |blobs|) + 8 * |blobs|);
    FileSize(h, blobs, |blobs|, tail);
    FileIsContainer(h, blobs, |blobs|, tail, f);
  }

  /** An attempt to read a container, and if there is none, one is written with the same object. That counts
      its blobs on from the number that the attempt has left. */
  method WriteAfterRead(stream: MpoMemStream, transform: Md5.Transform, items: seq<Item>, ghost count: nat)
    returns (read: bool)
    requires count == CountLeft(stream.strBuf, 0) + |items|
    requires stream.Valid() && forall i | 0 <= i < |items| :: Writable(items[i])
    modifies stream
    ensures read <==> |old(stream.strBuf)| >= HEADER && At(old(stream.strBuf), 0, Le(VERSION, 4))
    ensures read ==> stream.strBuf == old(stream.strBuf)
    ensures !read ==> stream.strBuf == Written(HashOf(transform), BlobsOf(items), count, old(stream.strBuf))
  {
    var c := new MpoContainer(stream, false, transform);
    read := c.ReadHeader([]);
    if !read {
      WriteSession(c, items, HashOf(transform), BlobsOf(items), count);
    }
  }

  /** So it is a container exactly if the attempt has left 0. */
  lemma StaleIff(h: Hash, blobs: seq<Blob>, before: seq<byte>, stale: nat, count: nat, f: seq<byte>)
    requires stale == CountLeft(before, 0) && count == stale + |blobs| && f == Written(h, blobs, count, before)
    requires |before| < 0x8000_0000_0000_0000 && Offset(blobs, |blobs|) + 8 * |blobs| < 0x8000_0000_0000_0000
    ensures IsContainer(h, f, blobs) <==> stale == 0
  {
    CountFits(before);
    SameNumberIff(stale, |blobs|, count);
    WrittenIff(h, blobs, count, before, f);
  }

  lemma WrittenIff(h: Hash, blobs: seq<Blob>, count: nat, before: seq<byte>, f: seq<byte>)
    requires f == Written(h, blobs, count, before)
    requires |before| < 0x8000_0000_0000_0000 && Offset(blobs, |blobs|) + 8 * |blobs| < 0x8000_0000_0000_0000
    ensures IsContainer(h, f, blobs) <==> Le(count, 8) == Le(|blobs|, 8)
  {
    var tail := From(before, Offset(blobs, |blobs|) + 8 * |blobs|);
    FileSize(h, blobs, count, tail);
    FileIsContainerIff(h, blobs, count, tail, f);
  }

  /** If not, its digest is right all the same, and each blob is in its place, but the number is that of the
      blobs plus what was left. */
  lemma StaleFile(h: Hash, blobs: seq<Blob>, before: seq<byte>, count: nat, f: seq<byte>)
    requires count == CountLeft(before, 0) + |blobs| && f == Written(h, blobs, count, before)
    ensures |f| >= HEADER && At(f, 20, Le(count, 8)) && At(f, 4, h(f[20..]))
    ensures HasEntries(f, blobs, |blobs|) && HasRecords(h, f, blobs, |blobs|)
  {
    FileWithCount(h, blobs, count, From(before, Offset(blobs, |blobs|) + 8 * |blobs|), f);
  }

  /** Of a number, eight bytes are written. */
  lemma SameNumberIff(stale: nat, n: nat, count: nat)
    requires stale < U64 && n < U64 && count == stale + n
    ensures Le(count, 8) == Le(n, 8) <==> stale == 0
  {
    WordSizes();
    LeRoundTrip(count, 8);
    LeRoundTrip(n, 8);
    Wraps(stale, n);
  }

  lemma Wraps(stale: nat, n: nat)
    requires stale < U64 && n < U64
    ensures n % U64 == n && ((stale + n) % U64 == n <==> stale == 0)
  {}

  lemma CountFits(s: seq<byte>)
    ensures CountLeft(s, 0) < U64
  {
    WordSizes();
    if |s| >= 28 {
      FromLeInverse(s[20..28]);
    }
  }

  /** A stream on which that goes wrong: it ends behind a number of blobs that is 1. */
  lemma StaleInstance(h: Hash, digest: Digest, s: seq<byte>)
    requires s == Le(VERSION, 4) + (digest + Le(1, 8))
    ensures |s| < HEADER && CountLeft(s, 0) == 1 && !IsContainer(h, Written(h, [], 1, s), [])
  {
    var none: seq<Blob> := [];
    WordSizes();
    LeInverse(1, 8);
    CountOfShort(Le(VERSION, 4), digest, Le(1, 8), s);
    assert Offset(none, 0) == HEADER;
    StaleIff(h, none, s, 1, 1, Written(h, none, 1, s));
  }

  lemma CountOfShort(version: seq<byte>, digest: Digest, count: seq<byte>, s: seq<byte>)
    requires version == Le(VERSION, 4) && |count| == 8 && s == version + (digest + count)
    ensures |s| == 28 && CountLeft(s, 0) == FromLe(count)
  {
    AtJoin(version, digest + count);
    assert s[20..28] == count;
  }
}
