/** The layout of a blob container. */
module ContainerFormat {
  import opened Bytes
  import opened Collections
  import opened MemStream

  /** "1CON", low byte first. */
  const VERSION: nat := 0x4E4F4331

  const U64: nat := 0x1_0000_0000_0000_0000

  lemma SignatureIs()
    ensures Le(VERSION, 4) == ['1' as int, 'C' as int, 'O' as int, 'N' as int]
  {
    var a, b, c := VERSION / 256, VERSION / 256 / 256, VERSION / 256 / 256 / 256;
    assert Le(c, 1) == [c % 256] + Le(c / 256, 0);
    assert Le(b, 2) == [b % 256] + Le(c, 1);
    assert Le(a, 3) == [a % 256] + Le(b, 2);
  }

  const HEADER: nat := 36
  const BLOB_HEADER: nat := 32

  type Id = i: int | 0 <= i < 0x1_0000_0000

  datatype Blob = Blob(id: Id, data: seq<byte>)

  type Digest = d: seq<byte> | |d| == 16 witness seq(16, _ => 0)

  type Hash = seq<byte> -> Digest

  lemma AtJoin(a: seq<byte>, b: seq<byte>)
    ensures At(a + b, 0, a) && At(a + b, |a|, b)
  {}

  lemma AtMiddle(a: seq<byte>, part: seq<byte>, c: seq<byte>, i: nat, all: seq<byte>)
    requires i == |a| && all == a + (part + c)
    ensures At(all, i, part)
  {
    forall k | 0 <= k < |part| ensures all[i + k] == part[k] {
      assert (part + c)[k] == part[k];
    }
  }

  lemma AtSlice(s: seq<byte>, i: nat, n: nat)
    requires i + n <= |s|
    ensures At(s, i, s[i..i + n])
  {}

  lemma AtWithin(s: seq<byte>, i: nat, p: seq<byte>, j: nat, q: seq<byte>)
    requires At(s, i, p) && At(p, j, q)
    ensures At(s, i + j, q)
  {
    forall k | 0 <= k < |q| ensures s[i + j + k] == q[k] {
      assert p[j + k] == q[k];
    }
  }

  lemma AtPlace(s: seq<byte>, i: nat, p: seq<byte>, j: nat, q: seq<byte>, place: nat)
    requires At(s, i, p) && At(p, j, q) && place == i + j
    ensures At(s, place, q)
  {
    AtWithin(s, i, p, j, q);
  }

  /** Size, digest, four zero bytes, id. */
  function BlobHeader(h: Hash, b: Blob): (bytes: seq<byte>)
    ensures |bytes| == BLOB_HEADER
  {
    Le(|b.data|, 8) + h(b.data) + ([0, 0, 0, 0] + Le(b.id, 4))
  }

  function Record(h: Hash, b: Blob): seq<byte> {
    BlobHeader(h, b) + b.data
  }

  function Records(h: Hash, blobs: seq<Blob>): (r: seq<byte>)
  {
    if blobs == [] then [] else Records(h, blobs[..|blobs| - 1]) + Record(h, blobs[|blobs| - 1])
  }

  /** Where the record of blob `i` starts, and after the last, where the table of contents does. */
  function Offset(blobs: seq<Blob>, i: nat): (o: nat)
    requires i <= |blobs|
    ensures o >= HEADER
  {
    if i == 0 then HEADER else Offset(blobs, i - 1) + BLOB_HEADER + |blobs[i - 1].data|
  }

  /** The first `n` offsets, eight bytes each. */
  function Table(blobs: seq<Blob>, n: nat): (bytes: seq<byte>)
    requires n <= |blobs|
    ensures |bytes| == 8 * n
  {
    if n == 0 then [] else Table(blobs, n - 1) + Le(Offset(blobs, n - 1), 8)
  }

  lemma NoTable(w: seq<byte>, blobs: seq<Blob>)
    ensures w + Table(blobs, 0) == w
  {}

  lemma TableNext(w: seq<byte>, blobs: seq<Blob>, i: nat)
    requires i < |blobs|
    ensures w + Table(blobs, i + 1) == w + Table(blobs, i) + Le(Offset(blobs, i), 8)
  {}

  /** Everything that the digest in the header covers; `tail` is what the stream held beyond. */
  function Covered(h: Hash, blobs: seq<Blob>, count: nat, tail: seq<byte>): seq<byte> {
    Le(count, 8) + Le(Offset(blobs, |blobs|), 8) + (Records(h, blobs) + (Table(blobs, |blobs|) + tail))
  }

  /** The same, where the stream held `before`. */
  ghost function CoveredOver(h: Hash, blobs: seq<Blob>, count: nat, before: seq<byte>): seq<byte> {
    Covered(h, blobs, count, From(before, Offset(blobs, |blobs|) + 8 * |blobs|))
  }

  /** What there is of it behind the counts. */
  ghost function BytesBehind(h: Hash, blobs: seq<Blob>, before: seq<byte>): seq<byte> {
    Records(h, blobs) + (Table(blobs, |blobs|) + From(before, Offset(blobs, |blobs|) + 8 * |blobs|))
  }

  /** A whole container. */
  function File(h: Hash, blobs: seq<Blob>, count: nat, tail: seq<byte>): seq<byte> {
    Le(VERSION, 4) + h(Covered(h, blobs, count, tail)) + Covered(h, blobs, count, tail)
  }

  /** What a stream that held `before` holds once the blobs have been written and closed. */
  ghost function Written(h: Hash, blobs: seq<Blob>, count: nat, before: seq<byte>): seq<byte> {
    File(h, blobs, count, From(before, Offset(blobs, |blobs|) + 8 * |blobs|))
  }

  lemma WrittenIs(h: Hash, blobs: seq<Blob>, count: nat, before: seq<byte>, covered: seq<byte>)
    requires covered == CoveredOver(h, blobs, count, before)
    ensures Written(h, blobs, count, before) == Le(VERSION, 4) + h(covered) + covered
  {}

  lemma {:induction false} OffsetOfPrefix(blobs: seq<Blob>, prefix: seq<Blob>, i: nat)
    requires prefix <= blobs && i <= |prefix|
    ensures Offset(blobs, i) == Offset(prefix, i)
  {
    if i > 0 {
      OffsetOfPrefix(blobs, prefix, i - 1);
    }
  }

  lemma {:induction false} TableOfPrefix(blobs: seq<Blob>, prefix: seq<Blob>, n: nat)
    requires prefix <= blobs && n <= |prefix|
    ensures Table(blobs, n) == Table(prefix, n)
  {
    if n > 0 {
      TableOfPrefix(blobs, prefix, n - 1);
      OffsetOfPrefix(blobs, prefix, n - 1);
    }
  }

  lemma {:induction false} RecordsSize(h: Hash, blobs: seq<Blob>)
    ensures HEADER + |Records(h, blobs)| == Offset(blobs, |blobs|)
  {
    if blobs != [] {
      var init := blobs[..|blobs| - 1];
      RecordsSize(h, init);
      OffsetOfPrefix(blobs, init, |init|);
    }
  }

  /** The records behind that of blob `i`. */
  function RecordsBehind(h: Hash, blobs: seq<Blob>, i: nat): seq<byte>
    requires i < |blobs|
    decreases |blobs|
  {
    if i == |blobs| - 1 then [] else RecordsBehind(h, blobs[..|blobs| - 1], i) + Record(h, blobs[|blobs| - 1])
  }

  lemma {:induction false} RecordsSplit(h: Hash, blobs: seq<Blob>, i: nat, record: seq<byte>)
    requires i < |blobs| && record == Record(h, blobs[i])
    ensures Records(h, blobs) == Records(h, blobs[..i]) + (record + RecordsBehind(h, blobs, i))
    decreases |blobs|
  {
    var init, last := blobs[..|blobs| - 1], Record(h, blobs[|blobs| - 1]);
    if i < |init| {
      RecordsSplit(h, init, i, record);
      assert init[..i] == blobs[..i];
      Regroup4(Records(h, blobs[..i]), record, RecordsBehind(h, init, i), last);
    } else {
      assert record + [] == record;
    }
  }

  /** The record of blob `i` is found at its offset. */
  lemma RecordAt(h: Hash, blobs: seq<Blob>, i: nat, record: seq<byte>)
    requires i < |blobs| && record == Record(h, blobs[i])
    ensures At(Records(h, blobs), Offset(blobs, i) - HEADER, record)
  {
    RecordsSplit(h, blobs, i, record);
    RecordsSize(h, blobs[..i]);
    OffsetOfPrefix(blobs, blobs[..i], i);
    AtMiddle(Records(h, blobs[..i]), record, RecordsBehind(h, blobs, i), Offset(blobs, i) - HEADER, Records(h, blobs));
  }

  /** Of the first `n` entries, those behind entry `i`. */
  function TableBehind(blobs: seq<Blob>, n: nat, i: nat): seq<byte>
    requires i < n <= |blobs|
    decreases n
  {
    if i == n - 1 then [] else TableBehind(blobs, n - 1, i) + Le(Offset(blobs, n - 1), 8)
  }

  lemma {:induction false} TableSplit(blobs: seq<Blob>, n: nat, i: nat, entry: seq<byte>)
    requires i < n <= |blobs| && entry == Le(Offset(blobs, i), 8)
    ensures Table(blobs, n) == Table(blobs, i) + (entry + TableBehind(blobs, n, i))
    decreases n
  {
    if i < n - 1 {
      TableSplit(blobs, n - 1, i, entry);
      Regroup4(Table(blobs, i), entry, TableBehind(blobs, n - 1, i), Le(Offset(blobs, n - 1), 8));
    } else {
      assert entry + [] == entry;
    }
  }

  lemma TableAt(blobs: seq<Blob>, n: nat, i: nat, entry: seq<byte>)
    requires i < n <= |blobs| && entry == Le(Offset(blobs, i), 8)
    ensures At(Table(blobs, n), 8 * i, entry)
  {
    TableSplit(blobs, n, i, entry);
    AtMiddle(Table(blobs, i), entry, TableBehind(blobs, n, i), 8 * i, Table(blobs, n));
  }

  /** The table of contents that writer and reader keep: the first `n` offsets. */
  function Offsets(blobs: seq<Blob>, n: nat): (toc: seq<nat>)
    requires n <= |blobs|
    ensures |toc| == n
  {
    if n == 0 then [] else Offsets(blobs, n - 1) + [Offset(blobs, n - 1)]
  }

  lemma {:induction false} OffsetsAt(blobs: seq<Blob>, n: nat, i: nat)
    requires i < n <= |blobs|
    ensures Offsets(blobs, n)[i] == Offset(blobs, i)
  {
    if i < n - 1 {
      OffsetsAt(blobs, n - 1, i);
    }
  }

  lemma {:induction false} OffsetsOfPrefix(blobs: seq<Blob>, prefix: seq<Blob>, n: nat)
    requires prefix <= blobs && n <= |prefix|
    ensures Offsets(blobs, n) == Offsets(prefix, n)
  {
    if n > 0 {
      OffsetsOfPrefix(blobs, prefix, n - 1);
      OffsetOfPrefix(blobs, prefix, n - 1);
    }
  }

  lemma OffsetsNext(blobs: seq<Blob>, b: Blob)
    ensures Offsets(blobs, |blobs|) + [Offset(blobs, |blobs|)] == Offsets(blobs + [b], |blobs| + 1)
  {
    var all, n := blobs + [b], |blobs|;
    OffsetsOfPrefix(all, blobs, n);
    OffsetOfPrefix(all, blobs, n);
    assert Offsets(all, n + 1) == Offsets(all, n) + [Offset(all, n)];
  }

  /** A container being written: the header's and the open blob's header are still placeholders. */
  datatype Draft = Draft(header: seq<byte>, blobs: seq<Blob>, openHeader: seq<byte>, data: seq<byte>)

  ghost predicate Sketched(d: Draft, id: Id, started: bool) {
    && |d.header| == HEADER && At(d.header, 0, Le(VERSION, 4))
    && if started then |d.openHeader| == BLOB_HEADER && d.openHeader[24..] == [0, 0, 0, 0] + Le(id, 4)
       else d.openHeader == [] && d.data == []
  }

  /** The open blob has become a record. */
  function Ended(d: Draft, id: Id): Draft {
    Draft(d.header, d.blobs + [Blob(id, d.data)], [], [])
  }

  function BytesOf(h: Hash, d: Draft): seq<byte> {
    d.header + Records(h, d.blobs) + d.openHeader + d.data
  }

  lemma BytesWhenOpened(h: Hash, d: Draft, size: seq<byte>, digest: seq<byte>, reserved: seq<byte>, id: seq<byte>)
    requires d.openHeader == [] && d.data == [] && |size| == 8 && |digest| == 16
    ensures var openHeader := size + digest + (reserved + id);
            && BytesOf(h, d.(openHeader := openHeader)) == BytesOf(h, d) + size + digest + reserved + id
            && openHeader[24..] == reserved + id
  {
    var w := d.header + Records(h, d.blobs);
    assert BytesOf(h, d) == w;
    Suffix(size + digest, reserved + id);
    Regroup4(w + size, digest, reserved, id);
    Regroup3(w, size, digest);
    Regroup3(w, size + digest, reserved + id);
    Regroup3(w + size + digest, reserved, id);
  }

  lemma BytesWhenExtended(h: Hash, d: Draft, data: seq<byte>)
    ensures BytesOf(h, d.(data := d.data + data)) == BytesOf(h, d) + data
  {}

  /** The open blob, whose header starts where the records end, becomes a record once its size and
      digest are patched in. */
  lemma BytesWhenEnded(h: Hash, d: Draft, id: Id, after: seq<byte>)
    requires Sketched(d, id, true)
    ensures var w, ended := d.header + Records(h, d.blobs), Ended(d, id);
            && |w| == Offset(d.blobs, |d.blobs|)
            && BytesOf(h, d) + after == w + d.openHeader[..8] + (d.openHeader[8..24] + (d.openHeader[24..] + d.data + after))
            && BytesOf(h, ended) + after == w + Le(|d.data|, 8) + h(d.data) + (d.openHeader[24..] + d.data + after)
            && |BytesOf(h, ended)| == |BytesOf(h, d)| == |w| + 32 + |d.data|
            && Sketched(ended, id, false)
  {
    var b := Blob(id, d.data);
    RecordsSize(h, d.blobs);
    assert (d.blobs + [b])[..|d.blobs|] == d.blobs;
    assert d.openHeader == d.openHeader[..8] + d.openHeader[8..24] + d.openHeader[24..];
    PatchedBytes(d.header, Records(h, d.blobs), d.openHeader[..8], d.openHeader[8..24], Le(|d.data|, 8), h(d.data),
                 d.openHeader[24..], d.data, after);
  }

  lemma PatchedBytes(header: seq<byte>, records: seq<byte>, hole8: seq<byte>, hole16: seq<byte>, size: seq<byte>,
                     digest: seq<byte>, rest: seq<byte>, data: seq<byte>, after: seq<byte>)
    ensures var w := header + records;
            && w + (hole8 + hole16 + rest) + data + after == w + hole8 + (hole16 + (rest + data + after))
            && header + (records + (size + digest + rest + data)) + [] + [] + after == w + size + digest + (rest + data + after)
  {
    var w := header + records;
    Regroup4(hole16, rest, data, after);
    Regroup4(w + hole8, hole16, rest, data);
    Regroup4(w, hole8, hole16, rest);
    Regroup3(w + hole8 + hole16, rest + data, after);
    Regroup3(w + hole8 + hole16, rest, data);
    Regroup3(w + hole8, hole16, rest + data + after);
    Regroup3(header, records, size + digest + rest + data);
    Regroup4(w, size, digest, rest);
    Regroup3(w, size + digest + rest, data);
    Regroup3(w + size + digest, rest, data);
    Regroup3(w + size + digest, rest + data, after);
  }

  /** A draft without an open blob, followed by its table, has everything that the digest covers except the
      counts, which have their place in its header. */
  lemma BytesWithTable(h: Hash, d: Draft, id: Id, orig: seq<byte>, w: seq<byte>, body: seq<byte>)
    requires Sketched(d, id, false)
    requires w == BytesOf(h, d) + Table(d.blobs, |d.blobs|) && body == BytesBehind(h, d.blobs, orig)
    ensures |BytesOf(h, d)| == Offset(d.blobs, |d.blobs|)
    ensures w + From(orig, |w|) == d.header[..20] + d.header[20..28] + (d.header[28..36] + body)
  {
    var records, table := Records(h, d.blobs), Table(d.blobs, |d.blobs|);
    SizeOfDraft(h, d, id);
    assert w == d.header + records + table && |w| == Offset(d.blobs, |d.blobs|) + 8 * |d.blobs|;
    HeaderParts(d.header, records, table, From(orig, |w|));
  }

  /** It becomes a container once the counts and then the digest are patched in. */
  lemma BytesWhenClosed(h: Hash, d: Draft, id: Id, n: nat, orig: seq<byte>, body: seq<byte>,
                        count: seq<byte>, offset: seq<byte>)
    requires Sketched(d, id, false) && body == BytesBehind(h, d.blobs, orig)
    requires count == Le(n, 8) && offset == Le(Offset(d.blobs, |d.blobs|), 8)
    ensures d.header[..20] + count + offset + body == Le(VERSION, 4) + d.header[4..20] + CoveredOver(h, d.blobs, n, orig)
  {
    assert CoveredOver(h, d.blobs, n, orig) == count + offset + body;
    CountsPatched(d.header, count, offset, body);
  }

  lemma SizeOfDraft(h: Hash, d: Draft, id: Id)
    requires Sketched(d, id, false)
    ensures BytesOf(h, d) == d.header + Records(h, d.blobs) && |BytesOf(h, d)| == Offset(d.blobs, |d.blobs|)
  {
    RecordsSize(h, d.blobs);
  }

  lemma HeaderParts(header: seq<byte>, records: seq<byte>, table: seq<byte>, tail: seq<byte>)
    requires |header| == HEADER
    ensures header + records + table + tail
            == header[..20] + header[20..28] + (header[28..36] + (records + (table + tail)))
  {
    Regroup4(header, records, table, tail);
    assert header == header[..20] + header[20..28] + header[28..36];
    Regroup3(header[..20] + header[20..28], header[28..36], records + (table + tail));
  }

  lemma CountsPatched(header: seq<byte>, count: seq<byte>, offset: seq<byte>, body: seq<byte>)
    requires |header| == HEADER && At(header, 0, Le(VERSION, 4))
    ensures header[..20] + count + offset + body == Le(VERSION, 4) + header[4..20] + (count + offset + body)
  {
    assert header[..20] == Le(VERSION, 4) + header[4..20];
    Regroup3(header[..20], count, offset);
    Regroup3(header[..20], count + offset, body);
  }

  /** What the digest covers is behind version and digest. */
  lemma CoveredAt(h: Hash, blobs: seq<Blob>, count: nat, tail: seq<byte>, f: seq<byte>, c: seq<byte>)
    requires f == File(h, blobs, count, tail) && c == Covered(h, blobs, count, tail)
    ensures At(f, 0, Le(VERSION, 4)) && At(f, 4, h(c)) && At(f, 20, c) && |f| == 20 + |c|
  {
    AtJoin(Le(VERSION, 4) + h(c), c);
    AtJoin(Le(VERSION, 4), h(c));
    AtWithin(f, 0, Le(VERSION, 4) + h(c), 0, Le(VERSION, 4));
    AtWithin(f, 0, Le(VERSION, 4) + h(c), 4, h(c));
  }

  lemma CountsAt(f: seq<byte>, c: seq<byte>, count: seq<byte>, offset: seq<byte>, body: seq<byte>)
    requires At(f, 20, c) && c == count + offset + body && |count| == 8 == |offset|
    ensures At(f, 20, count) && At(f, 28, offset) && At(f, HEADER, body)
  {
    AtJoin(count + offset, body);
    AtJoin(count, offset);
    AtWithin(f, 20, c, 0, count + offset);
    AtWithin(f, 20, count + offset, 0, count);
    AtWithin(f, 20, count + offset, 8, offset);
    AtWithin(f, 20, c, 16, body);
  }

  /** The fixed fields of the header, and what comes behind them. */
  lemma HeaderAt(h: Hash, blobs: seq<Blob>, count: nat, tail: seq<byte>, f: seq<byte>, c: seq<byte>)
    requires f == File(h, blobs, count, tail) && c == Covered(h, blobs, count, tail)
    ensures At(f, 0, Le(VERSION, 4)) && At(f, 4, h(c)) && At(f, 20, c) && |f| == 20 + |c|
    ensures At(f, 20, Le(count, 8)) && At(f, 28, Le(Offset(blobs, |blobs|), 8))
    ensures At(f, HEADER, Records(h, blobs) + (Table(blobs, |blobs|) + tail))
  {
    CoveredAt(h, blobs, count, tail, f, c);
    CountsAt(f, c, Le(count, 8), Le(Offset(blobs, |blobs|), 8), Records(h, blobs) + (Table(blobs, |blobs|) + tail));
  }

  lemma ThreeAt(f: seq<byte>, i: nat, j: nat, a: seq<byte>, b: seq<byte>, c: seq<byte>)
    requires At(f, i, a + (b + c)) && j == i + |a|
    ensures At(f, i, a) && At(f, j, b)
  {
    AtJoin(a, b + c);
    AtJoin(b, c);
    AtWithin(f, i, a + (b + c), 0, a);
    AtWithin(f, i, a + (b + c), |a|, b + c);
    AtWithin(f, j, b + c, 0, b);
  }

  lemma BodyAt(h: Hash, blobs: seq<Blob>, count: nat, tail: seq<byte>, f: seq<byte>, o: nat)
    requires f == File(h, blobs, count, tail) && o == Offset(blobs, |blobs|)
    ensures At(f, HEADER, Records(h, blobs))
    ensures At(f, o, Table(blobs, |blobs|))
  {
    var records, table := Records(h, blobs), Table(blobs, |blobs|);
    BehindHeader(h, blobs, count, tail, f, records + (table + tail));
    RecordsSize(h, blobs);
    ThreeAt(f, HEADER, o, records, table, tail);
  }

  lemma BehindHeader(h: Hash, blobs: seq<Blob>, count: nat, tail: seq<byte>, f: seq<byte>, body: seq<byte>)
    requires f == File(h, blobs, count, tail) && body == Records(h, blobs) + (Table(blobs, |blobs|) + tail)
    ensures At(f, HEADER, body)
  {
    HeaderAt(h, blobs, count, tail, f, Covered(h, blobs, count, tail));
  }

  lemma FileSize(h: Hash, blobs: seq<Blob>, count: nat, tail: seq<byte>)
    ensures |File(h, blobs, count, tail)| == Offset(blobs, |blobs|) + 8 * |blobs| + |tail|
  {
    RecordsSize(h, blobs);
  }

  lemma EntryAt(h: Hash, blobs: seq<Blob>, count: nat, tail: seq<byte>, f: seq<byte>, i: nat)
    requires f == File(h, blobs, count, tail) && i < |blobs|
    ensures At(f, Offset(blobs, |blobs|) + 8 * i, Le(Offset(blobs, i), 8))
  {
    BodyAt(h, blobs, count, tail, f, Offset(blobs, |blobs|));
    TableAt(blobs, |blobs|, i, Le(Offset(blobs, i), 8));
    AtWithin(f, Offset(blobs, |blobs|), Table(blobs, |blobs|), 8 * i, Le(Offset(blobs, i), 8));
  }

  lemma BlobHeaderAt(h: Hash, b: Blob)
    ensures var bytes := BlobHeader(h, b);
            && At(bytes, 0, Le(|b.data|, 8))
            && At(bytes, 8, h(b.data))
            && At(bytes, 24, [0, 0, 0, 0])
            && At(bytes, 28, Le(b.id, 4))
  {
    var sizeAndDigest, reservedAndId := Le(|b.data|, 8) + h(b.data), [0, 0, 0, 0] + Le(b.id, 4);
    AtJoin(sizeAndDigest, reservedAndId);
    AtJoin(Le(|b.data|, 8), h(b.data));
    AtJoin([0, 0, 0, 0], Le(b.id, 4));
    AtWithin(BlobHeader(h, b), 0, sizeAndDigest, 8, h(b.data));
    AtWithin(BlobHeader(h, b), 24, reservedAndId, 4, Le(b.id, 4));
  }

  lemma RecordInFile(h: Hash, blobs: seq<Blob>, count: nat, tail: seq<byte>, f: seq<byte>, i: nat)
    requires f == File(h, blobs, count, tail) && i < |blobs|
    ensures At(f, Offset(blobs, i), Record(h, blobs[i]))
  {
    BodyAt(h, blobs, count, tail, f, Offset(blobs, |blobs|));
    RecordAt(h, blobs, i, Record(h, blobs[i]));
    AtPlace(f, HEADER, Records(h, blobs), Offset(blobs, i) - HEADER, Record(h, blobs[i]), Offset(blobs, i));
  }

  /** The fields of a record. */
  lemma FieldsAt(h: Hash, f: seq<byte>, o: nat, b: Blob)
    requires At(f, o, Record(h, b))
    ensures At(f, o, Le(|b.data|, 8))
    ensures At(f, o + 8, h(b.data))
    ensures At(f, o + 24, [0, 0, 0, 0])
    ensures At(f, o + 28, Le(b.id, 4))
    ensures At(f, o + BLOB_HEADER, b.data)
  {
    AtJoin(BlobHeader(h, b), b.data);
    AtWithin(f, o, Record(h, b), 0, BlobHeader(h, b));
    AtWithin(f, o, Record(h, b), BLOB_HEADER, b.data);
    BlobHeaderAt(h, b);
    AtWithin(f, o, BlobHeader(h, b), 0, Le(|b.data|, 8));
    AtWithin(f, o, BlobHeader(h, b), 8, h(b.data));
    AtWithin(f, o, BlobHeader(h, b), 24, [0, 0, 0, 0]);
    AtWithin(f, o, BlobHeader(h, b), 28, Le(b.id, 4));
  }

  /** The size of the largest of the first `n` blobs. */
  function Largest(blobs: seq<Blob>, n: nat): (size: nat)
    requires n <= |blobs|
  {
    if n == 0 then 0
    else if |blobs[n - 1].data| > Largest(blobs, n - 1) then |blobs[n - 1].data| else Largest(blobs, n - 1)
  }

  /** It is the size of one of them, and none is larger. */
  lemma {:induction false} LargestIs(blobs: seq<Blob>, n: nat)
    requires n <= |blobs|
    ensures forall i | 0 <= i < n :: |blobs[i].data| <= Largest(blobs, n)
    ensures if n == 0 then Largest(blobs, n) == 0 else exists i :: 0 <= i < n && |blobs[i].data| == Largest(blobs, n)
  {
    if n > 0 {
      LargestIs(blobs, n - 1);
      if Largest(blobs, n) == |blobs[n - 1].data| {
        assert 0 <= n - 1 < n;
      } else {
        var i :| 0 <= i < n - 1 && |blobs[i].data| == Largest(blobs, n - 1);
      }
    }
  }

  lemma {:induction false} OffsetsOrdered(blobs: seq<Blob>, i: nat, j: nat)
    requires i <= j <= |blobs|
    ensures Offset(blobs, i) <= Offset(blobs, j)
    ensures i < j ==> Offset(blobs, i) + BLOB_HEADER + |blobs[i].data| <= Offset(blobs, j)
    decreases j
  {
    if i < j {
      OffsetsOrdered(blobs, i, j - 1);
    }
  }

  /** What a reader relies on: the fixed fields, the table, and the records of `blobs`, all of it within
      reach of a signed 64-bit offset. */
  ghost predicate IsContainer(h: Hash, s: seq<byte>, blobs: seq<Blob>) {
    && |s| < 0x8000_0000_0000_0000
    && HasHeader(h, s, blobs)
    && Offset(blobs, |blobs|) + 8 * |blobs| <= |s|
    && HasEntries(s, blobs, |blobs|)
    && HasRecords(h, s, blobs, |blobs|)
  }

  ghost predicate HasHeader(h: Hash, s: seq<byte>, blobs: seq<Blob>) {
    && |s| >= HEADER
    && At(s, 0, Le(VERSION, 4))
    && At(s, 4, h(s[20..]))
    && At(s, 20, Le(|blobs|, 8))
    && At(s, 28, Le(Offset(blobs, |blobs|), 8))
  }

  /** The first `n` entries of the table. */
  ghost predicate HasEntries(s: seq<byte>, blobs: seq<Blob>, n: nat)
    requires n <= |blobs|
  {
    n > 0 ==> HasEntries(s, blobs, n - 1) && HasEntry(s, blobs, n - 1)
  }

  ghost predicate HasEntry(s: seq<byte>, blobs: seq<Blob>, i: nat)
    requires i < |blobs|
  {
    At(s, Offset(blobs, |blobs|) + 8 * i, Le(Offset(blobs, i), 8))
  }

  /** The first `n` records. */
  ghost predicate HasRecords(h: Hash, s: seq<byte>, blobs: seq<Blob>, n: nat)
    requires n <= |blobs|
  {
    n > 0 ==> HasRecords(h, s, blobs, n - 1) && HasRecord(h, s, blobs, n - 1)
  }

  ghost predicate HasRecord(h: Hash, s: seq<byte>, blobs: seq<Blob>, i: nat)
    requires i < |blobs|
  {
    var o, b := Offset(blobs, i), blobs[i];
    && At(s, o, Le(|b.data|, 8))
    && At(s, o + 8, h(b.data))
    && At(s, o + 24, [0, 0, 0, 0])
    && At(s, o + 28, Le(b.id, 4))
    && At(s, o + BLOB_HEADER, b.data)
  }

  lemma {:induction false} EntryHad(s: seq<byte>, blobs: seq<Blob>, n: nat, i: nat)
    requires i < n <= |blobs| && HasEntries(s, blobs, n)
    ensures HasEntry(s, blobs, i)
  {
    if i < n - 1 {
      EntryHad(s, blobs, n - 1, i);
    }
  }

  lemma {:induction false} RecordHad(h: Hash, s: seq<byte>, blobs: seq<Blob>, n: nat, i: nat)
    requires i < n <= |blobs| && HasRecords(h, s, blobs, n)
    ensures HasRecord(h, s, blobs, i)
  {
    if i < n - 1 {
      RecordHad(h, s, blobs, n - 1, i);
    }
  }

  lemma {:induction false} FileHas(h: Hash, blobs: seq<Blob>, count: nat, tail: seq<byte>, f: seq<byte>, n: nat)
    requires f == File(h, blobs, count, tail) && n <= |blobs|
    ensures HasEntries(f, blobs, n) && HasRecords(h, f, blobs, n)
  {
    if n > 0 {
      FileHas(h, blobs, count, tail, f, n - 1);
      RecordInFile(h, blobs, count, tail, f, n - 1);
      FieldsAt(h, f, Offset(blobs, n - 1), blobs[n - 1]);
      EntryAt(h, blobs, count, tail, f, n - 1);
    }
  }

  /** What a file is whose number of blobs is `count`: all but that is right, the digest included. */
  lemma FileWithCount(h: Hash, blobs: seq<Blob>, count: nat, tail: seq<byte>, f: seq<byte>)
    requires f == File(h, blobs, count, tail)
    ensures |f| == Offset(blobs, |blobs|) + 8 * |blobs| + |tail| >= HEADER
    ensures At(f, 0, Le(VERSION, 4)) && At(f, 4, h(f[20..])) && At(f, 28, Le(Offset(blobs, |blobs|), 8))
    ensures At(f, 20, Le(count, 8))
    ensures HasEntries(f, blobs, |blobs|) && HasRecords(h, f, blobs, |blobs|)
  {
    HeaderAt(h, blobs, count, tail, f, Covered(h, blobs, count, tail));
    FileSize(h, blobs, count, tail);
    Suffix(Le(VERSION, 4) + h(Covered(h, blobs, count, tail)), Covered(h, blobs, count, tail));
    FileHas(h, blobs, count, tail, f, |blobs|);
  }

  lemma AtOnce(s: seq<byte>, i: nat, a: seq<byte>, b: seq<byte>)
    requires At(s, i, a) && At(s, i, b) && |a| == |b|
    ensures a == b
  {
    assert forall k | 0 <= k < |a| :: s[i + k] == a[k] == b[k];
  }

  lemma FileIsContainer(h: Hash, blobs: seq<Blob>, count: nat, tail: seq<byte>, f: seq<byte>)
    requires f == File(h, blobs, count, tail) && |f| < 0x8000_0000_0000_0000 && Le(count, 8) == Le(|blobs|, 8)
    ensures IsContainer(h, f, blobs)
  {
    FileWithCount(h, blobs, count, tail, f);
  }

  lemma CountOfContainer(h: Hash, s: seq<byte>, blobs: seq<Blob>, count: seq<byte>)
    requires IsContainer(h, s, blobs) && At(s, 20, count) && |count| == 8
    ensures count == Le(|blobs|, 8)
  {
    AtOnce(s, 20, count, Le(|blobs|, 8));
  }

  lemma CountOfFile(h: Hash, blobs: seq<Blob>, count: nat, tail: seq<byte>, f: seq<byte>)
    requires f == File(h, blobs, count, tail) && IsContainer(h, f, blobs)
    ensures Le(count, 8) == Le(|blobs|, 8)
  {
    FileWithCount(h, blobs, count, tail, f);
    CountOfContainer(h, f, blobs, Le(count, 8));
  }

  /** A file is a container of its blobs exactly if the number in its header is theirs. */
  lemma FileIsContainerIff(h: Hash, blobs: seq<Blob>, count: nat, tail: seq<byte>, f: seq<byte>)
    requires f == File(h, blobs, count, tail) && |f| < 0x8000_0000_0000_0000
    ensures IsContainer(h, f, blobs) <==> Le(count, 8) == Le(|blobs|, 8)
  {
    if Le(count, 8) == Le(|blobs|, 8) {
      FileIsContainer(h, blobs, count, tail, f);
    } else if IsContainer(h, f, blobs) {
      CountOfFile(h, blobs, count, tail, f);
    }
  }
}
