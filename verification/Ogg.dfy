/**
 The Ogg page writer (internal/audio/ogg_writer.go) against a reader of section 6 of
 RFC 3533. The checksum is an uninterpreted function of the page.
 */
module Ogg {
  import opened Bytes
  import opened Results

  const FIXED := 27
  const SEGMENT := 255
  const WORD64 := 0x1_0000_0000_0000_0000
  const CAPTURE: seq<Byte> := [0x4F, 0x67, 0x67, 0x53]

  type Word64 = x: int | 0 <= x < WORD64
  type Checksum = seq<Byte> -> Word32

  function Le64(w: Word64): (r: seq<Byte>)
    ensures |r| == 8 && FromLe64(r) == w
  {
    Halves(w);
    Le32(w % WORD32) + Le32(w / WORD32)
  }

  function FromLe64(b: seq<Byte>): (w: Word64)
    requires |b| == 8
  {
    var lo: int, hi: int := FromLe32(b[..4]), FromLe32(b[4..]);
    lo + hi * WORD32
  }

  lemma Halves(w: Word64)
    ensures 0 <= w / WORD32 < WORD32 && w == w / WORD32 * WORD32 + w % WORD32
  {
  }

  // ---- lacing ----

  /** The lacing values of one packet: 255 for every full segment, then the remainder. */
  function Lacing(l: nat): (r: seq<Byte>)
    ensures |r| == l / SEGMENT + 1
  {
    Fulls(l / SEGMENT) + [l % SEGMENT]
  }

  function Segments(packets: seq<seq<Byte>>): (r: seq<Byte>) {
    if packets == [] then [] else Segments(packets[..|packets| - 1]) + Lacing(|packets[|packets| - 1]|)
  }

  function Sum(table: seq<Byte>): (n: nat) {
    if table == [] then 0
    else
      var last: nat := table[|table| - 1];
      Sum(table[..|table| - 1]) + last
  }

  /** A reader's state inside a page: the complete packets, and the start of the next one. */
  datatype Partial = Partial(packets: seq<seq<Byte>>, open: seq<Byte>)

  /** One segment extends the open packet; a lacing value below 255 completes it. */
  function TakeSegment(p: Partial, segment: seq<Byte>): (r: Partial) {
    if |segment| < SEGMENT then Partial(p.packets + [p.open + segment], [])
    else p.(open := p.open + segment)
  }

  function Unlace(table: seq<Byte>, body: seq<Byte>): (p: Partial)
    requires |body| == Sum(table)
  {
    if table == [] then Partial([], [])
    else
      var n := Sum(table[..|table| - 1]);
      TakeSegment(Unlace(table[..|table| - 1], body[..n]), body[n..])
  }

  lemma UnlaceSnoc(table: seq<Byte>, body: seq<Byte>, segment: seq<Byte>)
    requires |body| == Sum(table) && |segment| <= SEGMENT
    ensures Sum(table + [|segment|]) == |body + segment|
    ensures Unlace(table + [|segment|], body + segment) == TakeSegment(Unlace(table, body), segment)
  {
    assert (table + [|segment|])[..|table|] == table;
    assert (body + segment)[..|body|] == body && (body + segment)[|body|..] == segment;
  }

  function Fulls(k: nat): (r: seq<Byte>)
    ensures |r| == k
  {
    seq(k, i => SEGMENT)
  }

  lemma FullsSnoc(k: nat)
    ensures Fulls(k + 1) == Fulls(k) + [SEGMENT]
  {
  }

  /** Full segments only extend the open packet. */
  lemma {:induction false} UnlaceFull(table: seq<Byte>, body: seq<Byte>, k: nat, data: seq<Byte>)
    requires |body| == Sum(table) && |data| == k * SEGMENT
    ensures Sum(table + Fulls(k)) == |body + data|
    ensures Unlace(table + Fulls(k), body + data)
         == Partial(Unlace(table, body).packets, Unlace(table, body).open + data)
  {
    var open := Unlace(table, body).open;
    if k == 0 {
      assert table + Fulls(k) == table && body + data == body && open + data == open;
    } else {
      var m := (k - 1) * SEGMENT;
      assert |data| == m + SEGMENT;
      UnlaceFull(table, body, k - 1, data[..m]);
      FullStep(table, body, k - 1, data[..m], data[m..]);
      assert data[..m] + data[m..] == data;
    }
  }

  lemma FullStep(table: seq<Byte>, body: seq<Byte>, k: nat, front: seq<Byte>, segment: seq<Byte>)
    requires |body| == Sum(table) && |segment| == SEGMENT
    requires Sum(table + Fulls(k)) == |body + front|
    requires Unlace(table + Fulls(k), body + front)
          == Partial(Unlace(table, body).packets, Unlace(table, body).open + front)
    ensures Sum(table + Fulls(k + 1)) == |body + (front + segment)|
    ensures Unlace(table + Fulls(k + 1), body + (front + segment))
         == Partial(Unlace(table, body).packets, Unlace(table, body).open + (front + segment))
  {
    UnlaceSnoc(table + Fulls(k), body + front, segment);
    FullsSnoc(k);
    Reassociate(table, Fulls(k), [SEGMENT]);
    Reassociate(body, front, segment);
    Reassociate(Unlace(table, body).open, front, segment);
  }

  lemma Reassociate<T>(a: seq<T>, b: seq<T>, c: seq<T>)
    ensures a + b + c == a + (b + c)
  {
  }

  /** The lacing values of one packet complete exactly that packet. */
  lemma UnlaceOne(table: seq<Byte>, body: seq<Byte>, packet: seq<Byte>)
    requires |body| == Sum(table)
    ensures Sum(table + Lacing(|packet|)) == |body + packet|
    ensures Unlace(table + Lacing(|packet|), body + packet)
         == Partial(Unlace(table, body).packets + [Unlace(table, body).open + packet], [])
  {
    var k := |packet| / SEGMENT;
    var front, segment := packet[..k * SEGMENT], packet[k * SEGMENT..];
    UnlaceFull(table, body, k, front);
    UnlaceSnoc(table + Fulls(k), body + front, segment);
    Reassociate(table, Fulls(k), [|segment|]);
    Reassociate(body, front, segment);
    Reassociate(Unlace(table, body).open, front, segment);
    assert front + segment == packet;
    assert Lacing(|packet|) == Fulls(k) + [|segment|];
  }

  /** Reading a page's lacing table and body gives back exactly its packets, multiples of 255 included. */
  lemma {:induction false} UnlaceSegments(packets: seq<seq<Byte>>)
    ensures Sum(Segments(packets)) == |Flatten(packets)|
    ensures Unlace(Segments(packets), Flatten(packets)) == Partial(packets, [])
  {
    if packets != [] {
      var m := |packets| - 1;
      UnlaceSegments(packets[..m]);
      UnlaceOne(Segments(packets[..m]), Flatten(packets[..m]), packets[m]);
      assert [] + packets[m] == packets[m];
      assert packets == packets[..m] + [packets[m]];
    }
  }

  /** One more segment needs at most one more lacing value. */
  lemma TakeSegmentNeeds(q: Partial, segment: seq<Byte>)
    requires |q.open| % SEGMENT == 0 && |segment| <= SEGMENT
    ensures var p := TakeSegment(q, segment);
            && |p.open| % SEGMENT == 0
            && |Segments(p.packets)| + |p.open| / SEGMENT <= |Segments(q.packets)| + |q.open| / SEGMENT + 1
  {
    if |segment| < SEGMENT {
      assert (q.packets + [q.open + segment])[..|q.packets|] == q.packets;
    }
  }

  /** The packets read never need more lacing values than the table has. */
  lemma {:induction false} UnlaceNeedsTable(table: seq<Byte>, body: seq<Byte>)
    requires |body| == Sum(table)
    ensures var p := Unlace(table, body); |Segments(p.packets)| + |p.open| / SEGMENT <= |table|
    ensures |Unlace(table, body).open| % SEGMENT == 0
  {
    if table != [] {
      var m := |table| - 1;
      var n := Sum(table[..m]);
      UnlaceNeedsTable(table[..m], body[..n]);
      TakeSegmentNeeds(Unlace(table[..m], body[..n]), body[n..]);
    }
  }

  // ---- pages ----

  datatype Page = Page(flags: Byte, granule: Word64, serial: Word32, sequence: Word32, packets: seq<seq<Byte>>)

  function HeaderBytes(p: Page, checksum: Word32): (r: seq<Byte>) {
    var segments := Segments(p.packets);
    CAPTURE + [0, p.flags] + Le64(p.granule) + Le32(p.serial) + Le32(p.sequence) + Le32(checksum)
    + [|segments| % 256] + segments
  }

  /** The bytes of a page; the checksum covers the page with a zero checksum field. */
  function PageBytes(crc: Checksum, p: Page): (r: seq<Byte>) {
    HeaderBytes(p, crc(HeaderBytes(p, 0) + Flatten(p.packets))) + Flatten(p.packets)
  }

  /** The fixed fields of a page header, as a reader takes them off. */
  datatype Fields = Fields(flags: Byte, granule: Word64, serial: Word32, sequence: Word32, checksum: Word32, segments: Byte)

  function ReadFields(b: seq<Byte>): (f: Fields)
    requires |b| >= FIXED
  {
    Fields(b[5], FromLe64(b[6..14]), FromLe32(b[14..18]), FromLe32(b[18..22]), FromLe32(b[22..26]), b[26])
  }

  /** A reader takes one page off the front of a stream and checks its checksum. */
  function ParsePage(crc: Checksum, b: seq<Byte>): (r: Option<(Page, nat)>)
    ensures r.Some? ==> FIXED <= r.value.1 <= |b|
  {
    if |b| < FIXED || !Spells(b[..4], "OggS") || b[4] != 0 then None
    else TakePage(crc, b, ReadFields(b))
  }

  function TakePage(crc: Checksum, b: seq<Byte>, f: Fields): (r: Option<(Page, nat)>)
    requires |b| >= FIXED
    ensures r.Some? ==> FIXED <= r.value.1 <= |b|
  {
    var n: nat := f.segments;
    if |b| < FIXED + n then None
    else
      var table := b[FIXED..FIXED + n];
      var size := FIXED + n + Sum(table);
      if |b| < size || crc(b[..22] + Le32(0) + b[26..size]) != f.checksum then None
      else Some((Page(f.flags, f.granule, f.serial, f.sequence, Unlace(table, b[FIXED + n..size]).packets), size))
  }

  /** Slicing a page at the offsets of its fields. */
  lemma HeaderSlices(p: Page, checksum: Word32, rest: seq<Byte>)
    ensures var b := HeaderBytes(p, checksum) + rest;
            && |HeaderBytes(p, checksum)| == FIXED + |Segments(p.packets)|
            && b[..4] == CAPTURE && b[4] == 0 && b[5] == p.flags
            && b[6..14] == Le64(p.granule) && b[14..18] == Le32(p.serial) && b[18..22] == Le32(p.sequence)
            && b[22..26] == Le32(checksum) && b[26] == |Segments(p.packets)| % 256
            && b[FIXED..] == Segments(p.packets) + rest
  {
  }

  /** Clearing the checksum field of a page. */
  lemma ChecksumCleared(p: Page, checksum: Word32, rest: seq<Byte>)
    ensures var b := HeaderBytes(p, checksum) + rest; b[..22] + Le32(0) + b[26..] == HeaderBytes(p, 0) + rest
  {
    var fixed := CAPTURE + [0, p.flags] + Le64(p.granule) + Le32(p.serial) + Le32(p.sequence);
    var b := HeaderBytes(p, checksum) + rest;
    assert b[..22] == fixed;
    assert b[26..] == [|Segments(p.packets)| % 256] + Segments(p.packets) + rest;
  }

  lemma CutPage(p: Page, checksum: Word32, body: seq<Byte>, rest: seq<Byte>)
    ensures var b, n := HeaderBytes(p, checksum) + body + rest, |Segments(p.packets)|;
            && b == HeaderBytes(p, checksum) + (body + rest)
            && |HeaderBytes(p, checksum)| == FIXED + n
            && b[FIXED..FIXED + n] == Segments(p.packets)
            && b[FIXED + n..FIXED + n + |body|] == body
            && b[..22] + Le32(0) + b[26..FIXED + n + |body|] == HeaderBytes(p, 0) + body
  {
    var b, n := HeaderBytes(p, checksum) + body + rest, |Segments(p.packets)|;
    HeaderSlices(p, checksum, body + rest);
    ChecksumCleared(p, checksum, body);
    var page := HeaderBytes(p, checksum) + body;
    assert b[..22] == page[..22];
    assert b[26..FIXED + n + |body|] == page[26..];
  }

  lemma FieldsOf(p: Page, checksum: Word32, rest: seq<Byte>)
    requires |Segments(p.packets)| <= 255
    ensures var b := HeaderBytes(p, checksum) + rest;
            && |b| >= FIXED && Spells(b[..4], "OggS") && b[4] == 0
            && ReadFields(b) == Fields(p.flags, p.granule, p.serial, p.sequence, checksum, |Segments(p.packets)|)
  {
    HeaderSlices(p, checksum, rest);
  }

  /** Bytes whose fields, table and body are those of a page are read as that page. */
  lemma TakeFields(crc: Checksum, b: seq<Byte>, f: Fields, n: nat, size: nat, body: seq<Byte>)
    requires f.segments == n && FIXED + n <= size <= |b|
    requires FIXED + n + Sum(b[FIXED..FIXED + n]) == size && b[FIXED + n..size] == body
    requires crc(b[..22] + Le32(0) + b[26..size]) == f.checksum
    ensures TakePage(crc, b, f)
         == Some((Page(f.flags, f.granule, f.serial, f.sequence, Unlace(b[FIXED..FIXED + n], body).packets), size))
  {
  }

  lemma PageTaken(crc: Checksum, b: seq<Byte>, p: Page, checksum: Word32, body: seq<Byte>)
    requires body == Flatten(p.packets) && |Segments(p.packets)| <= 255
    requires var n := |Segments(p.packets)|;
             && FIXED + n + |body| <= |b| && b[FIXED..FIXED + n] == Segments(p.packets)
             && b[FIXED + n..FIXED + n + |body|] == body
             && crc(b[..22] + Le32(0) + b[26..FIXED + n + |body|]) == checksum
    ensures TakePage(crc, b, Fields(p.flags, p.granule, p.serial, p.sequence, checksum, |Segments(p.packets)|))
         == Some((p, FIXED + |Segments(p.packets)| + |body|))
  {
    var f := Fields(p.flags, p.granule, p.serial, p.sequence, checksum, |Segments(p.packets)|);
    UnlaceSegments(p.packets);
    TakeFields(crc, b, f, |Segments(p.packets)|, FIXED + |Segments(p.packets)| + |body|, body);
  }

  /** Up to 255 segments a page reads back as itself, whatever follows it. */
  lemma PageRoundTrip(crc: Checksum, p: Page, rest: seq<Byte>)
    requires |Segments(p.packets)| <= 255
    ensures ParsePage(crc, PageBytes(crc, p) + rest) == Some((p, |PageBytes(crc, p)|))
  {
    var body := Flatten(p.packets);
    var checksum := crc(HeaderBytes(p, 0) + body);
    var b := HeaderBytes(p, checksum) + (body + rest);
    CutPage(p, checksum, body, rest);
    FieldsOf(p, checksum, body + rest);
    PageTaken(crc, b, p, checksum, body);
    assert PageBytes(crc, p) + rest == b;
  }

  lemma TakenFits(crc: Checksum, b: seq<Byte>, f: Fields)
    requires |b| >= FIXED
    ensures var r := TakePage(crc, b, f); r.Some? ==> |Segments(r.value.0.packets)| <= 255
  {
    if TakePage(crc, b, f).Some? {
      var n: nat := f.segments;
      var table := b[FIXED..FIXED + n];
      UnlaceNeedsTable(table, b[FIXED + n..FIXED + n + Sum(table)]);
    }
  }

  /** What a reader takes for a page needs at most 255 segments. */
  lemma ParsedFits(crc: Checksum, b: seq<Byte>)
    ensures var r := ParsePage(crc, b); r.Some? ==> |Segments(r.value.0.packets)| <= 255
  {
    if |b| >= FIXED {
      TakenFits(crc, b, ReadFields(b));
    }
  }

  /** A page is read back with its packets exactly when they need at most 255 segments. */
  lemma PageReadable(crc: Checksum, p: Page)
    ensures (var r := ParsePage(crc, PageBytes(crc, p)); r.Some? && r.value.0.packets == p.packets)
       <==> |Segments(p.packets)| <= 255
  {
    if |Segments(p.packets)| <= 255 {
      PageRoundTrip(crc, p, []);
      assert PageBytes(crc, p) + [] == PageBytes(crc, p);
    } else {
      ParsedFits(crc, PageBytes(crc, p));
    }
  }

  // ---- streams ----

  function PageChunks(crc: Checksum, pages: seq<Page>): (r: seq<seq<Byte>>)
    ensures |r| == |pages|
  {
    seq(|pages|, i requires 0 <= i < |pages| => PageBytes(crc, pages[i]))
  }

  function StreamBytes(crc: Checksum, pages: seq<Page>): (r: seq<Byte>) {
    Flatten(PageChunks(crc, pages))
  }

  lemma StreamSnoc(crc: Checksum, pages: seq<Page>, p: Page)
    ensures StreamBytes(crc, pages + [p]) == StreamBytes(crc, pages) + PageBytes(crc, p)
  {
    assert PageChunks(crc, pages + [p]) == PageChunks(crc, pages) + [PageBytes(crc, p)];
    FlattenSnoc(PageChunks(crc, pages), PageBytes(crc, p));
  }

  /** A reader of a whole stream. */
  function ParseStream(crc: Checksum, b: seq<Byte>): (r: Option<seq<Page>>)
    decreases |b|
  {
    if b == [] then Some([])
    else
      match ParsePage(crc, b)
      case None => None
      case Some((page, size)) =>
        match ParseStream(crc, b[size..])
        case None => None
        case Some(rest) => Some([page] + rest)
  }

  lemma {:induction false} FlattenCons(x: seq<Byte>, xs: seq<seq<Byte>>)
    ensures Flatten([x] + xs) == x + Flatten(xs)
  {
    if xs == [] {
      assert ([x] + xs)[..0] == [] && x + [] == x && [] + x == x;
    } else {
      var m := |xs| - 1;
      FlattenCons(x, xs[..m]);
      assert ([x] + xs)[..m + 1] == [x] + xs[..m];
      Reassociate(x, Flatten(xs[..m]), xs[m]);
    }
  }

  lemma StreamCons(crc: Checksum, pages: seq<Page>)
    requires pages != []
    ensures StreamBytes(crc, pages) == PageBytes(crc, pages[0]) + StreamBytes(crc, pages[1..])
  {
    var first, rest := PageBytes(crc, pages[0]), PageChunks(crc, pages[1..]);
    assert PageChunks(crc, pages) == [first] + rest;
    FlattenCons(first, rest);
  }

  /** Reading one page and then the rest. */
  lemma ReadOn(crc: Checksum, first: seq<Byte>, rest: seq<Byte>, page: Page, pages: seq<Page>)
    requires ParsePage(crc, first + rest) == Some((page, |first|)) && ParseStream(crc, rest) == Some(pages)
    ensures ParseStream(crc, first + rest) == Some([page] + pages)
  {
    assert (first + rest)[|first|..] == rest;
  }

  /** A stream of pages with at most 255 segments each reads back page by page. */
  lemma {:induction false} StreamRoundTrip(crc: Checksum, pages: seq<Page>)
    requires forall i :: 0 <= i < |pages| ==> |Segments(pages[i].packets)| <= 255
    ensures ParseStream(crc, StreamBytes(crc, pages)) == Some(pages)
  {
    if pages != [] {
      var first, rest := PageBytes(crc, pages[0]), StreamBytes(crc, pages[1..]);
      StreamRoundTrip(crc, pages[1..]);
      StreamCons(crc, pages);
      PageRoundTrip(crc, pages[0], rest);
      ReadOn(crc, first, rest, pages[0], pages[1..]);
      assert [pages[0]] + pages[1..] == pages;
    }
  }

  // ---- the writer ----

  const OPUS_HEAD: seq<Byte> := [0x4F, 0x70, 0x75, 0x73, 0x48, 0x65, 0x61, 0x64]
  const OPUS_TAGS: seq<Byte> := [0x4F, 0x70, 0x75, 0x73, 0x54, 0x61, 0x67, 0x73]
  const VENDOR: seq<Byte> := [0x43, 0x6F, 0x6E, 0x76, 0x6F, 0x49, 0x6E, 0x74, 0x65, 0x6C]
  const FLAG_BOS: Byte := 0x02

  function IdHeader(sampleRate: nat, channels: nat): (r: seq<Byte>) {
    OPUS_HEAD + [1, channels % 256] + Le16(3840) + Le32(sampleRate % WORD32) + Le16(0) + [0]
  }

  function CommentHeader(): (r: seq<Byte>) {
    OPUS_TAGS + Le32(|VENDOR|) + VENDOR + Le32(0)
  }

  /** An identification header as section 5.1 of RFC 7845 lays it out for mapping family 0. */
  datatype OpusHead = OpusHead(version: Byte, channels: Byte, preSkip: Word16, sampleRate: Word32, gain: Word16, mapping: Byte)

  function ReadOpusHead(b: seq<Byte>): (r: Option<OpusHead>) {
    if |b| != 19 || !Spells(b[..8], "OpusHead") then None
    else Some(OpusHead(b[8], b[9], FromLe16(b[10..12]), FromLe32(b[12..16]), FromLe16(b[16..18]), b[18]))
  }

  /** A comment header (section 5.2): its vendor string and the number of comments, when nothing follows. */
  function ReadOpusTags(b: seq<Byte>): (r: Option<(seq<Byte>, Word32)>) {
    if |b| < 16 || !Spells(b[..8], "OpusTags") then None
    else
      var n: int := FromLe32(b[8..12]);
      if |b| != 16 + n then None else Some((b[12..12 + n], FromLe32(b[12 + n..])))
  }

  lemma IdHeaderReads(sampleRate: nat, channels: nat)
    ensures ReadOpusHead(IdHeader(sampleRate, channels))
         == Some(OpusHead(1, channels % 256, 3840, sampleRate % WORD32, 0, 0))
  {
    var b := IdHeader(sampleRate, channels);
    assert b[..8] == OPUS_HEAD && b[8] == 1 && b[9] == channels % 256 && b[18] == 0;
    assert b[10..12] == Le16(3840) && b[12..16] == Le32(sampleRate % WORD32) && b[16..18] == Le16(0);
  }

  lemma CommentHeaderReads()
    ensures ReadOpusTags(CommentHeader()).Some?
    ensures Spells(ReadOpusTags(CommentHeader()).value.0, "ConvoIntel") && ReadOpusTags(CommentHeader()).value.1 == 0
  {
    var b := CommentHeader();
    assert b[..8] == OPUS_TAGS && b[8..12] == Le32(10) && b[12..22] == VENDOR && b[22..] == Le32(0);
  }

  datatype Op = OpusHeader(sampleRate: nat, channels: nat) | Packet(bytes: seq<Byte>, samples: Word32)

  /** A writer's run: its pages, the unbounded sum of samples, and the packets counted. */
  datatype Written = Written(pages: seq<Page>, samples: nat, packets: nat, headerWritten: bool)

  function HeaderType(flags: seq<Byte>): (t: Byte) {
    if |flags| > 0 then flags[0] else 0
  }

  function AddPage(serial: Word32, w: Written, flags: seq<Byte>, packets: seq<seq<Byte>>): (r: Written) {
    w.(pages := w.pages + [Page(HeaderType(flags), w.samples % WORD64, serial, |w.pages| % WORD32, packets)])
  }

  function WithSamples(w: Written, samples: Word32): (r: Written) {
    w.(samples := w.samples + samples, packets := w.packets + 1)
  }

  function Next(serial: Word32, w: Written, op: Op): (r: Written) {
    match op
    case OpusHeader(sampleRate, channels) =>
      if w.headerWritten then w
      else
        var id := AddPage(serial, w, [FLAG_BOS], [IdHeader(sampleRate, channels)]);
        AddPage(serial, id, [], [CommentHeader()]).(headerWritten := true)
    case Packet(bytes, samples) =>
      AddPage(serial, WithSamples(w, samples), [], [bytes])
  }

  function Run(serial: Word32, ops: seq<Op>): (w: Written) {
    if ops == [] then Written([], 0, 0, false)
    else Next(serial, Run(serial, ops[..|ops| - 1]), ops[|ops| - 1])
  }

  /** Samples written by a run. */
  function Samples(ops: seq<Op>): (n: nat) {
    if ops == [] then 0
    else
      var last := ops[|ops| - 1];
      Samples(ops[..|ops| - 1]) + if last.Packet? then last.samples as nat else 0
  }

  /**
   Over every run pages are numbered consecutively modulo 2^32, and the page of the packet just
   written carries that packet alone with the running sum of samples as its granule position.
   */
  lemma {:induction false} RunNumbers(serial: Word32, ops: seq<Op>)
    ensures var w := Run(serial, ops);
            && w.samples == Samples(ops)
            && (forall i :: 0 <= i < |w.pages| ==> w.pages[i].sequence == i % WORD32)
            && (ops != [] && ops[|ops| - 1].Packet? ==>
                  && w.pages != []
                  && w.pages[|w.pages| - 1].packets == [ops[|ops| - 1].bytes]
                  && w.pages[|w.pages| - 1].granule == Samples(ops) % WORD64)
  {
    if ops != [] {
      RunNumbers(serial, ops[..|ops| - 1]);
    }
  }

  lemma NextPages(serial: Word32, w: Written, op: Op)
    ensures w.pages <= Next(serial, w, op).pages
  {
  }

  /** The pages of a prefix of a run are a prefix of its pages. */
  lemma {:induction false} PagesGrow(serial: Word32, ops: seq<Op>, k: nat)
    requires k <= |ops|
    ensures Run(serial, ops[..k]).pages <= Run(serial, ops).pages
    decreases |ops|
  {
    if k == |ops| {
      assert ops[..k] == ops;
    } else {
      var n := |ops| - 1;
      PagesGrow(serial, ops[..n], k);
      assert ops[..n][..k] == ops[..k];
      NextPages(serial, Run(serial, ops[..n]), ops[n]);
    }
  }

  /**
   Every packet of a run has its own page: the next one after those written before it, with
   that position as its number and the sum of samples up to this packet as its granule position.
   */
  lemma EveryPacket(serial: Word32, ops: seq<Op>, k: nat)
    requires k < |ops| && ops[k].Packet?
    ensures var i := |Run(serial, ops[..k]).pages|;
            && i < |Run(serial, ops).pages|
            && Run(serial, ops).pages[i] == Page(0, Samples(ops[..k + 1]) % WORD64, serial, i % WORD32, [ops[k].bytes])
  {
    assert ops[..k + 1][..k] == ops[..k];
    RunNumbers(serial, ops[..k + 1]);
    PagesGrow(serial, ops, k + 1);
  }

  /** The headers have been asked for. */
  predicate AskedFor(ops: seq<Op>) {
    exists i :: 0 <= i < |ops| && ops[i].OpusHeader?
  }

  lemma {:induction false} HeaderWritten(serial: Word32, ops: seq<Op>)
    ensures Run(serial, ops).headerWritten <==> AskedFor(ops)
  {
    if ops != [] {
      var n := |ops| - 1;
      HeaderWritten(serial, ops[..n]);
      if AskedFor(ops[..n]) {
        var i :| 0 <= i < n && ops[..n][i].OpusHeader?;
        assert ops[i].OpusHeader?;
      }
      if AskedFor(ops) && !ops[n].OpusHeader? {
        var i :| 0 <= i < |ops| && ops[i].OpusHeader?;
        assert ops[..n][i].OpusHeader?;
      }
    }
  }

  lemma AddsHeaders(serial: Word32, w: Written, sampleRate: nat, channels: nat)
    requires !w.headerWritten
    ensures var r, i := Next(serial, w, OpusHeader(sampleRate, channels)), |w.pages|;
            && |r.pages| == i + 2
            && r.pages[i] == Page(2, w.samples % WORD64, serial, i % WORD32, [IdHeader(sampleRate, channels)])
            && r.pages[i + 1] == Page(0, w.samples % WORD64, serial, (i + 1) % WORD32, [CommentHeader()])
  {
  }

  /**
   The first request for headers writes two pages, the identification header alone under the
   beginning-of-stream flag and then the comment header; later requests write nothing.
   */
  lemma HeaderPages(serial: Word32, ops: seq<Op>, k: nat)
    requires k < |ops| && ops[k].OpusHeader?
    ensures AskedFor(ops[..k]) ==> Run(serial, ops[..k + 1]) == Run(serial, ops[..k])
    ensures !AskedFor(ops[..k]) ==>
              var pages, i := Run(serial, ops).pages, |Run(serial, ops[..k]).pages|;
              && i + 1 < |pages|
              && pages[i].flags == 2 && pages[i].sequence == i % WORD32 && |pages[i].packets| == 1
              && ReadOpusHead(pages[i].packets[0])
              == Some(OpusHead(1, ops[k].channels % 256, 3840, ops[k].sampleRate % WORD32, 0, 0))
              && pages[i + 1].flags == 0 && pages[i + 1].sequence == (i + 1) % WORD32 && |pages[i + 1].packets| == 1
              && ReadOpusTags(pages[i + 1].packets[0]).Some?
  {
    assert ops[..k + 1][..k] == ops[..k];
    HeaderWritten(serial, ops[..k]);
    if !AskedFor(ops[..k]) {
      AddsHeaders(serial, Run(serial, ops[..k]), ops[k].sampleRate, ops[k].channels);
      PagesGrow(serial, ops, k + 1);
      IdHeaderReads(ops[k].sampleRate, ops[k].channels);
      CommentHeaderReads();
    }
  }

  /**
   A stream begins with the beginning-of-stream flag if and only if its headers are asked for
   before any packet, and no later page ever carries the flag then.
   */
  lemma BeginsWithFlag(serial: Word32, ops: seq<Op>)
    requires ops != []
    ensures Run(serial, ops).pages != []
    ensures Run(serial, ops).pages[0].flags == 2 <==> ops[0].OpusHeader?
    ensures ops[0].OpusHeader? ==> forall j :: 0 < j < |Run(serial, ops).pages| ==> Run(serial, ops).pages[j].flags == 0
  {
    FirstPage(serial, ops);
    if ops[0].OpusHeader? { NoLaterFlag(serial, ops); }
  }

  lemma FirstPage(serial: Word32, ops: seq<Op>)
    requires ops != []
    ensures Run(serial, ops).pages != []
    ensures Run(serial, ops).pages[0].flags == if ops[0].OpusHeader? then 2 else 0
  {
    assert ops[..1][..0] == [];
    assert Run(serial, ops[..1]) == Next(serial, Written([], 0, 0, false), ops[0]);
    PagesGrow(serial, ops, 1);
  }

  lemma {:induction false} NoLaterFlag(serial: Word32, ops: seq<Op>)
    requires ops != [] && ops[0].OpusHeader?
    ensures var w := Run(serial, ops);
            w.headerWritten && |w.pages| >= 2 && forall j :: 0 < j < |w.pages| ==> w.pages[j].flags == 0
  {
    var n := |ops| - 1;
    if n == 0 {
      assert ops[..0] == [];
    } else {
      NoLaterFlag(serial, ops[..n]);
    }
  }

  /** Every packet of a run needs at most 255 segments, so the comment and identification headers do too. */
  ghost predicate ShortPackets(ops: seq<Op>) {
    forall i :: 0 <= i < |ops| && ops[i].Packet? ==> |ops[i].bytes| < 255 * SEGMENT
  }

  lemma OneSegmentTable(packet: seq<Byte>)
    ensures |Segments([packet])| == |packet| / SEGMENT + 1
  {
    assert [packet][..0] == [];
  }

  lemma {:induction false} RunPagesShort(serial: Word32, ops: seq<Op>)
    requires ShortPackets(ops)
    ensures forall i :: 0 <= i < |Run(serial, ops).pages| ==> |Segments(Run(serial, ops).pages[i].packets)| <= 255
  {
    if ops != [] {
      var last := ops[|ops| - 1];
      RunPagesShort(serial, ops[..|ops| - 1]);
      match last
      case OpusHeader(sampleRate, channels) =>
        OneSegmentTable(IdHeader(sampleRate, channels));
        OneSegmentTable(CommentHeader());
      case Packet(bytes, _) =>
        OneSegmentTable(bytes);
    }
  }

  /** A whole written stream of such packets reads back as exactly its pages. */
  lemma WrittenStreamReads(serial: Word32, crc: Checksum, ops: seq<Op>)
    requires ShortPackets(ops)
    ensures ParseStream(crc, StreamBytes(crc, Run(serial, ops).pages)) == Some(Run(serial, ops).pages)
  {
    RunPagesShort(serial, ops);
    StreamRoundTrip(crc, Run(serial, ops).pages);
  }

  class OggWriter {
    const serial: Word32
    const crc: Checksum
    var output: seq<Byte>
    var granulePos: Word64
    var packetCount: Word64
    var pageSequence: Word32
    var headerWritten: bool
    ghost var written: Written

    ghost predicate Valid()
      reads this
    {
      && output == StreamBytes(crc, written.pages)
      && Counted(written.samples, written.packets, |written.pages|)
      && headerWritten == written.headerWritten
    }

    ghost predicate Counted(samples: nat, packets: nat, pages: nat)
      reads this`granulePos, this`packetCount, this`pageSequence
    {
      && granulePos == samples % WORD64
      && packetCount == packets % WORD64
      && pageSequence == pages % WORD32
    }

    constructor (serial: Word32, crc: Checksum)
      ensures Valid() && this.serial == serial && this.crc == crc && written == Run(serial, [])
    {
      this.serial := serial;
      this.crc := crc;
      output, granulePos, packetCount, pageSequence, headerWritten := [], 0, 0, 0, false;
      written := Written([], 0, 0, false);
    }

    method WriteOpusHeader(sampleRate: nat, channels: nat)
      requires Valid()
      modifies this
      ensures Valid() && written == Next(serial, old(written), OpusHeader(sampleRate, channels))
    {
      if headerWritten {
        return;
      }
      WritePage([FLAG_BOS], [IdHeader(sampleRate, channels)]);
      WritePage([], [CommentHeader()]);
      headerWritten := true;
      written := written.(headerWritten := true);
    }

    method WritePacket(packet: seq<Byte>, samples: Word32)
      requires Valid()
      modifies this
      ensures Valid() && written == Next(serial, old(written), Packet(packet, samples))
    {
      ghost var before := written;
      CountPacket(samples);
      WritePage([], [packet]);
      NextPacket(serial, before, packet, samples);
    }

    method CountPacket(samples: Word32)
      requires Valid()
      modifies this`granulePos, this`packetCount, this`written
      ensures Valid() && written == WithSamples(old(written), samples)
    {
      AddCounts(samples, written.samples, written.packets, |written.pages|);
      written := WithSamples(written, samples);
    }

    method AddCounts(samples: Word32, ghost total: nat, ghost packets: nat, ghost pages: nat)
      requires Counted(total, packets, pages)
      modifies this`granulePos, this`packetCount
      ensures Counted(total + samples, packets + 1, pages)
    {
      Wrap64(total, samples);
      Wrap64(packets, 1);
      granulePos := (granulePos + samples) % WORD64;
      packetCount := (packetCount + 1) % WORD64;
    }

    method WritePage(flags: seq<Byte>, packets: seq<seq<Byte>>)
      requires Valid()
      modifies this`output, this`pageSequence, this`written
      ensures Valid() && written == AddPage(serial, old(written), flags, packets)
    {
      ghost var after := AddPage(serial, written, flags, packets);
      EmitPage(HeaderType(flags), packets, written.pages);
      CountPage(written.samples, written.packets, |written.pages|);
      written := after;
    }

    method CountPage(ghost total: nat, ghost packets: nat, ghost pages: nat)
      requires Counted(total, packets, pages)
      modifies this`pageSequence
      ensures Counted(total, packets, pages + 1)
    {
      Wrap32(pages);
      pageSequence := (pageSequence + 1) % WORD32;
    }

    method EmitPage(headerType: Byte, packets: seq<seq<Byte>>, ghost pages: seq<Page>)
      requires output == StreamBytes(crc, pages)
      modifies this`output
      ensures output == StreamBytes(crc, pages + [Page(headerType, granulePos, serial, pageSequence, packets)])
    {
      var header := BuildHeader(headerType, packets);
      Emit(header, packets, pages, Page(headerType, granulePos, serial, pageSequence, packets));
    }

    method Emit(header: seq<Byte>, packets: seq<seq<Byte>>, ghost pages: seq<Page>, ghost page: Page)
      requires output == StreamBytes(crc, pages) && header + Flatten(packets) == PageBytes(crc, page)
      modifies this`output
      ensures output == StreamBytes(crc, pages + [page])
    {
      output := output + header;
      output := output + Flatten(packets);
      Reassociate(old(output), header, Flatten(packets));
      StreamSnoc(crc, pages, page);
    }

    /** The header with its checksum field filled in last. */
    method BuildHeader(headerType: Byte, packets: seq<seq<Byte>>) returns (header: seq<Byte>)
      ensures header + Flatten(packets) == PageBytes(crc, Page(headerType, granulePos, serial, pageSequence, packets))
    {
      var segments := SegmentTable(packets);
      header := CAPTURE + [0, headerType] + Le64(granulePos) + Le32(serial) + Le32(pageSequence) + Le32(0)
        + [|segments| % 256] + segments;
      var sum := crc(header + Flatten(packets));
      ChecksumPatched(Page(headerType, granulePos, serial, pageSequence, packets), sum);
      header := header[..22] + Le32(sum) + header[26..];
    }

    method SegmentTable(packets: seq<seq<Byte>>) returns (segments: seq<Byte>)
      ensures segments == Segments(packets)
    {
      segments := [];
      for i := 0 to |packets|
        invariant segments == Segments(packets[..i])
      {
        var l := |packets[i]|;
        ghost var before, k := segments, 0;
        while l >= SEGMENT
          invariant 0 <= l
          invariant l + k * SEGMENT == |packets[i]|
          invariant segments == before + Fulls(k)
        {
          FullsSnoc(k);
          Reassociate(before, Fulls(k), [SEGMENT]);
          segments := segments + [SEGMENT];
          l := l - SEGMENT;
          k := k + 1;
        }
        LacingIs(|packets[i]|, k, l);
        Reassociate(before, Fulls(k), [l]);
        segments := segments + [l];
        assert packets[..i + 1][..i] == packets[..i];
      }
      assert packets[..|packets|] == packets;
    }
  }

  lemma NextPacket(serial: Word32, w: Written, packet: seq<Byte>, samples: Word32)
    ensures Next(serial, w, Packet(packet, samples)) == AddPage(serial, WithSamples(w, samples), [], [packet])
  {
  }

  lemma LacingIs(n: nat, k: nat, l: nat)
    requires n == l + k * SEGMENT && l < SEGMENT
    ensures Lacing(n) == Fulls(k) + [l]
  {
    assert n / SEGMENT == k && n % SEGMENT == l;
  }

  lemma ChecksumPatched(p: Page, sum: Word32)
    ensures HeaderBytes(p, 0)[..22] + Le32(sum) + HeaderBytes(p, 0)[26..] == HeaderBytes(p, sum)
  {
    var fixed := CAPTURE + [0, p.flags] + Le64(p.granule) + Le32(p.serial) + Le32(p.sequence);
    assert HeaderBytes(p, 0)[..22] == fixed;
    assert HeaderBytes(p, 0)[26..] == [|Segments(p.packets)| % 256] + Segments(p.packets);
  }

  lemma Wrap64(a: nat, b: nat)
    ensures (a % WORD64 + b) % WORD64 == (a + b) % WORD64
  {
  }

  lemma Wrap32(a: nat)
    ensures (a % WORD32 + 1) % WORD32 == (a + 1) % WORD32
  {
  }
}
