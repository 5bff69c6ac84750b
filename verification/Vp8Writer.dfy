/** VP8 payloads as they are written (sections 4.2 and 4.3 of RFC 7741, section 9.1 of RFC 6386), and
    what the reader of codec/src/vp8.rs makes of them. */
module Vp8Writers {
  import opened Bytes
  import opened Vp8Header

  type Bit = b: int | 0 <= b < 2

  /** The first byte: the R, N and second R bits, the S bit, and the partition index. */
  datatype Start = Start(reserved1: Bit, nonReference: Bit, startsPartition: Bit, reserved2: Bit, partition: int)

  /** The extension: the I, L, T and K fields and the four reserved bits; the T and K fields share a byte. */
  datatype Extension = Extension(
    pictureId: Option<PictureId>,
    tl0PicIdx: Option<Byte>,
    hasTid: Bit,
    hasKeyIdx: Bit,
    tidAndKeyIdx: Byte,
    reserved: int)

  /** What comes behind the descriptor. A key frame's first partition starts with its tag, less the
      key-frame bit, the start code, and the width and the height, each with two bits of scaling. */
  datatype Body =
    | KeyFrame(tag: nat, startCode: Buffer, width: nat, xScale: nat, height: nat, yScale: nat, rest: Buffer)
    | InterFrame(tag: nat, rest: Buffer)
    | Continuation(rest: Buffer)

  datatype Written = Written(start: Start, extension: Option<Extension>, body: Body)

  predicate ValidBody(b: Body) {
    match b
    case KeyFrame(tag, startCode, width, xScale, height, yScale, _) =>
      && tag < 0x80_0000 && |startCode| == 3
      && width < 0x4000 && xScale < 4 && height < 0x4000 && yScale < 4
    case InterFrame(tag, _) => tag < 0x80_0000
    case Continuation(_) => true
  }

  /** A payload header is there exactly at the start of the first partition. */
  predicate ValidWritten(w: Written) {
    && 0 <= w.start.partition < 8
    && (w.extension.Some? ==> 0 <= w.extension.value.reserved < 16)
    && ValidBody(w.body)
    && (w.body.Continuation? <==> w.start.startsPartition == 0 || w.start.partition != 0)
  }

  function FirstByte(s: Start, extended: bool): Byte
    requires 0 <= s.partition < 8
  {
    (if extended then 0x80 else 0) + 0x40 * s.reserved1 + 0x20 * s.nonReference + 0x10 * s.startsPartition
    + 0x08 * s.reserved2 + s.partition
  }

  function XByte(x: Extension): Byte
    requires 0 <= x.reserved < 16
  {
    (if x.pictureId.Some? then 0x80 else 0) + (if x.tl0PicIdx.Some? then 0x40 else 0)
    + 0x20 * x.hasTid + 0x10 * x.hasKeyIdx + x.reserved
  }

  function ExtensionBytes(x: Extension): Buffer
    requires 0 <= x.reserved < 16
  {
    [XByte(x)]
    + (if x.pictureId.Some? then Be16(0x8000 + x.pictureId.value) else [])
    + (if x.tl0PicIdx.Some? then [x.tl0PicIdx.value] else [])
    + (if x.hasTid == 1 || x.hasKeyIdx == 1 then [x.tidAndKeyIdx] else [])
  }

  /** Little-endian, in two and in three bytes. */
  function Le16(n: int): Buffer
    requires 0 <= n < 0x1_0000
  {
    [n % 0x100, n / 0x100]
  }

  function Le24(n: int): Buffer
    requires 0 <= n < 0x100_0000
  {
    [n % 0x100] + Le16(n / 0x100)
  }

  function BodyBytes(b: Body): Buffer
    requires ValidBody(b)
  {
    match b
    case KeyFrame(tag, startCode, width, xScale, height, yScale, rest) =>
      Le24(2 * tag) + startCode + Le16(0x4000 * xScale + width) + Le16(0x4000 * yScale + height) + rest
    case InterFrame(tag, rest) => Le24(2 * tag + 1) + rest
    case Continuation(rest) => rest
  }

  function Write(w: Written): Buffer
    requires ValidWritten(w)
  {
    [FirstByte(w.start, w.extension.Some?)]
    + (if w.extension.Some? then ExtensionBytes(w.extension.value) else [])
    + BodyBytes(w.body)
  }

  /** What is to be read. */
  function Meaning(w: Written): ParsedHeader {
    ParsedHeader(
      if w.extension.Some? then w.extension.value.pictureId else None,
      if w.extension.Some? then w.extension.value.tl0PicIdx else None,
      w.body.KeyFrame?,
      if w.body.KeyFrame? then Some(PixelSize(w.body.width, w.body.height)) else None)
  }

  lemma FirstByteReads(s: Start, extended: bool)
    requires 0 <= s.partition < 8
    ensures var b := FirstByte(s, extended);
            && (HasExtensions(b) <==> extended)
            && (HasPayloadHeader(b) <==> s.startsPartition == 1 && s.partition == 0)
  {
  }

  lemma XByteReads(x: Extension)
    requires 0 <= x.reserved < 16
    ensures var b := XByte(x);
            && (HasPictureId(b) <==> x.pictureId.Some?)
            && (HasTl0PicIdx(b) <==> x.tl0PicIdx.Some?)
            && (HasTidOrKeyIdx(b) <==> x.hasTid == 1 || x.hasKeyIdx == 1)
  {
  }

  lemma BodyReads(p: Buffer, at: nat, s: Start, body: Body, extended: bool, h: ParsedHeader)
    requires 0 <= s.partition < 8 && ValidBody(body)
    requires p != [] && at <= |p| && p[0] == FirstByte(s, extended) && p[at..] == BodyBytes(body)
    requires body.Continuation? <==> s.startsPartition == 0 || s.partition != 0
    ensures PayloadHeader(p, at, h)
         == Ok(if body.KeyFrame? then h.(isKeyFrame := true, resolution := Some(PixelSize(body.width, body.height)))
               else h)
  {
    hide FirstByte, HasPayloadHeader;
    FirstByteReads(s, extended);
    var b := BodyBytes(body);
    assert forall i :: 0 <= i < |b| ==> b[i] == p[at + i];
  }

  lemma ExtensionReads(p: Buffer, s: Start, x: Extension, body: Buffer)
    requires 0 <= s.partition < 8 && 0 <= x.reserved < 16
    requires p == [FirstByte(s, true)] + ExtensionBytes(x) + body
    ensures var at := 1 + |ExtensionBytes(x)|;
            && p[at..] == body
            && Parse(p) == PayloadHeader(p, at, ParsedHeader(x.pictureId, x.tl0PicIdx, false, None))
  {
    hide FirstByte, XByte, HasExtensions, HasPictureId, HasTl0PicIdx, HasTidOrKeyIdx, PayloadHeader;
    FirstByteReads(s, true);
    XByteReads(x);
    var b := ExtensionBytes(x);
    assert forall i :: 0 <= i < |b| ==> b[i] == p[1 + i];
    if x.pictureId.Some? {
      assert p[2..4] == Be16(0x8000 + x.pictureId.value);
      ReadsBe16(p, 2, 0x8000 + x.pictureId.value);
    }
  }

  /** Every payload written reads back: the ids it has, whether it starts a key frame, and its size. */
  lemma WrittenReads(w: Written)
    requires ValidWritten(w)
    ensures Parse(Write(w)) == Ok(Meaning(w))
  {
    hide Parse, PayloadHeader, FirstByte, ExtensionBytes, BodyBytes;
    var (p, body) := (Write(w), BodyBytes(w.body));
    match w.extension {
      case Some(x) =>
        ExtensionReads(p, w.start, x, body);
        BodyReads(p, 1 + |ExtensionBytes(x)|, w.start, w.body, true,
                  ParsedHeader(x.pictureId, x.tl0PicIdx, false, None));
      case None =>
        PlainReads(p, w.start, body);
        BodyReads(p, 1, w.start, w.body, false, EMPTY_HEADER);
    }
  }

  lemma PlainReads(p: Buffer, s: Start, body: Buffer)
    requires 0 <= s.partition < 8 && p == [FirstByte(s, false)] + [] + body
    ensures p[1..] == body && Parse(p) == PayloadHeader(p, 1, EMPTY_HEADER)
  {
    hide FirstByte, HasExtensions, PayloadHeader;
    FirstByteReads(s, false);
  }

  /** Only a picture id of seven bits is of a wrong format. */
  lemma WrongFormatExactly(p: Buffer)
    ensures Parse(p) == WrongFormat <==> |p| >= 3 && p[0] >= 0x80 && p[1] >= 0x80 && p[2] < 0x80
  {
  }
}
