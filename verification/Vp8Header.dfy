/** The VP8 payload descriptor and header (codec/src/vp8.rs; sections 4.2 and 4.3 of RFC 7741,
    section 9.1 of RFC 6386): reading it, and overwriting the picture id and the TL0PICIDX. */
module Vp8Header {
  import opened Bytes

  datatype PixelSize = PixelSize(width: nat, height: nat)

  type PictureId = n: int | 0 <= n < 0x8000

  datatype ParsedHeader = ParsedHeader(
    pictureId: Option<PictureId>,
    tl0PicIdx: Option<Byte>,
    isKeyFrame: bool,
    resolution: Option<PixelSize>)

  datatype Result = UnexpectedEof | WrongFormat | Ok(header: ParsedHeader)

  function ReadU16Le(b: Buffer, at: nat): U16
    requires at + 2 <= |b|
  {
    var high: int := b[at + 1];
    high * 0x100 + b[at]
  }

  predicate HasExtensions(byte0: Byte) { HasBit(byte0, 0x80) }

  /** The payload header only comes with the first packet of the first partition. */
  predicate HasPayloadHeader(byte0: Byte) { HasBit(byte0, 0x10) && byte0 % 8 == 0 }

  predicate HasPictureId(x: Byte) { HasBit(x, 0x80) }

  predicate HasTl0PicIdx(x: Byte) { HasBit(x, 0x40) }

  predicate HasTidOrKeyIdx(x: Byte) { HasBit(x, 0x20) || HasBit(x, 0x10) }

  /** The payload header at `at`, on top of what the descriptor gave. */
  function PayloadHeader(p: Buffer, at: nat, h: ParsedHeader): Result
    requires p != [] && at <= |p|
  {
    if !HasPayloadHeader(p[0]) then Ok(h)
    else if at + 3 > |p| then UnexpectedEof
    else if p[at] % 2 == 1 then Ok(h)
    else if at + 10 > |p| then UnexpectedEof
    else
      var size := PixelSize(ReadU16Le(p, at + 6) % 0x4000, ReadU16Le(p, at + 8) % 0x4000);
      Ok(h.(isKeyFrame := true, resolution := Some(size)))
  }

  const EMPTY_HEADER := ParsedHeader(None, None, false, None)

  function Tk(x: Byte): nat { if HasTidOrKeyIdx(x) then 1 else 0 }

  /** The reader, with every byte at its position. */
  function Parse(p: Buffer): Result {
    if p == [] then UnexpectedEof
    else if !HasExtensions(p[0]) then PayloadHeader(p, 1, EMPTY_HEADER)
    else if |p| < 2 then UnexpectedEof
    else
      var i := if HasPictureId(p[1]) then 2 else 0;
      var l := if HasTl0PicIdx(p[1]) then 1 else 0;
      if i == 2 && |p| < 3 then UnexpectedEof
      else if i == 2 && p[2] < 0x80 then WrongFormat
      else if 2 + i + l + Tk(p[1]) > |p| then UnexpectedEof
      else
        PayloadHeader(p, 2 + i + l + Tk(p[1]), ParsedHeader(
          if i == 2 then Some(ReadU16(p, 2) % 0x8000) else None,
          if l == 1 then Some(p[2 + i]) else None, false, None))
  }

  /** Reading with a cursor that moves over the payload. */
  method Read(p: Buffer) returns (r: Result)
    ensures r == Parse(p)
  {
    var header := EMPTY_HEADER;
    if |p| < 1 {
      return UnexpectedEof;
    }
    var at := 1;
    if HasExtensions(p[0]) {
      if |p| < 2 {
        return UnexpectedEof;
      }
      var x := p[1];
      at := 2;
      if HasPictureId(x) {
        if at >= |p| {
          return UnexpectedEof;
        }
        if !HasBit(p[at], 0x80) {
          return WrongFormat;
        }
        if at + 2 > |p| {
          return UnexpectedEof;
        }
        header := header.(pictureId := Some(ReadU16(p, at) % 0x8000));
        at := at + 2;
      }
      if HasTl0PicIdx(x) {
        if at >= |p| {
          return UnexpectedEof;
        }
        header := header.(tl0PicIdx := Some(p[at]));
        at := at + 1;
      }
      if HasTidOrKeyIdx(x) {
        if at >= |p| {
          return UnexpectedEof;
        }
        at := at + 1;
      }
    }
    if HasPayloadHeader(p[0]) {
      if at + 3 > |p| {
        return UnexpectedEof;
      }
      header := header.(isKeyFrame := !HasBit(p[at], 0x01));
      if header.isKeyFrame {
        if at + 10 > |p| {
          return UnexpectedEof;
        }
        var width := ReadU16Le(p, at + 6) % 0x4000;
        var height := ReadU16Le(p, at + 8) % 0x4000;
        header := header.(resolution := Some(PixelSize(width, height)));
      }
    }
    return Ok(header);
  }

  /** Two bytes of picture id with the leading bit set, and one of TL0PICIDX. */
  function Modified(p: Buffer, pictureId: U16, tl0PicIdx: Byte): (r: Buffer)
    requires |p| >= 5
    ensures |r| == |p|
  {
    p[2 := SetBit(pictureId / 0x100, 0x80)][3 := pictureId % 0x100][4 := tl0PicIdx]
  }

  method ModifyHeader(p: array<Byte>, pictureId: U16, tl0PicIdx: Byte)
    requires p.Length >= 5
    modifies p
    ensures p[..] == Modified(old(p[..]), pictureId, tl0PicIdx)
  {
    p[2] := SetBit(pictureId / 0x100, 0x80);
    p[3] := pictureId % 0x100;
    p[4] := tl0PicIdx;
  }

  /** A header with both ids is long enough to be modified. */
  lemma BothIdsPresent(p: Buffer)
    requires Parse(p).Ok? && Parse(p).header.pictureId.Some? && Parse(p).header.tl0PicIdx.Some?
    ensures |p| >= 5 && HasExtensions(p[0]) && HasPictureId(p[1]) && HasTl0PicIdx(p[1])
  {
  }

  /** When both ids are there, modifying replaces exactly them: the new header reads back with the
      low fifteen bits of the picture id, the new TL0PICIDX, and everything else as it was. */
  lemma ModifiedReadsBack(p: Buffer, pictureId: U16, tl0PicIdx: Byte)
    requires Parse(p).Ok? && Parse(p).header.pictureId.Some? && Parse(p).header.tl0PicIdx.Some?
    ensures |p| >= 5
    ensures Parse(Modified(p, pictureId, tl0PicIdx))
         == Ok(Parse(p).header.(pictureId := Some(pictureId % 0x8000), tl0PicIdx := Some(tl0PicIdx)))
  {
    BothIdsPresent(p);
    var r := Modified(p, pictureId, tl0PicIdx);
    assert forall k :: 5 <= k < |p| ==> r[k] == p[k];
    assert ReadU16(r, 2) % 0x8000 == pictureId % 0x8000;
  }
}
