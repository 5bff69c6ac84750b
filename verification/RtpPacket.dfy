/** RTP packets as byte buffers (media/src/packet.rs): field accessors, in-place setters and the
    header-extension writers. `Parse` reads a whole packet as a record and `Serialise` writes it
    back; every setter is specified by the one field of that record it changes. */
module RtpPackets {
  import opened Bytes

  const HEADER_LEN := 12
  const EXTENSION_BIT: Byte := 0x10
  const MARKER_BIT: Byte := 0x80
  const PROFILE: U16 := 0xBEDE

  // ----- accessors -----

  function ExtensionOffset(b: Buffer): (n: nat)
    requires b != []
    ensures 12 <= n <= 72
  {
    HEADER_LEN + b[0] % 0x10 * 4
  }

  predicate ExtensionBit(b: Buffer)
    requires b != []
  {
    HasBit(b[0], EXTENSION_BIT)
  }

  /** The fixed header, the CSRCs and, if announced, the extension header are present. */
  predicate HeaderFits(b: Buffer) {
    b != [] && ExtensionOffset(b) + (if ExtensionBit(b) then 4 else 0) <= |b|
  }

  function ExtensionLength(b: Buffer): nat
    requires HeaderFits(b)
  {
    if ExtensionBit(b) then (ReadU16(b, ExtensionOffset(b) + 2) + 1) * 4 else 0
  }

  function PayloadOffset(b: Buffer): nat
    requires HeaderFits(b)
  {
    ExtensionOffset(b) + ExtensionLength(b)
  }

  /** What the accessors need not to run off the end of the buffer. */
  predicate Valid(b: Buffer) {
    HeaderFits(b) && PayloadOffset(b) <= |b|
  }

  type Packet = b: Buffer | Valid(b) witness [0x80] + Zeros(11)

  function Sequence(b: Buffer): U16
    requires |b| >= HEADER_LEN
  {
    ReadU16(b, 2)
  }

  function Timestamp(b: Buffer): U32
    requires |b| >= HEADER_LEN
  {
    ReadU32(b, 4)
  }

  function Ssrc(b: Buffer): U32
    requires |b| >= HEADER_LEN
  {
    ReadU32(b, 8)
  }

  function PayloadType(b: Buffer): Byte
    requires |b| >= HEADER_LEN
  {
    b[1] % 0x80
  }

  predicate Marker(b: Buffer)
    requires |b| >= HEADER_LEN
  {
    HasBit(b[1], MARKER_BIT)
  }

  function Payload(b: Buffer): Buffer
    requires Valid(b)
  {
    b[PayloadOffset(b)..]
  }

  function Extension(b: Buffer): Option<Buffer>
    requires Valid(b)
  {
    if ExtensionLength(b) == 0 then None else Some(b[ExtensionOffset(b) + 4..PayloadOffset(b)])
  }

  // ----- the packet as a record -----

  /** `top` is the version and padding bits; `extension` is the profile and the extension data. */
  datatype View = View(top: int, csrcs: Buffer, marker: bool, payloadType: int, sequence: U16, timestamp: U32,
                       ssrc: U32, extension: Option<(U16, Buffer)>, payload: Buffer)

  predicate ValidView(v: View) {
    && 0 <= v.top < 8 && 0 <= v.payloadType < 0x80
    && |v.csrcs| % 4 == 0 && |v.csrcs| / 4 < 16
    && (v.extension.Some? ==> |v.extension.value.1| % 4 == 0 && |v.extension.value.1| / 4 < 0x1_0000)
  }

  function Parse(b: Buffer): (v: View)
    requires Valid(b)
    ensures ValidView(v)
    ensures v.sequence == Sequence(b) && v.timestamp == Timestamp(b) && v.ssrc == Ssrc(b)
    ensures v.payloadType == PayloadType(b) && v.marker == Marker(b) && v.payload == Payload(b)
    ensures Extension(b) == if v.extension.Some? then Some(v.extension.value.1) else None
  {
    var at := ExtensionOffset(b);
    View(b[0] / 0x20, b[HEADER_LEN..at], Marker(b), PayloadType(b), Sequence(b), Timestamp(b), Ssrc(b),
         if ExtensionBit(b) then Some((ReadU16(b, at), b[at + 4..PayloadOffset(b)])) else None,
         Payload(b))
  }

  function FirstByte(v: View): Byte
    requires ValidView(v)
  {
    v.top * 0x20 + (if v.extension.Some? then 0x10 else 0) + |v.csrcs| / 4
  }

  function SecondByte(v: View): Byte
    requires ValidView(v)
  {
    (if v.marker then 0x80 else 0) + v.payloadType
  }

  function Fixed(v: View): (b: Buffer)
    requires ValidView(v)
    ensures |b| == HEADER_LEN
  {
    [FirstByte(v), SecondByte(v)] + Be16(v.sequence) + Be32(v.timestamp) + Be32(v.ssrc)
  }

  function ExtensionBlock(e: Option<(U16, Buffer)>): Buffer
    requires e.Some? ==> |e.value.1| / 4 < 0x1_0000
  {
    match e
    case None => []
    case Some((profile, data)) => Be16(profile) + Be16(|data| / 4) + data
  }

  function Serialise(v: View): Buffer
    requires ValidView(v)
  {
    Fixed(v) + (v.csrcs + (ExtensionBlock(v.extension) + v.payload))
  }

  lemma SplitByte(b: Byte)
    ensures b / 0x20 * 0x20 + (if HasBit(b, 0x10) then 0x10 else 0) + b % 0x10 == b
    ensures (if HasBit(b, 0x80) then 0x80 else 0) + b % 0x80 == b
  {
  }

  lemma JoinByte(top: nat, extended: bool, count: nat)
    requires top < 8 && count < 16
    ensures var b := top * 0x20 + (if extended then 0x10 else 0) + count;
            b < 0x100 && b / 0x20 == top && HasBit(b, 0x10) == extended && b % 0x10 == count
  {
  }

  lemma JoinMarker(marker: bool, payloadType: nat)
    requires payloadType < 0x80
    ensures var b := (if marker then 0x80 else 0) + payloadType;
            b < 0x100 && HasBit(b, 0x80) == marker && b % 0x80 == payloadType
  {
  }

  lemma LeadingBytesParse(b: Buffer)
    requires Valid(b)
    ensures FirstByte(Parse(b)) == b[0] && SecondByte(Parse(b)) == b[1]
  {
    hide HasBit, ReadU16, ReadU32, ExtensionLength;
    SplitByte(b[0]);
    SplitByte(b[1]);
    assert |b[HEADER_LEN..ExtensionOffset(b)]| / 4 == b[0] % 0x10;
  }

  lemma FixedParse(b: Buffer)
    requires Valid(b)
    ensures Fixed(Parse(b)) == b[..HEADER_LEN]
  {
    LeadingBytesParse(b);
    Be16Read(b, 2);
    Be32Read(b, 4);
    Be32Read(b, 8);
    assert b[..HEADER_LEN] == [b[0], b[1]] + b[2..4] + b[4..8] + b[8..12];
  }

  lemma ExtensionBlockReads(b: Buffer, at: nat, end: nat)
    requires at + 4 <= end <= |b| && end - at == (ReadU16(b, at + 2) + 1) * 4
    ensures ExtensionBlock(Some((ReadU16(b, at), b[at + 4..end]))) == b[at..end]
  {
    hide ReadU16, Be16;
    var words := ReadU16(b, at + 2);
    assert |b[at + 4..end]| / 4 == words;
    Be16Read(b, at);
    Be16Read(b, at + 2);
    assert b[at..end] == b[at..at + 2] + b[at + 2..at + 4] + b[at + 4..end];
  }

  lemma ExtensionBlockParse(b: Buffer)
    requires Valid(b)
    ensures ExtensionBlock(Parse(b).extension) == b[ExtensionOffset(b)..PayloadOffset(b)]
  {
    if ExtensionBit(b) {
      ExtensionBlockReads(b, ExtensionOffset(b), PayloadOffset(b));
    }
  }

  /** A packet is determined by its record. */
  lemma SerialiseParse(b: Buffer)
    requires Valid(b)
    ensures Serialise(Parse(b)) == b
  {
    var (at, end) := (ExtensionOffset(b), PayloadOffset(b));
    FixedParse(b);
    ExtensionBlockParse(b);
    assert b == b[..HEADER_LEN] + (b[HEADER_LEN..at] + (b[at..end] + b[end..]));
  }

  lemma FourParts(f: Buffer, c: Buffer, e: Buffer, p: Buffer)
    ensures var (b, at) := (f + (c + (e + p)), |f| + |c|);
            && f <= b
            && b[|f|..at] == c && b[at..at + |e|] == e && b[at + |e|..] == p
  {
  }

  lemma ParseFixed(v: View, b: Buffer)
    requires ValidView(v) && Fixed(v) <= b
    ensures ExtensionOffset(b) == HEADER_LEN + |v.csrcs| && ExtensionBit(b) == v.extension.Some?
    ensures b[0] / 0x20 == v.top && Marker(b) == v.marker && PayloadType(b) == v.payloadType
    ensures Sequence(b) == v.sequence && Timestamp(b) == v.timestamp && Ssrc(b) == v.ssrc
  {
    hide Be16, Be32, FirstByte, SecondByte;
    var (x, s, t, r) := ([FirstByte(v), SecondByte(v)], Be16(v.sequence), Be32(v.timestamp), Be32(v.ssrc));
    var f := Fixed(v);
    assert f == x + (s + (t + r));
    FourParts(x, s, t, r);
    assert b[..HEADER_LEN] == f;
    assert b[2..4] == f[2..4] && b[4..8] == f[4..8] && b[8..12] == f[8..12];
    assert b[0] == f[0] && b[1] == f[1];
    ReadsBe16(b, 2, v.sequence);
    ReadsBe32(b, 4, v.timestamp);
    ReadsBe32(b, 8, v.ssrc);
    LeadingBytesRead(v, b);
  }

  lemma LeadingBytesRead(v: View, b: Buffer)
    requires ValidView(v) && |b| >= HEADER_LEN && b[0] == FirstByte(v) && b[1] == SecondByte(v)
    ensures ExtensionOffset(b) == HEADER_LEN + |v.csrcs| && ExtensionBit(b) == v.extension.Some?
    ensures b[0] / 0x20 == v.top && Marker(b) == v.marker && PayloadType(b) == v.payloadType
  {
    hide HasBit;
    JoinByte(v.top, v.extension.Some?, |v.csrcs| / 4);
    JoinMarker(v.marker, v.payloadType);
  }

  lemma ExtensionReads(b: Buffer, at: nat, profile: U16, data: Buffer)
    requires |data| / 4 < 0x1_0000
    requires var e := ExtensionBlock(Some((profile, data))); at + |e| <= |b| && b[at..at + |e|] == e
    ensures ReadU16(b, at) == profile && ReadU16(b, at + 2) == |data| / 4
    ensures b[at + 4..at + 4 + |data|] == data
  {
    var (p, w) := (Be16(profile), Be16(|data| / 4));
    var x := b[at..at + 4 + |data|];
    assert x == p + w + data;
    assert b[at] == x[0] == p[0] && b[at + 1] == x[1] == p[1];
    assert b[at + 2] == x[2] == w[0] && b[at + 3] == x[3] == w[1];
    assert b[at + 4..at + 4 + |data|] == x[4..] == data;
  }

  /** Every record of a packet can be written, and reads back as itself. */
  lemma ParseSerialise(v: View)
    requires ValidView(v)
    ensures Valid(Serialise(v)) && Parse(Serialise(v)) == v
  {
    hide Fixed, ExtensionBlock, FirstByte, SecondByte;
    var (b, e) := (Serialise(v), ExtensionBlock(v.extension));
    var at := HEADER_LEN + |v.csrcs|;
    FourParts(Fixed(v), v.csrcs, e, v.payload);
    ParseFixed(v, b);
    if v.extension.Some? {
      var (profile, data) := v.extension.value;
      ExtensionReads(b, at, profile, data);
      ExtensionBlockLength(v.extension);
    } else {
      ExtensionBlockLength(v.extension);
    }
  }

  lemma ExtensionBlockLength(e: Option<(U16, Buffer)>)
    requires e.Some? ==> |e.value.1| / 4 < 0x1_0000
    ensures |ExtensionBlock(e)| == if e.Some? then 4 + |e.value.1| else 0
  {
  }

  lemma ParseInjective(a: Buffer, b: Buffer)
    requires Valid(a) && Valid(b) && Parse(a) == Parse(b)
    ensures a == b
  {
    SerialiseParse(a);
    SerialiseParse(b);
  }

  // ----- setters -----

  /** Buffers that agree on the first byte and after the fixed header agree on all but the fixed fields. */
  lemma SameAfterFixed(b: Buffer, r: Buffer)
    requires Valid(b) && |r| == |b| && r[0] == b[0] && r[HEADER_LEN..] == b[HEADER_LEN..]
    ensures Valid(r)
    ensures Parse(r) == Parse(b).(sequence := Sequence(r), timestamp := Timestamp(r), ssrc := Ssrc(r),
                                  marker := Marker(r), payloadType := PayloadType(r))
  {
    var at := ExtensionOffset(b);
    assert forall i :: HEADER_LEN <= i < |b| ==> r[i] == b[i] by {
      assert forall i :: HEADER_LEN <= i < |b| ==>
        r[i] == r[HEADER_LEN..][i - HEADER_LEN] && b[i] == b[HEADER_LEN..][i - HEADER_LEN];
    }
    assert r[HEADER_LEN..at] == b[HEADER_LEN..at];
    assert PayloadOffset(r) == PayloadOffset(b);
    assert r[PayloadOffset(b)..] == b[PayloadOffset(b)..];
    assert ExtensionBit(b) ==> r[at + 4..PayloadOffset(b)] == b[at + 4..PayloadOffset(b)];
  }

  function WithSequence(b: Buffer, n: U16): (r: Buffer)
    requires Valid(b)
    ensures Valid(r) && Parse(r) == Parse(b).(sequence := n)
  {
    var r := WriteU16(b, 2, n);
    assert r[HEADER_LEN..] == b[HEADER_LEN..];
    SameAfterFixed(b, r);
    r
  }

  function WithTimestamp(b: Buffer, n: U32): (r: Buffer)
    requires Valid(b)
    ensures Valid(r) && Parse(r) == Parse(b).(timestamp := n)
  {
    var r := WriteU32(b, 4, n);
    assert r[HEADER_LEN..] == b[HEADER_LEN..];
    SameAfterFixed(b, r);
    r
  }

  function WithSsrc(b: Buffer, n: U32): (r: Buffer)
    requires Valid(b)
    ensures Valid(r) && Parse(r) == Parse(b).(ssrc := n)
  {
    var r := WriteU32(b, 8, n);
    assert r[HEADER_LEN..] == b[HEADER_LEN..];
    SameAfterFixed(b, r);
    r
  }

  function WithMarker(b: Buffer, m: bool): (r: Buffer)
    requires Valid(b)
    ensures Valid(r) && Parse(r) == Parse(b).(marker := m)
  {
    var r := b[1 := if m then SetBit(b[1], MARKER_BIT) else b[1] % 0x80];
    assert r[HEADER_LEN..] == b[HEADER_LEN..];
    SameAfterFixed(b, r);
    r
  }

  /** Only the low seven bits of the payload type reach the packet. */
  function WithPayloadType(b: Buffer, pt: Byte): (r: Buffer)
    requires Valid(b)
    ensures Valid(r) && Parse(r) == Parse(b).(payloadType := pt % 0x80)
  {
    var r := b[1 := b[1] / 0x80 * 0x80 + pt % 0x80];
    assert r[HEADER_LEN..] == b[HEADER_LEN..];
    SameAfterFixed(b, r);
    r
  }

  function WithPayload(b: Buffer, payload: Buffer): (r: Buffer)
    requires Valid(b)
    ensures Valid(r) && Parse(r) == Parse(b).(payload := payload)
  {
    WithPayloadSerialises(b, payload);
    ParseSerialise(Parse(b).(payload := payload));
    b[..PayloadOffset(b)] + payload
  }

  lemma FixedIgnoresPayload(v: View, payload: Buffer)
    requires ValidView(v)
    ensures Fixed(v.(payload := payload)) == Fixed(v)
  {
  }

  lemma WithPayloadSerialises(b: Buffer, payload: Buffer)
    requires Valid(b)
    ensures b[..PayloadOffset(b)] + payload == Serialise(Parse(b).(payload := payload))
  {
    hide Fixed, ExtensionBlock;
    var v := Parse(b);
    var head := Fixed(v) + (v.csrcs + ExtensionBlock(v.extension));
    SerialiseParse(b);
    assert b == head + v.payload;
    FixedIgnoresPayload(v, payload);
    assert head + payload == Fixed(v) + (v.csrcs + (ExtensionBlock(v.extension) + payload));
  }

  // ----- header extensions -----

  predicate ExtensionFits(data: Buffer) { (|data| + 3) / 4 < 0x1_0000 }

  /** The data behind as many zeros as fill its last 32-bit word. */
  function Padded(data: Buffer): (r: Buffer)
    ensures |r| == (|data| + 3) / 4 * 4
  {
    Zeros((|data| + 3) / 4 * 4 - |data|) + data
  }

  function NewExtension(data: Buffer): Buffer
    requires ExtensionFits(data)
  {
    [0xBE, 0xDE] + Be16((|data| + 3) / 4) + Padded(data)
  }

  /** `set_extension` and `set_extension_pooled`: the old extension block gives way to a new one. */
  function SetExtension(b: Buffer, data: Buffer): (r: Buffer)
    requires Valid(b) && ExtensionFits(data)
    ensures Valid(r) && Parse(r) == Parse(b).(extension := Some((PROFILE, Padded(data))))
  {
    var header := b[..ExtensionOffset(b)];
    var r := header[0 := SetBit(b[0], EXTENSION_BIT)] + NewExtension(data) + b[PayloadOffset(b)..];
    SetExtensionSerialises(b, data);
    ParseSerialise(Parse(b).(extension := Some((PROFILE, Padded(data)))));
    r
  }

  /** The header that announces an extension: the first byte changes and nothing else. */
  lemma HeaderWithExtension(b: Buffer, e: (U16, Buffer))
    requires Valid(b) && ValidView(Parse(b).(extension := Some(e)))
    ensures var w := Parse(b).(extension := Some(e));
            b[..ExtensionOffset(b)][0 := SetBit(b[0], EXTENSION_BIT)] == Fixed(w) + w.csrcs
  {
    var (v, w) := (Parse(b), Parse(b).(extension := Some(e)));
    FixedParse(b);
    LeadingBytesParse(b);
    assert FirstByte(w) == SetBit(b[0], EXTENSION_BIT);
    assert Fixed(w) == Fixed(v)[0 := FirstByte(w)];
    assert b[..ExtensionOffset(b)] == b[..HEADER_LEN] + v.csrcs;
  }

  lemma NewExtensionBlock(data: Buffer)
    requires ExtensionFits(data)
    ensures ExtensionBlock(Some((PROFILE, Padded(data)))) == NewExtension(data)
  {
    assert Be16(PROFILE) == [0xBE, 0xDE];
  }

  lemma SetExtensionSerialises(b: Buffer, data: Buffer)
    requires Valid(b) && ExtensionFits(data)
    ensures b[..ExtensionOffset(b)][0 := SetBit(b[0], EXTENSION_BIT)] + NewExtension(data) + b[PayloadOffset(b)..]
         == Serialise(Parse(b).(extension := Some((PROFILE, Padded(data)))))
  {
    var w := Parse(b).(extension := Some((PROFILE, Padded(data))));
    var n := NewExtension(data);
    HeaderWithExtension(b, (PROFILE, Padded(data)));
    NewExtensionBlock(data);
    assert Fixed(w) + w.csrcs + n + w.payload == Fixed(w) + (w.csrcs + (n + w.payload));
  }

  /** Setting the extension twice keeps only the second. */
  lemma SetExtensionOverwrites(b: Buffer, first: Buffer, second: Buffer)
    requires Valid(b) && ExtensionFits(first) && ExtensionFits(second)
    ensures SetExtension(SetExtension(b, first), second) == SetExtension(b, second)
  {
    ParseInjective(SetExtension(SetExtension(b, first), second), SetExtension(b, second));
  }

  /** Reading after writing gives the data behind its zero padding; writing back what was read
      changes nothing exactly when the block already had the one-byte-header profile. */
  lemma SetExtensionGet(b: Buffer, data: Buffer)
    requires Valid(b) && ExtensionFits(data)
    ensures Extension(SetExtension(b, data)) == Some(Padded(data))
    ensures Extension(b) == Some(data) ==>
              (SetExtension(b, data) == b <==> Parse(b).extension.value.0 == PROFILE)
  {
    if Extension(b) == Some(data) && Parse(b).extension.value.0 == PROFILE {
      assert Padded(data) == data;
      ParseInjective(SetExtension(b, data), b);
    }
  }

  /** What the remote end reads: a source and a destination of 16 bytes each. */
  function ReadPair(b: Buffer): Option<(Buffer, Buffer)>
    requires Valid(b)
  {
    match Extension(b)
    case None => None
    case Some(e) => if |e| == 32 then Some((e[..16], e[16..])) else None
  }

  /** The source and destination survive the hop to a remote sender, and so does the rest of the packet. */
  lemma RemoteHop(b: Buffer, src: Buffer, dst: Buffer)
    requires Valid(b) && |src| == 16 && |dst| == 16
    ensures var sent := SetExtension(b, src + dst);
            && ReadPair(sent) == Some((src, dst))
            && Parse(sent).(extension := Parse(b).extension) == Parse(b)
  {
    assert Padded(src + dst) == src + dst;
    assert (src + dst)[..16] == src && (src + dst)[16..] == dst;
  }

  /** `set_extension_bytesmut`: the new block goes behind the old one, which stays. */
  function AppendExtension(b: Buffer, data: Buffer): (r: Buffer)
    requires Valid(b) && ExtensionFits(data)
  {
    var grown := b[..PayloadOffset(b)] + NewExtension(data) + b[PayloadOffset(b)..];
    grown[0 := SetBit(b[0], EXTENSION_BIT)]
  }

  /** The in-place writer agrees with `SetExtension` exactly on packets that had no extension. */
  lemma InPlaceAgrees(b: Buffer, data: Buffer)
    requires Valid(b) && ExtensionFits(data)
    ensures AppendExtension(b, data) == SetExtension(b, data) <==> !ExtensionBit(b)
  {
    hide Parse;
    var n := NewExtension(data);
    var header := b[..ExtensionOffset(b)];
    var first := SetBit(b[0], EXTENSION_BIT);
    var tail := b[PayloadOffset(b)..];
    assert |AppendExtension(b, data)| == PayloadOffset(b) + |n| + |tail|;
    assert |SetExtension(b, data)| == ExtensionOffset(b) + |n| + |tail|;
    if !ExtensionBit(b) {
      assert header[0 := first] + n + tail == (header + n + tail)[0 := first];
    }
  }

  // ----- the packet object -----

  class RtpPacket {
    var inner: Buffer

    constructor (b: Buffer)
      ensures inner == b
    {
      inner := b;
    }

    method SetSequence(n: U16)
      requires Valid(inner)
      modifies this
      ensures Valid(inner) && inner == WithSequence(old(inner), n)
    {
      inner := WithSequence(inner, n);
    }

    method SetTimestamp(n: U32)
      requires Valid(inner)
      modifies this
      ensures Valid(inner) && inner == WithTimestamp(old(inner), n)
    {
      inner := WithTimestamp(inner, n);
    }

    method SetMarker(m: bool)
      requires Valid(inner)
      modifies this
      ensures Valid(inner) && inner == WithMarker(old(inner), m)
    {
      inner := WithMarker(inner, m);
    }

    method SetPayload(payload: Buffer)
      requires Valid(inner)
      modifies this
      ensures Valid(inner) && inner == WithPayload(old(inner), payload)
    {
      inner := WithPayload(inner, payload);
    }

    method SetExtensionInPlace(data: Buffer)
      requires Valid(inner) && ExtensionFits(data)
      modifies this
      ensures inner == AppendExtension(old(inner), data)
    {
      var at := PayloadOffset(inner);
      var tail := inner[at..];
      inner := inner[..at];
      inner := inner + [0xBE, 0xDE] + Be16((|data| + 3) / 4);
      inner := inner + Zeros((|data| + 3) / 4 * 4 - |data|);
      inner := inner + data;
      inner := inner + tail;
      inner := inner[0 := SetBit(inner[0], EXTENSION_BIT)];
      assert inner == AppendExtension(old(inner), data) by {
        assert old(inner)[..at] + NewExtension(data) + tail
            == old(inner)[..at] + [0xBE, 0xDE] + Be16((|data| + 3) / 4)
               + Zeros((|data| + 3) / 4 * 4 - |data|) + data + tail;
      }
    }
  }

  /** One packet on the wire: version 2 with padding, one CSRC, an extension, the marker, payload type 96. */
  lemma WireExample(csrc: Buffer, extension: Buffer, payload: Buffer)
    requires |csrc| == 4 && |extension| == 4
    ensures var b := [0xB1, 0xE0, 0x12, 0x34, 0x00, 0x01, 0x02, 0x03, 0xDE, 0xAD, 0xBE, 0xEF] + csrc
                     + [0xBE, 0xDE, 0x00, 0x01] + extension + payload;
            && Valid(b)
            && Parse(b) == View(5, csrc, true, 96, 0x1234, 0x0001_0203, 0xDEAD_BEEF,
                                Some((0xBEDE, extension)), payload)
  {
    hide Parse, Valid, Serialise;
    var v := View(5, csrc, true, 96, 0x1234, 0x0001_0203, 0xDEAD_BEEF, Some((0xBEDE, extension)), payload);
    ParseSerialise(v);
    WireBytes(v);
  }

  lemma WireBytes(v: View)
    requires ValidView(v) && v.top == 5 && |v.csrcs| == 4 && v.marker && v.payloadType == 96
    requires v.sequence == 0x1234 && v.timestamp == 0x0001_0203 && v.ssrc == 0xDEAD_BEEF
    requires v.extension.Some? && v.extension.value.0 == 0xBEDE && |v.extension.value.1| == 4
    ensures Serialise(v)
         == [0xB1, 0xE0, 0x12, 0x34, 0x00, 0x01, 0x02, 0x03, 0xDE, 0xAD, 0xBE, 0xEF] + v.csrcs
            + [0xBE, 0xDE, 0x00, 0x01] + v.extension.value.1 + v.payload
  {
  }
}
