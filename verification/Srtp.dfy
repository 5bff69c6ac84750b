/** SRTP and SRTCP (media/src/srtp.rs): the per-packet counter block of section 4.1.1 of RFC 3711,
    protection and unprotection over an arbitrary keystream and MAC, and the rollover counters that
    both ends keep. AES and HMAC-SHA1 enter only as the functions `CryptoState` carries. */
module Srtp {
  import opened Bytes
  import opened RtpPackets
  import opened Rollover

  const MAX_SRTCP_INDEX := 0x7FFF_FFFF
  const E_BIT := 0x8000_0000
  const ROC_WIDTH := 0x1_0000_0000
  const RTCP_HEADER_LEN := 8
  const TAG_BYTES := 20

  // ----- the counter block -----

  function XorSeq(a: Buffer, b: Buffer): (r: Buffer)
    requires |a| == |b|
    ensures |r| == |a|
    ensures forall i :: 0 <= i < |a| ==> r[i] == XorBytes(a[i], b[i])
  {
    seq(|a|, i requires 0 <= i < |a| => XorBytes(a[i], b[i]))
  }

  type Salt = s: Buffer | |s| == 14 witness Zeros(14)

  /** SSRC and packet index where they stand in the block. */
  function Fields(ssrc: U32, seqnum: U16, roc: U32): (r: Buffer)
    ensures |r| == 16
  {
    Zeros(4) + Be32(ssrc) + Be32(roc) + Be16(seqnum) + Zeros(2)
  }

  /** The counter block, byte by byte. */
  function CounterBlock(salt: Salt, ssrc: U32, seqnum: U16, roc: U32): (r: Buffer)
    ensures |r| == 16
  {
    XorSeq(Fields(ssrc, seqnum, roc), salt + Zeros(2))
  }

  /** Byte `k` of a number, counted from its low end. */
  function ByteOf(n: nat, k: nat): Byte {
    if k == 0 then n % 0x100 else ByteOf(n / 0x100, k - 1)
  }

  /** The filling loops of `generate_counter`. */
  method GenerateCounter(salt: Salt, ssrc: U32, seqnum: U16, roc: U32) returns (block: Buffer)
    ensures block == CounterBlock(salt, ssrc, seqnum, roc)
  {
    var counter := new Byte[16](_ => 0);
    var head := Be32(ssrc);
    for i := 0 to 4
      invariant forall k :: 0 <= k < i ==> counter[k] == salt[k]
      invariant forall k :: i <= k < 16 ==> counter[k] == 0
    {
      counter[i] := salt[i];
    }
    for i := 4 to 8
      invariant forall k :: 0 <= k < 4 ==> counter[k] == salt[k]
      invariant forall k :: 4 <= k < i ==> counter[k] == XorBytes(head[k - 4], salt[k])
      invariant forall k :: i <= k < 16 ==> counter[k] == 0
    {
      counter[i] := XorBytes(head[i - 4], salt[i]);
    }
    var index := roc * 0x1_0000 + seqnum;
    for i := 8 to 14
      invariant forall k :: 0 <= k < 4 ==> counter[k] == salt[k]
      invariant forall k :: 4 <= k < 8 ==> counter[k] == XorBytes(head[k - 4], salt[k])
      invariant forall k :: 8 <= k < i ==> counter[k] == XorBytes(ByteOf(index, 13 - k), salt[k])
      invariant forall k :: i <= k < 16 ==> counter[k] == 0
    {
      counter[i] := XorBytes(ByteOf(index, 13 - i), salt[i]);
    }
    counter[14], counter[15] := 0, 0;
    block := counter[..];
    forall k | 0 <= k < 16
      ensures block[k] == CounterBlock(salt, ssrc, seqnum, roc)[k]
    {
      FieldsAt(ssrc, seqnum, roc, k);
      if k < 4 {
        XorZero(salt[k]);
      } else if k >= 14 {
        XorZero(0);
      }
    }
  }

  lemma FieldsAt(ssrc: U32, seqnum: U16, roc: U32, k: nat)
    requires k < 16
    ensures Fields(ssrc, seqnum, roc)[k]
         == if 4 <= k < 8 then Be32(ssrc)[k - 4]
            else if 8 <= k < 14 then ByteOf(roc * 0x1_0000 + seqnum, 13 - k)
            else 0
  {
    if 8 <= k < 14 {
      IndexBytes(roc, seqnum);
      assert Fields(ssrc, seqnum, roc)[k] == (Be32(roc) + Be16(seqnum))[k - 8];
    }
  }

  lemma IndexBytes(roc: U32, seqnum: U16)
    ensures forall k :: 0 <= k < 6 ==> (Be32(roc) + Be16(seqnum))[k] == ByteOf(roc * 0x1_0000 + seqnum, 5 - k)
  {
    hide ByteOf, Be32, Be16;
    var (r, s) := (Be32(roc), Be16(seqnum));
    var n1: nat := r[0];
    var n2: nat := n1 * 0x100 + r[1];
    var n3: nat := n2 * 0x100 + r[2];
    var n4: nat := n3 * 0x100 + r[3];
    var n5: nat := n4 * 0x100 + s[0];
    var n6: nat := n5 * 0x100 + s[1];
    assert n4 == roc && n6 == roc * 0x1_0000 + seqnum;
    ByteOfAppends(0, r[0]);
    ByteOfAppends(n1, r[1]);
    ByteOfAppends(n2, r[2]);
    ByteOfAppends(n3, r[3]);
    ByteOfAppends(n4, s[0]);
    ByteOfAppends(n5, s[1]);
  }

  lemma ByteOfAppends(n: nat, b: Byte)
    ensures ByteOf(n * 0x100 + b, 0) == b
    ensures forall k: nat :: ByteOf(n * 0x100 + b, k + 1) == ByteOf(n, k)
  {
    assert (n * 0x100 + b) / 0x100 == n;
  }

  // ----- the same block as one number -----

  /** The number a byte string spells in big-endian order. */
  function Number(b: Buffer): nat {
    if b == [] then 0 else Shl(Number(b[..|b| - 1]), 8) + b[|b| - 1]
  }

  lemma {:induction false} NumberOfXor(a: Buffer, b: Buffer)
    requires |a| == |b|
    ensures Number(XorSeq(a, b)) == Xor(Number(a), Number(b))
  {
    if a == [] {
      XorZero(0);
    } else {
      var n := |a| - 1;
      NumberOfXor(a[..n], b[..n]);
      assert XorSeq(a, b)[..n] == XorSeq(a[..n], b[..n]);
      assert Shl(1, 8) == 0x100;
      XorSplits(Number(a[..n]), a[n], Number(b[..n]), b[n], 8);
    }
  }

  lemma {:induction false} NumberWithTrailingZeros(b: Buffer, k: nat)
    ensures Number(b + Zeros(k)) == Shl(Number(b), 8 * k)
    decreases k
  {
    if k == 0 {
      assert b + Zeros(0) == b;
    } else {
      var z := b + Zeros(k);
      assert z[..|z| - 1] == b + Zeros(k - 1);
      NumberWithTrailingZeros(b, k - 1);
      ShlTwice(Number(b), 8 * (k - 1), 8);
    }
  }

  lemma {:induction false} ShlTwice(n: nat, i: nat, j: nat)
    ensures Shl(Shl(n, i), j) == Shl(n, i + j)
    decreases j
  {
    if j > 0 {
      ShlTwice(n, i, j - 1);
    }
  }

  lemma {:induction false} NumberWithLeadingZeros(k: nat, b: Buffer)
    ensures Number(Zeros(k) + b) == Number(b)
    decreases k + |b|
  {
    var z := Zeros(k) + b;
    if b != [] {
      assert z[..|z| - 1] == Zeros(k) + b[..|b| - 1];
      NumberWithLeadingZeros(k, b[..|b| - 1]);
    } else if k > 0 {
      assert z[..|z| - 1] == Zeros(k - 1) + b;
      NumberWithLeadingZeros(k - 1, b);
      assert Shl(0, 8) == 0;
    }
  }

  lemma NumberAppends(b: Buffer, x: Byte)
    ensures Number(b + [x]) == Number(b) * 0x100 + x
  {
    assert (b + [x])[..|b|] == b;
    Shl8(Number(b));
  }

  lemma NumberOfFields(b: Buffer, ssrc: U32, seqnum: U16)
    ensures Number(b + Be16(seqnum)) == Number(b) * 0x1_0000 + seqnum
    ensures Number(Be32(ssrc)) == ssrc
  {
    var (s, h, l) := (Be16(seqnum), Be16(ssrc / 0x1_0000), Be16(ssrc % 0x1_0000));
    NumberAppends(b, s[0]);
    NumberAppends(b + [s[0]], s[1]);
    assert b + s == b + [s[0]] + [s[1]];
    NumberAppends([], h[0]);
    NumberAppends([h[0]], h[1]);
    NumberAppends([h[0], h[1]], l[0]);
    NumberAppends([h[0], h[1], l[0]], l[1]);
    assert Be32(ssrc) == [h[0], h[1], l[0]] + [l[1]];
    assert [] + [h[0]] == [h[0]] && [h[0]] + [h[1]] == [h[0], h[1]] && [h[0], h[1]] + [l[0]] == [h[0], h[1], l[0]];
  }

  lemma FieldsAreXor(ssrc: U32, seqnum: U16, roc: U32)
    ensures Fields(ssrc, seqnum, roc)
         == XorSeq(Zeros(4) + Be32(ssrc) + Zeros(8), Zeros(8) + (Be32(roc) + Be16(seqnum) + Zeros(2)))
  {
    hide Xor;
    var left := Zeros(4) + Be32(ssrc) + Zeros(8);
    var right := Zeros(8) + (Be32(roc) + Be16(seqnum) + Zeros(2));
    forall k | 0 <= k < 16
      ensures XorSeq(left, right)[k] == Fields(ssrc, seqnum, roc)[k]
    {
      XorZero(left[k]);
      XorZero(right[k]);
    }
  }

  /** The block is the counter of section 4.1.1 of RFC 3711, with the salt and the SSRC and packet
      index at their places: (salt * 2^16) xor (SSRC * 2^64) xor (index * 2^16). */
  lemma CounterBlockIsRfc3711(salt: Salt, ssrc: U32, seqnum: U16, roc: U32)
    ensures Number(CounterBlock(salt, ssrc, seqnum, roc))
         == Xor(Xor(Shl(ssrc, 64), Shl(roc * 0x1_0000 + seqnum, 16)), Shl(Number(salt), 16))
  {
    hide Number, Xor, Shl;
    var left := Zeros(4) + Be32(ssrc) + Zeros(8);
    var right := Zeros(8) + (Be32(roc) + Be16(seqnum) + Zeros(2));
    FieldsAreXor(ssrc, seqnum, roc);
    NumberOfXor(left, right);
    NumberOfXor(Fields(ssrc, seqnum, roc), salt + Zeros(2));
    NumberWithTrailingZeros(salt, 2);
    NumberOfFields(Be32(roc), ssrc, seqnum);
    NumberOfFields(Be32(roc), roc, seqnum);
    NumberWithTrailingZeros(Zeros(4) + Be32(ssrc), 8);
    NumberWithLeadingZeros(4, Be32(ssrc));
    NumberWithLeadingZeros(8, Be32(roc) + Be16(seqnum) + Zeros(2));
    NumberWithTrailingZeros(Be32(roc) + Be16(seqnum), 2);
  }

  lemma XorSeqCancels(a: Buffer, b: Buffer)
    requires |a| == |b|
    ensures XorSeq(XorSeq(a, b), b) == a
  {
    forall k | 0 <= k < |a|
      ensures XorSeq(XorSeq(a, b), b)[k] == a[k]
    {
      XorCancels(a[k], b[k]);
    }
  }

  /** Under one salt, packets that differ in SSRC, counter or sequence number never share a block. */
  lemma CounterBlockInjective(salt: Salt, ssrc1: U32, seqnum1: U16, roc1: U32, ssrc2: U32, seqnum2: U16, roc2: U32)
    ensures CounterBlock(salt, ssrc1, seqnum1, roc1) == CounterBlock(salt, ssrc2, seqnum2, roc2)
            <==> ssrc1 == ssrc2 && seqnum1 == seqnum2 && roc1 == roc2
  {
    if CounterBlock(salt, ssrc1, seqnum1, roc1) == CounterBlock(salt, ssrc2, seqnum2, roc2) {
      var (a, b) := (Fields(ssrc1, seqnum1, roc1), Fields(ssrc2, seqnum2, roc2));
      XorSeqCancels(a, salt + Zeros(2));
      XorSeqCancels(b, salt + Zeros(2));
      assert a == b;
      FieldsRead(ssrc1, seqnum1, roc1);
      FieldsRead(ssrc2, seqnum2, roc2);
    }
  }

  lemma FieldsRead(ssrc: U32, seqnum: U16, roc: U32)
    ensures var f := Fields(ssrc, seqnum, roc);
            ReadU32(f, 4) == ssrc && ReadU32(f, 8) == roc && ReadU16(f, 12) == seqnum
  {
    var f := Fields(ssrc, seqnum, roc);
    assert f[4..8] == Be32(ssrc)[0..4] && f[8..12] == Be32(roc)[0..4];
    ReadSame(f, 4, Be32(ssrc), 0);
    ReadSame(f, 8, Be32(roc), 0);
    assert f[12] == Be16(seqnum)[0] && f[13] == Be16(seqnum)[1];
  }

  // ----- protection -----

  /** The ciphers and MACs of one session, keys included, as functions. */
  datatype CryptoState = CryptoState(
    keystream: (Buffer, nat) -> Byte,
    mac: Buffer -> Buffer,
    salt: Salt,
    rtcpKeystream: (Buffer, nat) -> Byte,
    rtcpMac: Buffer -> Buffer,
    rtcpSalt: Salt,
    tagLen: nat)

  ghost predicate ValidState(cs: CryptoState) {
    && cs.tagLen <= TAG_BYTES
    && (forall b :: |cs.mac(b)| == TAG_BYTES)
    && (forall b :: |cs.rtcpMac(b)| == TAG_BYTES)
  }

  /** Apply a keystream from position `from` on. */
  function Mask(keystream: (Buffer, nat) -> Byte, block: Buffer, data: Buffer, from: nat): (r: Buffer)
    requires from <= |data|
    ensures |r| == |data| && r[..from] == data[..from]
  {
    seq(|data|, i requires 0 <= i < |data| =>
      if i < from then data[i] else XorBytes(data[i], keystream(block, i - from)))
  }

  lemma MaskTwice(keystream: (Buffer, nat) -> Byte, block: Buffer, data: Buffer, from: nat)
    requires from <= |data|
    ensures Mask(keystream, block, Mask(keystream, block, data, from), from) == data
  {
    var once := Mask(keystream, block, data, from);
    forall i | 0 <= i < |data|
      ensures Mask(keystream, block, once, from)[i] == data[i]
    {
      if i >= from {
        XorCancels(data[i], keystream(block, i - from));
      }
    }
  }

  function Tag(cs: CryptoState, roc: U32, packet: Buffer): (r: Buffer)
    requires ValidState(cs)
    ensures |r| == cs.tagLen
  {
    cs.mac(packet + Be32(roc))[..cs.tagLen]
  }

  function RtcpTag(cs: CryptoState, packet: Buffer): (r: Buffer)
    requires ValidState(cs)
    ensures |r| == cs.tagLen
  {
    cs.rtcpMac(packet)[..cs.tagLen]
  }

  /** The payload encrypted or decrypted, the header in clear. */
  function Cipher(cs: CryptoState, roc: U32, packet: Buffer): (r: Buffer)
    requires Valid(packet)
    ensures |r| == |packet|
  {
    Mask(cs.keystream, CounterBlock(cs.salt, Ssrc(packet), Sequence(packet), roc), packet, PayloadOffset(packet))
  }

  function Protect(cs: CryptoState, roc: U32, packet: Packet): (wire: Wire)
    requires ValidState(cs)
  {
    var masked := Cipher(cs, roc, packet);
    masked + Tag(cs, roc, masked)
  }

  /** Long enough for a sequence number and an SSRC to be read. */
  type Wire = b: Buffer | |b| >= HEADER_LEN witness Zeros(HEADER_LEN)

  /** `Truncated` stands for the index panic on a packet too short for its fixed header or its tag,
      and on one whose tag is right but whose header is not all there. */
  datatype Decrypted = Truncated | AuthFailure | Clear(packet: Buffer)

  function Unprotect(cs: CryptoState, roc: U32, wire: Buffer): Decrypted
    requires ValidState(cs)
  {
    if |wire| < HEADER_LEN || |wire| < cs.tagLen then Truncated
    else
      var body := wire[..|wire| - cs.tagLen];
      if wire[|body|..] != Tag(cs, roc, body) then AuthFailure
      else if !Valid(body) then Truncated
      else Clear(Cipher(cs, roc, body))
  }

  /** Encryption leaves everything before the payload alone. */
  lemma CipherKeepsHeader(cs: CryptoState, roc: U32, packet: Buffer)
    requires Valid(packet)
    ensures var masked := Cipher(cs, roc, packet);
            && Valid(masked) && PayloadOffset(masked) == PayloadOffset(packet)
            && Ssrc(masked) == Ssrc(packet) && Sequence(masked) == Sequence(packet)
  {
    var masked := Cipher(cs, roc, packet);
    var at := PayloadOffset(packet);
    assert forall i :: 0 <= i < at ==> masked[i] == masked[..at][i] == packet[..at][i] == packet[i];
  }

  lemma ProtectKeepsIdentity(cs: CryptoState, roc: U32, packet: Packet)
    requires ValidState(cs)
    ensures Ssrc(Protect(cs, roc, packet)) == Ssrc(packet) && Sequence(Protect(cs, roc, packet)) == Sequence(packet)
  {
    CipherKeepsHeader(cs, roc, packet);
  }

  /** Decryption under the sender's rollover counter gives the packet back. */
  lemma ProtectRoundTrip(cs: CryptoState, roc: U32, packet: Packet)
    requires ValidState(cs)
    ensures Unprotect(cs, roc, Protect(cs, roc, packet)) == Clear(packet)
  {
    var masked := Cipher(cs, roc, packet);
    var wire := Protect(cs, roc, packet);
    CipherKeepsHeader(cs, roc, packet);
    assert wire[..|wire| - cs.tagLen] == masked && wire[|masked|..] == Tag(cs, roc, masked);
    MaskTwice(cs.keystream, CounterBlock(cs.salt, Ssrc(packet), Sequence(packet), roc), packet, PayloadOffset(packet));
  }

  // ----- SRTCP -----

  /** The low 31 bits of an index. */
  function Index31(index: nat): nat { index % E_BIT }

  function RtcpCipher(cs: CryptoState, index: nat, packet: Buffer): (r: Buffer)
    requires |packet| >= RTCP_HEADER_LEN
    ensures |r| == |packet|
  {
    var block := CounterBlock(cs.rtcpSalt, ReadU32(packet, 4), index % 0x1_0000, index / 0x1_0000 % ROC_WIDTH);
    Mask(cs.rtcpKeystream, block, packet, RTCP_HEADER_LEN)
  }

  function ProtectRtcp(cs: CryptoState, index: nat, packet: Buffer): Buffer
    requires ValidState(cs) && |packet| >= RTCP_HEADER_LEN
  {
    var body := RtcpCipher(cs, index, packet) + Be32(E_BIT + Index31(index));
    body + RtcpTag(cs, body)
  }

  function UnprotectRtcp(cs: CryptoState, wire: Buffer): Decrypted
    requires ValidState(cs)
  {
    if |wire| < 4 + cs.tagLen then Truncated
    else
      var at := |wire| - cs.tagLen - 4;
      if wire[at] < 0x80 then Clear(wire[..at])
      else if wire[at + 4..] != RtcpTag(cs, wire[..at + 4]) then AuthFailure
      else if at < RTCP_HEADER_LEN then Truncated
      else Clear(RtcpCipher(cs, Index31(ReadU32(wire, at)), wire[..at]))
  }

  /** SRTCP decryption undoes encryption for every index the sender can reach. */
  lemma RtcpRoundTrip(cs: CryptoState, index: nat, packet: Buffer)
    requires ValidState(cs) && |packet| >= RTCP_HEADER_LEN && index <= MAX_SRTCP_INDEX
    ensures UnprotectRtcp(cs, ProtectRtcp(cs, index, packet)) == Clear(packet)
  {
    hide RtcpCipher, Be32, ReadU32, RtcpTag;
    var masked := RtcpCipher(cs, index, packet);
    var word := Be32(E_BIT + index);
    var body := masked + word;
    var wire := ProtectRtcp(cs, index, packet);
    var at := |masked|;
    assert wire == body + RtcpTag(cs, body);
    assert wire[..at + 4] == body && wire[at + 4..] == RtcpTag(cs, body);
    assert wire[..at] == body[..at] == masked && wire[at..at + 4] == body[at..] == word;
    ReadsBe32(wire, at, E_BIT + index);
    EBitIsSet(wire, at);
    RtcpCipherTwice(cs, index, packet);
  }

  lemma EBitIsSet(b: Buffer, at: nat)
    requires at + 4 <= |b|
    ensures b[at] < 0x80 <==> ReadU32(b, at) < E_BIT
  {
  }

  lemma RtcpCipherTwice(cs: CryptoState, index: nat, packet: Buffer)
    requires |packet| >= RTCP_HEADER_LEN
    ensures RtcpCipher(cs, index, RtcpCipher(cs, index, packet)) == packet
  {
    hide Mask, CounterBlock;
    var masked := RtcpCipher(cs, index, packet);
    assert masked[4..8] == packet[4..8] by {
      assert masked[..RTCP_HEADER_LEN][4..8] == packet[..RTCP_HEADER_LEN][4..8];
    }
    ReadSame(masked, 4, packet, 4);
    var block := CounterBlock(cs.rtcpSalt, ReadU32(packet, 4), index % 0x1_0000, index / 0x1_0000 % ROC_WIDTH);
    MaskTwice(cs.rtcpKeystream, block, packet, RTCP_HEADER_LEN);
  }

  function NextRtcpIndex(index: nat): nat {
    if index + 1 > MAX_SRTCP_INDEX then 0 else index + 1
  }

  /** The index of the `n`th SRTCP packet of a context. */
  function RtcpIndexAfter(n: nat): nat {
    if n == 0 then 0 else NextRtcpIndex(RtcpIndexAfter(n - 1))
  }

  lemma {:induction false} RtcpIndexCounts(n: nat)
    ensures RtcpIndexAfter(n) == Index31(n)
  {
    if n > 0 {
      RtcpIndexCounts(n - 1);
    }
  }

  /** Two SRTCP packets of a context share a counter block only if they are 2^31 packets apart. */
  lemma RtcpBlocksDistinct(salt: Salt, ssrc: U32, m: nat, n: nat)
    requires m < n < m + E_BIT
    ensures var (i, j) := (RtcpIndexAfter(m), RtcpIndexAfter(n));
            && i <= MAX_SRTCP_INDEX && j <= MAX_SRTCP_INDEX
            && CounterBlock(salt, ssrc, i % 0x1_0000, i / 0x1_0000)
               != CounterBlock(salt, ssrc, j % 0x1_0000, j / 0x1_0000)
  {
    hide CounterBlock, RtcpIndexAfter;
    RtcpIndexCounts(m);
    RtcpIndexCounts(n);
    var (i, j) := (RtcpIndexAfter(m), RtcpIndexAfter(n));
    assert i != j;
    CounterBlockInjective(salt, ssrc, i % 0x1_0000, i / 0x1_0000, ssrc, j % 0x1_0000, j / 0x1_0000);
  }

  // ----- one end of a session -----

  type Roc = s: RocState | s.roc < ROC_WIDTH witness UNSTARTED

  /** Rollover states by SSRC, and the counters kept in Redis for the next start. */
  datatype Counters = Counters(ssrcs: map<U32, Roc>, store: map<U32, U32>)

  function StateOf(c: Counters, ssrc: U32): Roc {
    if ssrc in c.ssrcs then c.ssrcs[ssrc] else UNSTARTED
  }

  function CounterIn(store: map<U32, U32>, ssrc: U32): U32 { if ssrc in store then store[ssrc] else 0 }

  function Counted(c: Counters, ssrc: U32, seqnum: U16): Counters {
    var s := StateOf(c, ssrc);
    var t := Update(s, CounterIn(c.store, ssrc), seqnum, ROC_WIDTH);
    var moved := s.processed && Move(s.lastSeq, seqnum) != 0;
    Counters(c.ssrcs[ssrc := t], if moved then c.store[ssrc := t.roc] else c.store)
  }

  class CryptoContext {
    const state: CryptoState
    var ssrcs: map<U32, Roc>
    var store: map<U32, U32>
    var rtcpIndex: nat

    ghost function State(): Counters
      reads this
    {
      Counters(ssrcs, store)
    }

    constructor (state: CryptoState, store: map<U32, U32>)
      ensures this.state == state && State() == Counters(map[], store) && rtcpIndex == 0
    {
      this.state, this.store := state, store;
      ssrcs, rtcpIndex := map[], 0;
    }

    /** The counter for the packet's SSRC and sequence number, and the state after it. */
    method UpdateRoc(packet: Buffer) returns (roc: U32)
      requires |packet| >= HEADER_LEN
      modifies this`ssrcs, this`store
      ensures State() == Counted(old(State()), Ssrc(packet), Sequence(packet))
      ensures roc == StateOf(State(), Ssrc(packet)).roc
    {
      var (ssrc, seqnum) := (Ssrc(packet), Sequence(packet));
      var s: Roc := if ssrc in ssrcs then ssrcs[ssrc] else UNSTARTED;
      roc := s.roc;
      if !s.processed {
        roc := if ssrc in store then store[ssrc] else 0;
      } else if seqnum == 0 {
        if s.lastSeq > MAX_ROC_DISORDER {
          roc := Wrap(roc + 1, ROC_WIDTH);
          store := store[ssrc := roc];
        }
      } else if s.lastSeq < MAX_ROC_DISORDER && seqnum > MAX_SEQUENCE_NUMBER - MAX_ROC_DISORDER {
        roc := Wrap(roc - 1, ROC_WIDTH);
        store := store[ssrc := roc];
      } else if seqnum < MAX_ROC_DISORDER && s.lastSeq > MAX_SEQUENCE_NUMBER - MAX_ROC_DISORDER {
        roc := Wrap(roc + 1, ROC_WIDTH);
        store := store[ssrc := roc];
      }
      ssrcs := ssrcs[ssrc := RocState(roc, true, seqnum)];
    }

    method NextIndex() returns (index: nat)
      modifies this`rtcpIndex
      ensures index == rtcpIndex == NextRtcpIndex(old(rtcpIndex))
    {
      rtcpIndex := rtcpIndex + 1;
      if rtcpIndex > MAX_SRTCP_INDEX {
        rtcpIndex := 0;
      }
      index := rtcpIndex;
    }

    method EncryptRtp(roc: U32, packet: RtpPacket)
      requires ValidState(state) && Valid(packet.inner)
      modifies packet
      ensures packet.inner == Protect(state, roc, old(packet.inner))
    {
      var block := GenerateCounter(state.salt, Ssrc(packet.inner), Sequence(packet.inner), roc);
      packet.inner := Mask(state.keystream, block, packet.inner, PayloadOffset(packet.inner));
      packet.inner := packet.inner + Tag(state, roc, packet.inner);
    }

    method DecryptRtp(roc: U32, wire: Buffer) returns (r: Decrypted)
      requires ValidState(state)
      ensures r == Unprotect(state, roc, wire)
    {
      if |wire| < HEADER_LEN || |wire| < state.tagLen {
        return Truncated;
      }
      var body := wire[..|wire| - state.tagLen];
      if wire[|body|..] != Tag(state, roc, body) {
        return AuthFailure;
      }
      if !Valid(body) {
        return Truncated;
      }
      var block := GenerateCounter(state.salt, Ssrc(body), Sequence(body), roc);
      return Clear(Mask(state.keystream, block, body, PayloadOffset(body)));
    }

    method EncryptRtcp(packet: Buffer, index: nat) returns (wire: Buffer)
      requires ValidState(state) && |packet| >= RTCP_HEADER_LEN
      ensures wire == ProtectRtcp(state, index, packet)
    {
      var ssrc := ReadU32(packet, 4);
      var block := GenerateCounter(state.rtcpSalt, ssrc, index % 0x1_0000, index / 0x1_0000 % ROC_WIDTH);
      wire := Mask(state.rtcpKeystream, block, packet, RTCP_HEADER_LEN);
      wire := wire + Be32(E_BIT + Index31(index));
      wire := wire + RtcpTag(state, wire);
    }

    method DecryptRtcp(wire: Buffer) returns (r: Decrypted)
      requires ValidState(state)
      ensures r == UnprotectRtcp(state, wire)
    {
      if |wire| < 4 + state.tagLen {
        return Truncated;
      }
      var at := |wire| - state.tagLen - 4;
      if wire[at] < 0x80 {
        return Clear(wire[..at]);
      }
      if wire[at + 4..] != RtcpTag(state, wire[..at + 4]) {
        return AuthFailure;
      }
      if at < RTCP_HEADER_LEN {
        return Truncated;
      }
      var (ssrc, index) := (ReadU32(wire[..at], 4), Index31(ReadU32(wire, at)));
      var block := GenerateCounter(state.rtcpSalt, ssrc, index % 0x1_0000, index / 0x1_0000 % ROC_WIDTH);
      return Clear(Mask(state.rtcpKeystream, block, wire[..at], RTCP_HEADER_LEN));
    }
  }

  /** After every packet Redis holds the counter in memory, so a restarted context resumes with it. */
  lemma StoreFollows(c: Counters, ssrc: U32, seqnum: U16)
    requires forall x :: x in c.ssrcs && c.ssrcs[x].processed ==> CounterIn(c.store, x) == c.ssrcs[x].roc
    ensures var d := Counted(c, ssrc, seqnum);
            forall x :: x in d.ssrcs && d.ssrcs[x].processed ==> CounterIn(d.store, x) == d.ssrcs[x].roc
  {
    var s := StateOf(c, ssrc);
    if s.processed {
      assert s.roc == CounterIn(c.store, ssrc);
    }
  }

  // ----- many streams in one context -----

  function CountAll(c: Counters, packets: seq<Wire>): Counters
    decreases |packets|
  {
    if packets == [] then c else CountAll(Counted(c, Ssrc(packets[0]), Sequence(packets[0])), packets[1..])
  }

  function SequencesOf(packets: seq<Wire>, ssrc: U32): seq<U16> {
    if packets == [] then []
    else (if Ssrc(packets[0]) == ssrc then [Sequence(packets[0])] else []) + SequencesOf(packets[1..], ssrc)
  }

  function UpdateAll(s: Roc, stored: U32, seqnums: seq<U16>): Roc
    decreases |seqnums|
  {
    if seqnums == [] then s else UpdateAll(Update(s, stored, seqnums[0], ROC_WIDTH), stored, seqnums[1..])
  }

  /** However streams interleave, the counter of each is the one its own packets alone would give. */
  lemma {:induction false} StreamsIndependent(c: Counters, packets: seq<Wire>, ssrc: U32, stored: U32)
    requires StateOf(c, ssrc).processed || CounterIn(c.store, ssrc) == stored
    ensures StateOf(CountAll(c, packets), ssrc) == UpdateAll(StateOf(c, ssrc), stored, SequencesOf(packets, ssrc))
    decreases |packets|
  {
    hide Ssrc, Sequence, Move;
    if packets != [] {
      var d := Counted(c, Ssrc(packets[0]), Sequence(packets[0]));
      StreamsIndependent(d, packets[1..], ssrc, stored);
      var rest := SequencesOf(packets[1..], ssrc);
      if Ssrc(packets[0]) == ssrc {
        assert SequencesOf(packets, ssrc) == [Sequence(packets[0])] + rest;
        assert SequencesOf(packets, ssrc)[1..] == rest;
      } else {
        assert SequencesOf(packets, ssrc) == rest;
      }
    }
  }
}
