/** What SRTP and SRTCP packets hold, byte by byte (media/src/srtp.rs): which bytes are in clear, what
    every other byte is masked with, what the tag is computed over, and when a packet is accepted. */
module SrtpFormats {
  import opened Bytes
  import opened RtpPackets
  import opened Srtp

  function Bit(n: nat, k: nat): nat {
    if k == 0 then n % 2 else Bit(n / 2, k - 1)
  }

  /** Exclusive or: a bit is set exactly when it differs. */
  lemma {:induction false} XorBits(a: nat, b: nat, k: nat)
    ensures Bit(Xor(a, b), k) == 1 <==> Bit(a, k) != Bit(b, k)
    decreases k
  {
    hide Xor;
    XorLowBit(a / 2, a % 2, b / 2, b % 2);
    if k > 0 {
      XorBits(a / 2, b / 2, k - 1);
    }
  }

  lemma {:induction false} NumberInjective(a: Buffer, b: Buffer)
    requires |a| == |b| && Number(a) == Number(b)
    ensures a == b
  {
    if a != [] {
      var n := |a| - 1;
      Shl8(Number(a[..n]));
      Shl8(Number(b[..n]));
      NumberInjective(a[..n], b[..n]);
      assert a == a[..n] + [a[n]] && b == b[..n] + [b[n]];
    }
  }

  /** The counter block of section 4.1.1 of RFC 3711 as a number: the SSRC from bit 64 on, the index
      and the salt from bit 16 on, and a block counter of 0. */
  function Rfc3711Block(salt: Salt, ssrc: U32, index: nat): nat {
    Xor(Xor(Shl(ssrc, 64), Shl(index, 16)), Shl(Number(salt), 16))
  }

  ghost predicate IsBlock(block: Buffer, salt: Salt, ssrc: U32, index: nat) {
    |block| == 16 && Number(block) == Rfc3711Block(salt, ssrc, index)
  }

  lemma OneBlock(block: Buffer, salt: Salt, ssrc: U32, seqnum: U16, roc: U32)
    ensures IsBlock(block, salt, ssrc, roc * 0x1_0000 + seqnum) <==> block == CounterBlock(salt, ssrc, seqnum, roc)
  {
    hide Number, Xor, Shl, CounterBlock;
    CounterBlockIsRfc3711(salt, ssrc, seqnum, roc);
    if IsBlock(block, salt, ssrc, roc * 0x1_0000 + seqnum) {
      NumberInjective(block, CounterBlock(salt, ssrc, seqnum, roc));
    }
  }

  /** `b` is `a` with every byte from `from` on exclusive-ored with the keystream of `block`. */
  ghost predicate IsMasked(a: Buffer, b: Buffer, from: nat, keystream: (Buffer, nat) -> Byte, block: Buffer) {
    && |b| == |a| && from <= |a|
    && b[..from] == a[..from]
    && forall i :: from <= i < |a| ==> b[i] == Xor(a[i], keystream(block, i - from))
  }

  lemma MaskedExactly(a: Buffer, b: Buffer, from: nat, keystream: (Buffer, nat) -> Byte, block: Buffer)
    requires from <= |a|
    ensures IsMasked(a, b, from, keystream, block) <==> b == Mask(keystream, block, a, from)
  {
    hide Xor;
    var m := Mask(keystream, block, a, from);
    assert IsMasked(a, m, from, keystream, block);
    if IsMasked(a, b, from, keystream, block) {
      forall i | 0 <= i < |a|
        ensures b[i] == m[i]
      {
        assert i < from ==> b[i] == b[..from][i] == m[..from][i] == m[i];
      }
    }
  }

  // ----- SRTP -----

  /** The header in clear, the payload masked, and behind it the front of the MAC over both and the
      rollover counter. */
  lemma ProtectedBytes(cs: CryptoState, roc: U32, packet: Packet, block: Buffer)
    requires ValidState(cs) && IsBlock(block, cs.salt, Ssrc(packet), roc * 0x1_0000 + Sequence(packet))
    ensures var wire := Protect(cs, roc, packet);
            && |wire| == |packet| + cs.tagLen
            && IsMasked(packet, wire[..|packet|], PayloadOffset(packet), cs.keystream, block)
            && wire[|packet|..] == cs.mac(wire[..|packet|] + Be32(roc))[..cs.tagLen]
  {
    hide CounterBlock, IsBlock, IsMasked, Mask, ValidState;
    OneBlock(block, cs.salt, Ssrc(packet), Sequence(packet), roc);
    var masked := Cipher(cs, roc, packet);
    MaskedExactly(packet, masked, PayloadOffset(packet), cs.keystream, block);
    assert Protect(cs, roc, packet)[..|packet|] == masked;
  }

  /** The tag at the end of a packet is right. */
  ghost predicate TagMatches(cs: CryptoState, roc: U32, wire: Buffer)
    requires ValidState(cs) && cs.tagLen <= |wire|
  {
    var n := |wire| - cs.tagLen;
    wire[n..] == cs.mac(wire[..n] + Be32(roc))[..cs.tagLen]
  }

  lemma CipheredExactly(cs: CryptoState, roc: U32, wire: Wire, n: nat, block: Buffer, packet: Buffer)
    requires n <= |wire| && Valid(wire[..n])
    requires IsBlock(block, cs.salt, Ssrc(wire), roc * 0x1_0000 + Sequence(wire))
    ensures IsMasked(wire[..n], packet, PayloadOffset(wire[..n]), cs.keystream, block)
       <==> packet == Cipher(cs, roc, wire[..n])
  {
    hide CounterBlock, IsBlock, IsMasked, Mask;
    var body := wire[..n];
    assert wire[8..12] == body[8..12];
    ReadSame(wire, 8, body, 8);
    OneBlock(block, cs.salt, Ssrc(wire), Sequence(wire), roc);
    MaskedExactly(body, packet, PayloadOffset(body), cs.keystream, block);
  }

  /** A packet is accepted exactly when its tag is right, and then its payload is unmasked. */
  lemma AcceptedExactly(cs: CryptoState, roc: U32, wire: Wire, block: Buffer, packet: Buffer)
    requires ValidState(cs) && cs.tagLen <= |wire|
    requires IsBlock(block, cs.salt, Ssrc(wire), roc * 0x1_0000 + Sequence(wire))
    ensures Unprotect(cs, roc, wire) == AuthFailure <==> !TagMatches(cs, roc, wire)
    ensures Unprotect(cs, roc, wire) == Clear(packet)
       <==> var body := wire[..|wire| - cs.tagLen];
            TagMatches(cs, roc, wire) && Valid(body)
            && IsMasked(body, packet, PayloadOffset(body), cs.keystream, block)
  {
    hide IsBlock, IsMasked, Cipher, ValidState, HeaderFits, PayloadOffset;
    var n := |wire| - cs.tagLen;
    if Valid(wire[..n]) {
      CipheredExactly(cs, roc, wire, n, block, packet);
    }
  }

  // ----- SRTCP -----

  lemma OneRtcpBlock(block: Buffer, salt: Salt, ssrc: U32, index: nat)
    ensures IsBlock(block, salt, ssrc, index % 0x1_0000_0000_0000)
       <==> block == CounterBlock(salt, ssrc, index % 0x1_0000, index / 0x1_0000 % ROC_WIDTH)
  {
    hide IsBlock, CounterBlock;
    var (seqnum, roc) := (index % 0x1_0000, index / 0x1_0000 % ROC_WIDTH);
    assert index % 0x1_0000_0000_0000 == roc * 0x1_0000 + seqnum;
    OneBlock(block, salt, ssrc, seqnum, roc);
  }

  /** Eight bytes in clear, the others masked, the E bit with 31 bits of the index, and the front of the
      MAC over all of these. */
  lemma ProtectedRtcpBytes(cs: CryptoState, index: nat, packet: Buffer, block: Buffer)
    requires ValidState(cs) && |packet| >= 8
    requires IsBlock(block, cs.rtcpSalt, ReadU32(packet, 4), index % 0x1_0000_0000_0000)
    ensures var (wire, n) := (ProtectRtcp(cs, index, packet), |packet|);
            && |wire| == n + 4 + cs.tagLen
            && IsMasked(packet, wire[..n], 8, cs.rtcpKeystream, block)
            && ReadU32(wire, n) == 0x8000_0000 + index % 0x8000_0000
            && wire[n + 4..] == cs.rtcpMac(wire[..n + 4])[..cs.tagLen]
  {
    hide CounterBlock, IsBlock, IsMasked, Mask, ValidState, ReadU32, Be32;
    OneRtcpBlock(block, cs.rtcpSalt, ReadU32(packet, 4), index);
    var masked := RtcpCipher(cs, index, packet);
    MaskedExactly(packet, masked, 8, cs.rtcpKeystream, block);
    var (wire, n) := (ProtectRtcp(cs, index, packet), |packet|);
    var word := Be32(0x8000_0000 + index % 0x8000_0000);
    assert wire[..n + 4] == masked + word && wire[..n] == masked && wire[n..n + 4] == word;
    ReadsBe32(wire, n, 0x8000_0000 + index % 0x8000_0000);
  }

  ghost predicate RtcpTagMatches(cs: CryptoState, wire: Buffer)
    requires ValidState(cs) && cs.tagLen <= |wire|
  {
    var n := |wire| - cs.tagLen;
    wire[n..] == cs.rtcpMac(wire[..n])[..cs.tagLen]
  }

  /** With its E bit clear a packet is taken as it stands; otherwise it is accepted exactly when its tag
      is right, and then it is unmasked under the index it carries. */
  lemma RtcpAcceptedExactly(cs: CryptoState, wire: Buffer, block: Buffer, packet: Buffer)
    requires ValidState(cs) && |wire| >= 8 + 4 + cs.tagLen
    requires var word := ReadU32(wire, |wire| - cs.tagLen - 4);
             IsBlock(block, cs.rtcpSalt, ReadU32(wire, 4), word % 0x8000_0000)
    ensures var n := |wire| - cs.tagLen - 4;
            var encrypted := ReadU32(wire, n) >= 0x8000_0000;
            && (UnprotectRtcp(cs, wire) == AuthFailure <==> encrypted && !RtcpTagMatches(cs, wire))
            && (UnprotectRtcp(cs, wire) == Clear(packet) <==>
                if encrypted then
                  RtcpTagMatches(cs, wire) && IsMasked(wire[..n], packet, 8, cs.rtcpKeystream, block)
                else packet == wire[..n])
  {
    hide CounterBlock, IsBlock, IsMasked, Mask, ValidState, ReadU32;
    var n := |wire| - cs.tagLen - 4;
    EBitIsSet(wire, n);
    assert wire[4..8] == wire[..n][4..8];
    ReadSame(wire, 4, wire[..n], 4);
    var index := Index31(ReadU32(wire, n));
    OneRtcpBlock(block, cs.rtcpSalt, ReadU32(wire, 4), index);
    MaskedExactly(wire[..n], packet, 8, cs.rtcpKeystream, block);
  }
}
