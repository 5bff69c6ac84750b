/** The UDPTL packets of ITU-T T.38 (codec/src/fax.rs): the length codec, and the redundancy that
    repeats the last messages behind each new one. */
module T38 {
  import opened Bytes

  const DEFAULT_FEC_ENTRIES: nat := 3

  /** A message whose length the codec can carry. */
  type Message = m: Buffer | |m| < 0x4000

  // ----- the length codec -----

  function EncodeLength(length: nat): Option<Buffer> {
    if length < 0x80 then Some([length])
    else if length < 0x4000 then Some([0x80 + length / 256, length % 256])
    else None
  }

  /** What a decoder makes of a buffer: a value and where the next one starts, a refusal, or a read
      past the end, at which the program panics. */
  datatype Decoded<+T> = Got(value: T, next: nat) | Refused | Overrun

  function LengthAt(buf: Buffer, at: nat): Decoded<nat> {
    if at >= |buf| then Overrun
    else if buf[at] < 0x80 then Got(buf[at], at + 1)
    else if buf[at] < 0xC0 then
      var high: int := buf[at];
      if at + 1 >= |buf| then Overrun else Got((high - 0x80) * 256 + buf[at + 1], at + 2)
    else Refused
  }

  function OpenTypeAt(buf: Buffer, at: nat): Decoded<Buffer> {
    match LengthAt(buf, at)
    case Refused => Refused
    case Overrun => Overrun
    case Got(length, next) =>
      if next + length > |buf| then Overrun else Got(buf[next..next + length], next + length)
  }

  function EncodeOpenType(msg: Buffer): (code: Option<Buffer>)
    ensures code.Some? <==> |msg| < 0x4000
  {
    match EncodeLength(|msg|)
    case Some(length) => Some(length + msg)
    case None => None
  }

  /** A position in a buffer that decoding moves forward. */
  class Pointer {
    var at: nat

    constructor (at: nat)
      ensures this.at == at
    {
      this.at := at;
    }
  }

  method DecodeLength(buf: Buffer, ptr: Pointer) returns (length: Option<nat>)
    requires LengthAt(buf, ptr.at) != Overrun
    modifies ptr
    ensures LengthAt(buf, old(ptr.at)) == if length.Some? then Got(length.value, ptr.at) else Refused
  {
    if !HasBit(buf[ptr.at], 0x80) {
      length := Some(buf[ptr.at]);
      ptr.at := ptr.at + 1;
      return;
    }
    if !HasBit(buf[ptr.at], 0x40) {
      var high: int := buf[ptr.at] % 0x40;
      ptr.at := ptr.at + 1;
      length := Some(high * 256 + buf[ptr.at]);
      ptr.at := ptr.at + 1;
      return;
    }
    length := None;
  }

  method DecodeOpenType(buf: Buffer, ptr: Pointer) returns (msg: Option<Buffer>)
    requires OpenTypeAt(buf, ptr.at) != Overrun
    modifies ptr
    ensures OpenTypeAt(buf, old(ptr.at)) == if msg.Some? then Got(msg.value, ptr.at) else Refused
  {
    var length := DecodeLength(buf, ptr);
    if length.None? {
      return None;
    }
    msg := Some(buf[ptr.at..ptr.at + length.value]);
    ptr.at := ptr.at + length.value;
  }

  /** A length comes back, wherever it stands, exactly when it is below 0x4000. */
  lemma LengthRoundTrip(before: Buffer, length: nat, after: Buffer)
    ensures EncodeLength(length).Some? <==> length < 0x4000
    ensures length < 0x4000 ==>
      var code := EncodeLength(length).value;
      LengthAt(before + code + after, |before|) == Got(length, |before + code|)
  {
  }

  /** Lengths below 128 take one byte, the others two, under a set top bit. */
  lemma LengthBytes(length: nat)
    requires length < 0x4000
    ensures var code := EncodeLength(length).value;
            if length < 128 then code == [length]
            else
              |code| == 2 && code[0] >= 0x80
              && var high: int := code[0]; (high - 0x80) * 256 + code[1] == length
  {
  }

  /** What is read as a length is the code of that length, but for short ones spelt with two bytes. */
  lemma LengthReadsBack(buf: Buffer, at: nat)
    requires LengthAt(buf, at).Got?
    ensures var Got(length, next) := LengthAt(buf, at);
            && length < 0x4000 && at < next <= |buf|
            && (EncodeLength(length) == Some(buf[at..next]) <==> next == at + 1 || length >= 0x80)
  {
    var Got(length, next) := LengthAt(buf, at);
    assert buf[at..next] == if next == at + 1 then [buf[at]] else [buf[at], buf[at + 1]];
  }

  lemma OpenTypeRoundTrip(before: Buffer, msg: Message, after: Buffer)
    ensures EncodeOpenType(msg).Some?
    ensures var code := EncodeOpenType(msg).value;
            OpenTypeAt(before + code + after, |before|) == Got(msg, |before + code|)
  {
    LengthRoundTrip(before, |msg|, msg + after);
    var length := EncodeLength(|msg|).value;
    var buf := before + (length + msg) + after;
    assert buf == before + length + (msg + after);
    assert buf[|before + length|..|before + length| + |msg|] == msg;
  }

  // ----- the packet -----

  /** A packet: the sequence number, the message it is for, and earlier messages, newest first. */
  datatype Udptl = Udptl(seqnum: U16, primary: Buffer, earlier: seq<Buffer>)

  function Code(msg: Message): Buffer {
    EncodeOpenType(msg).value
  }

  function Codes(msgs: seq<Message>): Buffer {
    if msgs == [] then [] else Codes(msgs[..|msgs| - 1]) + Code(msgs[|msgs| - 1])
  }

  function OpenTypesAt(buf: Buffer, at: nat, count: nat): Decoded<seq<Buffer>> {
    if count == 0 then Got([], at)
    else
      match OpenTypesAt(buf, at, count - 1)
      case Refused => Refused
      case Overrun => Overrun
      case Got(msgs, next) =>
        match OpenTypeAt(buf, next)
        case Refused => Refused
        case Overrun => Overrun
        case Got(msg, end) => Got(msgs + [msg], end)
  }

  /** A packet read as T.38 lays it out: number, primary message, a zero for recovery by
      redundancy, and the counted earlier messages, to the end. */
  function ReadPacket(buf: Buffer): Option<Udptl> {
    if |buf| < 2 then None
    else
      match OpenTypeAt(buf, 2)
      case Refused => None
      case Overrun => None
      case Got(primary, at) =>
        if at >= |buf| || buf[at] != 0 then None
        else
          match LengthAt(buf, at + 1)
          case Refused => None
          case Overrun => None
          case Got(count, first) =>
            match OpenTypesAt(buf, first, count)
            case Refused => None
            case Overrun => None
            case Got(earlier, end) =>
              if end == |buf| then Some(Udptl(ReadU16(buf, 0), primary, earlier)) else None
  }

  lemma {:induction false} OpenTypesRoundTrip(before: Buffer, msgs: seq<Message>, after: Buffer)
    ensures OpenTypesAt(before + Codes(msgs) + after, |before|, |msgs|) == Got(msgs, |before + Codes(msgs)|)
    decreases |msgs|
  {
    hide OpenTypeAt, Code;
    if msgs == [] {
    } else {
      var (front, last) := (msgs[..|msgs| - 1], msgs[|msgs| - 1]);
      OpenTypesRoundTrip(before, front, Code(last) + after);
      CodeReadsBack(before + Codes(front), last, after);
      assert before + Codes(msgs) + after == before + Codes(front) + (Code(last) + after);
      assert before + Codes(msgs) + after == before + Codes(front) + Code(last) + after;
      assert front + [last] == msgs;
    }
  }

  lemma CodeReadsBack(before: Buffer, msg: Message, after: Buffer)
    ensures OpenTypeAt(before + Code(msg) + after, |before|) == Got(msg, |before + Code(msg)|)
  {
    OpenTypeRoundTrip(before, msg, after);
  }

  function WritePacket(seqnum: U16, primary: Message, earlier: seq<Message>): Buffer
    requires |earlier| < 0x80
  {
    Be16(seqnum) + Code(primary) + [0] + [|earlier|] + Codes(earlier)
  }

  lemma PacketRoundTrip(seqnum: U16, primary: Message, earlier: seq<Message>)
    requires |earlier| < 0x80
    ensures ReadPacket(WritePacket(seqnum, primary, earlier)) == Some(Udptl(seqnum, primary, earlier))
  {
    hide OpenTypeAt, OpenTypesAt, Code, Codes;
    var buf := WritePacket(seqnum, primary, earlier);
    var number := Be16(seqnum);
    var head := number + Code(primary) + [0] + [|earlier|];
    assert buf == number + Code(primary) + ([0] + [|earlier|] + Codes(earlier));
    CodeReadsBack(number, primary, [0] + [|earlier|] + Codes(earlier));
    assert buf == head + Codes(earlier) + [];
    OpenTypesRoundTrip(head, earlier, []);
  }

  // ----- the sender -----

  lemma NoCodes(msgs: seq<Message>)
    ensures Codes(msgs[..0]) == []
  {
  }

  lemma MoreCodes(msgs: seq<Message>, m: nat)
    requires m < |msgs|
    ensures Codes(msgs[..m + 1]) == Codes(msgs[..m]) + EncodeOpenType(msgs[m]).value
  {
    hide EncodeOpenType;
    assert msgs[..m + 1][..m] == msgs[..m];
  }

  /** The messages sent before the `n`th, newest first, at most `DEFAULT_FEC_ENTRIES`. */
  function Earlier(sent: seq<Message>, n: nat): (r: seq<Message>)
    requires n < |sent|
    ensures |r| == if n < DEFAULT_FEC_ENTRIES then n else DEFAULT_FEC_ENTRIES
  {
    seq(if n < DEFAULT_FEC_ENTRIES then n else DEFAULT_FEC_ENTRIES,
        m requires 0 <= m < n => sent[n - 1 - m])
  }

  /** The packet for the `n`th message. */
  function PacketFor(sent: seq<Message>, n: nat): Buffer
    requires n < |sent|
  {
    WritePacket(n % 0x10000, sent[n], Earlier(sent, n))
  }

  /** Slots are counted back from the slot of the wrapped sequence number. */
  lemma SameSlot(n: nat, m: nat)
    ensures (n % 0x10000 % 16 - m - 1) % 16 == (n - m - 1) % 16
  {
  }

  /** The ring holds the last sixteen messages. */
  ghost predicate Keeps(ring: map<nat, Message>, sent: seq<Message>) {
    forall i :: 0 <= i < |sent| <= i + 16 ==> i % 16 in ring && ring[i % 16] == sent[i]
  }

  lemma KeepsNewest(ring: map<nat, Message>, sent: seq<Message>, msg: Message)
    requires Keeps(ring, sent)
    ensures Keeps(ring[|sent| % 16 := msg], sent + [msg])
  {
    var (all, next) := (sent + [msg], ring[|sent| % 16 := msg]);
    forall i | 0 <= i < |all| <= i + 16
      ensures i % 16 in next && next[i % 16] == all[i]
    {
    }
  }

  class Fax {
    var txBuf: map<nat, Message>
    var txSeq: nat
    ghost var sent: seq<Message>

    ghost predicate Valid()
      reads this
    {
      txSeq == |sent| && Keeps(txBuf, sent)
    }

    constructor ()
      ensures Valid() && sent == []
    {
      txBuf, txSeq, sent := map[], 0, [];
    }

    /** The handler of outgoing messages. */
    method SendPacket(msg: Message) returns (data: Buffer)
      requires Valid()
      modifies this
      ensures Valid() && sent == old(sent) + [msg]
      ensures data == PacketFor(sent, |sent| - 1)
    {
      hide Codes, EncodeOpenType, Keeps;
      var seqnum := txSeq % 0x10000;
      var entry := seqnum % 16;
      KeepsNewest(txBuf, sent, msg);
      txBuf := txBuf[entry := msg];
      sent := sent + [msg];
      data := Be16(seqnum) + EncodeOpenType(msg).value + [0];
      var entries := if txSeq < DEFAULT_FEC_ENTRIES then txSeq else DEFAULT_FEC_ENTRIES;
      data := data + EncodeLength(entries).value;
      var earlier := Redundancy(entry, entries);
      data := data + earlier;
      txSeq := txSeq + 1;
    }

    /** The earlier messages behind the newest one. */
    method Redundancy(entry: nat, entries: nat) returns (data: Buffer)
      requires txSeq == |sent| - 1 && Keeps(txBuf, sent)
      requires entry == txSeq % 0x10000 % 16
      requires entries == |Earlier(sent, txSeq)|
      ensures data == Codes(Earlier(sent, txSeq))
    {
      hide Codes, EncodeOpenType;
      ghost var earlier := Earlier(sent, txSeq);
      data := [];
      var m := 0;
      NoCodes(earlier);
      while m < entries
        invariant 0 <= m <= entries
        invariant data == Codes(earlier[..m])
      {
        var j := (entry - m - 1) % 16;
        SameSlot(txSeq, m);
        assert txBuf[j] == sent[txSeq - m - 1] == earlier[m];
        if j in txBuf {
          data := data + EncodeOpenType(txBuf[j]).value;
        }
        MoreCodes(earlier, m);
        m := m + 1;
      }
      assert earlier[..m] == earlier;
    }
  }

  // ----- what a listener gets -----

  /** A packet carries a message under a sequence number. */
  ghost predicate Carries(u: Udptl, seqnum: U16, msg: Buffer) {
    || (seqnum == u.seqnum && msg == u.primary)
    || exists k :: 0 <= k < |u.earlier| && seqnum == (u.seqnum - 1 - k) % 0x10000 && msg == u.earlier[k]
  }

  /** One of the last four messages up to the `n`th. */
  ghost predicate AmongLastFour(sent: seq<Message>, n: nat, seqnum: U16, msg: Buffer)
    requires n < |sent|
  {
    exists i :: 0 <= i <= n <= i + 3 && msg == sent[i] && seqnum == i % 0x10000
  }

  lemma WrappedBack(n: nat, k: nat)
    ensures (n % 0x10000 - 1 - k) % 0x10000 == (n - 1 - k) % 0x10000
  {
  }

  lemma EarlierAreCarried(sent: seq<Message>, n: nat, i: nat)
    requires n < |sent| && i <= n <= i + 3
    ensures Carries(Udptl(n % 0x10000, sent[n], Earlier(sent, n)), i % 0x10000, sent[i])
  {
    if i < n {
      WrappedBack(n, n - 1 - i);
      assert Earlier(sent, n)[n - 1 - i] == sent[i];
    }
  }

  lemma CarriedAreEarlier(sent: seq<Message>, n: nat, seqnum: U16, msg: Buffer)
    requires n < |sent|
    requires Carries(Udptl(n % 0x10000, sent[n], Earlier(sent, n)), seqnum, msg)
    ensures AmongLastFour(sent, n, seqnum, msg)
  {
    if seqnum == n % 0x10000 && msg == sent[n] {
    } else {
      var earlier := Earlier(sent, n);
      var k :| 0 <= k < |earlier| && seqnum == (n % 0x10000 - 1 - k) % 0x10000 && msg == earlier[k];
      WrappedBack(n, k);
      assert sent[n - 1 - k] == msg;
    }
  }

  /** Every packet sent can be read, and carries exactly its own message and the three before it,
      under their own sequence numbers: a message is lost only if its own packet and the next three
      all are. */
  lemma CarriesLastFour(sent: seq<Message>, n: nat, seqnum: U16, msg: Buffer)
    requires n < |sent|
    ensures var u := ReadPacket(PacketFor(sent, n));
            u.Some? && (Carries(u.value, seqnum, msg) <==> AmongLastFour(sent, n, seqnum, msg))
  {
    hide ReadPacket, WritePacket, Carries;
    PacketRoundTrip(n % 0x10000, sent[n], Earlier(sent, n));
    if Carries(ReadPacket(PacketFor(sent, n)).value, seqnum, msg) {
      CarriedAreEarlier(sent, n, seqnum, msg);
    }
    if AmongLastFour(sent, n, seqnum, msg) {
      var i :| 0 <= i <= n <= i + 3 && msg == sent[i] && seqnum == i % 0x10000;
      EarlierAreCarried(sent, n, i);
    }
  }

  // ----- the receiver -----

  /** The message a receiver expecting number `rxSeq` takes from a buffer, with its number. */
  function Taken(rxSeq: U16, buf: Buffer): Option<(U16, Buffer)> {
    if |buf| < 2 || !OpenTypeAt(buf, 2).Got? || ReadU16(buf, 0) < rxSeq then None
    else Some((ReadU16(buf, 0), OpenTypeAt(buf, 2).value))
  }

  /** The number it expects afterwards. */
  function Expected(rxSeq: U16, buf: Buffer): U16 {
    if |buf| < 2 || !OpenTypeAt(buf, 2).Got? then rxSeq else (ReadU16(buf, 0) + 1) % 0x10000
  }

  /** The receiving side takes the primary message of a packet that is not older than expected. */
  class Receiver {
    var rxSeq: U16

    constructor ()
      ensures rxSeq == 0
    {
      rxSeq := 0;
    }

    method ProcessUdptl(buf: Buffer) returns (received: Option<(U16, Buffer)>)
      requires |buf| >= 2 ==> OpenTypeAt(buf, 2) != Overrun
      modifies this
      ensures received == Taken(old(rxSeq), buf) && rxSeq == Expected(old(rxSeq), buf)
    {
      received := None;
      if |buf| < 2 {
        return;
      }
      var seqnum := ReadU16(buf, 0);
      var ptr := new Pointer(2);
      var msg := DecodeOpenType(buf, ptr);
      if msg.Some? {
        if seqnum >= rxSeq {
          received := Some((seqnum, msg.value));
        }
        rxSeq := (seqnum + 1) % 0x10000;
      }
    }
  }

  lemma PrimaryAt(sent: seq<Message>, n: nat)
    requires n < |sent|
    ensures var buf := PacketFor(sent, n);
            |buf| >= 2 && ReadU16(buf, 0) == n % 0x10000
            && OpenTypeAt(buf, 2).Got? && OpenTypeAt(buf, 2).value == sent[n]
  {
    hide OpenTypeAt, Code, Codes;
    var earlier := Earlier(sent, n);
    var number := Be16(n % 0x10000);
    var rest := [0] + [|earlier|] + Codes(earlier);
    CodeReadsBack(number, sent[n], rest);
    assert PacketFor(sent, n) == number + Code(sent[n]) + rest;
  }

  /** Of two packets processed one after the other, the later message is taken exactly when the
      numbers did not wrap between them, or the earlier one was the last before the wrap. */
  lemma TakenUnlessWrapped(sent: seq<Message>, rxSeq: U16, i: nat, j: nat)
    requires i < j < |sent| && j <= i + 0x10000
    ensures Taken(Expected(rxSeq, PacketFor(sent, i)), PacketFor(sent, j))
         == if i / 0x10000 == j / 0x10000 || i % 0x10000 == 0xFFFF then Some((j % 0x10000, sent[j])) else None
  {
    hide PacketFor, OpenTypeAt, ReadU16;
    PrimaryAt(sent, i);
    PrimaryAt(sent, j);
  }
}
