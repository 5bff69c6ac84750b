/** The Annex B byte-stream splitter of codec/src/h264.rs: NAL units separated by the start codes
    00 00 01 and 00 00 00 01 (Annex B of ITU-T H.264). */
module AnnexB {
  import opened Bytes

  const LONG_CODE: Buffer := [0, 0, 0, 1]

  type NalUnit = b: Buffer | b != [] witness [0]

  predicate ShortCodeAt(d: Buffer, n: nat) {
    n + 3 <= |d| && d[n] == 0 && d[n + 1] == 0 && d[n + 2] == 1
  }

  /** Length of the start code at position `n`, 0 when there is none. */
  function CodeAt(d: Buffer, n: nat): (len: nat)
    ensures len > 0 ==> n + len <= |d|
  {
    if ShortCodeAt(d, n) then 3
    else if n < |d| && d[n] == 0 && ShortCodeAt(d, n + 1) then 4
    else 0
  }

  /** Position of the first start code from `n` on, or the length of `d`. */
  function NextCode(d: Buffer, n: nat): (m: nat)
    requires n <= |d|
    ensures n <= m <= |d|
    ensures m < |d| ==> CodeAt(d, m) > 0
    ensures forall k :: n <= k < m ==> CodeAt(d, k) == 0
    decreases |d| - n
  {
    if n == |d| || CodeAt(d, n) > 0 then n else NextCode(d, n + 1)
  }

  /** A byte stream read as start codes and NAL units. */
  datatype Token = Code(len: nat) | Nal(bytes: NalUnit)

  function TokensFrom(d: Buffer, n: nat): seq<Token>
    requires n <= |d|
    decreases |d| - n
  {
    if n == |d| then []
    else if CodeAt(d, n) > 0 then [Code(CodeAt(d, n))] + TokensFrom(d, n + CodeAt(d, n))
    else [Nal(d[n..NextCode(d, n)])] + TokensFrom(d, NextCode(d, n))
  }

  function Spell(t: Token): Buffer {
    match t
    case Code(len) => if len == 3 then LONG_CODE[1..] else LONG_CODE
    case Nal(bytes) => bytes
  }

  function Flatten(ts: seq<Token>): Buffer {
    if ts == [] then [] else Spell(ts[0]) + Flatten(ts[1..])
  }

  function Nals(ts: seq<Token>): seq<NalUnit> {
    if ts == [] then []
    else (if ts[0].Nal? then [ts[0].bytes] else []) + Nals(ts[1..])
  }

  function SplitFrom(d: Buffer, n: nat): seq<NalUnit>
    requires n <= |d|
  {
    Nals(TokensFrom(d, n))
  }

  /** The NAL units of a byte stream. */
  function Split(d: Buffer): seq<NalUnit> {
    SplitFrom(d, 0)
  }

  /** NAL units written one after the other, each behind a four-byte start code. */
  function Join(nals: seq<NalUnit>): Buffer {
    if nals == [] then [] else LONG_CODE + nals[0] + Join(nals[1..])
  }

  /** No start code inside. */
  ghost predicate WellFormedNal(nal: NalUnit) {
    forall k: nat :: !ShortCodeAt(nal, k)
  }

  lemma SplitCode(d: Buffer, n: nat)
    requires n <= |d| && CodeAt(d, n) > 0
    ensures SplitFrom(d, n) == SplitFrom(d, n + CodeAt(d, n))
  {
    assert TokensFrom(d, n)[1..] == TokensFrom(d, n + CodeAt(d, n));
  }

  /** A scan that met no start code from `n` up to `m` has found one NAL unit. */
  lemma SplitNal(d: Buffer, n: nat, m: nat)
    requires n < m <= |d|
    requires forall k :: n <= k < m ==> CodeAt(d, k) == 0
    requires m < |d| ==> CodeAt(d, m) > 0
    ensures SplitFrom(d, n) == [d[n..m]] + SplitFrom(d, m)
  {
    assert NextCode(d, n) == m;
    assert TokensFrom(d, n)[1..] == TokensFrom(d, m);
  }

  lemma SpellsCode(d: Buffer, n: nat)
    requires n <= |d| && CodeAt(d, n) > 0
    ensures Spell(Code(CodeAt(d, n))) == d[n..n + CodeAt(d, n)]
  {
  }

  lemma FlattenNothing()
    ensures Flatten([]) == []
  {
  }

  lemma FlattenPrepends(t: Token, ts: seq<Token>, d: Buffer, n: nat, m: nat)
    requires n <= m <= |d| && Spell(t) == d[n..m] && Flatten(ts) == d[m..]
    ensures Flatten([t] + ts) == d[n..]
  {
    assert ([t] + ts)[1..] == ts;
    assert d[n..] == d[n..m] + d[m..];
  }

  /** Nothing but start codes is lost: the tokens spell out the stream again. */
  lemma {:induction false} SplitLosesOnlyStartCodes(d: Buffer, n: nat)
    requires n <= |d|
    ensures Flatten(TokensFrom(d, n)) == d[n..]
    decreases |d| - n
  {
    hide CodeAt, Flatten;
    if n == |d| {
      FlattenNothing();
    } else {
      var len := CodeAt(d, n);
      var (t, m) := if len > 0 then (Code(len), n + len) else (Nal(d[n..NextCode(d, n)]), NextCode(d, n));
      if len > 0 {
        SpellsCode(d, n);
      }
      SplitLosesOnlyStartCodes(d, m);
      FlattenPrepends(t, TokensFrom(d, m), d, n, m);
    }
  }

  /** Every piece is a well-formed NAL unit. */
  lemma {:induction false} SplitYieldsWellFormed(d: Buffer, n: nat)
    requires n <= |d|
    ensures forall p :: p in SplitFrom(d, n) ==> WellFormedNal(p)
    decreases |d| - n
  {
    if n < |d| {
      var len := CodeAt(d, n);
      if len > 0 {
        SplitCode(d, n);
        SplitYieldsWellFormed(d, n + len);
      } else {
        var m := NextCode(d, n);
        var p := d[n..m];
        forall k: nat
          ensures !ShortCodeAt(p, k)
        {
          assert n + k < m ==> CodeAt(d, n + k) == 0;
        }
        SplitNal(d, n, m);
        SplitYieldsWellFormed(d, m);
      }
    }
  }

  /** A NAL unit runs up to the following four-byte start code, trailing zeros included. */
  lemma NalEndsAtNextCode(d: Buffer, n: nat, nal: NalUnit, tail: Buffer)
    requires n <= |d| && d[n..] == nal + tail
    requires WellFormedNal(nal) && (tail == [] || LONG_CODE <= tail)
    ensures forall k :: n <= k < n + |nal| ==> CodeAt(d, k) == 0
    ensures d[n..n + |nal|] == nal && d[n + |nal|..] == tail
  {
    var m := n + |nal|;
    assert d[n..][..|nal|] == nal && d[n..][|nal|..] == tail;
    assert forall k :: n <= k < m ==> d[k] == nal[k - n];
    assert forall k :: m <= k < |d| ==> d[k] == tail[k - m] by {
      assert forall k :: m <= k < |d| ==> d[k] == d[n..][k - n];
    }
    forall k | n <= k < m
      ensures CodeAt(d, k) == 0
    {
      assert !ShortCodeAt(nal, k - n) && !ShortCodeAt(nal, k + 1 - n);
    }
  }

  lemma JoinHead(d: Buffer, n: nat, nals: seq<NalUnit>)
    requires n <= |d| && nals != [] && d[n..] == Join(nals)
    ensures CodeAt(d, n) == 4 && d[n + 4..] == nals[0] + Join(nals[1..])
  {
    var rest := nals[0] + Join(nals[1..]);
    assert Join(nals) == LONG_CODE + rest;
    assert forall k :: 0 <= k < 4 ==> d[n + k] == d[n..][k] == LONG_CODE[k];
    assert d[n..][4..] == rest;
  }

  lemma SplitEnd(d: Buffer)
    ensures SplitFrom(d, |d|) == []
  {
  }

  lemma JoinStartsWithCode(nals: seq<NalUnit>)
    ensures if nals == [] then Join(nals) == [] else LONG_CODE <= Join(nals)
  {
    if nals != [] {
      assert Join(nals) == LONG_CODE + (nals[0] + Join(nals[1..]));
    }
  }

  /** Splitting undoes joining. */
  lemma {:induction false} SplitJoinFrom(d: Buffer, n: nat, nals: seq<NalUnit>)
    requires n <= |d| && d[n..] == Join(nals)
    requires forall p :: p in nals ==> WellFormedNal(p)
    ensures SplitFrom(d, n) == nals
    decreases |nals|
  {
    hide Join, CodeAt, SplitFrom, WellFormedNal;
    JoinStartsWithCode(nals);
    if nals == [] {
      SplitEnd(d);
    } else {
      var (nal, rest) := (nals[0], nals[1..]);
      var m := n + 4 + |nal|;
      JoinHead(d, n, nals);
      JoinStartsWithCode(rest);
      NalEndsAtNextCode(d, n + 4, nal, Join(rest));
      if rest != [] {
        JoinHead(d, m, rest);
      }
      SplitCode(d, n);
      SplitNal(d, n + 4, m);
      SplitJoinFrom(d, m, rest);
    }
  }

  lemma SplitJoin(nals: seq<NalUnit>)
    requires forall p :: p in nals ==> WellFormedNal(p)
    ensures Split(Join(nals)) == nals
  {
    SplitJoinFrom(Join(nals), 0, nals);
  }

  /** Rewriting any stream with four-byte start codes keeps its NAL units. */
  lemma SplitNormalises(d: Buffer)
    ensures Split(Join(Split(d))) == Split(d)
  {
    SplitYieldsWellFormed(d, 0);
    SplitJoin(Split(d));
  }

  // ----- counting start codes -----

  /** How many three-byte start codes there are from position `n` on. */
  function StartCodes(d: Buffer, n: nat): nat
    requires n <= |d|
    decreases |d| - n
  {
    if n == |d| then 0 else (if ShortCodeAt(d, n) then 1 else 0) + StartCodes(d, n + 1)
  }

  lemma {:induction false} StartCodesSkip(d: Buffer, n: nat, m: nat)
    requires n <= m <= |d| && forall k :: n <= k < m ==> !ShortCodeAt(d, k)
    ensures StartCodes(d, n) == StartCodes(d, m)
    decreases m - n
  {
    hide ShortCodeAt;
    if n < m {
      StartCodesSkip(d, n + 1, m);
    }
  }

  /** Well-formed units joined have exactly one start code each. */
  lemma {:induction false} StartCodesOfJoin(d: Buffer, n: nat, nals: seq<NalUnit>)
    requires n <= |d| && d[n..] == Join(nals)
    requires forall p :: p in nals ==> WellFormedNal(p)
    ensures StartCodes(d, n) == |nals|
    decreases |nals|
  {
    hide Join, WellFormedNal, StartCodes;
    JoinStartsWithCode(nals);
    if nals == [] {
      NoStartCodes(d);
    } else {
      var (nal, rest) := (nals[0], nals[1..]);
      var m := n + 4 + |nal|;
      JoinHead(d, n, nals);
      JoinStartsWithCode(rest);
      NalEndsAtNextCode(d, n + 4, nal, Join(rest));
      forall k | n + 4 <= k < m
        ensures !ShortCodeAt(d, k)
      {
        assert CodeAt(d, k) == 0;
      }
      StartCodesSkip(d, n + 4, m);
      OneStartCode(d, n);
      StartCodesOfJoin(d, m, rest);
    }
  }

  lemma NoStartCodes(d: Buffer)
    ensures StartCodes(d, |d|) == 0
  {
  }

  lemma OneStartCode(d: Buffer, n: nat)
    requires CodeAt(d, n) == 4
    ensures StartCodes(d, n) == 1 + StartCodes(d, n + 4)
  {
    assert !ShortCodeAt(d, n) && ShortCodeAt(d, n + 1) && !ShortCodeAt(d, n + 2) && !ShortCodeAt(d, n + 3);
    StartCodesSkip(d, n, n + 1);
    StartCodesSkip(d, n + 2, n + 4);
  }

  lemma {:induction false} StartCodesOfSuffix(a: Buffer, b: Buffer, n: nat)
    requires n <= |b|
    ensures StartCodes(a + b, |a| + n) == StartCodes(b, n)
    decreases |b| - n
  {
    if n < |b| {
      StartCodesOfSuffix(a, b, n + 1);
      assert ShortCodeAt(a + b, |a| + n) == ShortCodeAt(b, n);
    }
  }

  /** Putting streams together loses no start code. */
  lemma {:induction false} StartCodesAdd(a: Buffer, b: Buffer, n: nat)
    requires n <= |a|
    ensures StartCodes(a + b, n) >= StartCodes(a, n) + StartCodes(b, 0)
    decreases |a| - n
  {
    if n == |a| {
      StartCodesOfSuffix(a, b, 0);
    } else {
      StartCodesAdd(a, b, n + 1);
      assert ShortCodeAt(a, n) ==> ShortCodeAt(a + b, n);
    }
  }

  lemma StartCodesOfLongCode()
    ensures StartCodes(LONG_CODE, 0) == 1
  {
    OneStartCode(LONG_CODE, 0);
  }

  /** The resumable iterator: `n` is where the next scan starts. */
  class SplitBySliceIter {
    var n: nat
    const data: Buffer

    ghost predicate Valid()
      reads this
    {
      n <= |data|
    }

    /** The NAL units still to come. */
    ghost function Remaining(): seq<NalUnit>
      reads this
      requires Valid()
    {
      SplitFrom(data, n)
    }

    constructor (data: Buffer)
      ensures Valid() && this.data == data && Remaining() == Split(data)
    {
      this.data := data;
      n := 0;
    }

    method Next() returns (r: Option<NalUnit>)
      requires Valid()
      modifies this
      ensures Valid()
      ensures r.None? <==> old(Remaining()) == []
      ensures r.None? ==> n == old(n)
      ensures r.Some? ==> old(Remaining()) == [r.value] + Remaining() && old(n) < n
    {
      var n := this.n;
      var start := this.n;
      while n < |data|
        invariant this.n <= start <= n <= |data|
        invariant this.n == old(this.n)
        invariant SplitFrom(data, start) == SplitFrom(data, this.n)
        invariant forall k :: start <= k < n ==> CodeAt(data, k) == 0
      {
        var found := CodeAt(data, n);
        if found > 0 {
          SplitCode(data, n);
          if n == start {
            start := n + found;
          } else {
            SplitNal(data, start, n);
            this.n := n + found;
            return Some(data[start..n]);
          }
          n := n + found;
        } else {
          n := n + 1;
        }
      }
      if start < n {
        SplitNal(data, start, n);
        this.n := n;
        return Some(data[start..n]);
      }
      return None;
    }
  }
}
