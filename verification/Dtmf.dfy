/** Finding DTMF tones in a stream of samples (codec/src/dtmf.rs). The Goertzel filters, which tell
    the two frequencies of a block of samples, are an arbitrary function here. */
module Dtmf {
  import opened Bytes

  const NUM_SAMPLES: nat := 200
  const STATE_DURATION: nat := 2

  datatype Tone =
    | Zero | One | Two | Three | Four | Five | Six | Seven | Eight | Nine
    | A | B | C | D | Asterisk | Pound

  datatype Event = On(tone: Tone) | Off(tone: Tone)

  type Index = i: nat | i < 4

  /** The row and the column of a key. */
  datatype Key = Key(low: Index, high: Index)

  const TONE_TABLE: seq<seq<Tone>> := [
    [One, Two, Three, A],
    [Four, Five, Six, B],
    [Seven, Eight, Nine, C],
    [Asterisk, Zero, Pound, D]
  ]

  type Classifier = seq<real> -> Option<Key>

  function Heard(classify: Classifier, block: seq<real>): Option<Tone> {
    match classify(block)
    case Some(Key(low, high)) => Some(TONE_TABLE[low][high])
    case None => None
  }

  // ----- samples to blocks -----

  /** The full blocks of a stream of samples. */
  function Blocks(xs: seq<real>): seq<seq<real>> {
    if |xs| < NUM_SAMPLES then [] else [xs[..NUM_SAMPLES]] + Blocks(xs[NUM_SAMPLES..])
  }

  /** Block `i` is the `i`th 200 samples, and none is missing. */
  lemma {:induction false} BlocksExactly(xs: seq<real>, i: nat)
    ensures |Blocks(xs)| == |xs| / 200
    ensures i < |Blocks(xs)| ==> Blocks(xs)[i] == xs[200 * i..200 * i + 200]
    decreases |xs|
  {
    if |xs| >= 200 {
      var rest := xs[200..];
      BlocksExactly(rest, if i == 0 then 0 else i - 1);
      if 0 < i < |Blocks(xs)| {
        var at := 200 * (i - 1);
        assert rest[at..at + 200] == xs[at + 200..at + 400];
      }
    }
  }

  /** The samples after the last full block. */
  function Pending(xs: seq<real>): seq<real> {
    xs[|xs| - |xs| % NUM_SAMPLES..]
  }

  /** What is heard in each full block. */
  function Signal(classify: Classifier, xs: seq<real>): (s: seq<Option<Tone>>)
    ensures |s| == |Blocks(xs)|
  {
    seq(|Blocks(xs)|, i requires 0 <= i < |Blocks(xs)| => Heard(classify, Blocks(xs)[i]))
  }

  lemma {:induction false} BlocksGrow(xs: seq<real>, x: real)
    ensures Blocks(xs + [x])
         == if |xs| % NUM_SAMPLES == NUM_SAMPLES - 1 then Blocks(xs) + [Pending(xs) + [x]] else Blocks(xs)
    decreases |xs|
  {
    var ys := xs + [x];
    if |xs| < NUM_SAMPLES - 1 {
    } else if |xs| == NUM_SAMPLES - 1 {
      assert ys[..NUM_SAMPLES] == ys && Pending(xs) == xs;
      assert Blocks(ys[NUM_SAMPLES..]) == [];
    } else {
      BlocksGrow(xs[NUM_SAMPLES..], x);
      assert ys[..NUM_SAMPLES] == xs[..NUM_SAMPLES];
      assert ys[NUM_SAMPLES..] == xs[NUM_SAMPLES..] + [x];
      assert Pending(xs[NUM_SAMPLES..]) == Pending(xs);
    }
  }

  lemma SignalGrows(classify: Classifier, xs: seq<real>, x: real)
    ensures Signal(classify, xs + [x])
         == if |xs| % NUM_SAMPLES == NUM_SAMPLES - 1
            then Signal(classify, xs) + [Heard(classify, Pending(xs) + [x])]
            else Signal(classify, xs)
  {
    hide Blocks, Heard, Pending;
    BlocksGrow(xs, x);
  }

  lemma PendingGrows(xs: seq<real>, x: real)
    ensures Pending(xs + [x]) == if |xs| % NUM_SAMPLES == NUM_SAMPLES - 1 then [] else Pending(xs) + [x]
  {
  }

  // ----- the debounced signal -----

  /** What was heard in block `i`, silence before the first. */
  function At(s: seq<Option<Tone>>, i: int): Option<Tone> {
    if 0 <= i < |s| then s[i] else None
  }

  /** The tone, or silence, last heard twice in a row. */
  function Debounced(s: seq<Option<Tone>>): Option<Tone> {
    if s == [] then None
    else if At(s, |s| - 1) == At(s, |s| - 2) then At(s, |s| - 1)
    else Debounced(s[..|s| - 1])
  }

  /** The last of the blocks that were heard like the one before them decides. */
  lemma {:induction false} DebouncedExactly(s: seq<Option<Tone>>, i: int)
    requires -1 <= i < |s| && At(s, i) == At(s, i - 1)
    requires forall j :: i < j < |s| ==> At(s, j) != At(s, j - 1)
    ensures Debounced(s) == At(s, i)
  {
    var n := |s| - 1;
    if i < n {
      assert forall j :: j < n ==> At(s[..n], j) == At(s, j);
      DebouncedExactly(s[..n], i);
    }
  }

  /** The events when the debounced signal goes from `was` to `next`, the block before the last two
      having been heard as `before`, the last as `heard`. */
  function EventsBetween(was: Option<Tone>, next: Option<Tone>, before: Option<Tone>, heard: Option<Tone>): seq<Event> {
    if was == next then []
    else (if before.Some? then [Off(before.value)] else []) + (if heard.Some? then [On(heard.value)] else [])
  }

  /** The events the last block brings: when the debounced signal changes, what was heard just
      before the change goes off and what it changed to goes on. */
  function NewEvents(s: seq<Option<Tone>>): seq<Event>
    requires s != []
  {
    EventsBetween(Debounced(s[..|s| - 1]), Debounced(s), At(s, |s| - 3), At(s, |s| - 1))
  }

  function EventsAtEnd(s: seq<Option<Tone>>): seq<Event> { if s == [] then [] else NewEvents(s) }

  function Events(s: seq<Option<Tone>>): seq<Event> {
    if s == [] then [] else Events(s[..|s| - 1]) + NewEvents(s)
  }

  /** Over every signal, the last event tells the debounced tone: it is the tone that went on, or
      silence if one went off last or nothing ever happened. */
  lemma {:induction false} LastEventTellsTone(s: seq<Option<Tone>>)
    ensures var es := Events(s);
            Debounced(s) == if es != [] && es[|es| - 1].On? then Some(es[|es| - 1].tone) else None
  {
    if s != [] {
      var before := s[..|s| - 1];
      LastEventTellsTone(before);
      if Debounced(s) != Debounced(before) {
        assert At(before, |before| - 2) == At(s, |s| - 3);
        assert At(before, |before| - 1) == At(s, |s| - 2) == At(s, |s| - 1);
        if At(s, |s| - 1).None? {
          assert At(s, |s| - 3).Some?;
        }
      }
    }
  }

  /** The tones the debounced signal changes to. */
  function Rises(s: seq<Option<Tone>>): seq<Tone> {
    if s == [] then []
    else
      Rises(s[..|s| - 1])
      + (if Debounced(s) != Debounced(s[..|s| - 1]) && Debounced(s).Some? then [Debounced(s).value] else [])
  }

  function Ons(es: seq<Event>): seq<Tone> {
    if es == [] then []
    else Ons(es[..|es| - 1]) + (if es[|es| - 1].On? then [es[|es| - 1].tone] else [])
  }

  lemma {:induction false} OnsJoin(es: seq<Event>, more: seq<Event>)
    ensures Ons(es + more) == Ons(es) + Ons(more)
    decreases |more|
  {
    if more == [] {
      assert es + more == es;
    } else {
      OnsJoin(es, more[..|more| - 1]);
      assert (es + more)[..|es + more| - 1] == es + more[..|more| - 1];
    }
  }

  /** The tones that go on are those the debounced signal changes to, in order. */
  lemma {:induction false} OnsAreRises(s: seq<Option<Tone>>)
    ensures Ons(Events(s)) == Rises(s)
  {
    if s != [] {
      var before := s[..|s| - 1];
      OnsAreRises(before);
      OnsJoin(Events(before), NewEvents(s));
      OnsOfNew(s);
    }
  }

  lemma OnsOfNew(s: seq<Option<Tone>>)
    requires s != []
    ensures Ons(NewEvents(s))
         == if Debounced(s) != Debounced(s[..|s| - 1]) && Debounced(s).Some? then [Debounced(s).value] else []
  {
    hide At;
    DebouncedLast(s);
    OnsBetween(Debounced(s[..|s| - 1]), Debounced(s), At(s, |s| - 3), At(s, |s| - 1));
  }

  lemma OnsBetween(was: Option<Tone>, next: Option<Tone>, before: Option<Tone>, heard: Option<Tone>)
    ensures Ons(EventsBetween(was, next, before, heard)) == if was != next && heard.Some? then [heard.value] else []
  {
    var offs := if before.Some? then [Off(before.value)] else [];
    var ons := if heard.Some? then [On(heard.value)] else [];
    OnsJoin(offs, ons);
    assert offs != [] ==> offs[..|offs| - 1] == [];
    assert ons != [] ==> ons[..|ons| - 1] == [];
  }

  /** When `off` was heard and then something else twice in a row, so that the debounced signal
      changes, `off` goes off. It is the tone that was on exactly when it had been heard the block
      before as well, or was a return to the tone that was on. */
  lemma OffMatches(before: seq<Option<Tone>>, off: Tone, heard: Option<Tone>)
    requires heard != Some(off) && heard != Debounced(before + [Some(off)])
    ensures var s := before + [Some(off), heard, heard];
            && NewEvents(s) == [Off(off)] + (if heard.Some? then [On(heard.value)] else [])
            && (Debounced(s[..|s| - 1]) == Some(off)
                <==> Debounced(before) == Some(off) || At(before, |before| - 1) == Some(off))
  {
    hide Debounced;
    var one := before + [Some(off)];
    var two := before + [Some(off), heard];
    var s := before + [Some(off), heard, heard];
    assert s[..|s| - 1] == two && two[..|two| - 1] == one && one[..|one| - 1] == before;
    DebouncedLast(s);
    DebouncedLast(two);
    DebouncedLast(one);
  }

  lemma DebouncedLast(s: seq<Option<Tone>>)
    requires s != []
    ensures Debounced(s)
         == if At(s, |s| - 1) == At(s, |s| - 2) then At(s, |s| - 1) else Debounced(s[..|s| - 1])
  {
  }

  /** One block more: the debounced signal and the events. */
  lemma EventsOfNext(s: seq<Option<Tone>>, heard: Option<Tone>)
    ensures var t := s + [heard];
            && Debounced(t) == (if At(s, |s| - 1) == heard then heard else Debounced(s))
            && Events(t) == Events(s) + EventsBetween(Debounced(s), Debounced(t), At(s, |s| - 2), heard)
  {
    hide Debounced, EventsBetween, At;
    var t := s + [heard];
    assert t[..|s|] == s;
    DebouncedLast(t);
    AtExtended(s, heard);
  }

  lemma AtExtended(s: seq<Option<Tone>>, heard: Option<Tone>)
    ensures At(s + [heard], |s|) == heard
    ensures forall i :: i < |s| ==> At(s + [heard], i) == At(s, i)
  {
  }

  /** A tone can go off that never went on. */
  lemma OffNeedNotMatch()
    ensures Events([Some(A), Some(A), Some(B), Some(C), Some(C)]) == [On(A), Off(B), On(C)]
  {
    hide Debounced, Events;
    var (a, b, c) := (Some(A), Some(B), Some(C));
    assert [] + [a] == [a] && [a] + [a] == [a, a] && [a, a] + [b] == [a, a, b];
    assert [a, a, b] + [c] == [a, a, b, c] && [a, a, b, c] + [c] == [a, a, b, c, c];
    NothingHeard();
    EventsOfNext([], a);
    EventsOfNext([a], a);
    EventsOfNext([a, a], b);
    EventsOfNext([a, a, b], c);
    EventsOfNext([a, a, b, c], c);
  }

  lemma NothingHeard()
    ensures Debounced([]) == None && Events([]) == []
  {
  }

  // ----- the decoder -----

  class DtmfDecoder {
    const classify: Classifier
    const samples: array<real>
    var sampleLen: nat
    var toneChanges: seq<Event>
    var curTone: Option<Tone>
    var oldTone: Option<Tone>
    var oldOldTone: Option<Tone>
    var stateDuration: nat
    ghost var input: seq<real>

    constructor (classify: Classifier)
      ensures Valid() && this.classify == classify && input == []
      ensures fresh(samples)
    {
      this.classify := classify;
      samples := new real[NUM_SAMPLES](_ => 0.0);
      sampleLen, toneChanges := 0, [];
      curTone, oldTone, oldOldTone := None, None, None;
      stateDuration := STATE_DURATION;
      input := [];
    }

    /** The fields say what a signal ends with. */
    ghost predicate Tracks(s: seq<Option<Tone>>)
      reads this`curTone, this`oldTone, this`oldOldTone, this`stateDuration
    {
      && curTone == At(s, |s| - 1)
      && stateDuration == (if At(s, |s| - 1) == At(s, |s| - 2) then 2 else 1)
      && (stateDuration == 1 ==> oldTone == At(s, |s| - 2))
      && oldOldTone == Debounced(s)
    }

    ghost predicate Ready()
      reads this`sampleLen, this`input, this`curTone, this`oldTone, this`oldOldTone, this`stateDuration, samples
    {
      && samples.Length == NUM_SAMPLES
      && sampleLen == |input| % NUM_SAMPLES
      && samples[..sampleLen] == Pending(input)
      && Tracks(Signal(classify, input))
    }

    ghost predicate Valid()
      reads this, samples
    {
      Ready() && toneChanges == []
    }

    /** The events for the samples received so far, whatever the sizes of the batches they came in:
        each call returns what its own samples add. */
    method Process(batch: seq<real>) returns (changes: seq<Event>)
      requires Valid()
      modifies this, samples
      ensures Valid() && input == old(input) + batch
      ensures Events(Signal(classify, input)) == Events(Signal(classify, old(input))) + changes
    {
      hide Signal, Events, Tracks, Pending;
      ghost var before := input;
      var i := 0;
      assert batch[..0] == [];
      while i < |batch|
        invariant 0 <= i <= |batch|
        invariant Ready() && input == before + batch[..i]
        invariant Events(Signal(classify, input)) == Events(Signal(classify, before)) + toneChanges
      {
        assert before + batch[..i + 1] == input + [batch[i]];
        EventsGrow(classify, input, batch[i]);
        ProcessSample(batch[i]);
        i := i + 1;
      }
      assert batch[..i] == batch;
      changes := toneChanges;
      toneChanges := [];
    }

    /** One sample goes into the block, which is looked at when it is full. */
    method ProcessSample(sample: real)
      requires Ready()
      modifies this, samples
      ensures Ready() && input == old(input) + [sample]
      ensures toneChanges == old(toneChanges) + (if sampleLen == 0 then EventsAtEnd(Signal(classify, input)) else [])
    {
      hide Signal, Pending, Tracks, NewEvents, Heard;
      ghost var s := Signal(classify, input);
      SignalGrows(classify, input, sample);
      PendingGrows(input, sample);
      samples[sampleLen] := sample;
      assert samples[..sampleLen + 1] == Pending(input) + [sample];
      input := input + [sample];
      sampleLen := sampleLen + 1;
      if sampleLen == NUM_SAMPLES {
        assert samples[..] == samples[..sampleLen];
        ProcessChunk(s);
        sampleLen := 0;
      }
    }

    method ProcessChunk(ghost s: seq<Option<Tone>>)
      requires samples.Length == NUM_SAMPLES && Tracks(s)
      modifies this`toneChanges, this`curTone, this`oldTone, this`oldOldTone, this`stateDuration
      ensures Tracks(s + [Heard(classify, samples[..])])
      ensures toneChanges == old(toneChanges) + NewEvents(s + [Heard(classify, samples[..])])
    {
      match classify(samples[..]) {
        case Some(Key(low, high)) => SetTone(low, high, s);
        case None => NoTone(s);
      }
    }

    method NoTone(ghost s: seq<Option<Tone>>)
      requires Tracks(s)
      modifies this`toneChanges, this`curTone, this`oldTone, this`oldOldTone, this`stateDuration
      ensures Tracks(s + [None])
      ensures toneChanges == old(toneChanges) + NewEvents(s + [None])
    {
      assert (s + [None])[..|s|] == s;
      if curTone.Some? {
        oldTone := curTone;
        curTone := None;
        stateDuration := 0;
      }
      if stateDuration < STATE_DURATION {
        stateDuration := stateDuration + 1;
        if stateDuration == STATE_DURATION && curTone != oldOldTone {
          SettledChange(s, None);
          toneChanges := toneChanges + [Off(oldTone.value)];
          oldOldTone := curTone;
        }
      }
    }

    method SetTone(low: Index, high: Index, ghost s: seq<Option<Tone>>)
      requires Tracks(s)
      modifies this`toneChanges, this`curTone, this`oldTone, this`oldOldTone, this`stateDuration
      ensures Tracks(s + [Some(TONE_TABLE[low][high])])
      ensures toneChanges == old(toneChanges) + NewEvents(s + [Some(TONE_TABLE[low][high])])
    {
      var tone := TONE_TABLE[low][high];
      assert (s + [Some(tone)])[..|s|] == s;
      if curTone != Some(tone) {
        oldTone := curTone;
        curTone := Some(tone);
        stateDuration := 0;
      }
      if stateDuration < STATE_DURATION {
        stateDuration := stateDuration + 1;
        if stateDuration == STATE_DURATION && curTone != oldOldTone {
          SettledChange(s, Some(tone));
          if oldTone.Some? {
            toneChanges := toneChanges + [Off(oldTone.value)];
          }
          toneChanges := toneChanges + [On(tone)];
          oldOldTone := curTone;
        }
      }
    }
  }

  lemma EventsGrow(classify: Classifier, xs: seq<real>, x: real)
    ensures var s := Signal(classify, xs + [x]);
            if |xs + [x]| % NUM_SAMPLES == 0
            then s != [] && Events(s) == Events(Signal(classify, xs)) + NewEvents(s)
            else Events(s) == Events(Signal(classify, xs))
  {
    hide NewEvents, Heard, Blocks, Pending, Signal;
    SignalGrows(classify, xs, x);
    var s := Signal(classify, xs + [x]);
    if |xs + [x]| % NUM_SAMPLES == 0 {
      assert s[..|s| - 1] == Signal(classify, xs);
    }
  }

  /** When the debounced signal changes, the block before the two that agree was heard otherwise. */
  lemma SettledChange(s: seq<Option<Tone>>, heard: Option<Tone>)
    requires At(s, |s| - 1) == heard != Debounced(s)
    ensures At(s, |s| - 2) != heard
  {
  }
}
