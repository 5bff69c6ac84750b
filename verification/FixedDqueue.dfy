/** The fixed circular queue of media/src/buffer.rs: when it is full, a push drops the oldest element. */
module FixedDqueues {
  import opened Bytes

  /** A bounded first-in-first-out queue: what a push makes of its contents. */
  function Appended(contents: seq<Buffer>, element: Buffer, size: nat): seq<Buffer> {
    if |contents| == size && contents != [] then contents[1..] + [element] else contents + [element]
  }

  function Next(i: nat, size: nat): nat
    requires size > 0
  {
    if i >= size - 1 then 0 else i + 1
  }

  /** The elements from `start` up to the write position, around the end if need be. */
  function Window(e: seq<Buffer>, start: nat, n: Option<nat>): seq<Buffer>
    requires start < |e| && (n.Some? ==> n.value < |e|)
  {
    if n.None? then []
    else if start < n.value then e[start..n.value]
    else e[start..] + e[..n.value]
  }

  lemma PushedOntoNothing(e: seq<Buffer>, start: nat, element: Buffer)
    requires start < |e|
    ensures Window(e[start := element], start, Some(Next(start, |e|))) == [element]
  {
  }

  lemma PushedOntoFull(e: seq<Buffer>, start: nat, element: Buffer)
    requires start < |e|
    ensures Window(e[start := element], Next(start, |e|), Some(Next(start, |e|)))
         == e[start + 1..] + e[..start] + [element]
  {
  }

  lemma PushedAfterStart(e: seq<Buffer>, start: nat, at: nat, element: Buffer)
    requires start < at < |e|
    ensures Window(e[at := element], start, Some(Next(at, |e|))) == e[start..at] + [element]
  {
  }

  lemma PushedBeforeStart(e: seq<Buffer>, start: nat, at: nat, element: Buffer)
    requires at < start < |e|
    ensures Window(e[at := element], start, Some(Next(at, |e|))) == e[start..] + e[..at] + [element]
  {
  }

  lemma PushedWindow(e: seq<Buffer>, start: nat, n: Option<nat>, element: Buffer)
    requires start < |e| && (n.Some? ==> n.value < |e|)
    ensures var at := if n.Some? then n.value else start;
            Window(e[at := element], if n == Some(start) then Next(start, |e|) else start, Some(Next(at, |e|)))
              == Appended(Window(e, start, n), element, |e|)
  {
    hide Next;
    if n.None? {
      PushedOntoNothing(e, start, element);
    } else if n == Some(start) {
      PushedOntoFull(e, start, element);
      assert (e[start..] + e[..start])[1..] == e[start + 1..] + e[..start];
    } else if start < n.value {
      PushedAfterStart(e, start, n.value, element);
    } else {
      PushedBeforeStart(e, start, n.value, element);
    }
  }

  class FixedDqueue {
    const size: nat
    const elements: array<Buffer>
    var start: nat
    var n: Option<nat>

    ghost predicate Valid()
      reads this
    {
      size > 0 && elements.Length == size && start < size && (n.Some? ==> n.value < size)
    }

    ghost function Contents(): (c: seq<Buffer>)
      requires Valid()
      reads this, elements
      ensures |c| <= size
      ensures n.None? <==> c == []
    {
      Window(elements[..], start, n)
    }

    constructor (size: nat)
      requires size > 0
      ensures Valid() && this.size == size && Contents() == []
      ensures fresh(elements)
    {
      this.size := size;
      elements := new Buffer[size](_ => []);
      start, n := 0, None;
    }

    function NextIndex(i: nat): (j: nat)
      requires size > 0
    {
      Next(i, size)
    }

    method Push(element: Buffer)
      requires Valid()
      modifies this`start, this`n, elements
      ensures Valid() && Contents() == Appended(old(Contents()), element, size)
    {
      var at := if n.Some? then n.value else start;
      PushedWindow(elements[..], start, n, element);
      ghost var before := elements[..];
      elements[at] := element;
      assert elements[..] == before[at := element];
      if n == Some(start) {
        start := NextIndex(start);
        n := Some(NextIndex(at));
      } else {
        n := Some(NextIndex(at));
      }
    }

    method Pop() returns (r: Option<Buffer>)
      requires Valid()
      modifies this`start, this`n
      ensures Valid()
      ensures old(Contents()) == [] ==> r.None? && Contents() == []
      ensures old(Contents()) != [] ==> r == Some(old(Contents())[0]) && Contents() == old(Contents())[1..]
    {
      if n.None? {
        return None;
      }
      r := Some(elements[start]);
      start := NextIndex(start);
      if start == n.value {
        n := None;
      }
    }

    method Distance() returns (d: nat)
      requires Valid()
      ensures d == |Contents()|
    {
      if n.None? {
        return 0;
      }
      d := if n.value <= start then n.value + size - start else n.value - start;
    }
  }

  /** All of `xs` pushed one after the other. */
  function AppendedAll(contents: seq<Buffer>, xs: seq<Buffer>, size: nat): seq<Buffer>
    decreases |xs|
  {
    if xs == [] then contents else AppendedAll(Appended(contents, xs[0], size), xs[1..], size)
  }

  /** The last elements, up to `size` of them. */
  function Last(all: seq<Buffer>, size: nat): seq<Buffer> {
    all[if |all| > size then |all| - size else 0..]
  }

  lemma LastAfterAppended(contents: seq<Buffer>, xs: seq<Buffer>, size: nat)
    requires |contents| <= size && size > 0 && xs != []
    ensures Last(Appended(contents, xs[0], size) + xs[1..], size) == Last(contents + xs, size)
  {
    var (all, rest) := (contents + xs, Appended(contents, xs[0], size) + xs[1..]);
    assert rest == if |contents| == size then all[1..] else all;
  }

  /** After any run of pushes the queue holds the last elements pushed, up to its size, in order. */
  lemma {:induction false} KeepsTheLast(contents: seq<Buffer>, xs: seq<Buffer>, size: nat)
    requires |contents| <= size && size > 0
    ensures AppendedAll(contents, xs, size) == Last(contents + xs, size)
    decreases |xs|
  {
    if xs == [] {
      assert contents + xs == contents;
    } else {
      hide Last;
      KeepsTheLast(Appended(contents, xs[0], size), xs[1..], size);
      LastAfterAppended(contents, xs, size);
    }
  }
}
