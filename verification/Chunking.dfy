/** Chunk records of redacted text (`workers/text_stream.py`, `workers/extraction.py`), as
    functions of the whole item sequence. */
module Chunking {
  import opened Bytes
  import opened Seqs
  import opened Wrappers
  import opened DataUrl
  import opened Redaction
  import opened Utf8

  // ----- output text and its alignment with the source -----

  function Image(x: Item): (r: seq<byte>)
    ensures |r| > 0
  {
    match x case Plain(b) => [b] case Redacted(_) => MARKER
  }

  function Output(items: seq<Item>): seq<byte> {
    if items == [] then [] else Output(items[..|items| - 1]) + Image(items[|items| - 1])
  }

  lemma OutputSnoc(items: seq<Item>, x: Item)
    ensures Output(items + [x]) == Output(items) + Image(x)
    ensures Consumed(items + [x]) == Consumed(items) + Consumed([x])
  {
    assert (items + [x])[..|items|] == items;
    assert [x][..0] == [];
  }

  lemma {:induction false} OutputConcat(a: seq<Item>, b: seq<Item>)
    ensures Output(a + b) == Output(a) + Output(b)
  {
    if b == [] {
      assert a + b == a;
    } else {
      var c, x := b[..|b| - 1], b[|b| - 1];
      assert (a + b)[..|a + b| - 1] == a + c;
      OutputConcat(a, c);
      Assoc(Output(a), Output(c), Image(x));
    }
  }

  lemma {:induction false} OutputPlains(s: seq<byte>)
    ensures Output(Plains(s)) == s
  {
    if s != [] {
      OutputPlains(s[..|s| - 1]);
      assert Plains(s)[..|s| - 1] == Plains(s[..|s| - 1]);
    }
  }

  /** The full alignment map: the source position of an output position. Strictly inside a
      marker it is the start of the payload, or its end when `end`. */
  function SourceAt(items: seq<Item>, pos: nat, end: bool): (r: nat)
    requires pos <= |Output(items)|
  {
    if pos == |Output(items)| then Consumed(items)
    else
      var init := items[..|items| - 1];
      if pos <= |Output(init)| then SourceAt(init, pos, end)
      else if end then Consumed(items) else Consumed(init)
  }

  /** Some marker overlaps output positions [left, right). */
  predicate Touches(items: seq<Item>, left: int, right: int) {
    items != [] &&
    var init := items[..|items| - 1];
    || Touches(init, left, right)
    || (items[|items| - 1].Redacted? && |Output(init)| < right && |Output(items)| > left)
  }

  lemma SourceAtEnds(items: seq<Item>, end: bool)
    ensures SourceAt(items, |Output(items)|, end) == Consumed(items)
  {
  }

  lemma SourceAtSnoc(items: seq<Item>, x: Item, pos: nat, end: bool)
    requires pos <= |Output(items)| + |Image(x)|
    ensures |Output(items + [x])| == |Output(items)| + |Image(x)|
    ensures SourceAt(items + [x], pos, end)
            == if pos == |Output(items)| + |Image(x)| then Consumed(items + [x])
               else if pos <= |Output(items)| then SourceAt(items, pos, end)
               else if end then Consumed(items + [x]) else Consumed(items)
    ensures Consumed(items + [x]) == Consumed(items) + (if x.Plain? then 1 else x.count)
  {
    OutputSnoc(items, x);
    assert (items + [x])[..|items|] == items;
  }

  lemma TouchesSnoc(items: seq<Item>, x: Item, left: int, right: int)
    ensures Touches(items + [x], left, right)
            == (|| Touches(items, left, right)
                || (x.Redacted? && |Output(items)| < right && |Output(items + [x])| > left))
  {
    assert (items + [x])[..|items|] == items;
  }

  lemma {:induction false} AlignmentStable(items: seq<Item>, more: seq<Item>, left: nat, right: nat, end: bool)
    requires left <= right <= |Output(items)|
    ensures right <= |Output(items + more)|
    ensures SourceAt(items + more, right, end) == SourceAt(items, right, end)
    ensures Touches(items + more, left, right) == Touches(items, left, right)
    decreases |more|
  {
    hide Output, SourceAt, Touches;
    if more == [] {
      assert items + more == items;
    } else {
      var most, x := more[..|more| - 1], more[|more| - 1];
      AlignmentStable(items, most, left, right, end);
      assert items + more == (items + most) + [x];
      SourceAtSnoc(items + most, x, right, end);
      TouchesSnoc(items + most, x, left, right);
    }
  }

  // ----- where chunks are cut -----

  /** The last line feed below `end`, or -1. */
  function LastNewline(s: seq<byte>, end: nat): (r: int)
    requires end <= |s|
    ensures r == -1 || (0 <= r < end && s[r] == NEWLINE)
    ensures forall j :: r < j < end && 0 <= j ==> s[j] != NEWLINE
  {
    if end == 0 then -1 else if s[end - 1] == NEWLINE then end - 1 else LastNewline(s, end - 1)
  }

  /** The last position at or below `end` that does not split a character. */
  function Boundary(s: seq<byte>, end: nat): (r: nat)
    ensures r <= end
    ensures r == 0 || r >= |s| || !Continuation(s[r])
    ensures forall j :: r < j <= end ==> j < |s| && Continuation(s[j])
  {
    if 0 < end < |s| && Continuation(s[end]) then Boundary(s, end - 1) else end
  }

  /** Length of the next chunk of text longer than `target`: up to its last line feed, or
      else as many whole characters as fit. */
  function CutLength(s: seq<byte>, target: nat): (n: nat)
    requires |s| > target
    ensures n <= target
  {
    var newline := LastNewline(s, target);
    if newline >= 0 then newline + 1 else Boundary(s, target)
  }

  lemma CutStable(s: seq<byte>, f: seq<byte>, target: nat)
    requires |s| > target
    ensures CutLength(s + f, target) == CutLength(s, target)
  {
    hide LastNewline, Boundary;
    assert forall j :: 0 <= j < |s| ==> (s + f)[j] == s[j];
    var p, q := LastNewline(s, target), LastNewline(s + f, target);
    var b, c := Boundary(s, target), Boundary(s + f, target);
    assert p == q;
    assert b == c;
  }

  // ----- chunk records -----

  datatype Chunk = Chunk(ordinal: nat, content: seq<byte>, byteStart: int, byteEnd: int,
                         lineStart: nat, lineEnd: nat, redacted: bool)

  /** The parameters of one stream. */
  datatype Setup = Setup(target: nat, origin: nat, firstLine: nat) {
    predicate Valid() { target >= 4 && firstLine >= 1 }
  }

  predicate Acceptable(piece: seq<byte>) { piece != [] && WellFormed(piece) && 0 !in piece }

  function LineEnd(lineStart: nat, piece: seq<byte>): nat {
    var end := lineStart + Newlines(piece) - (if piece != [] && piece[|piece| - 1] == NEWLINE then 1 else 0);
    if end > lineStart then end else lineStart
  }

  /** The record of output positions [left, right). */
  function Record(c: Setup, items: seq<Item>, left: nat, right: nat, ordinal: nat): Chunk
    requires left <= right <= |Output(items)|
  {
    var piece := Output(items)[left..right];
    var line := c.firstLine + Newlines(Output(items)[..left]);
    Chunk(ordinal, piece, c.origin + SourceAt(items, left, false), c.origin + SourceAt(items, right, true),
          line, LineEnd(line, piece), Touches(items, left, right))
  }

  /** Chunks emitted while more than `target` bytes wait, where they end, and whether none
      of them was rejected. */
  datatype Progress = Progress(chunks: seq<Chunk>, left: nat, ok: bool)

  function Run(c: Setup, items: seq<Item>, left: nat, ordinal: nat): (p: Progress)
    requires left <= |Output(items)|
    ensures left <= p.left <= |Output(items)|
    ensures p.ok ==> |Output(items)| - p.left <= c.target
    decreases |Output(items)| - left
  {
    var o := Output(items);
    if |o| - left <= c.target then Progress([], left, true)
    else
      var right := left + CutLength(o[left..], c.target);
      if !Acceptable(o[left..right]) then Progress([], left, false)
      else
        var rest := Run(c, items, right, ordinal + 1);
        rest.(chunks := [Record(c, items, left, right, ordinal)] + rest.chunks)
  }

  /** All chunks of a complete input in one uninterrupted pass. */
  function Whole(c: Setup, input: seq<byte>): Result<seq<Chunk>> {
    Finished(c, Text(input), Run(c, Text(input), 0, 0))
  }

  /** The last chunk is whatever is left at the end of the input. */
  function Finished(c: Setup, items: seq<Item>, p: Progress): Result<seq<Chunk>>
    requires p.left <= |Output(items)|
  {
    var o := Output(items);
    if !p.ok then Failure
    else if p.left == |o| then Success(p.chunks)
    else if !Acceptable(o[p.left..]) then Failure
    else Success(p.chunks + [Record(c, items, p.left, |o|, |p.chunks|)])
  }

  lemma RecordStable(c: Setup, items: seq<Item>, more: seq<Item>, left: nat, right: nat, ordinal: nat)
    requires left <= right <= |Output(items)|
    ensures right <= |Output(items + more)|
    ensures Record(c, items + more, left, right, ordinal) == Record(c, items, left, right, ordinal)
  {
    hide SourceAt, Touches, Output;
    AlignmentStable(items, more, left, left, false);
    AlignmentStable(items, more, left, right, true);
    OutputConcat(items, more);
    SplitConcat(Output(items), Output(more), left);
    assert (Output(items) + Output(more))[left..right] == Output(items)[left..right];
  }

  function Extend(a: Progress, b: Progress): Progress { Progress(a.chunks + b.chunks, b.left, b.ok) }

  /** Greedy chunking is incremental: what was emitted from a prefix stays, and the rest
      continues from where it stopped. */
  lemma {:induction false} RunExtend(c: Setup, items: seq<Item>, more: seq<Item>, left: nat, ordinal: nat)
    requires left <= |Output(items)|
    ensures |Output(items)| <= |Output(items + more)|
    ensures var p := Run(c, items, left, ordinal);
            Run(c, items + more, left, ordinal)
            == if p.ok then Extend(p, Run(c, items + more, p.left, ordinal + |p.chunks|)) else p
    decreases |Output(items)| - left
  {
    hide Output, CutLength, WellFormed, Record, Run;
    OutputConcat(items, more);
    RunUnfold(c, items, left, ordinal);
    RunUnfold(c, items + more, left, ordinal);
    var o, p := Output(items), Run(c, items, left, ordinal);
    if |o| - left <= c.target {
      assert [] + Run(c, items + more, left, ordinal).chunks == Run(c, items + more, left, ordinal).chunks;
    } else {
      SplitConcat(o, Output(more), left);
      CutStable(o[left..], Output(more), c.target);
      var right := left + CutLength(o[left..], c.target);
      assert (o + Output(more))[left..right] == o[left..right];
      if Acceptable(o[left..right]) {
        RunExtendStep(c, items, more, left, right, ordinal);
      }
    }
  }

  lemma RunUnfold(c: Setup, items: seq<Item>, left: nat, ordinal: nat)
    requires left <= |Output(items)|
    ensures var o := Output(items);
            if |o| - left <= c.target then Run(c, items, left, ordinal) == Progress([], left, true)
            else var right := left + CutLength(o[left..], c.target);
                 if !Acceptable(o[left..right]) then Run(c, items, left, ordinal) == Progress([], left, false)
                 else var rest := Run(c, items, right, ordinal + 1);
                      Run(c, items, left, ordinal)
                      == rest.(chunks := [Record(c, items, left, right, ordinal)] + rest.chunks)
  {
    hide Output, CutLength, WellFormed, Record;
  }

  lemma {:induction false} RunExtendStep(c: Setup, items: seq<Item>, more: seq<Item>, left: nat, right: nat, ordinal: nat)
    requires left < right <= |Output(items)| && |Output(items + more)| >= |Output(items)|
    ensures var p := Run(c, items, right, ordinal + 1);
            var q := Run(c, items + more, right, ordinal + 1);
            var here := [Record(c, items, left, right, ordinal)];
            && Record(c, items + more, left, right, ordinal) == here[0]
            && Progress(here + q.chunks, q.left, q.ok)
               == if p.ok then Extend(p.(chunks := here + p.chunks),
                                      Run(c, items + more, p.left, ordinal + |here + p.chunks|))
                  else p.(chunks := here + p.chunks)
    decreases |Output(items)| - left, 0
  {
    hide Output, CutLength, Acceptable, Record, Run;
    RecordStable(c, items, more, left, right, ordinal);
    RunExtend(c, items, more, right, ordinal + 1);
    var p := Run(c, items, right, ordinal + 1);
    if p.ok {
      Assoc([Record(c, items, left, right, ordinal)], p.chunks,
            Run(c, items + more, p.left, ordinal + 1 + |p.chunks|).chunks);
    }
  }
}
