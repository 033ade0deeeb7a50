/** The resumable chunker (`workers/text_stream.py`). */
module TextStreams {
  import opened Bytes
  import opened Seqs
  import opened Wrappers
  import opened DataUrl
  import opened Redaction
  import opened Redactors
  import opened Utf8
  import opened Chunking
  import opened Alignment
  import opened StreamStates

  class TextStream {
    const target: nat
    ghost const c: Setup
    const redactor: Redactor
    var pending: seq<byte>
    var byteStart: int
    var lineStart: nat
    var ordinal: nat
    var sourceCursor: int
    var outputCursor: int
    var shift: int
    var replacements: seq<Replacement>
    ghost var input: seq<byte>
    ghost var items: seq<Item>
    ghost var done: seq<Chunk>

    ghost function State(): Saved
      reads this, redactor
    {
      Saved(target, pending, byteStart, lineStart, ordinal, sourceCursor, outputCursor, shift, replacements,
            redactor.State())
    }

    ghost predicate Valid()
      reads this, redactor
    {
      !redactor.finished && Represents(c, State(), input, items, done)
    }

    /** Output is in step: all output of `items` up to `avail` is in chunks or pending. */
    ghost predicate InStep(avail: nat)
      reads this, redactor
    {
      && Aligned(c, State(), items, avail)
      && ordinal == |done|
      && Continues(c, items, done, byteStart - c.origin)
    }

    constructor (target: nat, byteStart: nat, lineStart: nat)
      requires target >= 4 && lineStart >= 1
      ensures Valid() && fresh(redactor)
      ensures c == Setup(target, byteStart, lineStart)
      ensures input == [] && items == [] && done == []
    {
      hide Refines, Waiting, Run, Aligned, Consumed, Output;
      this.target := target;
      c := Setup(target, byteStart, lineStart);
      pending, this.byteStart, this.lineStart, ordinal := [], byteStart, lineStart, 0;
      sourceCursor, outputCursor, shift, replacements := byteStart, byteStart, 0, [];
      input, items, done := [], [], [];
      redactor := new Redactor();
      new;
      FreshAligned(c);
      WaitingAtStart();
      RefinesNothing(false, Parse([], false, 0));
      NoReplacements(byteStart);
      RunUnfold(c, [], 0, 0);
    }

    /** Restoring a saved stream resumes it. */
    constructor Restore(s: Saved, ghost c: Setup, ghost input: seq<byte>, ghost items: seq<Item>, ghost done: seq<Chunk>)
      requires Represents(c, s, input, items, done) && Restorable(s, c.target)
      ensures Valid() && fresh(redactor)
      ensures State() == s && this.c == c && this.input == input && this.items == items && this.done == done
    {
      target := s.target;
      this.c, this.input, this.items, this.done := c, input, items, done;
      pending, byteStart, lineStart, ordinal := s.pending, s.byteStart, s.lineStart, s.ordinal;
      sourceCursor, outputCursor, shift, replacements := s.sourceCursor, s.outputCursor, s.shift, s.replacements;
      redactor := new Redactor.Restore(s.redactor);
    }

    method Snapshot() returns (s: Saved)
      requires Valid()
      ensures s == State() && Restorable(s, c.target)
    {
      hide Represents;
      RepresentsRestorable(c, State(), input, items, done);
      var saved := redactor.Snapshot();
      s := Saved(target, pending, byteStart, lineStart, ordinal, sourceCursor, outputCursor, shift, replacements,
                 saved.value);
    }

    /** `utf8_boundary`, scanning down from `end`. */
    static method Utf8Boundary(data: seq<byte>, end: nat) returns (r: nat)
      ensures r == Boundary(data, end)
    {
      r := end;
      while 0 < r < |data| && Continuation(data[r])
        invariant r <= end && Boundary(data, r) == Boundary(data, end)
        decreases r
      {
        r := r - 1;
      }
    }

    /** `_source_boundary`: the loop over the window. */
    method SourceBoundary(position: int, end: bool) returns (r: int)
      ensures r == Walk(replacements, shift, position, end)
    {
      var delta := shift;
      var i := 0;
      while i < |replacements|
        invariant 0 <= i <= |replacements|
        invariant Walk(replacements[i..], delta, position, end) == Walk(replacements, shift, position, end)
      {
        var x := replacements[i];
        assert replacements[i..][0] == x && replacements[i..][1..] == replacements[i + 1..];
        if position <= x.left {
          return position + delta;
        }
        if position < x.right {
          return if end then x.sourceRight else x.sourceLeft;
        }
        delta := x.sourceRight - x.right;
        i := i + 1;
      }
      return position + delta;
    }

    /** Drop the replacements that end at or before `right`, as `_emit` does. */
    method PopPassed(right: int)
      requires Window(c.origin, items, byteStart, shift, replacements) && byteStart <= right
      modifies this`shift, this`replacements
      ensures Window(c.origin, items, right, shift, replacements)
    {
      hide Replacements;
      ghost var rs := Replacements(c.origin, items);
      ghost var k: nat := Passed(rs, byteStart);
      while replacements != [] && replacements[0].right <= right
        invariant k <= |rs| && replacements == rs[k..] && shift == ShiftAfter(rs, k)
        invariant forall i :: 0 <= i < k ==> rs[i].right <= right
        decreases |replacements|
      {
        shift := replacements[0].sourceRight - replacements[0].right;
        replacements := replacements[1..];
        k := k + 1;
      }
      assert k < |rs| ==> replacements[0] == rs[k];
      PassedUnique(rs, right, k);
    }

    /** `_emit`: turn the first `end` pending bytes into a chunk, unless they are not text. */
    method Emit(end: nat, ghost avail: nat) returns (r: Result<Chunk>)
      requires Aligned(c, State(), items, avail) && end <= |pending|
      modifies this`pending, this`byteStart, this`lineStart, this`ordinal, this`shift, this`replacements
      ensures r.Success? <==> Acceptable(old(pending)[..end])
      ensures r.Failure? ==> State() == old(State())
      ensures r.Success? ==>
                && byteStart == old(byteStart) + end && ordinal == old(ordinal) + 1
                && Aligned(c, State(), items, avail)
                && r.value == Record(c, items, old(byteStart) - c.origin, byteStart - c.origin, old(ordinal))
    {
      hide Aligned, Walk, Window, Overlapping, WellFormed, Record, LineEnd;
      ghost var before := State();
      AlignedShape(c, before, items, avail);
      var piece := pending[..end];
      if end <= 0 || !WellFormed(piece) || 0 in piece {
        return Failure;
      }
      var left, right := byteStart, byteStart + end;
      var from := SourceBoundary(left, false);
      var to := SourceBoundary(right, true);
      var chunk := Chunk(ordinal, piece, from, to, lineStart, LineEnd(lineStart, piece),
                         Overlapping(replacements, left, right));
      PopPassed(right);
      lineStart := lineStart + Newlines(piece);
      byteStart := right;
      ordinal := ordinal + 1;
      pending := pending[end..];
      EmitStep(c, before, items, avail, end, shift, replacements);
      return Success(chunk);
    }

    /** Where `feed` cuts: after the last line feed in reach, or else between characters. */
    method NextCut() returns (end: nat)
      requires |pending| > target
      ensures end == CutLength(pending, target)
    {
      end := LastNewline(pending, target) + 1;
      if end == 0 {
        end := Utf8Boundary(pending, target);
      }
    }

    /** Cut and emit one chunk of the text pending. */
    method EmitNext(ghost avail: nat) returns (r: Result<Chunk>)
      requires InStep(avail) && |pending| > target
      modifies this`pending, this`byteStart, this`lineStart, this`ordinal, this`shift, this`replacements, this`done
      ensures r.Success? ==> InStep(avail) && |pending| < old(|pending|) && done == old(done) + [r.value]
      ensures r.Failure? ==> !Run(c, items, 0, 0).ok
    {
      hide InStep, Aligned, Continues, Record, Run, CutLength, Acceptable, Output;
      ghost var left, before, chunks := byteStart - c.origin, State(), done;
      InStepParts(avail);
      DrainStep(c, before, items, chunks, avail);
      var end := NextCut();
      r := Emit(end, avail);
      if r.Success? {
        AlignedShape(c, State(), items, avail);
        assert r.value == Record(c, items, left, left + end, |chunks|);
        done := done + [r.value];
        InStepWhole(avail);
      }
    }

    lemma ValidParts()
      requires Valid()
      ensures !redactor.finished && Refines(false, Parse(input, false, 0), items, redactor.State())
      ensures !redactor.payload ==> redactor.removed == 0
      ensures Consumed(items) + |redactor.pending| + redactor.removed == |input|
      ensures forall k :: 0 <= k < |items| && items[k].Redacted? ==> items[k].count > 0
      ensures InStep(|Output(items)|) && |pending| <= target
    {
      hide Refines, Run, Output, Aligned, Consumed;
      AlignedShape(c, State(), items, |Output(items)|);
      RunUnfold(c, items, byteStart - c.origin, |done|);
      assert done + [] == done;
    }

    lemma FeedValid()
      requires InStep(|Output(items)|) && |pending| <= target && !redactor.finished
      requires forall k :: 0 <= k < |items| && items[k].Redacted? ==> items[k].count > 0
      requires Refines(false, Parse(input, false, 0), items, redactor.State()) && Waiting(redactor.State())
      requires Consumed(items) + |redactor.pending| + redactor.removed == |input|
      ensures Valid()
    {
      hide Refines, Run, Output, Aligned, Waiting, Consumed, Continues;
      InStepParts(|Output(items)|);
      ContinuesEnd(c, items, done, byteStart - c.origin);
    }

    lemma InStepParts(avail: nat)
      requires InStep(avail)
      ensures Aligned(c, State(), items, avail) && ordinal == |done|
      ensures Continues(c, items, done, byteStart - c.origin)
      ensures State() == Saved(target, pending, byteStart, lineStart, ordinal, sourceCursor, outputCursor, shift,
                               replacements, redactor.State())
      ensures |pending| == avail - (byteStart - c.origin) && target == c.target
    {
      AlignedShape(c, State(), items, avail);
    }

    lemma InStepWhole(avail: nat)
      requires Aligned(c, State(), items, avail) && ordinal == |done|
      requires byteStart >= c.origin && Continues(c, items, done, byteStart - c.origin)
      ensures InStep(avail)
    {
    }

    /** The inner loop of `feed`: emit while more than `target` bytes are pending. */
    method Drain(ghost avail: nat) returns (r: Result<seq<Chunk>>)
      requires InStep(avail)
      modifies this`pending, this`byteStart, this`lineStart, this`ordinal, this`shift, this`replacements, this`done
      ensures r.Success? ==> InStep(avail) && |pending| <= target && done == old(done) + r.value
      ensures r.Failure? ==> !Run(c, items, 0, 0).ok
    {
      hide InStep, Run;
      var chunks: seq<Chunk> := [];
      while |pending| > target
        invariant InStep(avail) && done == old(done) + chunks
        decreases |pending|
      {
        var chunk := EmitNext(avail);
        if chunk.Failure? {
          return Failure;
        }
        chunks := chunks + [chunk.value];
      }
      return Success(chunks);
    }

    /** The body of `feed` for one span: announce it, then append it in pieces of at most
        `target` bytes. */
    method Absorb(span: Span) returns (r: Result<seq<Chunk>>)
      requires InStep(|Output(items)|) && |pending| <= target && span.WellFormed()
      modifies this
      ensures items == old(items) + span.Items() && input == old(input)
      ensures r.Success? ==>
                && InStep(|Output(items)|) && |pending| <= target && done == old(done) + r.value
      ensures r.Failure? ==> !Run(c, items, 0, 0).ok
    {
      hide Aligned, Continues, Run, Output;
      ghost var base := |Output(items)|;
      AbsorbStart(c, State(), items, done, span);
      if span.changed {
        replacements := replacements
          + [Replacement(outputCursor, outputCursor + |span.data|, sourceCursor, sourceCursor + span.consumed)];
      }
      sourceCursor := sourceCursor + span.consumed;
      outputCursor := outputCursor + |span.data|;
      items := items + span.Items();
      var chunks: seq<Chunk> := [];
      var offset := 0;
      while offset < |span.data|
        invariant items == old(items) + span.Items() && input == old(input)
        invariant Output(items) == Output(old(items)) + span.data && base == |Output(old(items))|
        invariant 0 <= offset
        invariant InStep(base + if offset < |span.data| then offset else |span.data|)
        invariant |pending| <= target && done == old(done) + chunks
      {
        var stop := if offset + target < |span.data| then offset + target else |span.data|;
        AppendStep(c, State(), items, span.data, base, offset, stop);
        pending := pending + span.data[offset..stop];
        var more := Drain(base + stop);
        if more.Failure? {
          return Failure;
        }
        chunks := chunks + more.value;
        offset := offset + target;
      }
      return Success(chunks);
    }

    /** The loop of `feed` over the redactor's spans. On failure some prefix of the spans
        is already rejected. */
    method AbsorbAll(spans: seq<Span>) returns (r: Result<seq<Chunk>>, ghost k: nat)
      requires InStep(|Output(items)|) && |pending| <= target
      requires forall i :: 0 <= i < |spans| ==> spans[i].WellFormed()
      modifies this
      ensures input == old(input) && k <= |spans|
      ensures items == old(items) + SpanItems(spans[..k])
      ensures r.Success? ==>
                && k == |spans| && InStep(|Output(items)|) && |pending| <= target
                && done == old(done) + r.value
      ensures r.Failure? ==> !Run(c, items, 0, 0).ok
    {
      hide InStep, SpanItems, Run, Output;
      var chunks: seq<Chunk> := [];
      k := 0;
      var i := 0;
      EmptySpans();
      while i < |spans|
        invariant i == k <= |spans| && input == old(input)
        invariant items == old(items) + SpanItems(spans[..k])
        invariant InStep(|Output(items)|) && |pending| <= target
        invariant done == old(done) + chunks
      {
        SpanPrefix(spans, k);
        Assoc(old(items), SpanItems(spans[..k]), spans[k].Items());
        var more := Absorb(spans[i]);
        i, k := i + 1, k + 1;
        if more.Failure? {
          return Failure, k;
        }
        chunks := chunks + more.value;
      }
      return Success(chunks), k;
    }

    /** `feed` with a block of input. Rejected input is rejected by every complete pass
        over any continuation of it; accepted input leaves the stream a faithful summary. */
    method Feed(block: seq<byte>) returns (r: Result<seq<Chunk>>)
      requires Valid()
      modifies this, redactor
      ensures r.Success? ==> Valid() && input == old(input) + block && done == old(done) + r.value
      ensures |block| > 65536 ==> r.Failure?
      ensures r.Failure? && |block| <= 65536 ==> forall f: seq<byte> :: Whole(c, (old(input) + block) + f).Failure?
    {
      hide InStep, SpanItems, SpanBytes, Run, Output, Refines, Waiting, Aligned, Represents, Continues, Consumed, Whole;
      ghost var items0, before := items, State();
      ValidParts();
      InStepParts(|Output(items)|);
      var spans := redactor.Feed(Some(block));
      if spans.Failure? {
        return Failure;
      }
      AlignedIgnoresParser(c, before, redactor.State(), items, |Output(items)|);
      InStepWhole(|Output(items)|);
      ghost var k;
      r, k := AbsorbAll(spans.value);
      RefinesFeed(input, items0, before.redactor, block, SpanItems(spans.value), redactor.State());
      SpanPrefix(spans.value, k);
      Assoc(items0, SpanItems(spans.value[..k]), SpanItems(spans.value[k..]));
      if r.Failure? {
        RejectsEvery(c, old(input) + block, items, SpanItems(spans.value[k..]), redactor.State());
      } else {
        assert spans.value[..k] == spans.value;
        InStepParts(|Output(items)|);
        input := input + block;
        InStepWhole(|Output(items)|);
        SpansAdd(items0, spans.value);
        FeedValid();
      }
    }

    /** `feed(None)`: the end of the input. All chunks together are then exactly those of
        one uninterrupted pass, or that pass too is rejected. */
    method Finish() returns (r: Result<seq<Chunk>>)
      requires Valid()
      modifies this, redactor
      ensures r.Success? ==> Whole(c, old(input)) == Success(old(done) + r.value)
      ensures r.Failure? ==> Whole(c, old(input)).Failure?
    {
      hide InStep, SpanItems, SpanBytes, Run, Output, Refines, Waiting, Aligned, Represents, Continues, Consumed, Whole,
           Acceptable, Record, Rest;
      ghost var items0, before := items, State();
      ValidParts();
      InStepParts(|Output(items)|);
      var spans := redactor.Feed(None);
      AlignedIgnoresParser(c, before, redactor.State(), items, |Output(items)|);
      InStepWhole(|Output(items)|);
      TextAtEnd(input, items0, before.redactor);
      ghost var k;
      r, k := AbsorbAll(spans.value);
      SpanPrefix(spans.value, k);
      Assoc(items0, SpanItems(spans.value[..k]), SpanItems(spans.value[k..]));
      if r.Failure? {
        RejectsWhole(c, old(input), items, SpanItems(spans.value[k..]));
        return;
      }
      assert spans.value[..k] == spans.value;
      InStepParts(|Output(items)|);
      WholeEnds(c, old(input), State(), items, done);
      if pending != [] {
        var chunk := Emit(|pending|, |Output(items)|);
        if chunk.Failure? {
          return Failure;
        }
        Assoc(old(done), r.value, [chunk.value]);
        r := Success(r.value + [chunk.value]);
      }
    }
  }
}
