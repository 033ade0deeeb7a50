/** The bounded window that replaces the full alignment map between chunks. */
module Alignment {
  import opened Bytes
  import opened Seqs
  import opened DataUrl
  import opened Redaction
  import opened Chunking

  /** One redacted payload: where its marker and its source bytes are. */
  datatype Replacement = Replacement(left: int, right: int, sourceLeft: int, sourceRight: int)

  /** All replacements of a text that starts at `origin`. */
  function Replacements(origin: int, items: seq<Item>): seq<Replacement> {
    if items == [] then []
    else
      var init := items[..|items| - 1];
      match items[|items| - 1]
      case Plain(_) => Replacements(origin, init)
      case Redacted(n) =>
        var at, source := origin + |Output(init)|, origin + Consumed(init);
        Replacements(origin, init) + [Replacement(at, at + |MARKER|, source, source + n)]
  }

  /** How many leading replacements end at or before `pos`. */
  function Passed(rs: seq<Replacement>, pos: int): (k: nat)
    ensures k <= |rs|
    ensures forall i :: 0 <= i < k ==> rs[i].right <= pos
    ensures k < |rs| ==> rs[k].right > pos
  {
    if rs == [] || rs[0].right > pos then 0 else 1 + Passed(rs[1..], pos)
  }

  /** Source minus output position after the first `k` replacements. */
  function ShiftAfter(rs: seq<Replacement>, k: nat): int
    requires k <= |rs|
  {
    if k == 0 then 0 else rs[k - 1].sourceRight - rs[k - 1].right
  }

  /** The walk over a window that finds a source position. */
  function Walk(rs: seq<Replacement>, delta: int, pos: int, end: bool): int {
    if rs == [] || pos <= rs[0].left then pos + delta
    else if pos < rs[0].right then (if end then rs[0].sourceRight else rs[0].sourceLeft)
    else Walk(rs[1..], rs[0].sourceRight - rs[0].right, pos, end)
  }

  predicate Overlapping(rs: seq<Replacement>, left: int, right: int) {
    exists i :: 0 <= i < |rs| && rs[i].left < right && rs[i].right > left
  }

  /** The replacement a marker appended to `items` gives rise to. */
  function Next(origin: int, items: seq<Item>, n: nat): Replacement {
    var at, source := origin + |Output(items)|, origin + Consumed(items);
    Replacement(at, at + |MARKER|, source, source + n)
  }

  lemma ReplacementsSnoc(origin: int, items: seq<Item>, x: Item)
    ensures Replacements(origin, items + [x])
            == if x.Redacted? then Replacements(origin, items) + [Next(origin, items, x.count)]
               else Replacements(origin, items)
    ensures |Output(items + [x])| == |Output(items)| + (if x.Redacted? then |MARKER| else 1)
  {
    assert (items + [x])[..|items|] == items;
  }

  /** Replacements lie in order inside output that ends at `bound`. */
  ghost predicate Ordered(rs: seq<Replacement>, origin: int, bound: int) {
    && (forall i :: 0 <= i < |rs| ==> origin <= rs[i].left < rs[i].right <= bound)
    && (forall i, j :: 0 <= i < j < |rs| ==> rs[i].right <= rs[j].left)
  }

  lemma {:induction false} ReplacementsOrdered(origin: int, items: seq<Item>)
    ensures Ordered(Replacements(origin, items), origin, origin + |Output(items)|)
  {
    hide Replacements, Output;
    if items == [] {
      NoReplacements(origin);
    } else {
      var init, x := items[..|items| - 1], items[|items| - 1];
      assert items == init + [x];
      ReplacementsSnoc(origin, init, x);
      ReplacementsOrdered(origin, init);
      var before, rs := Replacements(origin, init), Replacements(origin, items);
      assert forall i :: 0 <= i < |before| ==> rs[i] == before[i];
    }
  }

  lemma NoReplacements(origin: int)
    ensures Replacements(origin, []) == [] && Output([]) == [] && Consumed([]) == 0
  {
  }

  lemma {:induction false} PlainsAddNone(origin: int, items: seq<Item>, s: seq<byte>)
    ensures Replacements(origin, items + Plains(s)) == Replacements(origin, items)
  {
    if s == [] {
      assert items + Plains(s) == items;
    } else {
      var t := s[..|s| - 1];
      assert Plains(s)[..|t|] == Plains(t);
      assert (items + Plains(s))[..|items| + |t|] == items + Plains(t);
      PlainsAddNone(origin, items, t);
    }
  }

  /** Replacements that end before `pos` only contribute their shift. */
  lemma {:induction false} WalkDrop(rs: seq<Replacement>, delta: int, k: nat, pos: int, end: bool)
    requires k <= |rs|
    requires forall i :: 0 <= i < k ==> rs[i].left < rs[i].right <= pos
    ensures Walk(rs, delta, pos, end) == Walk(rs[k..], if k == 0 then delta else ShiftAfter(rs, k), pos, end)
    decreases k
  {
    if k > 0 {
      WalkDrop(rs[1..], rs[0].sourceRight - rs[0].right, k - 1, pos, end);
      DropDrop(rs, 1, k - 1);
    } else {
      assert rs[0..] == rs;
    }
  }

  /** A replacement beyond `pos` does not matter. */
  lemma {:induction false} WalkSnoc(rs: seq<Replacement>, r: Replacement, delta: int, pos: int, end: bool)
    requires pos <= r.left
    ensures Walk(rs + [r], delta, pos, end) == Walk(rs, delta, pos, end)
  {
    if rs != [] && pos >= rs[0].right && pos > rs[0].left {
      assert (rs + [r])[1..] == rs[1..] + [r];
      WalkSnoc(rs[1..], r, rs[0].sourceRight - rs[0].right, pos, end);
    }
  }

  /** Beyond the last replacement the walk adds the last shift. */
  lemma WalkPast(rs: seq<Replacement>, pos: int, end: bool)
    requires forall i :: 0 <= i < |rs| ==> rs[i].left < rs[i].right <= pos
    ensures Walk(rs, 0, pos, end) == pos + ShiftAfter(rs, |rs|)
  {
    WalkDrop(rs, 0, |rs|, pos, end);
  }

  lemma WalkInLast(rs: seq<Replacement>, r: Replacement, pos: int, end: bool)
    requires forall i :: 0 <= i < |rs| ==> rs[i].left < rs[i].right <= pos
    requires r.left < pos
    ensures Walk(rs + [r], 0, pos, end)
            == if pos < r.right then (if end then r.sourceRight else r.sourceLeft) else pos + r.sourceRight - r.right
  {
    var all := rs + [r];
    WalkDrop(all, 0, |rs|, pos, end);
    assert all[|rs|..] == [r] && [r][1..] == [];
  }

  /** Walking all replacements computes the full alignment map. */
  lemma {:induction false} WalkAll(origin: int, items: seq<Item>, pos: nat, end: bool)
    requires pos <= |Output(items)|
    ensures Walk(Replacements(origin, items), 0, origin + pos, end) == origin + SourceAt(items, pos, end)
  {
    hide Walk, Replacements, SourceAt, Output;
    if items == [] {
      NoReplacements(origin);
      SourceAtEnds([], end);
      WalkPast([], origin, end);
    } else {
      var init, x := items[..|items| - 1], items[|items| - 1];
      assert items == init + [x];
      var rs := Replacements(origin, init);
      ReplacementsOrdered(origin, init);
      ReplacementsSnoc(origin, init, x);
      SourceAtSnoc(init, x, pos, end);
      if pos <= |Output(init)| {
        WalkAll(origin, init, pos, end);
        if x.Redacted? {
          WalkSnoc(rs, Next(origin, init, x.count), 0, origin + pos, end);
        }
      } else if x.Plain? {
        WalkAll(origin, init, |Output(init)|, end);
        SourceAtEnds(init, end);
        WalkPast(rs, origin + |Output(init)|, end);
        WalkPast(rs, origin + pos, end);
      } else {
        WalkInLast(rs, Next(origin, init, x.count), origin + pos, end);
      }
    }
  }

  lemma {:induction false} OverlappingAll(origin: int, items: seq<Item>, left: int, right: int)
    ensures Overlapping(Replacements(origin, items), origin + left, origin + right) == Touches(items, left, right)
  {
    hide Replacements, Output;
    if items == [] {
      NoReplacements(origin);
    } else {
      var init, x := items[..|items| - 1], items[|items| - 1];
      assert items == init + [x];
      ReplacementsSnoc(origin, init, x);
      OverlappingAll(origin, init, left, right);
      if x.Redacted? {
        OverlappingSnoc(Replacements(origin, init), Next(origin, init, x.count), origin + left, origin + right);
      }
    }
  }

  lemma OverlappingSnoc(rs: seq<Replacement>, r: Replacement, left: int, right: int)
    ensures Overlapping(rs + [r], left, right)
            == (Overlapping(rs, left, right) || (r.left < right && r.right > left))
  {
    var all := rs + [r];
    assert all[|rs|] == r;
    if i :| 0 <= i < |rs| && rs[i].left < right && rs[i].right > left {
      assert all[i] == rs[i];
    }
  }

  /** `window` and `shift` are what remains of all replacements once output before
      `byteStart` is gone. */
  ghost predicate Window(origin: int, items: seq<Item>, byteStart: int, shift: int, window: seq<Replacement>) {
    var rs := Replacements(origin, items);
    var k := Passed(rs, byteStart);
    window == rs[k..] && shift == ShiftAfter(rs, k)
  }

  /** The bounded window agrees with the full alignment map from `byteStart` on. */
  lemma WindowCorrect(origin: int, items: seq<Item>, byteStart: int, shift: int, window: seq<Replacement>,
                      left: int, right: int, end: bool)
    requires Window(origin, items, byteStart, shift, window)
    requires origin <= byteStart <= left <= right <= origin + |Output(items)|
    ensures Walk(window, shift, right, end) == origin + SourceAt(items, right - origin, end)
    ensures Overlapping(window, left, right) == Touches(items, left - origin, right - origin)
  {
    hide Walk, SourceAt, Touches, Replacements, Output, Overlapping;
    var rs := Replacements(origin, items);
    var k := Passed(rs, byteStart);
    ReplacementsOrdered(origin, items);
    WalkAll(origin, items, right - origin, end);
    WalkDrop(rs, 0, k, right, end);
    OverlappingAll(origin, items, left - origin, right - origin);
    OverlappingDrop(rs, k, left, right);
  }

  lemma OverlappingDrop(rs: seq<Replacement>, k: nat, left: int, right: int)
    requires k <= |rs| && forall i :: 0 <= i < k ==> rs[i].right <= left
    ensures Overlapping(rs, left, right) == Overlapping(rs[k..], left, right)
  {
    if i :| 0 <= i < |rs| && rs[i].left < right && rs[i].right > left {
      assert rs[k..][i - k] == rs[i];
    }
    if i :| 0 <= i < |rs[k..]| && rs[k..][i].left < right && rs[k..][i].right > left {
      assert rs[k..][i] == rs[k + i];
    }
  }

  lemma PassedUnique(rs: seq<Replacement>, pos: int, k: nat)
    requires k <= |rs|
    requires forall i :: 0 <= i < k ==> rs[i].right <= pos
    requires k < |rs| ==> rs[k].right > pos
    ensures k == Passed(rs, pos)
  {
  }

  /** A waiting window is no longer than the text it covers. */
  lemma WindowBound(origin: int, items: seq<Item>, byteStart: int, shift: int, window: seq<Replacement>)
    requires Window(origin, items, byteStart, shift, window)
    requires byteStart <= origin + |Output(items)|
    ensures |window| <= origin + |Output(items)| - byteStart
    ensures forall i :: 0 <= i < |window| ==> origin <= window[i].left < window[i].right
  {
    hide Replacements, Output;
    var rs := Replacements(origin, items);
    var k := Passed(rs, byteStart);
    ReplacementsOrdered(origin, items);
    assert forall i :: 0 <= i < |window| ==> window[i] == rs[k + i];
    var i := 0;
    while i < |window|
      invariant i <= |window|
      invariant i > 0 ==> window[i - 1].right >= byteStart + i
    {
      assert i > 0 ==> rs[k + i - 1].right <= rs[k + i].left;
      i := i + 1;
    }
  }

  lemma {:induction false} SourceSidesOrdered(origin: nat, items: seq<Item>)
    requires forall k :: 0 <= k < |items| && items[k].Redacted? ==> items[k].count > 0
    ensures forall i :: 0 <= i < |Replacements(origin, items)| ==>
              var r := Replacements(origin, items)[i]; 0 <= r.sourceLeft < r.sourceRight
  {
    hide Replacements;
    if items == [] {
      NoReplacements(origin);
    } else {
      var init, x := items[..|items| - 1], items[|items| - 1];
      assert items == init + [x];
      ReplacementsSnoc(origin, init, x);
      SourceSidesOrdered(origin, init);
    }
  }
}

/** What a saved `TextStream` stands for, and how each step of the stream keeps that. */
module StreamStates {
  import opened Bytes
  import opened Seqs
  import opened Wrappers
  import opened DataUrl
  import opened Redaction
  import opened Utf8
  import opened Chunking
  import opened Alignment

  /** A saved stream, field by field as `snapshot` writes it. */
  datatype Saved = Saved(target: nat, pending: seq<byte>, byteStart: int, lineStart: nat, ordinal: nat,
                         sourceCursor: int, outputCursor: int, shift: int,
                         replacements: seq<Replacement>, redactor: Parse)

  /** The checks that restoring a saved stream makes. */
  predicate Restorable(s: Saved, target: nat) {
    && s.target == target
    && s.byteStart >= 0 && s.lineStart >= 1 && s.sourceCursor >= 0 && s.outputCursor >= 0
    && |s.pending| <= target
    && s.outputCursor == s.byteStart + |s.pending|
    && |s.replacements| <= target + 1
    && (forall i :: 0 <= i < |s.replacements| ==>
          var r := s.replacements[i];
          0 <= r.left < r.right && 0 <= r.sourceLeft < r.sourceRight)
    && ParseRestorable(s.redactor)
  }

  /** The output side of a stream: of all output of `items`, positions [left, avail) are
      pending, and everything before `left` is in chunks. */
  ghost predicate Aligned(c: Setup, s: Saved, items: seq<Item>, avail: nat) {
    var left := s.byteStart - c.origin;
    && c.Valid() && s.target == c.target
    && 0 <= left <= avail <= |Output(items)|
    && s.pending == Output(items)[left..avail]
    && s.lineStart == c.firstLine + Newlines(Output(items)[..left])
    && s.sourceCursor == c.origin + Consumed(items)
    && s.outputCursor == c.origin + |Output(items)|
    && Window(c.origin, items, s.byteStart, s.shift, s.replacements)
  }

  /** `s` is a faithful summary of a stream that has read `input`, turned part of it into
      `items` and emitted the chunks `done`. */
  ghost predicate Represents(c: Setup, s: Saved, input: seq<byte>, items: seq<Item>, done: seq<Chunk>) {
    && Refines(false, Parse(input, false, 0), items, s.redactor)
    && Waiting(s.redactor)
    && Consumed(items) + |s.redactor.pending| + s.redactor.removed == |input|
    && (forall k :: 0 <= k < |items| && items[k].Redacted? ==> items[k].count > 0)
    && Aligned(c, s, items, |Output(items)|)
    && |s.pending| <= c.target
    && s.ordinal == |done|
    && Run(c, items, 0, 0) == Progress(done, s.byteStart - c.origin, true)
  }

  /** Every faithful summary passes every check made when it is restored. */
  lemma RepresentsRestorable(c: Setup, s: Saved, input: seq<byte>, items: seq<Item>, done: seq<Chunk>)
    requires Represents(c, s, input, items, done)
    ensures Restorable(s, c.target)
    ensures s.sourceCursor + |s.redactor.pending| + s.redactor.removed == c.origin + |input|
  {
    hide Run, Output, Refines;
    WindowBound(c.origin, items, s.byteStart, s.shift, s.replacements);
    SourceSidesOrdered(c.origin, items);
    var rs := Replacements(c.origin, items);
    forall i | 0 <= i < |s.replacements|
      ensures 0 <= s.replacements[i].sourceLeft < s.replacements[i].sourceRight
    {
      assert s.replacements[i] == rs[Passed(rs, s.byteStart) + i];
    }
  }

  lemma WaitingAtStart()
    ensures Waiting(Parse([], false, 0))
  {
  }

  function Fresh(c: Setup): Saved {
    Saved(c.target, [], c.origin, c.firstLine, 0, c.origin, c.origin, 0, [], Parse([], false, 0))
  }

  lemma FreshAligned(c: Setup)
    requires c.Valid()
    ensures Output([]) == [] && Aligned(c, Fresh(c), [], 0)
  {
    hide Replacements;
    NoReplacements(c.origin);
  }

  // ----- emitting chunk by chunk -----

  /** The chunks `done` end at `left`, and the rest of the pass continues from there. */
  ghost predicate Continues(c: Setup, items: seq<Item>, done: seq<Chunk>, left: nat) {
    left <= |Output(items)| && Run(c, items, 0, 0) == Extend(Progress(done, left, true), Run(c, items, left, |done|))
  }

  lemma ContinuesExtend(c: Setup, items: seq<Item>, more: seq<Item>, done: seq<Chunk>, left: nat)
    requires Run(c, items, 0, 0) == Progress(done, left, true)
    ensures Continues(c, items + more, done, left)
  {
    hide Run, Output;
    RunExtend(c, items, more, 0, 0);
  }

  lemma ContinuesStep(c: Setup, items: seq<Item>, done: seq<Chunk>, left: nat, right: nat)
    requires Continues(c, items, done, left) && |Output(items)| - left > c.target
    requires right == left + CutLength(Output(items)[left..], c.target)
    ensures Acceptable(Output(items)[left..right]) ==>
              Continues(c, items, done + [Record(c, items, left, right, |done|)], right)
    ensures !Acceptable(Output(items)[left..right]) ==> !Run(c, items, 0, 0).ok
  {
    hide Run, Output, CutLength, Record, Acceptable;
    RunUnfold(c, items, left, |done|);
    if Acceptable(Output(items)[left..right]) {
      Assoc(done, [Record(c, items, left, right, |done|)], Run(c, items, right, |done| + 1).chunks);
    }
  }

  lemma ContinuesEnd(c: Setup, items: seq<Item>, done: seq<Chunk>, left: nat)
    requires Continues(c, items, done, left) && |Output(items)| - left <= c.target
    ensures Run(c, items, 0, 0) == Progress(done, left, true)
  {
    hide Run, Output;
    RunUnfold(c, items, left, |done|);
  }

  /** A rejected prefix is rejected whatever follows. */
  lemma RejectionStays(c: Setup, items: seq<Item>, more: seq<Item>)
    requires !Run(c, items, 0, 0).ok
    ensures !Run(c, items + more, 0, 0).ok
  {
    hide Run, Output;
    RunExtend(c, items, more, 0, 0);
  }

  // ----- alignment kept by each field update -----

  /** The fields after a span has been announced but before its text is appended. */
  function Announce(s: Saved, span: Span): Saved {
    s.(replacements := s.replacements +
         (if span.changed
          then [Replacement(s.outputCursor, s.outputCursor + |span.data|, s.sourceCursor, s.sourceCursor + span.consumed)]
          else []),
       sourceCursor := s.sourceCursor + span.consumed,
       outputCursor := s.outputCursor + |span.data|)
  }

  lemma SpanOutput(span: Span)
    requires span.WellFormed()
    ensures Output(span.Items()) == span.data && Consumed(span.Items()) == span.consumed
  {
    if span.changed {
      assert span.Items()[..0] == [];
    } else {
      OutputPlains(span.data);
      ConsumedPlains(span.data);
    }
  }

  lemma AlignedAnnounce(c: Setup, s: Saved, items: seq<Item>, span: Span)
    requires Aligned(c, s, items, |Output(items)|) && span.WellFormed()
    ensures Output(items + span.Items()) == Output(items) + span.data
    ensures Aligned(c, Announce(s, span), items + span.Items(), |Output(items)|)
  {
    hide Output, Consumed, Plains, Replacements;
    var more := span.Items();
    SpanOutput(span);
    OutputConcat(items, more);
    ConsumedConcat(items, more);
    var left := s.byteStart - c.origin;
    SplitConcat(Output(items), span.data, left);
    assert (Output(items) + span.data)[left..|Output(items)|] == Output(items)[left..];
    WindowAnnounce(c, s, items, span);
  }

  lemma WindowAnnounce(c: Setup, s: Saved, items: seq<Item>, span: Span)
    requires Aligned(c, s, items, |Output(items)|) && span.WellFormed()
    ensures Window(c.origin, items + span.Items(), s.byteStart, s.shift, Announce(s, span).replacements)
  {
    hide Output, Consumed, Plains, Replacements;
    var rs := Replacements(c.origin, items);
    var k := Passed(rs, s.byteStart);
    if span.changed {
      ReplacementsSnoc(c.origin, items, Redacted(span.consumed));
      var r := Next(c.origin, items, span.consumed);
      assert Announce(s, span).replacements == s.replacements + [r];
      PassedUnique(rs + [r], s.byteStart, k);
      SplitConcat(rs, [r], k);
    } else {
      PlainsAddNone(c.origin, items, span.data);
      assert s.replacements + [] == s.replacements;
    }
  }

  lemma AlignedIgnoresParser(c: Setup, s: Saved, p: Parse, items: seq<Item>, avail: nat)
    ensures Aligned(c, s.(redactor := p), items, avail) == Aligned(c, s, items, avail)
  {
    hide Window, Output, Newlines, Consumed;
  }

  lemma {:induction false} SpanCounts(spans: seq<Span>, k: nat)
    requires forall i :: 0 <= i < |spans| ==> spans[i].WellFormed()
    requires k < |SpanItems(spans)| && SpanItems(spans)[k].Redacted?
    ensures SpanItems(spans)[k].count > 0
  {
    var init := spans[..|spans| - 1];
    if k < |SpanItems(init)| {
      SpanCounts(init, k);
    }
  }

  /** Input fed after `input` continues the same redaction. */
  lemma RefinesFeed(input: seq<byte>, items: seq<Item>, before: Parse, block: seq<byte>, more: seq<Item>, after: Parse)
    requires Refines(false, Parse(input, false, 0), items, before)
    requires Refines(false, before.Then(block), more, after)
    ensures Refines(false, Parse(input + block, false, 0), items + more, after)
  {
    hide Rest;
    forall f: seq<byte>
      ensures Rest(Parse(input + block, false, 0).Then(f)) == (items + more) + Rest(after.Then(f))
    {
      Assoc(input, block, f);
      Assoc(before.pending, block, f);
      assert Parse(input + block, false, 0).Then(f) == Parse(input, false, 0).Then(block + f);
      assert before.Then(block).Then(f) == before.Then(block + f);
      Assoc(items, more, Rest(after.Then(f)));
    }
  }

  /** Once a chunk is rejected, every continuation of the input is rejected. */
  lemma RejectsAll(c: Setup, input: seq<byte>, items: seq<Item>, rest: seq<Item>, after: Parse, f: seq<byte>)
    requires Refines(false, Parse(input, false, 0), items + rest, after)
    requires !Run(c, items, 0, 0).ok
    ensures Whole(c, input + f).Failure?
  {
    hide Run, Rest;
    assert Rest(Parse(input, false, 0).Then(f)) == (items + rest) + Rest(after.Then(f));
    WholeText(input + f);
    Assoc(items, rest, Rest(after.Then(f)));
    RejectionStays(c, items, rest + Rest(after.Then(f)));
  }

  lemma RejectsEvery(c: Setup, input: seq<byte>, items: seq<Item>, rest: seq<Item>, after: Parse)
    requires Refines(false, Parse(input, false, 0), items + rest, after)
    requires !Run(c, items, 0, 0).ok
    ensures forall f: seq<byte> :: Whole(c, input + f).Failure?
  {
    hide Run, Whole, Refines;
    forall f: seq<byte> ensures Whole(c, input + f).Failure? {
      RejectsAll(c, input, items, rest, after, f);
    }
  }

  lemma SpansAdd(items: seq<Item>, spans: seq<Span>)
    requires forall k :: 0 <= k < |items| && items[k].Redacted? ==> items[k].count > 0
    requires forall i :: 0 <= i < |spans| ==> spans[i].WellFormed()
    ensures var all := items + SpanItems(spans);
            forall k :: 0 <= k < |all| && all[k].Redacted? ==> all[k].count > 0
    ensures Consumed(items + SpanItems(spans)) == Consumed(items) + SpanBytes(spans)
  {
    hide SpanItems, Consumed, SpanBytes;
    var all := items + SpanItems(spans);
    forall k | 0 <= k < |all| && all[k].Redacted? ensures all[k].count > 0 {
      if k >= |items| {
        SpanCounts(spans, k - |items|);
      }
    }
    ConsumedConcat(items, SpanItems(spans));
    SpanConsumed(spans);
  }

  lemma {:induction false} SpanConsumed(spans: seq<Span>)
    requires forall i :: 0 <= i < |spans| ==> spans[i].WellFormed()
    ensures Consumed(SpanItems(spans)) == SpanBytes(spans)
  {
    if spans != [] {
      var init, s := spans[..|spans| - 1], spans[|spans| - 1];
      SpanConsumed(init);
      SpanOutput(s);
      ConsumedConcat(SpanItems(init), s.Items());
    }
  }

  lemma TextAtEnd(input: seq<byte>, items: seq<Item>, p: Parse)
    requires Refines(false, Parse(input, false, 0), items, p)
    ensures Text(input) == items + Rest(p)
  {
    hide Rest;
    WholeText(input);
    assert Parse(input, false, 0).Then([]) == Parse(input, false, 0) && p.Then([]) == p;
    assert Rest(Parse(input, false, 0).Then([])) == items + Rest(p.Then([]));
  }

  lemma RejectsWhole(c: Setup, input: seq<byte>, items: seq<Item>, rest: seq<Item>)
    requires Text(input) == items + rest && !Run(c, items, 0, 0).ok
    ensures Whole(c, input).Failure?
  {
    hide Run, Text;
    RejectionStays(c, items, rest);
  }

  /** With all output pending, what is left becomes the last chunk of the whole pass. */
  lemma WholeEnds(c: Setup, input: seq<byte>, s: Saved, items: seq<Item>, done: seq<Chunk>)
    requires Text(input) == items && Aligned(c, s, items, |Output(items)|) && |s.pending| <= s.target
    requires Continues(c, items, done, s.byteStart - c.origin)
    ensures var left := s.byteStart - c.origin;
            Whole(c, input) == if s.pending == [] then Success(done)
                               else if !Acceptable(s.pending[..|s.pending|]) then Failure
                               else Success(done + [Record(c, items, left, |Output(items)|, |done|)])
  {
    hide Run, Text, Output, Continues, Record, Acceptable, Window;
    ContinuesEnd(c, items, done, s.byteStart - c.origin);
    assert s.pending[..|s.pending|] == s.pending == Output(items)[s.byteStart - c.origin..];
  }

  lemma WholeText(input: seq<byte>)
    ensures Rest(Parse(input, false, 0)) == Text(input)
  {
  }

  lemma SpanPrefix(spans: seq<Span>, k: nat)
    requires k <= |spans|
    ensures SpanItems(spans) == SpanItems(spans[..k]) + SpanItems(spans[k..])
    ensures k < |spans| ==> SpanItems(spans[..k + 1]) == SpanItems(spans[..k]) + spans[k].Items()
  {
    hide SpanItems;
    assert spans == spans[..k] + spans[k..];
    SpansConcat(spans[..k], spans[k..]);
    if k < |spans| {
      assert spans[..k + 1] == spans[..k] + [spans[k]];
      SpanSnoc(spans[..k], spans[k]);
    }
  }

  lemma AbsorbStart(c: Setup, s: Saved, items: seq<Item>, done: seq<Chunk>, span: Span)
    requires Aligned(c, s, items, |Output(items)|) && |s.pending| <= s.target && span.WellFormed()
    requires Continues(c, items, done, s.byteStart - c.origin)
    ensures Output(items + span.Items()) == Output(items) + span.data
    ensures Aligned(c, Announce(s, span), items + span.Items(), |Output(items)|)
    ensures !span.changed ==> Announce(s, span).replacements == s.replacements
    ensures Continues(c, items + span.Items(), done, s.byteStart - c.origin)
    ensures c.target >= 4 && c.target == s.target
  {
    hide Output, Run, Window;
    ContinuesEnd(c, items, done, s.byteStart - c.origin);
    ContinuesExtend(c, items, span.Items(), done, s.byteStart - c.origin);
    AlignedAnnounce(c, s, items, span);
  }

  lemma AppendStep(c: Setup, s: Saved, items: seq<Item>, data: seq<byte>, base: nat, from: nat, to: nat)
    requires Aligned(c, s, items, base + from) && from <= to <= |data|
    requires base <= |Output(items)| && Output(items)[base..] == data
    ensures Aligned(c, s.(pending := s.pending + data[from..to]), items, base + to)
    ensures c.target >= 4 && c.target == s.target
  {
    hide Output, Window;
    var o, left := Output(items), s.byteStart - c.origin;
    assert data[from..to] == o[base + from..base + to];
    assert o[left..base + to] == o[left..base + from] + o[base + from..base + to];
  }

  lemma AlignedShape(c: Setup, s: Saved, items: seq<Item>, avail: nat)
    requires Aligned(c, s, items, avail)
    ensures |s.pending| == avail - (s.byteStart - c.origin) && s.target == c.target
    ensures c.origin <= s.byteStart && avail <= |Output(items)|
    ensures Window(c.origin, items, s.byteStart, s.shift, s.replacements)
  {
  }

  lemma SliceFacts(o: seq<byte>, left: nat, end: nat, avail: nat)
    requires left + end <= avail <= |o|
    ensures o[left..avail][..end] == o[left..left + end]
    ensures o[left..avail][end..] == o[left + end..avail]
    ensures Newlines(o[..left + end]) == Newlines(o[..left]) + Newlines(o[left..left + end])
  {
    assert o[..left] + o[left..left + end] == o[..left + end];
    NewlinesConcat(o[..left], o[left..left + end]);
  }

  /** What `_emit` computes from its fields is the record of the whole pass, and the fields
      it leaves behind are aligned again. */
  lemma EmitStep(c: Setup, s: Saved, items: seq<Item>, avail: nat, end: nat, shift: int, window: seq<Replacement>)
    requires Aligned(c, s, items, avail) && end <= |s.pending|
    requires Window(c.origin, items, s.byteStart + end, shift, window)
    ensures s.byteStart + end - c.origin <= |Output(items)|
    ensures Aligned(c, s.(pending := s.pending[end..], byteStart := s.byteStart + end,
                          lineStart := s.lineStart + Newlines(s.pending[..end]), ordinal := s.ordinal + 1,
                          shift := shift, replacements := window), items, avail)
    ensures Record(c, items, s.byteStart - c.origin, s.byteStart + end - c.origin, s.ordinal)
            == Chunk(s.ordinal, s.pending[..end],
                     Walk(s.replacements, s.shift, s.byteStart, false),
                     Walk(s.replacements, s.shift, s.byteStart + end, true),
                     s.lineStart, LineEnd(s.lineStart, s.pending[..end]),
                     Overlapping(s.replacements, s.byteStart, s.byteStart + end))
  {
    hide Output, Walk, SourceAt, Touches, Window, Overlapping, Newlines;
    SliceFacts(Output(items), s.byteStart - c.origin, end, avail);
    WindowCorrect(c.origin, items, s.byteStart, s.shift, s.replacements, s.byteStart, s.byteStart, false);
    WindowCorrect(c.origin, items, s.byteStart, s.shift, s.replacements, s.byteStart, s.byteStart + end, true);
  }

  /** The cut made on pending text is the cut the whole pass makes. */
  lemma DrainStep(c: Setup, s: Saved, items: seq<Item>, done: seq<Chunk>, avail: nat)
    requires Aligned(c, s, items, avail) && |s.pending| > s.target
    requires Continues(c, items, done, s.byteStart - c.origin)
    ensures s.target <= |s.pending|
    ensures var left := s.byteStart - c.origin;
            var end := CutLength(s.pending, s.target);
            && left + end <= |Output(items)|
            && (Acceptable(s.pending[..end]) ==>
                  end > 0 && Continues(c, items, done + [Record(c, items, left, left + end, |done|)], left + end))
            && (!Acceptable(s.pending[..end]) ==> !Run(c, items, 0, 0).ok)
  {
    hide Output, CutLength, WellFormed, Record, Run, Continues, Window;
    var o, left := Output(items), s.byteStart - c.origin;
    assert o[left..] == s.pending + o[avail..];
    CutStable(s.pending, o[avail..], s.target);
    var end := CutLength(s.pending, s.target);
    assert s.pending[..end] == o[left..left + end];
    ContinuesStep(c, items, done, left, left + end);
  }
}
