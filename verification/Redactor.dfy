/** The streaming data-URL parser (`workers/base64_redaction.py`). */
module Redactors {
  import opened Bytes
  import opened Seqs
  import opened Wrappers
  import opened DataUrl
  import opened Redaction
  import Segments

  class Redactor {
    var pending: seq<byte>
    var payload: bool
    var removed: nat
    var finished: bool

    ghost function State(): Parse reads this { Parse(pending, payload, removed) }

    constructor ()
      ensures State() == Parse([], false, 0) && !finished
    {
      pending, payload, removed, finished := [], false, 0, false;
    }

    constructor Restore(p: Parse)
      requires ParseRestorable(p)
      ensures State() == p && !finished
    {
      pending, payload, removed, finished := p.pending, p.payload, p.removed, false;
    }

    method Snapshot() returns (r: Result<Parse>)
      ensures r.Success? <==> !finished && |pending| <= HEADER_LIMIT + 6
      ensures r.Success? ==> r.value == State()
    {
      if finished || |pending| > HEADER_LIMIT + 6 {
        return Failure;
      }
      return Success(Parse(pending, payload, removed));
    }

    /** The part of the loop body inside a payload; `stop` ends the loop. */
    method InPayload(eof: bool) returns (out: seq<Span>, stop: bool)
      requires !finished && (!payload ==> removed == 0)
      requires payload && (pending != [] || eof)
      modifies this
      ensures !finished && (!payload ==> removed == 0)
      ensures forall i :: 0 <= i < |out| ==> out[i].WellFormed()
      ensures Refines(eof, old(State()), SpanItems(out), State())
      ensures SpanBytes(out) + |pending| + removed == old(|pending| + removed)
      ensures stop && !eof ==> Waiting(State())
      ensures stop && eof ==> State() == Parse([], false, 0)
      ensures !stop ==> |pending| < old(|pending|) || (|pending| == old(|pending|) && !payload)
    {
      hide Refines, Text, Payload, PayloadLength, SpanItems, SpanBytes;
      EmptySpans();
      out, stop := [], false;
      var n := PayloadLength(pending);
      if n > 0 {
        PayloadStep(eof, pending, removed);
        removed := removed + n;
        pending := pending[n..];
        return [], pending == [] && !eof;
      }
      if !eof && Unfinished(pending) {
        RefinesNothing(eof, State());
        return [], true;
      }
      PayloadEnd(eof, pending, removed);
      if removed > 0 {
        out := [Span(MARKER, removed, true)];
        OneSpan(out[0]);
      }
      payload, removed := false, 0;
    }

    /** The part of the loop body outside payloads: at most two spans. */
    method InText(eof: bool) returns (out: seq<Span>, stop: bool)
      requires !finished && (!payload ==> removed == 0)
      requires !payload && pending != []
      modifies this
      ensures !finished && (!payload ==> removed == 0)
      ensures forall i :: 0 <= i < |out| ==> out[i].WellFormed()
      ensures Refines(eof, old(State()), SpanItems(out), State())
      ensures SpanBytes(out) + |pending| + removed == old(|pending| + removed)
      ensures stop && !eof ==> Waiting(State())
      ensures stop && eof ==> State() == Parse([], false, 0)
      ensures !stop ==> |pending| < old(|pending|)
    {
      hide Refines, Text, Payload, Plains, FindStart, FindComma, IsHeader, HeaderLength, SpanItems, SpanBytes;
      EmptySpans();
      out, stop := [], false;
      ghost var before := State();
      var start := FindStart(pending, 0);
      if start < 0 {
        var end := if eof then |pending| else if |pending| > 4 then |pending| - 4 else 0;
        SkipStep(eof, pending, end);
        if end > 0 {
          out := [Span(pending[..end], end, false)];
          OneSpan(out[0]);
        }
        NoStartLater(pending, end);
        pending := pending[end..];
        return out, true;
      }
      SkipStep(eof, pending, start);
      if start > 0 {
        out := [Span(pending[..start], start, false)];
        OneSpan(out[0]);
      }
      pending := pending[start..];
      ghost var middle := State();
      var comma := FindComma(pending, 0, HEADER_LIMIT);
      if comma < 0 && |pending| < HEADER_LIMIT && !eof {
        return out, true;
      }
      HeaderStep(eof, pending);
      HeaderDecision(pending);
      var accepted := comma >= 0 && IsHeader(pending[..comma + 1]);
      var end := if accepted then comma + 1 else 5;
      var span := Span(pending[..end], end, false);
      pending := pending[end..];
      payload := accepted;
      RefinesTrans(eof, before, SpanItems(out), middle, span.Items(), State());
      SpanSnoc(out, span);
      out := out + [span];
    }

    /** `None` is the end of the input. */
    method Feed(block: Option<seq<byte>>) returns (r: Result<seq<Span>>)
      requires !payload ==> removed == 0
      modifies this
      ensures r.Failure? <==> old(finished) || (block.Some? && |block.value| > 65536)
      ensures r.Failure? ==> State() == old(State()) && finished == old(finished)
      ensures r.Success? ==> finished == block.None?
      ensures r.Success? ==> forall i :: 0 <= i < |r.value| ==> r.value[i].WellFormed()
      ensures r.Success? && block.Some? ==>
                && Refines(false, old(State()).Then(block.value), SpanItems(r.value), State())
                && Waiting(State())
                && SpanBytes(r.value) + |pending| + removed == old(|pending| + removed) + |block.value|
      ensures r.Success? && block.None? ==>
                && SpanItems(r.value) == Rest(old(State()))
                && State() == Parse([], false, 0)
                && SpanBytes(r.value) == old(|pending| + removed)
    {
      hide Refines, Rest, SpanItems, SpanBytes;
      if finished {
        return Failure;
      }
      var eof := block.None?;
      if block.Some? {
        if |block.value| > 65536 {
          return Failure;
        }
        pending := pending + block.value;
      }
      ghost var begin := State();
      var out: seq<Span> := [];
      EmptySpans();
      RefinesNothing(eof, begin);
      var stop := false;
      while !stop && (pending != [] || (eof && payload))
        invariant !finished
        invariant !payload ==> removed == 0
        invariant forall i :: 0 <= i < |out| ==> out[i].WellFormed()
        invariant Refines(eof, begin, SpanItems(out), State())
        invariant SpanBytes(out) + |pending| + removed == |begin.pending| + begin.removed
        invariant stop && !eof ==> Waiting(State())
        invariant stop && eof ==> State() == Parse([], false, 0)
        decreases !stop, |pending|, payload
      {
        ghost var before := State();
        var spans;
        if payload {
          spans, stop := InPayload(eof);
        } else {
          spans, stop := InText(eof);
        }
        RefinesTrans(eof, begin, SpanItems(out), before, SpanItems(spans), State());
        SpansConcat(out, spans);
        out := out + spans;
      }
      if eof {
        finished := true;
        RefinesAtEnd(begin, SpanItems(out));
      }
      return Success(out);
    }
  }

  /** `redacted_spans`: however the input is cut into blocks, of whatever size, the spans are
      those of the whole input and account for all of it. */
  method RedactedSpans(blocks: seq<seq<byte>>) returns (spans: seq<Span>)
    ensures SpanItems(spans) == Text(Segments.Flat(blocks))
    ensures SpanBytes(spans) == |Segments.Flat(blocks)|
    ensures forall i :: 0 <= i < |spans| ==> spans[i].WellFormed()
  {
    hide Refines, Rest, Text, SpanItems, SpanBytes, FindStart, FindComma, TokenLength, Segments.Flat;
    var redactor := new Redactor();
    spans := [];
    ghost var fed: seq<byte> := [];
    EmptySpans();
    assert redactor.State().Then([]) == redactor.State();
    RefinesNothing(false, redactor.State());
    assert blocks[..0] == [];
    Segments.FlatEmpty<byte>();
    for k := 0 to |blocks|
      invariant fresh(redactor) && !redactor.finished && (!redactor.payload ==> redactor.removed == 0)
      invariant fed == Segments.Flat(blocks[..k])
      invariant Refines(false, Parse([], false, 0).Then(fed), SpanItems(spans), redactor.State())
      invariant SpanBytes(spans) + |redactor.pending| + redactor.removed == |fed|
      invariant forall i :: 0 <= i < |spans| ==> spans[i].WellFormed()
    {
      var block := blocks[k];
      ghost var base := fed;
      var offset := 0;
      assert base + block[..0] == base;
      while offset < |block|
        invariant 0 <= offset <= |block| && fed == base + block[..offset]
        invariant fresh(redactor) && !redactor.finished && (!redactor.payload ==> redactor.removed == 0)
        invariant Refines(false, Parse([], false, 0).Then(fed), SpanItems(spans), redactor.State())
        invariant SpanBytes(spans) + |redactor.pending| + redactor.removed == |fed|
        invariant forall i :: 0 <= i < |spans| ==> spans[i].WellFormed()
      {
        var end := if offset + 65536 < |block| then offset + 65536 else |block|;
        var piece := block[offset..end];
        RefinesThen(Parse([], false, 0).Then(fed), SpanItems(spans), redactor.State(), piece);
        ghost var before := redactor.State();
        var out := redactor.Feed(Some(piece));
        Assoc([], fed, piece);
        RefinesTrans(false, Parse([], false, 0).Then(fed).Then(piece), SpanItems(spans), before.Then(piece), SpanItems(out.value), redactor.State());
        SpansConcat(spans, out.value);
        assert block[..end] == block[..offset] + piece;
        Assoc(base, block[..offset], piece);
        spans, fed, offset := spans + out.value, fed + piece, end;
      }
      assert block[..offset] == block;
      assert blocks[..k + 1] == blocks[..k] + [block];
      Segments.FlatPush(blocks[..k], block);
    }
    assert blocks[..|blocks|] == blocks;
    SpansOfWhole(fed, SpanItems(spans), redactor.State());
    var out := redactor.Feed(None);
    SpansConcat(spans, out.value);
    spans := spans + out.value;
  }

}
