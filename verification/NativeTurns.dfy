/** Text extraction in checkpointed turns, and its reuse by appended versions
    (`workers/native_segments.py`, `workers/append_segments.py`). */
module NativeTurns {
  import opened Bytes
  import opened Seqs
  import opened Wrappers
  import opened DataUrl
  import opened Redaction
  import opened Chunking
  import opened ChunkFacts
  import opened StreamStates
  import opened TextStreams
  import opened Segments

  const NATIVE := Setup(6000, 0, 1)
  const SOURCE_TURN_BYTES := 4 * 1024 * 1024
  const BLOCK_BYTES := 65536

  /** What a turn saves. The digest state is represented by the bytes it has absorbed. */
  datatype Checkpoint = Checkpoint(inputOffset: nat, parser: Saved, pending: seq<Chunk>, digest: seq<byte>)

  /** The durable state of one extraction: its input cursor and checkpoint, its member
      segments, and, once complete, the checkpoint taken before the end of the input with
      the number of chunks then in segments. */
  datatype Job = Job(cursor: nat, checkpoint: Option<Checkpoint>, segments: seq<seq<Chunk>>,
                     complete: bool, appendCheckpoint: Option<Checkpoint>, appendCount: nat)

  const FRESH := Job(0, None, [], false, None, 0)

  // ----- what durable state means -----

  ghost predicate Summary(size: Chunk -> nat, x: seq<byte>, k: Checkpoint, segments: seq<seq<Chunk>>,
                          items: seq<Item>, done: seq<Chunk>) {
    && Represents(NATIVE, k.parser, x, items, done)
    && Flush(size, done) == Success(Flushed(segments, k.pending))
  }

  /** Checkpoint and segments stand for having processed exactly the input `x`. */
  ghost predicate Faithful(size: Chunk -> nat, x: seq<byte>, k: Checkpoint, segments: seq<seq<Chunk>>) {
    && k.inputOffset == |x| && k.digest == x
    && exists items, done :: Summary(size, x, k, segments, items, done)
  }

  /** What one uninterrupted pass over the complete bytes produces. */
  function FromScratch(size: Chunk -> nat, bytes: seq<byte>): Result<seq<seq<Chunk>>> {
    match Whole(NATIVE, bytes)
    case Failure => Failure
    case Success(chunks) => Segmented(size, chunks)
  }

  ghost predicate Sound(size: Chunk -> nat, bytes: seq<byte>, job: Job) {
    && job.cursor <= |bytes|
    && (if job.complete
        then
          && FromScratch(size, bytes) == Success(job.segments)
          && job.appendCheckpoint.Some? && job.appendCount <= |Flat(job.segments)|
          && exists m: nat :: Reuses(size, bytes, job, m)
        else
          match job.checkpoint
          case None => job.cursor == 0 && job.segments == []
          case Some(k) => Faithful(size, bytes[..job.cursor], k, job.segments))
  }

  /** The first `m` segments of a complete extraction were there before its end was. */
  ghost predicate Reuses(size: Chunk -> nat, bytes: seq<byte>, job: Job, m: nat) {
    && m <= |job.segments| && job.appendCheckpoint.Some?
    && job.appendCount == |Flat(job.segments[..m])|
    && Faithful(size, bytes, job.appendCheckpoint.value, job.segments[..m])
  }

  // ----- restoring -----

  /** Every check that loading a checkpoint makes. */
  predicate Loadable(size: Chunk -> nat, job: Job, k: Checkpoint) {
    var count := |Flat(job.segments)|;
    && k.inputOffset == job.cursor
    && Restorable(k.parser, NATIVE.target)
    && |k.pending| < SEGMENT_CHUNKS && Total(size, k.pending) <= SEGMENT_BYTES
    && k.parser.ordinal == count + |k.pending|
    && (forall i :: 0 <= i < |k.pending| ==> k.pending[i].ordinal == count + i)
    && k.parser.sourceCursor + |k.parser.redactor.pending| + k.parser.redactor.removed == job.cursor
  }

  /** Every checkpoint that stands for its input passes every check. */
  lemma FaithfulLoadable(size: Chunk -> nat, x: seq<byte>, job: Job, k: Checkpoint)
    requires Faithful(size, x, k, job.segments) && job.cursor == |x|
    ensures Loadable(size, job, k)
  {
    hide Represents, Flush, Restorable;
    var items, done :| Summary(size, x, k, job.segments, items, done);
    RepresentsRestorable(NATIVE, k.parser, x, items, done);
    FlushFaithful(size, done);
    RepresentsOrdinals(k.parser, x, items, done);
    var count := |Flat(job.segments)|;
    forall i | 0 <= i < |k.pending| ensures k.pending[i].ordinal == count + i {
      assert done[count + i] == k.pending[i];
    }
  }

  lemma RepresentsOrdinals(s: Saved, x: seq<byte>, items: seq<Item>, done: seq<Chunk>)
    requires Represents(NATIVE, s, x, items, done)
    ensures s.ordinal == |done| && forall i :: 0 <= i < |done| ==> done[i].ordinal == i
  {
    hide Run, Output, Aligned, Refines, Waiting, Tiles, SourceAt, Touches, StartOf, Acceptable;
    RunTiles(NATIVE, items, 0, 0);
    forall i | 0 <= i < |done| ensures done[i].ordinal == i {
      TileAt(NATIVE, items, done, 0, s.byteStart, 0, i);
    }
  }

  // ----- one turn -----

  /** How far a turn that starts at `cursor` may read. */
  function TurnEnd(cursor: nat, size: nat): nat {
    if cursor + SOURCE_TURN_BYTES < size then cursor + SOURCE_TURN_BYTES else size
  }

  /** The blocks that reading the source range of a turn may deliver, however it is split. */
  ghost predicate Readable(bytes: seq<byte>, cursor: nat, blocks: seq<seq<byte>>) {
    && cursor <= |bytes|
    && Flat(blocks) == bytes[cursor..TurnEnd(cursor, |bytes|)]
    && forall i :: 0 <= i < |blocks| ==> 0 < |blocks[i]| <= BLOCK_BYTES
  }

  /** Input that an uninterrupted pass rejects too, or whose hash is not the captured one. */
  ghost predicate Rejected(size: Chunk -> nat, bytes: seq<byte>, hash: seq<byte> -> int, expected: int) {
    FromScratch(size, bytes).Failure? || hash(bytes) != expected
  }

  /** The loop state of a turn: what is open in memory stands for `x`. */
  ghost predicate Open(size: Chunk -> nat, x: seq<byte>, stream: TextStream, pending: seq<Chunk>, segments: seq<seq<Chunk>>)
    reads stream, stream.redactor
  {
    && stream.Valid() && stream.c == NATIVE && stream.input == x
    && Flush(size, stream.done) == Success(Flushed(segments, pending))
  }

  lemma RejectedEarly(size: Chunk -> nat, bytes: seq<byte>, cursor: nat)
    requires cursor <= |bytes|
    requires forall f: seq<byte> :: Whole(NATIVE, bytes[..cursor] + f).Failure?
    ensures FromScratch(size, bytes).Failure?
  {
    hide Whole;
    assert bytes[..cursor] + bytes[cursor..] == bytes;
  }

  /** Chunks emitted before the end stay in front of the complete list. */
  lemma DoneIsPrefix(s: Saved, x: seq<byte>, items: seq<Item>, done: seq<Chunk>, f: seq<byte>)
    requires Represents(NATIVE, s, x, items, done) && Whole(NATIVE, x + f).Success?
    ensures done <= Whole(NATIVE, x + f).value
  {
    hide Run, Output, Rest, Aligned, Waiting, Record, Acceptable;
    assert Rest(Parse(x, false, 0).Then(f)) == items + Rest(s.redactor.Then(f));
    WholeText(x + f);
    RunExtend(NATIVE, items, Rest(s.redactor.Then(f)), 0, 0);
  }

  /** Records that cannot be flushed cannot be segmented in one pass either. */
  lemma RejectedByFlush(size: Chunk -> nat, bytes: seq<byte>, s: Saved, cursor: nat, items: seq<Item>, done: seq<Chunk>)
    requires cursor <= |bytes| && Represents(NATIVE, s, bytes[..cursor], items, done)
    requires Flush(size, done).Failure?
    ensures FromScratch(size, bytes).Failure?
  {
    hide Represents, Whole, Flush, Segmented;
    assert bytes[..cursor] + bytes[cursor..] == bytes;
    if Whole(NATIVE, bytes).Success? {
      DoneIsPrefix(s, bytes[..cursor], items, done, bytes[cursor..]);
      var chunks := Whole(NATIVE, bytes).value;
      assert chunks == done + chunks[|done|..];
      FlushThenSegments(size, done, chunks[|done|..]);
    }
  }

  /** What `load_native_state` accepts. */
  predicate Loads(size: Chunk -> nat, job: Job) {
    match job.checkpoint
    case None => job.cursor == 0 && |Flat(job.segments)| == 0
    case Some(k) => Loadable(size, job, k)
  }

  /** Nothing that a turn leaves behind is rejected. */
  lemma SoundLoads(size: Chunk -> nat, bytes: seq<byte>, job: Job)
    requires Sound(size, bytes, job) && !job.complete
    ensures Loads(size, job)
  {
    hide Faithful, Loadable;
    if job.checkpoint.Some? {
      FaithfulLoadable(size, bytes[..job.cursor], job, job.checkpoint.value);
    }
  }

  /** `load_native_state`: rejects exactly what fails a check. A checkpoint that passes them all
      stands for its input, since it is found by its content hash; it is resumed exactly. */
  method Load(job: Job, size: Chunk -> nat, ghost bytes: seq<byte>)
    returns (r: Result<TextStream>, pending: seq<Chunk>, digest: seq<byte>)
    requires !job.complete && (Loads(size, job) ==> Sound(size, bytes, job))
    ensures r.Success? <==> Loads(size, job)
    ensures r.Success? ==> job.cursor <= |bytes| && fresh(r.value) && fresh(r.value.redactor)
    ensures r.Success? ==> Open(size, bytes[..job.cursor], r.value, pending, job.segments) && digest == bytes[..job.cursor]
  {
    hide Represents, Flush, TextStream.Valid, Loadable;
    if job.checkpoint.None? {
      if job.cursor != 0 || |Flat(job.segments)| != 0 {
        return Failure, [], [];
      }
      var stream := new TextStream(6000, 0, 1);
      FlushNothing(size);
      assert bytes[..0] == [];
      return Success(stream), [], [];
    }
    var k := job.checkpoint.value;
    if !Loadable(size, job, k) {
      return Failure, [], [];
    }
    ghost var x := bytes[..job.cursor];
    ghost var items, done :| Summary(size, x, k, job.segments, items, done);
    RepresentsRestorable(NATIVE, k.parser, x, items, done);
    var stream := new TextStream.Restore(k.parser, NATIVE, x, items, done);
    return Success(stream), k.pending, k.digest;
  }

  lemma FlushNothing(size: Chunk -> nat)
    ensures Flush(size, []) == Success(Flushed([], []))
  {
  }

  /** One block of the loop: digest, feed, extend, flush. */
  method ReadBlock(stream: TextStream, pending: seq<Chunk>, segments: seq<seq<Chunk>>, block: seq<byte>,
                   size: Chunk -> nat, ghost bytes: seq<byte>, ghost cursor: nat)
    returns (r: Result<Flushed<Chunk>>)
    requires cursor + |block| <= |bytes| && Open(size, bytes[..cursor], stream, pending, segments)
    requires bytes[cursor..cursor + |block|] == block && |block| <= BLOCK_BYTES
    modifies stream, stream.redactor
    ensures r.Success? ==> Open(size, bytes[..cursor + |block|], stream, r.value.rest, segments + r.value.segments)
    ensures r.Failure? ==> FromScratch(size, bytes).Failure?
  {
    hide Represents, Flush, Whole, FromScratch, Segmented;
    ghost var done := stream.done;
    var chunks := stream.Feed(block);
    assert bytes[..cursor] + block == bytes[..cursor + |block|];
    if chunks.Failure? {
      RejectedEarly(size, bytes, cursor + |block|);
      return Failure;
    }
    FlushThenFlush(size, done, chunks.value);
    r := FlushRecords(pending + chunks.value, size, false);
    if r.Failure? {
      RejectedByFlush(size, bytes, stream.State(), cursor + |block|, stream.items, stream.done);
    }
  }

  /** Blocks a turn reads before it sees the stop signal after block `stop`. */
  function Taken(blocks: seq<seq<byte>>, stop: nat): (r: seq<seq<byte>>) {
    if stop < |blocks| then blocks[..stop + 1] else blocks
  }

  /** The loop over source blocks; it ends early after block `stop`. */
  method ReadBlocks(stream: TextStream, first: seq<Chunk>, blocks: seq<seq<byte>>, stop: nat,
                    absorbed: seq<byte>, size: Chunk -> nat, ghost bytes: seq<byte>, job: Job)
    returns (r: Result<Flushed<Chunk>>, cursor: nat, digest: seq<byte>)
    requires Readable(bytes, job.cursor, blocks) && Open(size, bytes[..job.cursor], stream, first, job.segments)
    requires absorbed == bytes[..job.cursor]
    modifies stream, stream.redactor
    ensures r.Failure? ==> FromScratch(size, bytes).Failure?
    ensures r.Success? ==>
              && cursor == job.cursor + |Flat(Taken(blocks, stop))| <= |bytes| && digest == bytes[..cursor]
              && Open(size, bytes[..cursor], stream, r.value.rest, job.segments + r.value.segments)
  {
    hide Open, FromScratch, Flat;
    var pending, prepared: seq<seq<Chunk>> := first, [];
    cursor, digest := job.cursor, absorbed;
    var i := 0;
    assert blocks[..0] == [] && job.segments + prepared == job.segments;
    FlatEmpty<byte>();
    while i < |blocks|
      invariant 0 <= i <= |blocks| && (i > 0 ==> i <= stop)
      invariant cursor == job.cursor + |Flat(blocks[..i])| <= |bytes| && digest == bytes[..cursor]
      invariant Open(size, bytes[..cursor], stream, pending, job.segments + prepared)
    {
      FlatSlices(blocks, i);
      BlockAt(bytes, job.cursor, blocks, i);
      var f := ReadBlock(stream, pending, job.segments + prepared, blocks[i], size, bytes, cursor);
      if f.Failure? {
        return Failure, cursor, digest;
      }
      Assoc(job.segments, prepared, f.value.segments);
      pending, prepared := f.value.rest, prepared + f.value.segments;
      assert bytes[..cursor] + blocks[i] == bytes[..cursor + |blocks[i]|];
      digest := digest + blocks[i];
      cursor := cursor + |blocks[i]|;
      i := i + 1;
      if i - 1 == stop {
        return Success(Flushed(prepared, pending)), cursor, digest;
      }
    }
    assert blocks[..i] == blocks;
    return Success(Flushed(prepared, pending)), cursor, digest;
  }

  lemma BlockAt(bytes: seq<byte>, cursor: nat, blocks: seq<seq<byte>>, i: nat)
    requires Readable(bytes, cursor, blocks) && i < |blocks|
    ensures var at := cursor + |Flat(blocks[..i])|;
            at + |blocks[i]| <= |bytes| && bytes[at..at + |blocks[i]|] == blocks[i]
  {
    hide Flat;
    FlatSlices(blocks, i);
    var a, b := |Flat(blocks[..i])|, |Flat(blocks[..i + 1])|;
    SliceOfSlice(bytes, cursor, TurnEnd(cursor, |bytes|), a, b);
  }

  /** `transform_native_segments`: one turn from checkpoint to checkpoint. It fails only on
      input that an uninterrupted pass rejects too. */
  method TransformTurn(job: Job, bytes: seq<byte>, blocks: seq<seq<byte>>, stop: nat, size: Chunk -> nat,
                       hash: seq<byte> -> int, expected: int)
    returns (r: Result<Job>)
    requires Sound(size, bytes, job) && !job.complete && Readable(bytes, job.cursor, blocks)
    ensures r.Failure? ==> Rejected(size, bytes, hash, expected)
    ensures r.Success? ==>
              && Sound(size, bytes, r.value)
              && job.segments <= r.value.segments
              && r.value.cursor == job.cursor + |Flat(Taken(blocks, stop))|
              && (r.value.complete <==> r.value.cursor == |bytes|)
  {
    hide Sound, Represents, FromScratch, Flush, Taken, Flat, Readable, TextStream.Valid;
    SoundLoads(size, bytes, job);
    var stream, first, absorbed := Load(job, size, bytes);
    var f, cursor, digest := ReadBlocks(stream.value, first, blocks, stop, absorbed, size, bytes, job);
    if f.Failure? {
      return Failure;
    }
    var complete := cursor == |bytes|;
    assert complete ==> digest == bytes;
    if complete && hash(digest) != expected {
      return Failure;
    }
    var parser := stream.value.Snapshot();
    var checkpoint := Checkpoint(cursor, parser, f.value.rest, digest);
    var segments := job.segments + f.value.segments;
    ghost var done := stream.value.done;
    assert Summary(size, digest, checkpoint, segments, stream.value.items, done) by {
      OpenRepresents(size, digest, stream.value, f.value.rest, segments);
    }
    if !complete {
      SoundPartial(size, bytes, cursor, checkpoint, segments);
      return Success(Job(cursor, Some(checkpoint), segments, false, None, 0));
    }
    var tail := stream.value.Finish();
    if tail.Failure? {
      RejectedWhole(size, bytes);
      return Failure;
    }
    FlushThenSegments(size, done, tail.value);
    var g := FlushRecords(f.value.rest + tail.value, size, true);
    FromScratchWhole(size, bytes);
    if g.Failure? {
      return Failure;
    }
    var final := Job(cursor, Some(checkpoint), segments + g.value.segments, true, Some(checkpoint), |Flat(segments)|);
    SoundComplete(size, bytes, final, checkpoint, segments);
    return Success(final);
  }

  lemma OpenRepresents(size: Chunk -> nat, x: seq<byte>, stream: TextStream, pending: seq<Chunk>, segments: seq<seq<Chunk>>)
    requires Open(size, x, stream, pending, segments)
    ensures Represents(NATIVE, stream.State(), x, stream.items, stream.done)
    ensures Flush(size, stream.done) == Success(Flushed(segments, pending))
  {
    hide Represents, Flush;
  }

  lemma RejectedWhole(size: Chunk -> nat, bytes: seq<byte>)
    requires Whole(NATIVE, bytes).Failure?
    ensures FromScratch(size, bytes).Failure?
  {
    hide Whole;
  }

  lemma FromScratchWhole(size: Chunk -> nat, bytes: seq<byte>)
    requires Whole(NATIVE, bytes).Success?
    ensures FromScratch(size, bytes) == Segmented(size, Whole(NATIVE, bytes).value)
  {
    hide Whole, Segmented;
  }

  lemma SoundPartial(size: Chunk -> nat, bytes: seq<byte>, cursor: nat, k: Checkpoint, segments: seq<seq<Chunk>>)
    requires cursor <= |bytes| && Faithful(size, bytes[..cursor], k, segments)
    ensures Sound(size, bytes, Job(cursor, Some(k), segments, false, None, 0))
  {
    hide Faithful;
  }

  lemma SoundComplete(size: Chunk -> nat, bytes: seq<byte>, job: Job, k: Checkpoint, before: seq<seq<Chunk>>)
    requires job.complete && job.cursor == |bytes| && FromScratch(size, bytes) == Success(job.segments)
    requires job.appendCheckpoint == Some(k) && Faithful(size, bytes, k, before)
    requires before <= job.segments && job.appendCount == |Flat(before)|
    ensures Sound(size, bytes, job)
  {
    hide Faithful, FromScratch, Flat;
    var m := |before|;
    assert job.segments == job.segments[..m] + job.segments[m..] && job.segments[..m] == before;
    FlatConcat(before, job.segments[m..]);
    assert Reuses(size, bytes, job, m);
  }

  // ----- appended versions -----

  /** The member segments that lie wholly below `count`, as the append query selects them. */
  function Reusable(segments: seq<seq<Chunk>>, at: nat, count: nat): seq<seq<Chunk>> {
    if segments == [] then []
    else
      (if at < count && at + |segments[0]| <= count then [segments[0]] else [])
      + Reusable(segments[1..], at + |segments[0]|, count)
  }

  lemma {:induction false} ReusableNone(segments: seq<seq<Chunk>>, at: nat, count: nat)
    requires at >= count
    ensures Reusable(segments, at, count) == []
  {
    if segments != [] {
      ReusableNone(segments[1..], at + |segments[0]|, count);
    }
  }

  /** The query returns exactly the segments that were complete before the end of the input. */
  lemma {:induction false} ReusablePrefix(segments: seq<seq<Chunk>>, m: nat, at: nat)
    requires m <= |segments| && forall i :: 0 <= i < |segments| ==> |segments[i]| > 0
    ensures Reusable(segments, at, at + |Flat(segments[..m])|) == segments[..m]
    decreases m
  {
    if m == 0 {
      assert Flat(segments[..0]) == [];
      ReusableNone(segments, at, at);
    } else {
      assert segments[..m][1..] == segments[1..][..m - 1];
      ReusablePrefix(segments[1..], m - 1, at + |segments[0]|);
      assert segments[..m] == [segments[0]] + segments[1..][..m - 1];
    }
  }

  /** `seed_append`: start a new version from the checkpoint of the version it extends. */
  function Seed(previous: Job, size: nat): Job {
    Job(size, previous.appendCheckpoint, Reusable(previous.segments, 0, previous.appendCount), false, None, 0)
  }

  /** Reuse is sound for any extension of the old bytes, and the completeness check on the
      copied segments cannot fail. */
  lemma SeedSound(size: Chunk -> nat, before: seq<byte>, job: Job, bytes: seq<byte>)
    requires Sound(size, before, job) && job.complete && before <= bytes
    ensures Sound(size, bytes, Seed(job, |before|))
    ensures |Flat(Seed(job, |before|).segments)| == job.appendCount
  {
    hide Faithful, Whole, Segmented;
    var m: nat :| Reuses(size, before, job, m);
    SegmentsFaithful(size, Whole(NATIVE, before).value);
    ReusablePrefix(job.segments, m, 0);
    assert bytes[..|before|] == before;
  }

  // ----- whole histories -----

  /** Width of the next block: arbitrary, within what the reader may deliver. */
  function Width(range: seq<byte>, widths: seq<nat>): (n: nat)
    requires range != []
    ensures 0 < n <= |range| && n <= BLOCK_BYTES
  {
    var most := if |range| < BLOCK_BYTES then |range| else BLOCK_BYTES;
    if widths == [] || widths[0] > most then most else if widths[0] < 1 then 1 else widths[0]
  }

  /** Any split of a source range into blocks. */
  function Cut(range: seq<byte>, widths: seq<nat>): seq<seq<byte>>
    decreases |range|
  {
    if range == [] then []
    else
      var n := Width(range, widths);
      [range[..n]] + Cut(range[n..], if widths == [] then [] else widths[1..])
  }

  lemma {:induction false} CutReadable(range: seq<byte>, widths: seq<nat>)
    ensures Flat(Cut(range, widths)) == range
    ensures forall i :: 0 <= i < |Cut(range, widths)| ==> 0 < |Cut(range, widths)[i]| <= BLOCK_BYTES
    decreases |range|
  {
    if range != [] {
      hide Width;
      var n := Width(range, widths);
      var later := if widths == [] then [] else widths[1..];
      var rest := Cut(range[n..], later);
      CutReadable(range[n..], later);
      assert Cut(range, widths)[1..] == rest;
      assert range[..n] + range[n..] == range;
    }
  }

  /** What can happen to a file: a turn with any block split and any stop, which may crash
      before it commits; an appended version; a replaced version. */
  datatype Event = Turn(widths: seq<nat>, stop: nat, crash: bool) | Append(more: seq<byte>) | Replace(bytes: seq<byte>)

  /** What a history leaves: the bytes of the last version, how far they are read, and whether all
      of them are extracted. */
  datatype Outcome = Outcome(bytes: seq<byte>, cursor: nat, complete: bool)

  function After(o: Outcome, e: Event): Outcome {
    match e
    case Turn(widths, stop, crash) =>
      if o.complete || crash || o.cursor > |o.bytes| then o
      else
        var blocks := Cut(o.bytes[o.cursor..TurnEnd(o.cursor, |o.bytes|)], widths);
        var cursor := o.cursor + |Flat(Taken(blocks, stop))|;
        Outcome(o.bytes, cursor, cursor == |o.bytes|)
    case Append(more) => Outcome(o.bytes + more, if o.complete then |o.bytes| else 0, false)
    case Replace(bytes) => Outcome(bytes, 0, false)
  }

  function Outcomes(first: seq<byte>, events: seq<Event>): Outcome {
    if events == [] then Outcome(first, 0, false) else After(Outcomes(first, events[..|events| - 1]), events[|events| - 1])
  }

  /** The bytes of the last version: appends add to it, replacements start over. */
  lemma {:induction false} OutcomeBytes(first: seq<byte>, events: seq<Event>)
    ensures var o := Outcomes(first, events);
            o.cursor <= |o.bytes| && (o.complete ==> o.cursor == |o.bytes|)
            && (events != [] ==>
                  var before, e := Outcomes(first, events[..|events| - 1]).bytes, events[|events| - 1];
                  o.bytes == if e.Append? then before + e.more else if e.Replace? then e.bytes else before)
  {
    if events != [] {
      var init, e := events[..|events| - 1], events[|events| - 1];
      OutcomeBytes(first, init);
      var o := Outcomes(first, init);
      if e.Turn? {
        var blocks := Cut(o.bytes[o.cursor..TurnEnd(o.cursor, |o.bytes|)], e.widths);
        CutReadable(o.bytes[o.cursor..TurnEnd(o.cursor, |o.bytes|)], e.widths);
        TakenWithin(blocks, e.stop);
      }
    }
  }

  /** A turn that does not crash reads at most its share of the source, and completes the file or
      gets further. */
  lemma TurnAdvances(o: Outcome, widths: seq<nat>, stop: nat)
    requires !o.complete && o.cursor <= |o.bytes|
    ensures var p := After(o, Turn(widths, stop, false));
            && p.bytes == o.bytes && p.cursor <= |p.bytes| && p.cursor <= o.cursor + SOURCE_TURN_BYTES
            && (p.complete <==> p.cursor == |p.bytes|) && (p.complete || p.cursor > o.cursor)
  {
    hide Cut, Flat;
    var range := o.bytes[o.cursor..TurnEnd(o.cursor, |o.bytes|)];
    var blocks := Cut(range, widths);
    CutReadable(range, widths);
    TakenWithin(blocks, stop);
    if range != [] {
      if blocks == [] {
        FlatEmpty<byte>();
      }
      FlatSlices(blocks, 0);
      FlatEmpty<byte>();
      assert blocks[..0] == [];
      TakenStarts(blocks, stop);
    }
  }

  lemma TakenStarts(blocks: seq<seq<byte>>, stop: nat)
    requires blocks != []
    ensures |Flat(Taken(blocks, stop))| >= |blocks[0]|
  {
    assert Taken(blocks, stop)[0] == blocks[0];
  }

  /** However early each turn stops, one more of them than there are bytes left completes the
      file. */
  lemma {:induction false} TurnsComplete(first: seq<byte>, events: seq<Event>, n: nat)
    requires n < |events| && forall i :: n <= i < |events| ==> events[i].Turn? && !events[i].crash
    requires var o := Outcomes(first, events[..n]); |events| - n > |o.bytes| - o.cursor
    ensures Outcomes(first, events).complete && Outcomes(first, events).bytes == Outcomes(first, events[..n]).bytes
    decreases |events| - n
  {
    hide Cut, Flat, After;
    var o, e := Outcomes(first, events[..n]), events[n];
    assert events[..n + 1][..n] == events[..n] && events[..n + 1][n] == e;
    OutcomeBytes(first, events[..n]);
    if o.complete {
      TurnStays(o, e);
    } else {
      TurnAdvances(o, e.widths, e.stop);
    }
    if n + 1 < |events| {
      if Outcomes(first, events[..n + 1]).complete {
        CompleteRemains(first, events, n + 1);
      } else {
        TurnsComplete(first, events, n + 1);
      }
    } else {
      assert events[..n + 1] == events;
    }
  }

  lemma TurnStays(o: Outcome, e: Event)
    requires o.complete && e.Turn?
    ensures After(o, e) == o
  {
  }

  lemma {:induction false} CompleteRemains(first: seq<byte>, events: seq<Event>, n: nat)
    requires n <= |events| && forall i :: n <= i < |events| ==> events[i].Turn?
    requires Outcomes(first, events[..n]).complete
    ensures Outcomes(first, events) == Outcomes(first, events[..n])
    decreases |events| - n
  {
    hide After;
    if n < |events| {
      assert events[..n + 1][..n] == events[..n] && events[..n + 1][n] == events[n];
      TurnStays(Outcomes(first, events[..n]), events[n]);
      CompleteRemains(first, events, n + 1);
    } else {
      assert events[..n] == events;
    }
  }

  lemma TakenWithin(blocks: seq<seq<byte>>, stop: nat)
    ensures |Flat(Taken(blocks, stop))| <= |Flat(blocks)|
  {
    hide Flat;
    if stop < |blocks| {
      FlatSlices(blocks, stop);
    }
  }

  /** Play any history. A rejection means that one pass over that version is rejected too;
      otherwise, whenever the extraction is complete, its segments (chunk contents,
      ordinals, locations and boundaries) are those of one pass over the final bytes. */
  method Replay(events: seq<Event>, first: seq<byte>, size: Chunk -> nat, hash: seq<byte> -> int)
    returns (rejected: bool, bytes: seq<byte>, job: Job)
    ensures rejected ==> exists k :: 0 <= k < |events| && bytes == Outcomes(first, events[..k]).bytes
    ensures !rejected ==> Outcomes(first, events) == Outcome(bytes, job.cursor, job.complete)
    ensures rejected ==> FromScratch(size, bytes).Failure?
    ensures !rejected ==> Sound(size, bytes, job)
    ensures !rejected && job.complete ==> FromScratch(size, bytes) == Success(job.segments)
  {
    hide FromScratch, Faithful, Readable, Rejected;
    bytes, job := first, FRESH;
    assert events[..0] == [];
    var i := 0;
    while i < |events|
      invariant 0 <= i <= |events| && Sound(size, bytes, job)
      invariant Outcomes(first, events[..i]) == Outcome(bytes, job.cursor, job.complete)
    {
      assert events[..i + 1][..i] == events[..i] && events[..i + 1][i] == events[i];
      CompleteAtEnd(size, bytes, job);
      match events[i] {
        case Turn(widths, stop, crash) =>
          if !job.complete {
            var range := bytes[job.cursor..TurnEnd(job.cursor, |bytes|)];
            CutReadable(range, widths);
            assert Readable(bytes, job.cursor, Cut(range, widths)) by { ReadableCut(bytes, job.cursor, widths); }
            var next := TransformTurn(job, bytes, Cut(range, widths), stop, size, hash, hash(bytes));
            if next.Failure? {
              OnlyScratch(size, bytes, hash);
              return true, bytes, job;
            }
            if !crash {
              job := next.value;
            }
          }
        case Append(more) =>
          if job.complete {
            SeedSound(size, bytes, job, bytes + more);
            job := Seed(job, |bytes|);
          } else {
            job := FRESH;
          }
          bytes := bytes + more;
        case Replace(other) =>
          bytes, job := other, FRESH;
      }
      i := i + 1;
    }
    assert events[..i] == events;
    return false, bytes, job;
  }

  lemma CompleteAtEnd(size: Chunk -> nat, bytes: seq<byte>, job: Job)
    requires Sound(size, bytes, job)
    ensures job.cursor <= |bytes|
  {
  }

  lemma ReadableCut(bytes: seq<byte>, cursor: nat, widths: seq<nat>)
    requires cursor <= |bytes|
    ensures Readable(bytes, cursor, Cut(bytes[cursor..TurnEnd(cursor, |bytes|)], widths))
  {
    CutReadable(bytes[cursor..TurnEnd(cursor, |bytes|)], widths);
  }

  lemma OnlyScratch(size: Chunk -> nat, bytes: seq<byte>, hash: seq<byte> -> int)
    requires Rejected(size, bytes, hash, hash(bytes))
    ensures FromScratch(size, bytes).Failure?
  {
    hide FromScratch;
  }
}
