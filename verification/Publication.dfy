/** Fenced extraction work, segments and the published head of one file, driven by any
    number of workers (`workers/file_runtime.py`, `workers/segment_runtime.py`,
    `workers/append_segments.py`, `workers/index_worker.py`, `workers/index_publish.py`,
    `workers/segment_cleanup.py`). One database transaction is one step. A worker is known by
    the token of its claim; leases expire at any time, so a worker may try any step after it
    has lost its claim. */
module Publication {
  import opened Wrappers
  import Segments

  // ----- state -----

  /** A captured version; its position is its sequence. */
  datatype Version = Version(deleted: bool)

  datatype Status = Pending | WaitingProvider | Done | Dropped

  datatype Stage = Transform | Index

  datatype Work = Ready | Running | Waiting | Failed | Complete | Superseded

  /** A segment is named by the extraction that wrote it and its first ordinal there. */
  datatype SegmentId = SegmentId(owner: nat, start: nat)

  datatype Segment = Segment(count: nat, indexed: bool, retired: bool)

  /** An extraction together with its one work row. Its position is its sequence. */
  datatype Extraction = Extraction(version: nat, segmented: bool, status: Status, verified: bool, chunkCount: nat,
                                   members: seq<SegmentId>, appendable: bool, appendCount: nat,
                                   stage: Stage, work: Work, token: Option<nat>, cursor: nat)

  /** What a worker remembers of its claim, and how far the index has acknowledged it. */
  datatype Worker = Worker(extraction: nat, stage: Stage, chunkCount: nat, cursor: nat, written: nat)

  /** An index row of a segment, or of an extraction without segments. */
  datatype Row = SegmentRow(segment: SegmentId, ordinal: nat) | PlainRow(extraction: nat, ordinal: nat)

  datatype Head = Head(version: nat, extraction: nat)

  datatype State = State(versions: seq<Version>, extractions: seq<Extraction>, segments: map<SegmentId, Segment>,
                         captured: Option<nat>, indexed: Option<Head>,
                         workers: map<nat, Worker>, nextToken: nat, acked: set<Row>)

  const INITIAL := State([], [], map[], None, None, map[], 0, {})

  // ----- steps -----

  datatype Step =
    | Register(previous: Option<nat>, deleted: bool)
    | Reextract(version: nat)
    | Claim(extraction: nat)
    | Release(token: nat, work: Work)
    | Exhaust(extraction: nat)
    | BeginSegmented(token: nat)
    | Seed(token: nat)
    | StoreSegment(token: nat, count: nat)
    | SaveTurn(token: nat, counts: seq<nat>, complete: bool, stable: nat)
    | CompleteExtraction(token: nat, count: nat)
    | FinishPreparation(token: nat)
    | ClaimAssembly(extraction: nat)
    | BeginAssembly(token: nat)
    | FinishAssembly(token: nat, complete: bool)
    | DropAssembly(extraction: nat, stale: bool)
    | WriteRows(token: nat, count: nat)
    | Checkpoint(token: nat)
    | FinishTurn(token: nat)
    | Publish(token: nat)
    | Retire(segment: SegmentId)

  function New(version: nat, deleted: bool): Extraction {
    Extraction(version, false, if deleted then Done else Pending, false, 0, [], false, 0,
               if deleted then Index else Transform, Ready, None, 0)
  }

  /** The work row still names this worker. */
  predicate Holds(s: State, token: nat) {
    && token in s.workers
    && s.workers[token].extraction < |s.extractions|
    && s.extractions[s.workers[token].extraction].token == Some(token)
  }

  function Of(s: State, token: nat): Extraction
    requires Holds(s, token)
  {
    s.extractions[s.workers[token].extraction]
  }

  /** The condition that `lock_transform` checks. */
  predicate OwnsTransform(s: State, token: nat) {
    && Holds(s, token)
    && Of(s, token).work == Running && Of(s, token).stage == Transform
    && Of(s, token).chunkCount == s.workers[token].chunkCount
  }

  predicate OwnsIndex(s: State, token: nat) {
    Holds(s, token) && Of(s, token).work == Running && Of(s, token).stage == Index
  }

  predicate OwnsAssembly(s: State, token: nat) {
    && Holds(s, token)
    && Of(s, token).work == Waiting && Of(s, token).stage == Transform && Of(s, token).status == WaitingProvider
    && Of(s, token).chunkCount == s.workers[token].chunkCount
  }

  /** A newer extraction of the same version is already published. */
  predicate StaleRevision(s: State, i: nat)
    requires i < |s.extractions|
  {
    s.indexed.Some? && s.indexed.value.version == s.extractions[i].version && s.indexed.value.extraction > i
  }

  predicate Current(s: State, i: nat)
    requires i < |s.extractions|
  {
    s.captured == Some(s.extractions[i].version) && !StaleRevision(s, i)
  }

  /** The extraction an append may start from: the published one, of the previous version. */
  predicate Extendable(s: State, i: nat)
    requires i < |s.extractions|
  {
    && s.indexed.Some? && s.indexed.value.extraction < |s.extractions|
    && s.extractions[i].version == s.indexed.value.version + 1
    && s.indexed.value.version < |s.versions| && !s.versions[s.indexed.value.version].deleted
    && var p := s.extractions[s.indexed.value.extraction];
       p.segmented && p.status == Done && p.verified && p.appendable
  }

  predicate Reusable(s: State, m: SegmentId, count: nat) {
    && m in s.segments && s.segments[m].indexed && !s.segments[m].retired
    && m.start < count && m.start + s.segments[m].count <= count
  }

  /** The memberships the append query copies. */
  function Copied(s: State, members: seq<SegmentId>, count: nat): seq<SegmentId> {
    if members == [] then []
    else Copied(s, members[..|members| - 1], count)
         + (if Reusable(s, members[|members| - 1], count) then [members[|members| - 1]] else [])
  }

  function Chunks(s: State, members: seq<SegmentId>): nat {
    if members == [] then 0
    else Chunks(s, members[..|members| - 1])
         + (if members[|members| - 1] in s.segments then s.segments[members[|members| - 1]].count else 0)
  }

  predicate CopiesWhole(s: State, i: nat)
    requires i < |s.extractions| && Extendable(s, i)
  {
    var p := s.extractions[s.indexed.value.extraction];
    Chunks(s, Copied(s, p.members, p.appendCount)) == p.appendCount
  }

  predicate Live(s: State, i: nat)
    requires i < |s.extractions|
  {
    || (s.indexed.Some? && s.indexed.value.extraction == i)
    || s.captured == Some(s.extractions[i].version)
    || s.extractions[i].work !in {Complete, Superseded}
  }

  /** Mark what a checkpoint of [from, to) completes, looking back 63 ordinals. */
  function Mark(segments: map<SegmentId, Segment>, members: seq<SegmentId>, from: nat, to: nat): map<SegmentId, Segment> {
    map m | m in segments ::
      if m in members && m.start + 63 >= from && m.start < to && m.start + segments[m].count <= to && !segments[m].retired
      then segments[m].(indexed := true) else segments[m]
  }

  /** Rows [from, to) of extraction `i`. */
  function Rows(s: State, i: nat, from: nat, to: nat): set<Row>
    requires i < |s.extractions|
  {
    if s.extractions[i].segmented
    then set m, o | m in s.extractions[i].members && from <= o < to && Covers(s, m, o) :: SegmentRow(m, o)
    else set o | from <= o < to :: PlainRow(i, o)
  }

  /** Rows are made only for segments that this extraction wrote itself. They may have been read
      before, and land after, the segment was retired. */
  predicate Writable(s: State, i: nat, from: nat, to: nat)
    requires i < |s.extractions|
  {
    forall m, o :: m in s.extractions[i].members && from <= o < to && Covers(s, m, o) ==> m.owner == i
  }

  predicate Covers(s: State, m: SegmentId, o: nat) {
    m in s.segments && m.start <= o < m.start + s.segments[m].count
  }

  predicate Enabled(s: State, step: Step) {
    match step
    case Register(previous, _) => s.captured == previous
    case Reextract(v) => v < |s.versions| && !s.versions[v].deleted
    case Claim(i) => i < |s.extractions| && s.extractions[i].work in {Ready, Running}
    case Release(token, work) =>
      && Holds(s, token)
      && (if Of(s, token).work == Running then work in {Ready, Failed} else Of(s, token).work == Waiting && work == Waiting)
    case Exhaust(i) => i < |s.extractions| && s.extractions[i].work in {Ready, Running}
    case BeginSegmented(token) =>
      OwnsTransform(s, token) && !Of(s, token).segmented && Of(s, token).status == Pending && Of(s, token).chunkCount == 0
    case Seed(token) =>
      && OwnsTransform(s, token) && Of(s, token).segmented && Of(s, token).status == Pending && Of(s, token).chunkCount == 0
      && Extendable(s, s.workers[token].extraction) && CopiesWhole(s, s.workers[token].extraction)
    case StoreSegment(token, count) =>
      (OwnsTransform(s, token) || OwnsAssembly(s, token)) && Of(s, token).segmented && 1 <= count <= Segments.SEGMENT_CHUNKS
    case SaveTurn(token, counts, _, stable) =>
      && OwnsTransform(s, token) && Of(s, token).segmented && Of(s, token).status == Pending
      && (forall k :: 0 <= k < |counts| ==> 1 <= counts[k] <= Segments.SEGMENT_CHUNKS)
      && stable <= |counts|
    case CompleteExtraction(token, count) =>
      OwnsTransform(s, token) && (Of(s, token).segmented ==> count == Of(s, token).chunkCount)
    case FinishPreparation(token) => OwnsTransform(s, token)
    case ClaimAssembly(i) =>
      i < |s.extractions| && s.extractions[i].work == Waiting && s.extractions[i].stage == Transform
    case BeginAssembly(token) => OwnsAssembly(s, token)
    case FinishAssembly(token, _) => OwnsAssembly(s, token) && Of(s, token).segmented
    case DropAssembly(i, _) =>
      && i < |s.extractions| && s.extractions[i].work == Waiting && s.extractions[i].stage == Transform
      && s.extractions[i].status == WaitingProvider
    case WriteRows(token, count) =>
      && token in s.workers && s.workers[token].extraction < |s.extractions| && s.workers[token].stage == Index
      && s.workers[token].written == s.workers[token].cursor && count > 0
      && s.workers[token].cursor + count <= s.workers[token].chunkCount
      && Writable(s, s.workers[token].extraction, s.workers[token].cursor, s.workers[token].cursor + count)
    case Checkpoint(token) =>
      && OwnsIndex(s, token)
      && var w := s.workers[token];
         && Of(s, token).cursor == w.cursor && Of(s, token).chunkCount == w.chunkCount
         && w.cursor < w.written <= w.chunkCount
    case FinishTurn(token) =>
      && OwnsIndex(s, token) && Of(s, token).segmented && Of(s, token).cursor == s.workers[token].cursor
      && !(Of(s, token).cursor == Of(s, token).chunkCount && Of(s, token).verified && Of(s, token).status == Done)
    case Publish(token) =>
      && OwnsIndex(s, token) && Of(s, token).cursor == Of(s, token).chunkCount && Of(s, token).status == Done
      && (!Of(s, token).segmented || Of(s, token).verified)
    case Retire(m) =>
      && m in s.segments
      && forall i :: 0 <= i < |s.extractions| && m in s.extractions[i].members ==> !Live(s, i)
  }

  function SetExtraction(s: State, i: nat, e: Extraction): State
    requires i < |s.extractions|
  {
    s.(extractions := s.extractions[i := e])
  }

  function Take(s: State, i: nat, work: Work): State
    requires i < |s.extractions|
  {
    var e := s.extractions[i];
    SetExtraction(s, i, e.(work := work, token := Some(s.nextToken)))
      .(workers := s.workers[s.nextToken := Worker(i, e.stage, e.chunkCount, e.cursor, e.cursor)],
        nextToken := s.nextToken + 1)
  }

  /** One pass of the loop of `store_segments`: a new segment, its membership, the position. */
  function Store(s: State, token: nat, count: nat): State
    requires Holds(s, token)
  {
    var i, e := s.workers[token].extraction, Of(s, token);
    var m := SegmentId(i, e.chunkCount);
    SetExtraction(s, i, e.(members := e.members + [m], chunkCount := e.chunkCount + count))
      .(segments := s.segments[m := Segment(count, false, false)],
        workers := s.workers[token := s.workers[token].(chunkCount := e.chunkCount + count)])
  }

  function StoreAll(s: State, token: nat, counts: seq<nat>): (t: State)
    requires Holds(s, token)
    ensures Holds(t, token) && t.workers[token].extraction == s.workers[token].extraction
    ensures |t.extractions| == |s.extractions|
  {
    if counts == [] then s
    else Store(StoreAll(s, token, counts[..|counts| - 1]), token, counts[|counts| - 1])
  }

  function Apply(s: State, step: Step): State
    requires Enabled(s, step)
  {
    match step
    case Register(_, deleted) =>
      s.(versions := s.versions + [Version(deleted)], extractions := s.extractions + [New(|s.versions|, deleted)],
         captured := Some(|s.versions|))
    case Reextract(v) => s.(extractions := s.extractions + [New(v, false)])
    case Claim(i) =>
      if Current(s, i) then Take(s, i, Running)
      else
        var e := s.extractions[i];
        SetExtraction(s, i, e.(work := Superseded, token := None,
                               status := if e.status in {Pending, WaitingProvider} then Dropped else e.status))
    case Release(token, work) => SetExtraction(s, s.workers[token].extraction, Of(s, token).(work := work, token := None))
    case Exhaust(i) => SetExtraction(s, i, s.extractions[i].(work := Failed, token := None))
    case BeginSegmented(token) => SetExtraction(s, s.workers[token].extraction, Of(s, token).(segmented := true))
    case Seed(token) =>
      var p := s.extractions[s.indexed.value.extraction];
      SetExtraction(s, s.workers[token].extraction,
                    Of(s, token).(members := Copied(s, p.members, p.appendCount),
                                  chunkCount := p.appendCount, cursor := p.appendCount))
        .(workers := s.workers[token := s.workers[token].(chunkCount := p.appendCount, cursor := p.appendCount,
                                                          written := p.appendCount)])
    case StoreSegment(token, count) => Store(s, token, count)
    case SaveTurn(token, counts, complete, stable) =>
      var t := StoreAll(s, token, counts);
      var e := Of(t, token);
      SetExtraction(t, s.workers[token].extraction,
                    e.(status := if complete then Done else Pending, verified := complete, appendable := complete,
                       appendCount := if complete then Of(StoreAll(s, token, counts[..stable]), token).chunkCount else 0,
                       stage := if complete || e.chunkCount > e.cursor then Index else Transform,
                       work := Ready, token := None))
    case CompleteExtraction(token, count) =>
      SetExtraction(s, s.workers[token].extraction,
                    Of(s, token).(status := Done, verified := true, chunkCount := count, stage := Index, work := Ready,
                                  token := None))
    case FinishPreparation(token) =>
      SetExtraction(s, s.workers[token].extraction,
                    Of(s, token).(status := WaitingProvider, work := Waiting, token := None))
    case ClaimAssembly(i) => Take(s, i, Waiting)
    case BeginAssembly(token) => SetExtraction(s, s.workers[token].extraction, Of(s, token).(segmented := true))
    case FinishAssembly(token, complete) =>
      SetExtraction(s, s.workers[token].extraction,
                    Of(s, token).(status := if complete then Done else WaitingProvider, verified := complete,
                                  stage := Index, work := Ready, token := None))
    case DropAssembly(i, stale) =>
      SetExtraction(s, i, s.extractions[i].(status := Dropped, work := if stale then Superseded else Failed, token := None))
    case WriteRows(token, count) =>
      var w := s.workers[token];
      s.(acked := s.acked + Rows(s, w.extraction, w.cursor, w.cursor + count),
         workers := s.workers[token := w.(written := w.cursor + count)])
    case Checkpoint(token) =>
      var w := s.workers[token];
      SetExtraction(s, w.extraction, Of(s, token).(cursor := w.written))
        .(segments := Mark(s.segments, Of(s, token).members, w.cursor, w.written),
          workers := s.workers[token := w.(cursor := w.written)])
    case FinishTurn(token) =>
      var e := Of(s, token);
      var back := e.cursor == e.chunkCount;
      SetExtraction(s, s.workers[token].extraction,
                    e.(stage := if back then Transform else Index,
                       work := if back && e.status == WaitingProvider then Waiting else Ready, token := None))
    case Publish(token) =>
      var i, e := s.workers[token].extraction, Of(s, token);
      if Current(s, i)
      then SetExtraction(s, i, e.(work := Complete, token := None)).(indexed := Some(Head(e.version, i)))
      else SetExtraction(s, i, e.(work := Superseded, token := None))
    case Retire(m) => s.(segments := s.segments[m := s.segments[m].(retired := true)])
  }

  // ----- invariants of one extraction -----

  /** Members tile the ordinals [0, count) in order. */
  ghost predicate Tiled(segments: map<SegmentId, Segment>, members: seq<SegmentId>, count: nat) {
    && (members == [] ==> count == 0)
    && (forall k :: 0 <= k < |members| ==>
          members[k] in segments && 1 <= segments[members[k]].count <= Segments.SEGMENT_CHUNKS)
    && (members != [] ==> members[0].start == 0 && EndOf(segments, members[|members| - 1]) == count)
    && (forall k :: 0 <= k < |members| - 1 ==> members[k + 1].start == EndOf(segments, members[k]))
  }

  ghost function EndOf(segments: map<SegmentId, Segment>, m: SegmentId): nat
    requires m in segments
  {
    m.start + segments[m].count
  }

  ghost predicate Acked(s: State, i: nat, from: nat, to: nat)
    requires i < |s.extractions|
  {
    if s.extractions[i].segmented
    then forall m, o :: m in s.extractions[i].members && from <= o < to && Covers(s, m, o) ==> SegmentRow(m, o) in s.acked
    else forall o :: from <= o < to ==> PlainRow(i, o) in s.acked
  }

  ghost predicate Shape(s: State, i: nat)
    requires i < |s.extractions|
  {
    var e := s.extractions[i];
    && e.version < |s.versions|
    && e.cursor <= e.chunkCount
    && (if e.segmented then Tiled(s.segments, e.members, e.chunkCount)
        else e.members == [] && (e.stage == Transform ==> e.chunkCount == 0))
  }

  /** A member is either all below the cursor and indexed, or this extraction's own. */
  ghost predicate Progress(s: State, i: nat)
    requires i < |s.extractions|
  {
    var e := s.extractions[i];
    && Acked(s, i, 0, e.cursor)
    && forall m :: m in e.members && m in s.segments ==>
         if EndOf(s.segments, m) <= e.cursor then s.segments[m].indexed else m.owner == i
  }

  /** Segments are inherited only from versions after the last tombstone. */
  ghost predicate Lineage(s: State, i: nat)
    requires i < |s.extractions|
  {
    var e := s.extractions[i];
    forall m :: m in e.members ==>
      && m.owner < |s.extractions| && s.extractions[m.owner].version <= e.version
      && forall t :: 0 <= t < e.version && t < |s.versions| && s.versions[t].deleted ==> t < s.extractions[m.owner].version
  }

  ghost predicate Kept(s: State, i: nat)
    requires i < |s.extractions|
  {
    Live(s, i) ==> forall m :: m in s.extractions[i].members && m in s.segments ==> !s.segments[m].retired
  }

  /** The count saved for appends is the end of some member. */
  ghost predicate Boundary(s: State, i: nat)
    requires i < |s.extractions|
  {
    var e := s.extractions[i];
    e.appendable ==>
      && e.segmented && e.appendCount <= e.chunkCount
      && exists k: nat :: k <= |e.members| && Tiled(s.segments, e.members[..k], e.appendCount)
  }

  ghost predicate Good(s: State, i: nat)
    requires i < |s.extractions|
  {
    Shape(s, i) && Progress(s, i) && Lineage(s, i) && Kept(s, i) && Boundary(s, i)
  }

  // ----- invariants of the whole -----

  /** An indexed segment has all its rows acknowledged; segments lie inside their owner. */
  ghost predicate SegmentsGood(s: State) {
    forall m :: m in s.segments ==>
      && m.owner < |s.extractions| && s.extractions[m.owner].segmented && s.segments[m].count >= 1
      && EndOf(s.segments, m) <= s.extractions[m.owner].chunkCount
      && (s.segments[m].indexed ==> forall o :: Covers(s, m, o) ==> SegmentRow(m, o) in s.acked)
  }

  ghost predicate HeadGood(s: State) {
    && s.captured == (if s.versions == [] then None else Some(|s.versions| - 1))
    && (s.indexed.Some? ==>
          && s.indexed.value.extraction < |s.extractions|
          && s.indexed.value.version < |s.versions|
          && var e := s.extractions[s.indexed.value.extraction];
             && e.version == s.indexed.value.version
             && e.work == Complete && e.token == None && e.cursor == e.chunkCount && e.status == Done)
  }

  /** A worker's memory is up to date while it holds its claim; what it wrote is acknowledged
      even when it does not. */
  ghost predicate WorkerGood(s: State, token: nat)
    requires token in s.workers
  {
    var w := s.workers[token];
    && token < s.nextToken && w.extraction < |s.extractions|
    && w.cursor <= w.written <= w.chunkCount <= s.extractions[w.extraction].chunkCount
    && Acked(s, w.extraction, w.cursor, w.written)
    && (Holds(s, token) ==>
          var e := Of(s, token);
          w.chunkCount == e.chunkCount && w.cursor == e.cursor && w.stage == e.stage)
  }

  ghost predicate WorkersGood(s: State) {
    && (forall token :: token in s.workers ==> WorkerGood(s, token))
    && (forall i :: 0 <= i < |s.extractions| && s.extractions[i].token.Some? ==>
          var token := s.extractions[i].token.value; token in s.workers && s.workers[token].extraction == i)
  }

  ghost predicate Inv(s: State) {
    && (forall i :: 0 <= i < |s.extractions| ==> Good(s, i))
    && SegmentsGood(s) && HeadGood(s) && WorkersGood(s)
  }

  // ----- what every step keeps of the past -----

  ghost predicate SegmentKept(s: State, t: State, m: SegmentId)
    requires m in s.segments
  {
    && m in t.segments && t.segments[m].count == s.segments[m].count
    && (s.segments[m].indexed ==> t.segments[m].indexed)
    && (t.segments[m].retired && !s.segments[m].retired ==>
          forall i :: 0 <= i < |s.extractions| && i < |t.extractions| && m in s.extractions[i].members ==> !Live(t, i))
  }

  /** History only grows, and what has stopped being live never is live again. */
  ghost predicate Evolves(s: State, t: State) {
    && s.versions <= t.versions && |s.extractions| <= |t.extractions| && s.acked <= t.acked
    && (forall m :: m in s.segments ==> SegmentKept(s, t, m))
    && (forall i :: 0 <= i < |s.extractions| ==>
          && t.extractions[i].version == s.extractions[i].version
          && s.extractions[i].cursor <= t.extractions[i].cursor
          && s.extractions[i].chunkCount <= t.extractions[i].chunkCount
          && s.extractions[i].members <= t.extractions[i].members
          && (Live(t, i) ==> Live(s, i)))
  }

  /** Nothing that the invariants of an extraction speak of has changed. */
  predicate SameContent(a: Extraction, b: Extraction) {
    && b.version == a.version && b.segmented == a.segmented && b.chunkCount == a.chunkCount && b.members == a.members
    && b.appendable == a.appendable && b.appendCount == a.appendCount && b.cursor == a.cursor
    && (!b.segmented && b.stage == Transform ==> b.chunkCount == 0)
  }

  lemma TiledStable(s: State, t: State, members: seq<SegmentId>, count: nat)
    requires Tiled(s.segments, members, count) && Evolves(s, t)
    ensures Tiled(t.segments, members, count)
  {
    hide Live;
    forall k | 0 <= k < |members| ensures SegmentKept(s, t, members[k]) {}
  }

  lemma AckedStable(s: State, t: State, i: nat, from: nat, to: nat)
    requires i < |s.extractions| && Evolves(s, t) && Acked(s, i, from, to) && Shape(s, i)
    requires t.extractions[i].segmented == s.extractions[i].segmented
    requires t.extractions[i].members == s.extractions[i].members
    ensures Acked(t, i, from, to)
  {
    hide Live;
    forall m, o | m in t.extractions[i].members && from <= o < to && Covers(t, m, o) && t.extractions[i].segmented
      ensures SegmentRow(m, o) in t.acked
    {
      assert m in s.segments;
      assert SegmentKept(s, t, m) && Covers(s, m, o);
    }
  }

  lemma GoodStable(s: State, t: State, i: nat)
    requires i < |s.extractions| && Evolves(s, t) && Good(s, i) && SameContent(s.extractions[i], t.extractions[i])
    requires forall m :: m in s.extractions[i].members ==> m.owner < |s.extractions|
    ensures Good(t, i)
  {
    hide Live, Tiled, Acked;
    var e := s.extractions[i];
    if e.segmented {
      TiledStable(s, t, e.members, e.chunkCount);
    }
    AckedStable(s, t, i, 0, e.cursor);
    MembersKnown(s, i);
    assert Progress(t, i) by {
      forall m | m in e.members ensures SegmentKept(s, t, m) { }
    }
    assert Kept(t, i) by {
      forall m | m in e.members ensures SegmentKept(s, t, m) { }
    }
    if e.appendable {
      var k: nat :| k <= |e.members| && Tiled(s.segments, e.members[..k], e.appendCount);
      TiledStable(s, t, e.members[..k], e.appendCount);
    }
  }

  lemma MembersKnown(s: State, i: nat)
    requires i < |s.extractions| && Shape(s, i)
    ensures forall m :: m in s.extractions[i].members ==> m in s.segments
  {
  }

  lemma NewGood(s: State, i: nat, version: nat, deleted: bool)
    requires i < |s.extractions| && s.extractions[i] == New(version, deleted) && version < |s.versions|
    ensures Good(s, i)
  {
  }

  // ----- steps that only move work between workers -----

  /** The work row changed hands: it is free, unchanged, or taken with a new token. */
  predicate Moved(s: State, a: Extraction, b: Extraction) {
    && SameContent(a, b)
    && (b.token == None || (b.token == a.token && b.stage == a.stage) || b.token == Some(s.nextToken))
  }

  /** The worker that holds a new token remembers the extraction as it is. */
  predicate NewWorker(s: State, t: State, i: nat) {
    && i < |t.extractions| && t.extractions[i].token == Some(s.nextToken)
    && t.nextToken == s.nextToken + 1
    && var e := t.extractions[i];
       t.workers == s.workers[s.nextToken := Worker(i, e.stage, e.chunkCount, e.cursor, e.cursor)]
       && forall j :: 0 <= j < |t.extractions| && j != i ==> t.extractions[j].token != Some(s.nextToken)
  }

  predicate NoNewWorker(s: State, t: State) {
    && t.workers == s.workers && t.nextToken == s.nextToken
    && forall i :: 0 <= i < |t.extractions| ==> t.extractions[i].token != Some(s.nextToken)
  }

  ghost predicate Light(s: State, t: State) {
    && t.segments == s.segments && t.acked == s.acked && s.versions <= t.versions && |s.extractions| <= |t.extractions|
    && (forall i :: 0 <= i < |s.extractions| ==>
          Moved(s, s.extractions[i], t.extractions[i]) && (Live(t, i) ==> Live(s, i)))
    && (forall i :: |s.extractions| <= i < |t.extractions| ==>
          exists v: nat, d :: v < |t.versions| && t.extractions[i] == New(v, d))
    && (NoNewWorker(s, t) || exists i: nat :: NewWorker(s, t, i))
    && HeadGood(t)
  }

  lemma LightEvolves(s: State, t: State)
    requires Light(s, t)
    ensures Evolves(s, t)
  {
    hide Live, HeadGood, NewWorker;
    forall m | m in s.segments ensures SegmentKept(s, t, m) {}
    forall i | 0 <= i < |s.extractions|
      ensures t.extractions[i].version == s.extractions[i].version && s.extractions[i].cursor <= t.extractions[i].cursor
      ensures s.extractions[i].chunkCount <= t.extractions[i].chunkCount && s.extractions[i].members <= t.extractions[i].members
    {
      assert Moved(s, s.extractions[i], t.extractions[i]);
    }
  }

  lemma LightGood(s: State, t: State, i: nat)
    requires Inv(s) && Light(s, t) && i < |t.extractions|
    ensures Good(t, i)
  {
    hide Live, HeadGood, NewWorker, Shape, Progress, Kept, Boundary, WorkersGood, SegmentsGood, Evolves, SegmentKept;
    LightEvolves(s, t);
    if i < |s.extractions| {
      assert Good(s, i) && Moved(s, s.extractions[i], t.extractions[i]);
      GoodStable(s, t, i);
    } else {
      var v: nat, d :| v < |t.versions| && t.extractions[i] == New(v, d);
      NewGood(t, i, v, d);
    }
  }

  lemma LightWorker(s: State, t: State, token: nat)
    requires Inv(s) && Light(s, t) && token in t.workers
    ensures WorkerGood(t, token)
  {
    hide Live, HeadGood, Good, SegmentsGood, Evolves, SegmentKept;
    LightEvolves(s, t);
    FreshToken(s);
    var w := t.workers[token];
    assert NoNewWorker(s, t) || exists i: nat :: NewWorker(s, t, i);
    if token in s.workers && token != s.nextToken {
      assert WorkerGood(s, token) && w == s.workers[token];
      assert Good(s, w.extraction) && Moved(s, s.extractions[w.extraction], t.extractions[w.extraction]);
      GoodShape(s, w.extraction);
      AckedStable(s, t, w.extraction, w.cursor, w.written);
    } else {
      var i: nat :| NewWorker(s, t, i);
      LightGood(s, t, i);
      GoodShape(t, i);
    }
  }

  lemma GoodShape(s: State, i: nat)
    requires i < |s.extractions| && Good(s, i)
    ensures Shape(s, i) && s.extractions[i].cursor <= s.extractions[i].chunkCount
  {
    hide Progress, Lineage, Kept, Boundary, Tiled;
  }

  lemma FreshToken(s: State)
    requires Inv(s)
    ensures s.nextToken !in s.workers
  {
    hide Acked, Good, HeadGood, SegmentsGood;
    assert s.nextToken in s.workers ==> WorkerGood(s, s.nextToken);
  }

  lemma LightTokens(s: State, t: State, i: nat)
    requires Inv(s) && Light(s, t) && i < |t.extractions| && t.extractions[i].token.Some?
    ensures var token := t.extractions[i].token.value; token in t.workers && t.workers[token].extraction == i
  {
    hide Live, HeadGood, Good, SegmentsGood, WorkerGood;
    FreshToken(s);
    assert NoNewWorker(s, t) || exists j: nat :: NewWorker(s, t, j);
    if i < |s.extractions| {
      assert Moved(s, s.extractions[i], t.extractions[i]);
      if t.extractions[i].token != Some(s.nextToken) {
        var token := s.extractions[i].token.value;
        assert token in s.workers && s.workers[token].extraction == i;
      }
    }
  }

  lemma LightKeeps(s: State, t: State)
    requires Inv(s) && Light(s, t)
    ensures Evolves(s, t) && Inv(t)
  {
    hide Live, HeadGood, Good, NewWorker, Evolves, WorkerGood;
    LightEvolves(s, t);
    forall i | 0 <= i < |t.extractions| ensures Good(t, i) { LightGood(s, t, i); }
    forall token | token in t.workers ensures WorkerGood(t, token) { LightWorker(s, t, token); }
    forall i | 0 <= i < |t.extractions| && t.extractions[i].token.Some?
      ensures var token := t.extractions[i].token.value; token in t.workers && t.workers[token].extraction == i
    {
      LightTokens(s, t, i);
    }
    forall m | m in t.segments
      ensures m.owner < |t.extractions| && t.extractions[m.owner].segmented
      ensures EndOf(t.segments, m) <= t.extractions[m.owner].chunkCount
    {
      assert Moved(s, s.extractions[m.owner], t.extractions[m.owner]);
    }
    assert forall m, o :: Covers(t, m, o) == Covers(s, m, o);
  }

  predicate Terminal(work: Work) { work in {Complete, Superseded} }

  /** Work that is not finished may be moved. */
  lemma LightSet(s: State, i: nat, b: Extraction)
    requires Inv(s) && i < |s.extractions| && Moved(s, s.extractions[i], b) && !Terminal(s.extractions[i].work)
    requires b.token != Some(s.nextToken)
    ensures Light(s, SetExtraction(s, i, b))
  {
    hide Good, SegmentsGood, WorkerGood;
    var t := SetExtraction(s, i, b);
    TokensKnown(s);
    forall j | 0 <= j < |s.extractions| ensures Moved(s, s.extractions[j], t.extractions[j]) {
      MovedSelf(s, j);
    }
  }

  lemma MovedSelf(s: State, i: nat)
    requires Inv(s) && i < |s.extractions|
    ensures Moved(s, s.extractions[i], s.extractions[i])
  {
    hide SegmentsGood, HeadGood, WorkersGood;
    assert Good(s, i);
    GoodShape(s, i);
  }

  lemma TokensKnown(s: State)
    requires Inv(s)
    ensures forall i :: 0 <= i < |s.extractions| ==> s.extractions[i].token != Some(s.nextToken)
  {
    hide Good, SegmentsGood, HeadGood, WorkerGood;
    FreshToken(s);
  }

  lemma LightTake(s: State, i: nat, work: Work)
    requires Inv(s) && i < |s.extractions| && !Terminal(s.extractions[i].work)
    ensures Light(s, Take(s, i, work))
  {
    hide Good, SegmentsGood, WorkerGood;
    var t := Take(s, i, work);
    TokensKnown(s);
    forall j | 0 <= j < |s.extractions| ensures Moved(s, s.extractions[j], t.extractions[j]) {
      MovedSelf(s, j);
    }
    assert NewWorker(s, t, i);
  }

  lemma LightPublish(s: State, i: nat, b: Extraction)
    requires Inv(s) && i < |s.extractions| && Moved(s, s.extractions[i], b) && !Terminal(s.extractions[i].work)
    requires b.work == Complete && b.token == None && b.status == Done && b.cursor == b.chunkCount
    ensures Light(s, SetExtraction(s, i, b).(indexed := Some(Head(b.version, i))))
  {
    hide SegmentsGood, WorkerGood;
    var t := SetExtraction(s, i, b).(indexed := Some(Head(b.version, i)));
    TokensKnown(s);
    assert Good(s, i);
    GoodShape(s, i);
    hide Good;
    forall j | 0 <= j < |s.extractions| ensures Moved(s, s.extractions[j], t.extractions[j]) {
      MovedSelf(s, j);
    }
  }

  lemma LightAdd(s: State, t: State, v: nat, d: bool)
    requires Inv(s) && v < |t.versions|
    requires t == s.(versions := t.versions, extractions := s.extractions + [New(v, d)], captured := t.captured)
    requires (t.versions == s.versions && t.captured == s.captured)
             || (t.versions == s.versions + [Version(d)] && t.captured == Some(|s.versions|))
    ensures Light(s, t)
  {
    hide SegmentsGood, WorkerGood;
    TokensKnown(s);
    forall j | 0 <= j < |s.extractions|
      ensures Moved(s, s.extractions[j], t.extractions[j]) && (Live(t, j) ==> Live(s, j))
    {
      assert Good(s, j);
      GoodShape(s, j);
      MovedSelf(s, j);
    }
    assert t.extractions[|s.extractions|] == New(v, d);
  }

  predicate IsLight(s: State, step: Step)
    requires Enabled(s, step)
  {
    match step
    case BeginSegmented(_) => false
    case BeginAssembly(token) => Of(s, token).segmented
    case CompleteExtraction(token, _) => Of(s, token).segmented
    case Seed(_) => false
    case StoreSegment(_, _) => false
    case SaveTurn(_, _, _, _) => false
    case WriteRows(_, _) => false
    case Checkpoint(_) => false
    case Retire(_) => false
    case _ => true
  }

  lemma LightSteps(s: State, step: Step)
    requires Inv(s) && Enabled(s, step) && IsLight(s, step)
    ensures Light(s, Apply(s, step))
  {
    hide Inv, Light, Live, CopiesWhole, Writable;
    TokensKnown(s);
    if step.Register? {
      LightAdd(s, Apply(s, step), |s.versions|, step.deleted);
    } else if step.Reextract? {
      LightAdd(s, Apply(s, step), step.version, false);
    } else if step.ClaimAssembly? {
      LightTake(s, step.extraction, Waiting);
    } else if step.Claim? || step.Exhaust? || step.DropAssembly? {
      MovedSelf(s, step.extraction);
      if step.Claim? && Current(s, step.extraction) {
        LightTake(s, step.extraction, Running);
      } else {
        LightSet(s, step.extraction, Apply(s, step).extractions[step.extraction]);
      }
    } else {
      var i := s.workers[step.token].extraction;
      MovedSelf(s, i);
      if step.Publish? && Current(s, i) {
        LightPublish(s, i, Apply(s, step).extractions[i]);
      } else {
        LightSet(s, i, Apply(s, step).extractions[i]);
      }
    }
  }

  // ----- steps that change one extraction -----

  /** Only extraction `i` changed. */
  ghost predicate OnlyOne(s: State, t: State, i: nat) {
    && i < |s.extractions| == |t.extractions| && t.versions == s.versions
    && t.captured == s.captured && t.indexed == s.indexed && t.nextToken == s.nextToken
    && !Terminal(s.extractions[i].work)
    && (forall j :: 0 <= j < |s.extractions| && j != i ==> t.extractions[j] == s.extractions[j])
    && t.extractions[i].version == s.extractions[i].version
    && (t.extractions[i].token == s.extractions[i].token || t.extractions[i].token == None)
    && t.workers.Keys == s.workers.Keys
  }

  lemma OnlyOneLive(s: State, t: State, i: nat, j: nat)
    requires OnlyOne(s, t, i) && j < |s.extractions|
    ensures Live(t, j) ==> Live(s, j)
  {
  }

  lemma OnlyOneHead(s: State, t: State, i: nat)
    requires OnlyOne(s, t, i) && HeadGood(s)
    ensures HeadGood(t)
  {
  }

  /** Workers other than `token` remember what they did; they never held this claim, or
      have lost it. */
  lemma OnlyOneWorkers(s: State, t: State, i: nat, token: nat)
    requires Inv(s) && OnlyOne(s, t, i) && Evolves(s, t)
    requires forall k :: k in s.workers && k != token ==> t.workers[k] == s.workers[k]
    requires s.extractions[i].token.Some? ==> s.extractions[i].token == Some(token)
    requires token in s.workers ==> t.workers[token].extraction == s.workers[token].extraction && WorkerGood(t, token)
    requires forall k :: k in s.workers && s.workers[k].extraction == i ==>
               Acked(t, i, s.workers[k].cursor, s.workers[k].written)
    ensures WorkersGood(t)
  {
    hide Good, SegmentsGood, HeadGood, SegmentKept, Live, Acked;
    forall k | k in t.workers ensures WorkerGood(t, k) {
      if k != token {
        assert WorkerGood(s, k);
        var j := s.workers[k].extraction;
        if j != i {
          assert Good(s, j);
          GoodShape(s, j);
          AckedStable(s, t, j, s.workers[k].cursor, s.workers[k].written);
        }
      }
    }
  }

  lemma OnlyOneKeeps(s: State, t: State, i: nat)
    requires Inv(s) && OnlyOne(s, t, i) && Evolves(s, t)
    requires Good(t, i) && SegmentsGood(t) && WorkersGood(t)
    ensures Inv(t)
  {
    hide SegmentsGood, HeadGood, WorkersGood, Evolves, Shape, Progress, Kept, Boundary;
    OnlyOneHead(s, t, i);
    forall j | 0 <= j < |t.extractions| ensures Good(t, j) {
      if j != i {
        assert Good(s, j);
        MovedSelf(s, j);
        GoodStable(s, t, j);
      }
    }
  }

  // ----- selecting the segmented format, completing without segments -----

  lemma BeginKeeps(s: State, token: nat, b: Extraction)
    requires Inv(s) && Holds(s, token) && !Of(s, token).segmented && !Terminal(Of(s, token).work)
    requires Of(s, token).stage == Transform && b == Of(s, token).(segmented := true)
    ensures var t := SetExtraction(s, s.workers[token].extraction, b); Evolves(s, t) && Inv(t)
  {
    hide Good, SegmentsGood, HeadGood;
    var i := s.workers[token].extraction;
    var t := SetExtraction(s, i, b);
    assert Good(s, i);
    GoodParts(s, i);
    forall j | 0 <= j < |s.extractions| ensures Live(t, j) ==> Live(s, j) { OnlyOneLive(s, t, i, j); }
    forall m | m in s.segments ensures SegmentKept(s, t, m) {}
    assert Evolves(s, t);
    GoodEmpty(t, i);
    forall k | k in s.workers && s.workers[k].extraction == i
      ensures Acked(t, i, s.workers[k].cursor, s.workers[k].written)
    {
      assert WorkerGood(s, k);
    }
    assert WorkerGood(s, token);
    OnlyOneWorkers(s, t, i, token);
    SegmentsSame(s, t);
    OnlyOneKeeps(s, t, i);
  }

  lemma GoodParts(s: State, i: nat)
    requires i < |s.extractions| && Good(s, i)
    ensures Shape(s, i) && Progress(s, i) && Lineage(s, i) && Kept(s, i) && Boundary(s, i)
  {
    hide Shape, Progress, Lineage, Kept, Boundary;
  }

  lemma GoodEmpty(s: State, i: nat)
    requires i < |s.extractions| && s.extractions[i].version < |s.versions|
    requires s.extractions[i].members == [] && s.extractions[i].cursor == 0
    requires s.extractions[i].segmented ==> s.extractions[i].chunkCount == 0
    requires !s.extractions[i].segmented && s.extractions[i].stage == Transform ==> s.extractions[i].chunkCount == 0
    requires s.extractions[i].appendable ==> s.extractions[i].segmented && s.extractions[i].appendCount == 0
    ensures Good(s, i)
  {
    if s.extractions[i].appendable {
      assert Tiled(s.segments, s.extractions[i].members[..0], 0);
    }
  }

  /** Segments stay good when their owners only grow. */
  lemma SegmentsSame(s: State, t: State)
    requires Inv(s) && Evolves(s, t) && t.segments == s.segments
    requires forall j :: 0 <= j < |s.extractions| && s.extractions[j].segmented ==> t.extractions[j].segmented
    ensures SegmentsGood(t)
  {
    hide Good, HeadGood, WorkersGood, Live, SegmentKept;
    assert forall m, o :: Covers(t, m, o) == Covers(s, m, o);
  }

  lemma PlainCompleteKeeps(s: State, token: nat, b: Extraction, count: nat)
    requires Inv(s) && Holds(s, token) && !Of(s, token).segmented && !Terminal(Of(s, token).work)
    requires Of(s, token).stage == Transform
    requires b == Of(s, token).(status := Done, verified := true, chunkCount := count, stage := Index, work := Ready, token := None)
    ensures var t := SetExtraction(s, s.workers[token].extraction, b); Evolves(s, t) && Inv(t)
  {
    hide Good, SegmentsGood, HeadGood;
    var i := s.workers[token].extraction;
    var t := SetExtraction(s, i, b);
    assert Good(s, i);
    GoodParts(s, i);
    forall j | 0 <= j < |s.extractions| ensures Live(t, j) ==> Live(s, j) { OnlyOneLive(s, t, i, j); }
    forall m | m in s.segments ensures SegmentKept(s, t, m) {}
    assert Evolves(s, t);
    GoodEmpty(t, i);
    forall k | k in s.workers && s.workers[k].extraction == i
      ensures Acked(t, i, s.workers[k].cursor, s.workers[k].written)
    {
      assert WorkerGood(s, k);
    }
    assert WorkerGood(s, token);
    OnlyOneWorkers(s, t, i, token);
    SegmentsSame(s, t);
    OnlyOneKeeps(s, t, i);
  }

  // ----- adding segments -----

  lemma StoreEvolves(s: State, token: nat, count: nat)
    requires Inv(s) && Holds(s, token) && Of(s, token).segmented && !Terminal(Of(s, token).work)
    ensures var i := s.workers[token].extraction;
            && SegmentId(i, s.extractions[i].chunkCount) !in s.segments
            && OnlyOne(s, Store(s, token, count), i) && Evolves(s, Store(s, token, count))
  {
    hide Good, HeadGood, WorkersGood, Live;
    var i, t := s.workers[token].extraction, Store(s, token, count);
    var m := SegmentId(i, s.extractions[i].chunkCount);
    assert OnlyOne(s, t, i);
    forall j | 0 <= j < |s.extractions| ensures Live(t, j) ==> Live(s, j) { OnlyOneLive(s, t, i, j); }
    forall k | k in s.segments ensures SegmentKept(s, t, k) {}
  }

  lemma StoreAcked(s: State, token: nat, count: nat, from: nat, to: nat)
    requires Inv(s) && Holds(s, token) && Of(s, token).segmented && !Terminal(Of(s, token).work)
    requires var i := s.workers[token].extraction; Acked(s, i, from, to) && to <= s.extractions[i].chunkCount
    ensures Acked(Store(s, token, count), s.workers[token].extraction, from, to)
  {
    hide Good, HeadGood, WorkersGood, SegmentsGood, Live;
    var i, t := s.workers[token].extraction, Store(s, token, count);
    var n := SegmentId(i, s.extractions[i].chunkCount);
    KnownMembers(s, i);
    forall m, o | m in t.extractions[i].members && from <= o < to && Covers(t, m, o) ensures SegmentRow(m, o) in t.acked {
      assert m != n && m in s.extractions[i].members && Covers(s, m, o);
    }
  }

  lemma KnownMembers(s: State, i: nat)
    requires Inv(s) && i < |s.extractions|
    ensures forall m :: m in s.extractions[i].members ==> m in s.segments
  {
    hide HeadGood, WorkersGood, SegmentsGood;
    assert Good(s, i);
    GoodShape(s, i);
    MembersKnown(s, i);
  }

  lemma TiledSnoc(segments: map<SegmentId, Segment>, members: seq<SegmentId>, count: nat, m: SegmentId)
    requires Tiled(segments, members, count) && m in segments && m.start == count
    requires 1 <= segments[m].count <= Segments.SEGMENT_CHUNKS
    ensures Tiled(segments, members + [m], EndOf(segments, m))
  {
    var all := members + [m];
    forall k | 0 <= k < |all| - 1 ensures all[k + 1].start == EndOf(segments, all[k]) {
      if k == |members| - 1 {
        assert all[k] == members[|members| - 1];
      }
    }
  }

  lemma StoreGood(s: State, token: nat, count: nat)
    requires Inv(s) && Holds(s, token) && Of(s, token).segmented && !Terminal(Of(s, token).work)
    requires 1 <= count <= Segments.SEGMENT_CHUNKS
    ensures Good(Store(s, token, count), s.workers[token].extraction)
  {
    hide HeadGood, WorkersGood, SegmentsGood, Acked, Live, Tiled;
    var i, t := s.workers[token].extraction, Store(s, token, count);
    var e, b := s.extractions[i], t.extractions[i];
    assert Good(s, i);
    GoodParts(s, i);
    KnownMembers(s, i);
    StoreEvolves(s, token, count);
    TiledStable(s, t, e.members, e.chunkCount);
    TiledSnoc(t.segments, e.members, e.chunkCount, SegmentId(i, e.chunkCount));
    StoreAcked(s, token, count, 0, e.cursor);
    OnlyOneLive(s, t, i, i);
    if e.appendable {
      var k: nat :| k <= |e.members| && Tiled(s.segments, e.members[..k], e.appendCount);
      TiledStable(s, t, e.members[..k], e.appendCount);
      assert b.members[..k] == e.members[..k];
    }
  }

  lemma StoreOwners(s: State, token: nat, count: nat)
    requires Inv(s) && Holds(s, token) && Of(s, token).segmented && !Terminal(Of(s, token).work) && count >= 1
    ensures SegmentsGood(Store(s, token, count))
  {
    hide Good, HeadGood, WorkersGood;
    var i, t := s.workers[token].extraction, Store(s, token, count);
    StoreEvolves(s, token, count);
    forall m, o | m in t.segments && t.segments[m].indexed && Covers(t, m, o) ensures SegmentRow(m, o) in t.acked {
      assert m in s.segments && Covers(s, m, o);
    }
  }

  lemma StoreKeeps(s: State, token: nat, count: nat)
    requires Inv(s) && Holds(s, token) && Of(s, token).segmented && !Terminal(Of(s, token).work)
    requires 1 <= count <= Segments.SEGMENT_CHUNKS
    ensures Evolves(s, Store(s, token, count)) && Inv(Store(s, token, count))
  {
    hide Good, HeadGood, SegmentsGood, Acked, Live, SegmentKept;
    var i, t := s.workers[token].extraction, Store(s, token, count);
    StoreEvolves(s, token, count);
    StoreGood(s, token, count);
    StoreOwners(s, token, count);
    forall k | k in s.workers && s.workers[k].extraction == i
      ensures Acked(t, i, s.workers[k].cursor, s.workers[k].written)
    {
      assert WorkerGood(s, k);
      StoreAcked(s, token, count, s.workers[k].cursor, s.workers[k].written);
    }
    assert WorkerGood(s, token);
    assert WorkerGood(t, token);
    OnlyOneWorkers(s, t, i, token);
    OnlyOneKeeps(s, t, i);
  }

  lemma EvolvesTrans(s: State, t: State, u: State)
    requires Evolves(s, t) && Evolves(t, u)
    ensures Evolves(s, u)
  {
    hide Live;
    forall m | m in s.segments ensures SegmentKept(s, u, m) {
      assert SegmentKept(s, t, m) && SegmentKept(t, u, m);
    }
  }

  lemma EvolvesSelf(s: State)
    ensures Evolves(s, s)
  {
  }

  lemma {:induction false} StoreAllKeeps(s: State, token: nat, counts: seq<nat>)
    requires Inv(s) && Holds(s, token) && Of(s, token).segmented && !Terminal(Of(s, token).work)
    requires forall k :: 0 <= k < |counts| ==> 1 <= counts[k] <= Segments.SEGMENT_CHUNKS
    ensures var t := StoreAll(s, token, counts);
            && Evolves(s, t) && Inv(t) && t.nextToken == s.nextToken
            && Of(t, token) == Of(s, token).(members := Of(t, token).members, chunkCount := Of(t, token).chunkCount)
    decreases |counts|
  {
    hide Inv, Evolves, Store;
    if counts == [] {
      EvolvesSelf(s);
    } else {
      var before := StoreAll(s, token, counts[..|counts| - 1]);
      StoreAllKeeps(s, token, counts[..|counts| - 1]);
      StoreKeeps(before, token, counts[|counts| - 1]);
      EvolvesTrans(s, before, StoreAll(s, token, counts));
      StoreChanges(before, token, counts[|counts| - 1]);
    }
  }

  lemma StoreChanges(s: State, token: nat, count: nat)
    requires Holds(s, token)
    ensures var t := Store(s, token, count);
            && Holds(t, token) && t.nextToken == s.nextToken
            && Of(t, token) == Of(s, token).(members := Of(t, token).members, chunkCount := Of(t, token).chunkCount)
  {
  }

  lemma {:induction false} StorePrefix(s: State, token: nat, counts: seq<nat>, n: nat)
    requires Inv(s) && Holds(s, token) && Of(s, token).segmented && !Terminal(Of(s, token).work)
    requires n <= |counts| && forall k :: 0 <= k < |counts| ==> 1 <= counts[k] <= Segments.SEGMENT_CHUNKS
    ensures Evolves(StoreAll(s, token, counts[..n]), StoreAll(s, token, counts))
    decreases |counts|
  {
    hide Inv, Evolves, Store;
    if n == |counts| {
      assert counts[..n] == counts;
      EvolvesSelf(StoreAll(s, token, counts));
    } else {
      var init := counts[..|counts| - 1];
      assert init[..n] == counts[..n];
      StorePrefix(s, token, init, n);
      StoreAllKeeps(s, token, init);
      StoreKeeps(StoreAll(s, token, init), token, counts[|counts| - 1]);
      EvolvesTrans(StoreAll(s, token, counts[..n]), StoreAll(s, token, init), StoreAll(s, token, counts));
    }
  }

  /** Ending a turn: the work row is freed and the append point is recorded. */
  lemma SealKeeps(s: State, i: nat, b: Extraction)
    requires Inv(s) && i < |s.extractions| && !Terminal(s.extractions[i].work)
    requires b == s.extractions[i].(status := b.status, verified := b.verified, appendable := b.appendable,
                                    appendCount := b.appendCount, stage := b.stage, work := b.work, token := None)
    requires b.segmented
    requires b.appendable ==>
               && b.appendCount <= b.chunkCount
               && exists k: nat :: k <= |b.members| && Tiled(s.segments, b.members[..k], b.appendCount)
    ensures Evolves(s, SetExtraction(s, i, b)) && Inv(SetExtraction(s, i, b))
  {
    hide HeadGood, SegmentsGood, Live, Tiled, Acked;
    var t := SetExtraction(s, i, b);
    assert Good(s, i);
    GoodParts(s, i);
    forall j | 0 <= j < |s.extractions| ensures Live(t, j) ==> Live(s, j) { OnlyOneLive(s, t, i, j); }
    forall m | m in s.segments ensures SegmentKept(s, t, m) {}
    assert Evolves(s, t);
    AckedStable(s, t, i, 0, b.cursor);
    assert Good(t, i);
    SegmentsSame(s, t);
    SealWorkers(s, t, i);
    OnlyOneKeeps(s, t, i);
  }

  lemma SealWorkers(s: State, t: State, i: nat)
    requires Inv(s) && OnlyOne(s, t, i) && Evolves(s, t) && t.workers == s.workers
    requires t.extractions[i].token == None && t.extractions[i].members == s.extractions[i].members
    requires t.extractions[i].segmented == s.extractions[i].segmented
    ensures WorkersGood(t)
  {
    hide HeadGood, SegmentsGood, Live, Acked, SegmentKept, Good;
    forall k | k in s.workers && s.workers[k].extraction == i
      ensures Acked(t, i, s.workers[k].cursor, s.workers[k].written) && WorkerGood(t, k)
    {
      assert WorkerGood(s, k);
      assert Good(s, i);
      GoodShape(s, i);
      AckedStable(s, t, i, s.workers[k].cursor, s.workers[k].written);
    }
    FreshToken(s);
    var token := if s.extractions[i].token.Some? then s.extractions[i].token.value else s.nextToken;
    OnlyOneWorkers(s, t, i, token);
  }

  lemma SaveTurnKeeps(s: State, token: nat, counts: seq<nat>, complete: bool, stable: nat)
    requires Inv(s) && Enabled(s, SaveTurn(token, counts, complete, stable))
    ensures var t := Apply(s, SaveTurn(token, counts, complete, stable)); Evolves(s, t) && Inv(t)
  {
    hide Inv, Evolves, StoreAll, Tiled;
    var i := s.workers[token].extraction;
    var middle, before := StoreAll(s, token, counts), StoreAll(s, token, counts[..stable]);
    StoreAllKeeps(s, token, counts);
    StoreAllKeeps(s, token, counts[..stable]);
    StorePrefix(s, token, counts, stable);
    PrefixTiled(before, middle, i);
    var t := Apply(s, SaveTurn(token, counts, complete, stable));
    SealKeeps(middle, i, t.extractions[i]);
    EvolvesTrans(s, middle, t);
  }

  /** An earlier tiling is a prefix of a later one. */
  lemma PrefixTiled(s: State, t: State, i: nat)
    requires Inv(s) && Evolves(s, t) && i < |s.extractions| && s.extractions[i].segmented
    ensures var a, b := s.extractions[i], t.extractions[i];
            a.chunkCount <= b.chunkCount
            && exists k: nat :: k <= |b.members| && Tiled(t.segments, b.members[..k], a.chunkCount)
  {
    hide HeadGood, WorkersGood, SegmentsGood, Live, SegmentKept, Tiled;
    assert Good(s, i);
    GoodParts(s, i);
    var a, b := s.extractions[i], t.extractions[i];
    TiledStable(s, t, a.members, a.chunkCount);
    assert b.members[..|a.members|] == a.members;
  }

  // ----- append seeding -----

  /** In a tiling, everything before a boundary ends by it and the rest starts after it. */
  lemma {:induction false} TiledOrder(segments: map<SegmentId, Segment>, members: seq<SegmentId>, count: nat, j: nat, k: nat)
    requires Tiled(segments, members, count) && j < k < |members|
    ensures EndOf(segments, members[j]) <= members[k].start
    decreases k
  {
    if j + 1 < k {
      TiledOrder(segments, members, count, j, k - 1);
    }
  }

  /** The published extraction `p` was complete up to its append point after `k` members. */
  ghost predicate AppendPoint(s: State, p: nat, k: nat) {
    && s.indexed.Some? && s.indexed.value.extraction == p && p < |s.extractions| && s.extractions[p].segmented
    && s.extractions[p].appendCount <= s.extractions[p].chunkCount && k <= |s.extractions[p].members|
    && Tiled(s.segments, s.extractions[p].members[..k], s.extractions[p].appendCount)
  }

  /** Before that point every member is indexed and not retired, so it is reused. */
  lemma MemberReused(s: State, p: nat, k: nat, n: nat)
    requires Inv(s) && AppendPoint(s, p, k) && n < k
    ensures Reusable(s, s.extractions[p].members[n], s.extractions[p].appendCount)
  {
    hide WorkersGood, SegmentsGood, Acked, Tiled;
    var e := s.extractions[p];
    assert Good(s, p);
    GoodParts(s, p);
    TiledBelow(s.segments, e.members[..k], e.appendCount);
    TiledPositive(s.segments, e.members[..k], e.appendCount, n);
    assert e.members[..k][n] == e.members[n];
    assert Live(s, p);
  }

  lemma TiledPositive(segments: map<SegmentId, Segment>, members: seq<SegmentId>, count: nat, n: nat)
    requires Tiled(segments, members, count) && n < |members|
    ensures members[n] in segments && 1 <= segments[members[n]].count <= Segments.SEGMENT_CHUNKS
  {
  }

  /** After it none is. */
  lemma MemberNotReused(s: State, p: nat, k: nat, n: nat)
    requires Inv(s) && AppendPoint(s, p, k) && k <= n < |s.extractions[p].members|
    ensures !Reusable(s, s.extractions[p].members[n], s.extractions[p].appendCount)
  {
    hide WorkersGood, SegmentsGood, HeadGood, Acked, Tiled;
    var e := s.extractions[p];
    assert Good(s, p);
    GoodParts(s, p);
    TiledEnd(s.segments, e.members[..k], e.appendCount);
    if k > 0 {
      TiledOrder(s.segments, e.members, e.chunkCount, k - 1, n);
      assert e.members[..k][k - 1] == e.members[k - 1];
    }
  }

  lemma TiledEnd(segments: map<SegmentId, Segment>, members: seq<SegmentId>, count: nat)
    requires Tiled(segments, members, count)
    ensures if members == [] then count == 0
            else members[|members| - 1] in segments && EndOf(segments, members[|members| - 1]) == count
  {
  }

  /** So the append query copies exactly the members before that point. */
  lemma {:induction false} CopiedPrefix(s: State, p: nat, k: nat, n: nat)
    requires Inv(s) && AppendPoint(s, p, k) && n <= |s.extractions[p].members|
    ensures var e := s.extractions[p];
            Copied(s, e.members[..n], e.appendCount) == e.members[..if n < k then n else k]
    decreases n
  {
    hide Inv, Tiled, Reusable;
    if n > 0 {
      var e := s.extractions[p];
      CopiedPrefix(s, p, k, n - 1);
      assert e.members[..n][..n - 1] == e.members[..n - 1];
      if n <= k {
        MemberReused(s, p, k, n - 1);
        assert e.members[..n] == e.members[..n - 1] + [e.members[n - 1]];
      } else {
        MemberNotReused(s, p, k, n - 1);
      }
    }
  }

  lemma {:induction false} TiledChunks(s: State, members: seq<SegmentId>, count: nat)
    requires Tiled(s.segments, members, count)
    ensures Chunks(s, members) == count
  {
    if members != [] {
      var init, m := members[..|members| - 1], members[|members| - 1];
      assert Tiled(s.segments, init, m.start);
      TiledChunks(s, init, m.start);
    }
  }

  /** The members copied by an append, as a prefix of the published extraction's. */
  lemma CopiedIs(s: State, i: nat) returns (k: nat)
    requires Inv(s) && i < |s.extractions| && Extendable(s, i)
    ensures var p := s.extractions[s.indexed.value.extraction];
            && k <= |p.members| && p.appendCount <= p.chunkCount && p.cursor == p.chunkCount
            && Copied(s, p.members, p.appendCount) == p.members[..k]
            && Tiled(s.segments, p.members[..k], p.appendCount)
            && Chunks(s, p.members[..k]) == p.appendCount
  {
    hide WorkersGood, SegmentsGood, Acked, Tiled;
    var j := s.indexed.value.extraction;
    var p := s.extractions[j];
    assert Good(s, j);
    GoodParts(s, j);
    k :| k <= |p.members| && Tiled(s.segments, p.members[..k], p.appendCount);
    assert p.members[..|p.members|] == p.members;
    CopiedPrefix(s, j, k, |p.members|);
    TiledChunks(s, p.members[..k], p.appendCount);
  }

  /** So the check that the copied prefix is complete never fails. */
  lemma AppendPrefixComplete(s: State, i: nat)
    requires Inv(s) && i < |s.extractions| && Extendable(s, i)
    ensures CopiesWhole(s, i)
  {
    hide Inv, Tiled, Copied, Chunks;
    var _ := CopiedIs(s, i);
  }

  lemma SeedGood(s: State, token: nat)
    requires Inv(s) && Enabled(s, Seed(token))
    ensures var t, i := Apply(s, Seed(token)), s.workers[token].extraction;
            OnlyOne(s, t, i) && Evolves(s, t) && Good(t, i)
  {
    hide WorkersGood, Acked, Tiled, Copied, Chunks;
    var t, i := Apply(s, Seed(token)), s.workers[token].extraction;
    var j := s.indexed.value.extraction;
    var e, b, p := s.extractions[i], t.extractions[i], s.extractions[j];
    var k := CopiedIs(s, i);
    assert Good(s, i) && Good(s, j);
    GoodParts(s, i);
    GoodParts(s, j);
    EmptyTiled(s.segments, e.members);
    forall q | 0 <= q < |s.extractions| ensures Live(t, q) ==> Live(s, q) { OnlyOneLive(s, t, i, q); }
    forall m | m in s.segments ensures SegmentKept(s, t, m) {}
    assert Evolves(s, t);
    assert Live(s, j);
    assert forall m :: m in b.members ==> m in p.members;
    TiledBelow(s.segments, b.members, b.chunkCount);
    IndexedAcked(s, t, i);
    SeedLineage(s, t, i, j);
    if b.appendable {
      TiledNothing(t.segments, b.members);
    }
  }

  lemma SeedLineage(s: State, t: State, i: nat, j: nat)
    requires i < |s.extractions| == |t.extractions| && j < |s.extractions| && t.versions == s.versions
    requires forall q :: 0 <= q < |s.extractions| ==> t.extractions[q].version == s.extractions[q].version
    requires forall m :: m in t.extractions[i].members ==> m in s.extractions[j].members
    requires Lineage(s, j) && s.extractions[j].version < |s.versions|
    requires s.extractions[i].version == s.extractions[j].version + 1 && !s.versions[s.extractions[j].version].deleted
    ensures Lineage(t, i)
  {
  }

  lemma EmptyTiled(segments: map<SegmentId, Segment>, members: seq<SegmentId>)
    ensures Tiled(segments, members, 0) ==> members == []
  {
  }

  lemma TiledNothing(segments: map<SegmentId, Segment>, members: seq<SegmentId>)
    ensures Tiled(segments, members[..0], 0)
  {
  }

  lemma {:induction false} TiledBelow(segments: map<SegmentId, Segment>, members: seq<SegmentId>, count: nat)
    requires Tiled(segments, members, count)
    ensures forall m :: m in members ==> m in segments && EndOf(segments, m) <= count
  {
    forall m | m in members ensures m in segments && EndOf(segments, m) <= count {
      var j :| 0 <= j < |members| && members[j] == m;
      if j < |members| - 1 {
        TiledOrder(segments, members, count, j, |members| - 1);
      }
    }
  }

  /** Rows of indexed segments are acknowledged, whoever wrote them. */
  lemma IndexedAcked(s: State, t: State, i: nat)
    requires SegmentsGood(s) && t.segments == s.segments && t.acked == s.acked && i < |t.extractions|
    requires t.extractions[i].segmented
    requires forall m :: m in t.extractions[i].members ==> m in s.segments && s.segments[m].indexed
    ensures forall to: nat :: Acked(t, i, 0, to)
  {
    assert forall m, o :: Covers(t, m, o) == Covers(s, m, o);
  }

  lemma SeedKeeps(s: State, token: nat)
    requires Inv(s) && Enabled(s, Seed(token))
    ensures var t := Apply(s, Seed(token)); Evolves(s, t) && Inv(t)
  {
    hide Good, HeadGood, SegmentsGood, Copied, Chunks, Evolves;
    var t, i := Apply(s, Seed(token)), s.workers[token].extraction;
    SeedGood(s, token);
    forall k | k in s.workers && s.workers[k].extraction == i
      ensures Acked(t, i, s.workers[k].cursor, s.workers[k].written)
    {
      assert WorkerGood(s, k);
    }
    assert WorkerGood(s, token);
    assert WorkerGood(t, token);
    OnlyOneWorkers(s, t, i, token);
    SegmentsSame(s, t);
    OnlyOneKeeps(s, t, i);
  }

  // ----- indexing -----

  lemma WriteKeeps(s: State, token: nat, count: nat)
    requires Inv(s) && Enabled(s, WriteRows(token, count))
    ensures var t := Apply(s, WriteRows(token, count)); Evolves(s, t) && Inv(t)
  {
    hide Writable, HeadGood;
    var t := Apply(s, WriteRows(token, count));
    var w := s.workers[token];
    assert t.extractions == s.extractions && t.segments == s.segments;
    assert forall m, o :: Covers(t, m, o) == Covers(s, m, o);
    WriteEvolves(s, t);
    hide Good, SegmentKept, Live;
    forall i | 0 <= i < |t.extractions| ensures Good(t, i) {
      assert Good(s, i);
      GoodParts(s, i);
      MovedSelf(s, i);
      GoodStable(s, t, i);
    }
    assert WorkerGood(s, token);
    assert Acked(t, w.extraction, w.cursor, w.cursor + count) by { RowsAcked(s, t, w.extraction, w.cursor, w.cursor + count); }
    forall k | k in t.workers ensures WorkerGood(t, k) {
      if k != token {
        assert WorkerGood(s, k);
        AckedMore(s, t, s.workers[k].extraction, s.workers[k].cursor, s.workers[k].written);
      }
    }
    HeadSame(s, t);
  }

  lemma WriteEvolves(s: State, t: State)
    requires t.versions == s.versions && t.extractions == s.extractions && t.segments == s.segments && s.acked <= t.acked
    requires t.captured == s.captured && t.indexed == s.indexed
    ensures Evolves(s, t)
  {
  }

  lemma HeadSame(s: State, t: State)
    requires HeadGood(s) && t.versions == s.versions && t.extractions == s.extractions
    requires t.captured == s.captured && t.indexed == s.indexed
    ensures HeadGood(t)
  {
  }

  lemma RowsAcked(s: State, t: State, i: nat, from: nat, to: nat)
    requires i < |s.extractions| && t.extractions == s.extractions && t.segments == s.segments
    requires Rows(s, i, from, to) <= t.acked
    ensures Acked(t, i, from, to)
  {
    if s.extractions[i].segmented {
      forall m, o | m in s.extractions[i].members && from <= o < to && Covers(t, m, o) ensures SegmentRow(m, o) in t.acked {
        assert Covers(s, m, o);
        assert SegmentRow(m, o) in Rows(s, i, from, to);
      }
    } else {
      forall o | from <= o < to ensures PlainRow(i, o) in t.acked {
        assert PlainRow(i, o) in Rows(s, i, from, to);
      }
    }
  }

  lemma AckedMore(s: State, t: State, i: nat, from: nat, to: nat)
    requires i < |s.extractions| && t.extractions == s.extractions && t.segments == s.segments && s.acked <= t.acked
    requires Acked(s, i, from, to)
    ensures Acked(t, i, from, to)
  {
    assert forall m, o :: Covers(t, m, o) == Covers(s, m, o);
  }

  lemma CheckpointEvolves(s: State, token: nat)
    requires Inv(s) && Enabled(s, Checkpoint(token))
    ensures var t, i := Apply(s, Checkpoint(token)), s.workers[token].extraction;
            OnlyOne(s, t, i) && Evolves(s, t)
  {
    hide Good, HeadGood, WorkersGood, SegmentsGood, Live;
    var t, i := Apply(s, Checkpoint(token)), s.workers[token].extraction;
    assert OnlyOne(s, t, i);
    forall j | 0 <= j < |s.extractions| ensures Live(t, j) ==> Live(s, j) { OnlyOneLive(s, t, i, j); }
    forall m | m in s.segments ensures SegmentKept(s, t, m) {}
  }

  /** Acknowledgements below the old cursor and those of this write meet. */
  lemma AckedJoin(s: State, i: nat, middle: nat, to: nat)
    requires i < |s.extractions| && Acked(s, i, 0, middle) && Acked(s, i, middle, to)
    ensures Acked(s, i, 0, to)
  {
  }

  /** The 63-ordinal lookback reaches every segment this checkpoint completes. */
  lemma CheckpointMarks(s: State, token: nat, m: SegmentId)
    requires Inv(s) && Enabled(s, Checkpoint(token)) && m in Of(s, token).members
    ensures var t := Apply(s, Checkpoint(token));
            && m in t.segments && EndOf(t.segments, m) == EndOf(s.segments, m)
            && (if EndOf(t.segments, m) <= s.workers[token].written then t.segments[m].indexed
                else m.owner == s.workers[token].extraction)
  {
    hide HeadGood, WorkersGood, SegmentsGood, Acked, Tiled;
    var i := s.workers[token].extraction;
    var e := Of(s, token);
    assert Good(s, i);
    GoodParts(s, i);
    KnownMembers(s, i);
    assert Live(s, i);
    assert e.segmented;
    var n :| 0 <= n < |e.members| && e.members[n] == m;
    TiledPositive(s.segments, e.members, e.chunkCount, n);
  }

  lemma CheckpointGood(s: State, token: nat)
    requires Inv(s) && Enabled(s, Checkpoint(token))
    ensures var t, i := Apply(s, Checkpoint(token)), s.workers[token].extraction;
            Acked(t, i, 0, s.workers[token].written) && Good(t, i)
  {
    hide HeadGood, SegmentsGood, Acked, Tiled, Live, Mark;
    var t, i := Apply(s, Checkpoint(token)), s.workers[token].extraction;
    var e, w := Of(s, token), s.workers[token];
    assert Good(s, i) && WorkerGood(s, token);
    GoodParts(s, i);
    CheckpointEvolves(s, token);
    AckedJoin(s, i, w.cursor, w.written);
    AckedStable(s, t, i, 0, w.written);
    KnownMembers(s, i);
    if e.segmented {
      TiledStable(s, t, e.members, e.chunkCount);
    }
    forall m | m in e.members
      ensures m in t.segments
      ensures if EndOf(t.segments, m) <= w.written then t.segments[m].indexed else m.owner == i
      ensures SegmentKept(s, t, m)
    {
      CheckpointMarks(s, token, m);
    }
    OnlyOneLive(s, t, i, i);
    assert Kept(t, i);
    if e.appendable {
      var k: nat :| k <= |e.members| && Tiled(s.segments, e.members[..k], e.appendCount);
      TiledStable(s, t, e.members[..k], e.appendCount);
    }
  }

  lemma CheckpointOwners(s: State, token: nat)
    requires Inv(s) && Enabled(s, Checkpoint(token))
    ensures SegmentsGood(Apply(s, Checkpoint(token)))
  {
    hide Good, HeadGood, WorkersGood;
    var t, i := Apply(s, Checkpoint(token)), s.workers[token].extraction;
    CheckpointGood(s, token);
    MarkShape(s.segments, Of(s, token).members, s.workers[token].cursor, s.workers[token].written);
    hide Mark;
    forall m, o: nat | m in t.segments && t.segments[m].indexed && Covers(t, m, o) ensures SegmentRow(m, o) in t.acked {
      assert Covers(s, m, o);
      if !s.segments[m].indexed {
        SegmentedMembers(s, i, m);
        assert m in t.extractions[i].members && o < s.workers[token].written;
      }
    }
  }

  lemma SegmentedMembers(s: State, i: nat, m: SegmentId)
    requires Inv(s) && i < |s.extractions| && m in s.extractions[i].members
    ensures s.extractions[i].segmented
  {
    assert Good(s, i);
    GoodShape(s, i);
  }

  lemma MarkShape(segments: map<SegmentId, Segment>, members: seq<SegmentId>, from: nat, to: nat)
    ensures var r := Mark(segments, members, from, to);
            && r.Keys == segments.Keys
            && forall m :: m in segments ==>
                 && r[m].count == segments[m].count && r[m].retired == segments[m].retired
                 && (r[m].indexed && !segments[m].indexed ==> m in members && EndOf(segments, m) <= to)
  {
  }

  lemma CheckpointKeeps(s: State, token: nat)
    requires Inv(s) && Enabled(s, Checkpoint(token))
    ensures var t := Apply(s, Checkpoint(token)); Evolves(s, t) && Inv(t)
  {
    hide Good, HeadGood, SegmentsGood, Acked, Live, SegmentKept, Mark;
    var t, i := Apply(s, Checkpoint(token)), s.workers[token].extraction;
    CheckpointEvolves(s, token);
    CheckpointGood(s, token);
    CheckpointOwners(s, token);
    assert Good(s, i);
    GoodShape(s, i);
    forall k | k in s.workers && s.workers[k].extraction == i
      ensures Acked(t, i, s.workers[k].cursor, s.workers[k].written)
    {
      assert WorkerGood(s, k);
      AckedStable(s, t, i, s.workers[k].cursor, s.workers[k].written);
    }
    assert WorkerGood(s, token);
    NothingAcked(t, i, t.workers[token].cursor);
    assert WorkerGood(t, token);
    OnlyOneWorkers(s, t, i, token);
    OnlyOneKeeps(s, t, i);
  }

  lemma NothingAcked(s: State, i: nat, at: nat)
    requires i < |s.extractions|
    ensures Acked(s, i, at, at)
  {
  }

  // ----- retirement -----

  lemma RetireKeeps(s: State, m: SegmentId)
    requires Inv(s) && Enabled(s, Retire(m))
    ensures var t := Apply(s, Retire(m)); Evolves(s, t) && Inv(t)
  {
    var t := Apply(s, Retire(m));
    assert t.extractions == s.extractions;
    RetireEvolves(s, m);
    hide HeadGood, Good, SegmentKept, Live, Evolves;
    forall i | 0 <= i < |t.extractions| ensures Good(t, i) {
      assert Good(s, i);
      GoodParts(s, i);
      MovedSelf(s, i);
      GoodStable(s, t, i);
    }
    RetireSegments(s, t, m);
    SameWorkers(s, t);
    HeadSame(s, t);
  }

  lemma RetireSegments(s: State, t: State, m: SegmentId)
    requires SegmentsGood(s) && m in s.segments && t == s.(segments := s.segments[m := s.segments[m].(retired := true)])
    ensures SegmentsGood(t)
  {
    assert forall k, o :: Covers(t, k, o) == Covers(s, k, o);
  }

  lemma SameWorkers(s: State, t: State)
    requires Inv(s) && Evolves(s, t) && t.extractions == s.extractions && t.workers == s.workers
    requires t.nextToken == s.nextToken
    ensures WorkersGood(t)
  {
    hide HeadGood, SegmentsGood, Good, Evolves, Acked;
    forall k | k in t.workers ensures WorkerGood(t, k) {
      assert WorkerGood(s, k);
      var i := s.workers[k].extraction;
      assert Good(s, i);
      GoodShape(s, i);
      AckedStable(s, t, i, s.workers[k].cursor, s.workers[k].written);
    }
  }

  lemma RetireEvolves(s: State, m: SegmentId)
    requires Enabled(s, Retire(m))
    ensures Evolves(s, Apply(s, Retire(m)))
  {
    var t := Apply(s, Retire(m));
    assert forall i :: 0 <= i < |s.extractions| ==> Live(t, i) == Live(s, i);
    forall k | k in s.segments ensures SegmentKept(s, t, k) {}
  }

  // ----- every run -----

  /** Every step, by whatever worker at whatever time, keeps the invariant. */
  lemma StepKeeps(s: State, step: Step)
    requires Inv(s) && Enabled(s, step)
    ensures Evolves(s, Apply(s, step)) && Inv(Apply(s, step))
  {
    hide Inv, Evolves, CopiesWhole, Writable, Live, StoreAll, Rows, Mark;
    if IsLight(s, step) {
      LightSteps(s, step);
      LightKeeps(s, Apply(s, step));
    } else if step.StoreSegment? {
      StoreKeeps(s, step.token, step.count);
    } else if step.SaveTurn? {
      SaveTurnKeeps(s, step.token, step.counts, step.complete, step.stable);
    } else if step.Seed? {
      SeedKeeps(s, step.token);
    } else if step.WriteRows? {
      WriteKeeps(s, step.token, step.count);
    } else if step.Checkpoint? {
      CheckpointKeeps(s, step.token);
    } else if step.Retire? {
      RetireKeeps(s, step.segment);
    } else if step.CompleteExtraction? {
      PlainCompleteKeeps(s, step.token, Apply(s, step).extractions[s.workers[step.token].extraction], step.count);
    } else {
      BeginKeeps(s, step.token, Of(s, step.token).(segmented := true));
    }
  }

  ghost predicate Run(trace: seq<State>, steps: seq<Step>) {
    && |trace| == |steps| + 1 && trace[0] == INITIAL
    && forall n :: 0 <= n < |steps| ==> Enabled(trace[n], steps[n]) && trace[n + 1] == Apply(trace[n], steps[n])
  }

  lemma {:induction false} RunInv(trace: seq<State>, steps: seq<Step>, n: nat)
    requires Run(trace, steps) && n < |trace|
    ensures Inv(trace[n])
  {
    hide Inv, Enabled, Apply;
    if n == 0 {
      InitialInv();
    } else {
      RunInv(trace, steps, n - 1);
      StepKeeps(trace[n - 1], steps[n - 1]);
    }
  }

  lemma InitialInv()
    ensures Inv(INITIAL)
  {
  }

  lemma {:induction false} RunEvolves(trace: seq<State>, steps: seq<Step>, m: nat, n: nat)
    requires Run(trace, steps) && m <= n < |trace|
    ensures Evolves(trace[m], trace[n])
    decreases n
  {
    hide Inv, Enabled, Apply, Evolves;
    if m == n {
      EvolvesSelf(trace[n]);
    } else {
      RunEvolves(trace, steps, m, n - 1);
      RunInv(trace, steps, n - 1);
      StepKeeps(trace[n - 1], steps[n - 1]);
      EvolvesTrans(trace[m], trace[n - 1], trace[n]);
    }
  }

  // ----- what runs promise -----

  lemma {:induction false} TiledCovers(s: State, members: seq<SegmentId>, count: nat, o: nat) returns (k: nat)
    requires Tiled(s.segments, members, count) && o < count
    ensures k < |members| && Covers(s, members[k], o)
  {
    var last := |members| - 1;
    if members[last].start <= o {
      k := last;
    } else {
      assert Tiled(s.segments, members[..last], members[last].start);
      k := TiledCovers(s, members[..last], members[last].start, o);
    }
  }

  /** Ordinal `o` of extraction `i` has an acknowledged row: its own, or that of the member
      segment that holds it, whichever extraction wrote that. */
  ghost predicate Confirmed(s: State, i: nat, o: nat)
    requires i < |s.extractions|
  {
    if s.extractions[i].segmented
    then exists m :: m in s.extractions[i].members && Covers(s, m, o) && SegmentRow(m, o) in s.acked
    else PlainRow(i, o) in s.acked
  }

  lemma HeadConfirmed(s: State, o: nat)
    requires Inv(s) && s.indexed.Some? && s.indexed.value.extraction < |s.extractions|
    requires o < s.extractions[s.indexed.value.extraction].chunkCount
    ensures Confirmed(s, s.indexed.value.extraction, o)
  {
    hide WorkersGood, SegmentsGood;
    var i := s.indexed.value.extraction;
    assert Good(s, i);
    GoodParts(s, i);
    if s.extractions[i].segmented {
      var k := TiledCovers(s, s.extractions[i].members, s.extractions[i].chunkCount, o);
      assert s.extractions[i].members[k] in s.extractions[i].members;
    }
  }

  /** Every ordinal of a published extraction was acknowledged by the index. */
  lemma PublishedIsAcknowledged(trace: seq<State>, steps: seq<Step>, n: nat, o: nat)
    requires Run(trace, steps) && n < |trace| && trace[n].indexed.Some?
    requires trace[n].indexed.value.extraction < |trace[n].extractions|
    requires o < trace[n].extractions[trace[n].indexed.value.extraction].chunkCount
    ensures Confirmed(trace[n], trace[n].indexed.value.extraction, o)
  {
    hide Inv, Enabled, Apply;
    RunInv(trace, steps, n);
    HeadConfirmed(trace[n], o);
  }

  predicate NotBefore(a: Head, b: Head) {
    a.version < b.version || (a.version == b.version && a.extraction <= b.extraction)
  }

  lemma StepAdvances(s: State, step: Step)
    requires Inv(s) && Enabled(s, step) && s.indexed.Some?
    ensures Apply(s, step).indexed.Some? && NotBefore(s.indexed.value, Apply(s, step).indexed.value)
  {
    hide Good, SegmentsGood, WorkersGood, StoreAll, Rows, Mark;
    if step.SaveTurn? {
      StoreAllHead(s, step.token, step.counts);
    }
  }

  lemma {:induction false} StoreAllHead(s: State, token: nat, counts: seq<nat>)
    requires Holds(s, token)
    ensures StoreAll(s, token, counts).indexed == s.indexed
  {
    if counts != [] {
      StoreAllHead(s, token, counts[..|counts| - 1]);
    }
  }

  /** The published (version, extraction) never goes backwards. */
  lemma {:induction false} PublicationAdvances(trace: seq<State>, steps: seq<Step>, m: nat, n: nat)
    requires Run(trace, steps) && m <= n < |trace| && trace[m].indexed.Some?
    ensures trace[n].indexed.Some? && NotBefore(trace[m].indexed.value, trace[n].indexed.value)
    decreases n
  {
    hide Inv, Enabled, Apply;
    if m < n {
      PublicationAdvances(trace, steps, m, n - 1);
      RunInv(trace, steps, n - 1);
      StepAdvances(trace[n - 1], steps[n - 1]);
    }
  }

  /** No segment of the published extraction, of the captured version or of unfinished work
      is ever retired; an extraction that is none of these never becomes one again, and
      cursors and chunk counts never go down. */
  lemma LiveSegmentsStay(trace: seq<State>, steps: seq<Step>, m: nat, n: nat, i: nat)
    requires Run(trace, steps) && m <= n < |trace| && i < |trace[m].extractions|
    ensures |trace[m].extractions| <= |trace[n].extractions|
    ensures Live(trace[n], i) ==> Live(trace[m], i)
    ensures Live(trace[n], i) ==>
              forall k :: k in trace[n].extractions[i].members ==>
                k in trace[n].segments && !trace[n].segments[k].retired
    ensures var a, b := trace[m].extractions[i], trace[n].extractions[i];
            a.cursor <= b.cursor <= b.chunkCount && a.chunkCount <= b.chunkCount && a.members <= b.members
  {
    hide Enabled, Apply, WorkersGood, SegmentsGood, HeadGood, Live;
    RunInv(trace, steps, n);
    RunEvolves(trace, steps, m, n);
    assert Good(trace[n], i);
    GoodParts(trace[n], i);
    KnownMembers(trace[n], i);
  }

  /** In every run, members tile the ordinals of a segmented extraction without gap or overlap,
      and every member wholly below the cursor is marked as indexed. */
  lemma MembersTile(trace: seq<State>, steps: seq<Step>, n: nat, i: nat)
    requires Run(trace, steps) && n < |trace| && i < |trace[n].extractions| && trace[n].extractions[i].segmented
    ensures var s, e := trace[n], trace[n].extractions[i];
            && Tiled(s.segments, e.members, e.chunkCount) && 0 <= e.cursor <= e.chunkCount
            && (forall o :: 0 <= o < e.chunkCount ==> Placed(s, e.members, o))
            && (forall m :: m in e.members && m in s.segments && EndOf(s.segments, m) <= e.cursor ==> s.segments[m].indexed)
  {
    hide Enabled, Apply, WorkersGood, SegmentsGood, HeadGood, Tiled, Covers;
    var s, e := trace[n], trace[n].extractions[i];
    RunInv(trace, steps, n);
    assert Good(s, i);
    GoodParts(s, i);
    forall o: nat | o < e.chunkCount ensures Placed(s, e.members, o) {
      var k := TiledCovers(s, e.members, e.chunkCount, o);
      forall j | 0 <= j < |e.members| && Covers(s, e.members[j], o) ensures j == k { TiledOnce(s, e.members, e.chunkCount, o, j, k); }
    }
  }

  /** Exactly one member holds ordinal `o`. */
  ghost predicate Placed(s: State, members: seq<SegmentId>, o: nat) {
    exists k :: 0 <= k < |members| && Covers(s, members[k], o)
                && forall j :: 0 <= j < |members| && Covers(s, members[j], o) ==> j == k
  }

  lemma TiledOnce(s: State, members: seq<SegmentId>, count: nat, o: nat, j: nat, k: nat)
    requires Tiled(s.segments, members, count) && j < |members| && k < |members|
    requires Covers(s, members[j], o) && Covers(s, members[k], o)
    ensures j == k
  {
    if j < k {
      TiledOrder(s.segments, members, count, j, k);
    } else if k < j {
      TiledOrder(s.segments, members, count, k, j);
    }
  }

  /** The error "append prefix segments are not complete" cannot happen. */
  lemma AppendNeverIncomplete(trace: seq<State>, steps: seq<Step>, n: nat, i: nat)
    requires Run(trace, steps) && n < |trace| && i < |trace[n].extractions| && Extendable(trace[n], i)
    ensures CopiesWhole(trace[n], i)
  {
    hide Inv, Enabled, Apply, Copied, Chunks;
    RunInv(trace, steps, n);
    AppendPrefixComplete(trace[n], i);
  }

  /** A tombstone deletes rows whose version sequence is at most its own. */
  predicate TombstoneMatches(s: State, tombstone: nat, m: SegmentId) {
    m.owner < |s.extractions| && s.extractions[m.owner].version <= tombstone
  }

  /** However late that delete executes, it spares every row of every later version, also
      rows in segments that an earlier version wrote. */
  lemma TombstoneSparesLaterVersions(trace: seq<State>, steps: seq<Step>, n: nat, tombstone: nat, i: nat, m: SegmentId)
    requires Run(trace, steps) && n < |trace| && tombstone < |trace[n].versions| && trace[n].versions[tombstone].deleted
    requires i < |trace[n].extractions| && tombstone < trace[n].extractions[i].version
    requires m in trace[n].extractions[i].members
    ensures !TombstoneMatches(trace[n], tombstone, m)
  {
    hide Enabled, Apply, WorkersGood, SegmentsGood, HeadGood;
    RunInv(trace, steps, n);
    assert Good(trace[n], i);
    GoodParts(trace[n], i);
  }
}
