/** Which segments an index worker reads (`workers/index_worker.py`, `workers/segment_runtime.py`).
    A worker reads with the cursor it remembers from its claim, and does not check first that it
    still holds that claim. */
module IndexTurns {
  import opened Wrappers
  import opened Publication

  // ----- what an index worker has yet to write is its extraction's own -----

  /** Indexing of this extraction may have begun; it is too late for an append to seed it. */
  predicate Started(e: Extraction) { e.chunkCount > 0 || e.status != Pending }

  /** Members that end after `cursor` were written by this extraction. */
  ghost predicate OwnBeyond(s: State, i: nat, cursor: nat)
    requires i < |s.extractions|
  {
    forall m :: m in s.extractions[i].members && m in s.segments && EndOf(s.segments, m) > cursor ==> m.owner == i
  }

  ghost predicate StagesStarted(s: State) {
    forall i :: 0 <= i < |s.extractions| && s.extractions[i].stage == Index ==> Started(s.extractions[i])
  }

  ghost predicate WorkerOwns(s: State, token: nat)
    requires token in s.workers
  {
    var w := s.workers[token];
    w.stage == Index ==> w.extraction < |s.extractions| && Started(s.extractions[w.extraction]) && OwnBeyond(s, w.extraction, w.cursor)
  }

  ghost predicate WorkersOwn(s: State) {
    StagesStarted(s) && forall token :: token in s.workers ==> WorkerOwns(s, token)
  }

  /** Extraction `i` gained at most members of its own. */
  predicate OwnGrowth(i: nat, a: Extraction, b: Extraction) {
    && a.members <= b.members && (forall k :: |a.members| <= k < |b.members| ==> b.members[k].owner == i)
    && (Started(a) ==> Started(b))
  }

  /** A worker that goes on, or one that has just made its claim. */
  predicate Continued(s: State, t: State, token: nat)
    requires token in t.workers
  {
    var w := t.workers[token];
    || (token in s.workers && w.extraction == s.workers[token].extraction && w.stage == s.workers[token].stage
        && s.workers[token].cursor <= w.cursor)
    || (w.extraction < |t.extractions| && w.stage == t.extractions[w.extraction].stage
        && w.cursor == t.extractions[w.extraction].cursor)
  }

  ghost predicate Tame(s: State, t: State) {
    && |s.extractions| <= |t.extractions| && StagesStarted(t)
    && (forall i :: 0 <= i < |s.extractions| ==> OwnGrowth(i, s.extractions[i], t.extractions[i]))
    && (forall token :: token in t.workers ==> Continued(s, t, token))
  }

  lemma OwnBeyondStable(s: State, t: State, i: nat, cursor: nat, later: nat)
    requires i < |s.extractions| && Evolves(s, t) && Shape(s, i) && OwnBeyond(s, i, cursor) && cursor <= later
    requires OwnGrowth(i, s.extractions[i], t.extractions[i])
    ensures OwnBeyond(t, i, later)
  {
    hide Live, Tiled;
    MembersKnown(s, i);
    var a, b := s.extractions[i].members, t.extractions[i].members;
    forall m | m in b && m in t.segments && EndOf(t.segments, m) > later ensures m.owner == i {
      var k :| 0 <= k < |b| && b[k] == m;
      if k < |a| {
        assert a[k] == m && m in a;
        assert SegmentKept(s, t, m);
      }
    }
  }

  lemma TameOwns(s: State, t: State)
    requires Inv(s) && Inv(t) && Evolves(s, t) && WorkersOwn(s) && Tame(s, t)
    ensures WorkersOwn(t)
  {
    hide Live, SegmentsGood, HeadGood, Evolves, OwnBeyond, OwnGrowth;
    forall token | token in t.workers ensures WorkerOwns(t, token) {
      var w := t.workers[token];
      assert WorkerGood(t, token) && Continued(s, t, token);
      if w.stage == Index {
        var i := w.extraction;
        if token in s.workers && i == s.workers[token].extraction && w.stage == s.workers[token].stage && s.workers[token].cursor <= w.cursor {
          assert WorkerOwns(s, token) && Good(s, i);
          GoodParts(s, i);
          OwnBeyondStable(s, t, i, s.workers[token].cursor, w.cursor);
          assert OwnGrowth(i, s.extractions[i], t.extractions[i]);
          GrowthStarted(i, s.extractions[i], t.extractions[i]);
        } else {
          assert Good(t, i);
          GoodParts(t, i);
          ProgressOwns(t, i);
        }
      }
    }
  }

  lemma GrowthStarted(i: nat, a: Extraction, b: Extraction)
    requires OwnGrowth(i, a, b) && Started(a)
    ensures Started(b)
  {
  }

  lemma ProgressOwns(s: State, i: nat)
    requires i < |s.extractions| && Progress(s, i)
    ensures OwnBeyond(s, i, s.extractions[i].cursor)
  {
    hide Acked;
  }

  lemma {:induction false} StoreAllOwn(s: State, token: nat, counts: seq<nat>)
    requires Holds(s, token)
    ensures var t, i := StoreAll(s, token, counts), s.workers[token].extraction;
            && OwnGrowth(i, s.extractions[i], t.extractions[i])
            && t.extractions == s.extractions[i := t.extractions[i]]
            && t.extractions[i] == s.extractions[i].(members := t.extractions[i].members, chunkCount := t.extractions[i].chunkCount)
            && t.extractions[i].chunkCount >= s.extractions[i].chunkCount
            && t.workers.Keys == s.workers.Keys
            && (forall k :: k in s.workers ==> t.workers[k] == s.workers[k].(chunkCount := t.workers[k].chunkCount))
  {
    if counts != [] {
      hide StoreAll;
      StoreAllOwn(s, token, counts[..|counts| - 1]);
      StoreAllUnfold(s, token, counts);
    }
  }

  lemma StoreAllUnfold(s: State, token: nat, counts: seq<nat>)
    requires Holds(s, token) && counts != []
    ensures StoreAll(s, token, counts) == Store(StoreAll(s, token, counts[..|counts| - 1]), token, counts[|counts| - 1])
  {
  }

  lemma SaveTurnTame(s: State, step: Step)
    requires Inv(s) && WorkersOwn(s) && Enabled(s, step) && step.SaveTurn?
    ensures Tame(s, Apply(s, step))
  {
    hide StoreAll, Inv, Good, Live;
    StoreAllOwn(s, step.token, step.counts);
  }

  /** One extraction changes, to one that may be indexed only if it has started. */
  lemma OneTame(s: State, t: State, i: nat)
    requires WorkersOwn(s) && i < |s.extractions| && |t.extractions| == |s.extractions| && t.extractions == s.extractions[i := t.extractions[i]]
    requires OwnGrowth(i, s.extractions[i], t.extractions[i]) && (t.extractions[i].stage == Index ==> Started(t.extractions[i]))
    requires forall token :: token in t.workers ==> Continued(s, t, token)
    ensures Tame(s, t)
  {
  }

  predicate Moves(step: Step) { step.Claim? || step.ClaimAssembly? || step.Release? || step.Exhaust? || step.DropAssembly? }

  predicate Ends(step: Step) { step.FinishPreparation? || step.FinishAssembly? || step.FinishTurn? || step.Publish? || step.CompleteExtraction? }

  lemma MoveTame(s: State, step: Step)
    requires Inv(s) && WorkersOwn(s) && Enabled(s, step) && Moves(step)
    ensures Tame(s, Apply(s, step))
  {
    hide WorkersOwn, Good, Live, SegmentsGood, HeadGood, StoreAll, Rows, Mark, Writable, Current;
    var i := if step.Release? then s.workers[step.token].extraction else step.extraction;
    StageStarted(s, i);
    OneTame(s, Apply(s, step), i);
  }

  lemma StageStarted(s: State, i: nat)
    requires WorkersOwn(s) && i < |s.extractions|
    ensures s.extractions[i].stage == Index ==> Started(s.extractions[i])
  {
  }

  lemma EndTame(s: State, step: Step)
    requires Inv(s) && WorkersOwn(s) && Enabled(s, step) && Ends(step)
    ensures Tame(s, Apply(s, step))
  {
    hide WorkersOwn, Good, Live, SegmentsGood, HeadGood, StoreAll, Rows, Mark, Writable, Current;
    var i := s.workers[step.token].extraction;
    StageStarted(s, i);
    OneTame(s, Apply(s, step), i);
  }

  lemma WorkTame(s: State, step: Step)
    requires Inv(s) && WorkersOwn(s) && Enabled(s, step)
    requires step.BeginSegmented? || step.BeginAssembly? || step.StoreSegment? || step.Checkpoint?
    ensures Tame(s, Apply(s, step))
  {
    hide WorkersOwn, Good, Live, SegmentsGood, HeadGood, StoreAll, Rows, Mark, Writable, Current;
    var i := s.workers[step.token].extraction;
    StageStarted(s, i);
    OneTame(s, Apply(s, step), i);
  }

  lemma RestTame(s: State, step: Step)
    requires Inv(s) && WorkersOwn(s) && Enabled(s, step)
    requires step.Register? || step.Reextract? || step.WriteRows? || step.Retire?
    ensures Tame(s, Apply(s, step))
  {
    hide Good, Live, SegmentsGood, HeadGood, StoreAll, Rows, Mark, Writable, Current;
  }

  /** An append seeds only an extraction whose indexing has not begun. */
  lemma SeedOwns(s: State, step: Step)
    requires Inv(s) && WorkersOwn(s) && Enabled(s, step) && step.Seed?
    requires Evolves(s, Apply(s, step)) && Inv(Apply(s, step))
    ensures WorkersOwn(Apply(s, step))
  {
    hide Live, SegmentsGood, HeadGood, Copied, CopiesWhole, Evolves, Good, Extendable;
    var t, i := Apply(s, step), s.workers[step.token].extraction;
    assert WorkerGood(s, step.token);
    forall token | token in t.workers ensures WorkerOwns(t, token) {
      var w := t.workers[token];
      if w.stage == Index {
        assert WorkerOwns(s, token);
        assert w.extraction != i && token != step.token;
        assert Good(s, w.extraction);
        GoodParts(s, w.extraction);
        OwnBeyondStable(s, t, w.extraction, w.cursor, w.cursor);
      }
    }
  }

  lemma StepOwns(s: State, step: Step)
    requires Inv(s) && WorkersOwn(s) && Enabled(s, step)
    ensures WorkersOwn(Apply(s, step))
  {
    hide Inv, Evolves, WorkersOwn, Tame, Enabled, Apply;
    StepKeeps(s, step);
    if step.Seed? {
      SeedOwns(s, step);
    } else {
      if step.SaveTurn? {
        SaveTurnTame(s, step);
      } else if Moves(step) {
        MoveTame(s, step);
      } else if Ends(step) {
        EndTame(s, step);
      } else if step.BeginSegmented? || step.BeginAssembly? || step.StoreSegment? || step.Checkpoint? {
        WorkTame(s, step);
      } else {
        RestTame(s, step);
      }
      TameOwns(s, Apply(s, step));
    }
  }

  lemma {:induction false} RunOwns(trace: seq<State>, steps: seq<Step>, n: nat)
    requires Run(trace, steps) && n < |trace|
    ensures WorkersOwn(trace[n])
  {
    hide Inv, Enabled, Apply;
    if n > 0 {
      RunOwns(trace, steps, n - 1);
      RunInv(trace, steps, n - 1);
      StepOwns(trace[n - 1], steps[n - 1]);
    }
  }

  // ----- the row generator -----

  predicate Prepared(s: State, m: SegmentId, cursor: nat) {
    m in s.segments && m.start + 63 >= cursor && m.start + s.segments[m].count > cursor && !s.segments[m].retired
  }

  /** `prepared_segments` without its page limit: members from 63 ordinals back. */
  function PreparedSegments(s: State, members: seq<SegmentId>, cursor: nat): seq<SegmentId> {
    if members == [] then []
    else PreparedSegments(s, members[..|members| - 1], cursor)
         + (if Prepared(s, members[|members| - 1], cursor) then [members[|members| - 1]] else [])
  }

  predicate Gone(s: State, m: SegmentId) { m in s.segments && s.segments[m].retired }

  function Unretired(s: State, ms: seq<SegmentId>): seq<SegmentId> {
    if ms == [] then [] else Unretired(s, ms[..|ms| - 1]) + if Gone(s, ms[|ms| - 1]) then [] else [ms[|ms| - 1]]
  }

  lemma {:induction false} UnretiredConcat(s: State, a: seq<SegmentId>, b: seq<SegmentId>)
    ensures Unretired(s, a + b) == Unretired(s, a) + Unretired(s, b)
  {
    if b == [] {
      assert a + b == a;
    } else {
      var n := |b| - 1;
      assert (a + b)[..|a| + n] == a + b[..n];
      UnretiredConcat(s, a, b[..n]);
    }
  }

  lemma UnretiredHead(s: State, ms: seq<SegmentId>)
    requires ms != []
    ensures Unretired(s, ms) == (if Gone(s, ms[0]) then [] else [ms[0]]) + Unretired(s, ms[1..])
  {
    assert ms == [ms[0]] + ms[1..];
    UnretiredConcat(s, [ms[0]], ms[1..]);
    assert [ms[0]][..0] == [];
  }

  lemma {:induction false} UnretiredMembers(s: State, ms: seq<SegmentId>)
    ensures forall m :: m in Unretired(s, ms) <==> m in ms && !Gone(s, m)
    ensures Intact(s, ms) ==> Unretired(s, ms) == ms
    ensures !Intact(s, ms) ==> |Unretired(s, ms)| < |ms|
    ensures |Unretired(s, ms)| <= |ms|
  {
    if ms != [] {
      var n := |ms| - 1;
      assert ms == ms[..n] + [ms[n]];
      UnretiredMembers(s, ms[..n]);
    }
  }

  predicate Intact(s: State, ms: seq<SegmentId>) { forall m :: m in ms ==> !Gone(s, m) }

  lemma {:induction false} PreparedNone(s: State, members: seq<SegmentId>, count: nat, cursor: nat)
    requires Tiled(s.segments, members, count) && count <= cursor
    ensures PreparedSegments(s, members, cursor) == []
  {
    if members != [] {
      var last := |members| - 1;
      assert Tiled(s.segments, members[..last], members[last].start);
      PreparedNone(s, members[..last], members[last].start, cursor);
    }
  }

  /** The lookback query selects what is not retired from the member that holds the cursor on. */
  lemma {:induction false} PreparedIs(s: State, members: seq<SegmentId>, count: nat, cursor: nat) returns (k: nat)
    requires Tiled(s.segments, members, count) && cursor < count
    ensures k < |members| && Covers(s, members[k], cursor)
    ensures PreparedSegments(s, members, cursor) == Unretired(s, members[k..])
  {
    var last := |members| - 1;
    var m := members[last];
    assert Tiled(s.segments, members[..last], m.start);
    if m.start <= cursor {
      k := last;
      PreparedNone(s, members[..last], m.start, cursor);
      assert members[last..] == [m] && [m][..0] == [];
    } else {
      k := PreparedIs(s, members[..last], m.start, cursor);
      assert members[k..] == members[..last][k..] + [m];
    }
  }

  datatype Reading = Reads(upto: nat) | NotContiguous | Missing

  /** The generator walks the selected segments from `position`. */
  function Walk(s: State, ms: seq<SegmentId>, position: nat): Reading {
    if ms == [] then Reads(position)
    else if Covers(s, ms[0], position) then Walk(s, ms[1..], ms[0].start + s.segments[ms[0]].count)
    else NotContiguous
  }

  function Page(limit: nat, ms: seq<SegmentId>): seq<SegmentId> { if |ms| <= limit then ms else ms[..limit] }

  /** One turn of the generator for a worker at `cursor` of `count`. */
  function Generate(s: State, members: seq<SegmentId>, cursor: nat, count: nat, limit: nat): Reading {
    var r := Walk(s, Page(limit, PreparedSegments(s, members, cursor)), cursor);
    if r == Reads(cursor) && cursor != count then Missing else r
  }

  /** Known, nonempty segments, each beginning where the one before ends. */
  ghost predicate Chain(s: State, ms: seq<SegmentId>) {
    && (forall j :: 0 <= j < |ms| ==> ms[j] in s.segments && s.segments[ms[j]].count >= 1)
    && (forall j :: 0 <= j < |ms| - 1 ==> ms[j + 1].start == EndOf(s.segments, ms[j]))
  }

  /** The first retired member is among the first `limit`, and one after it is not retired. */
  ghost predicate Gap(s: State, ms: seq<SegmentId>, limit: nat) { exists j: nat :: j < limit && GapAt(s, ms, j) }

  ghost predicate GapAt(s: State, ms: seq<SegmentId>, j: nat) {
    j < |ms| && Gone(s, ms[j]) && Intact(s, ms[..j]) && !AllGone(s, ms[j..])
  }

  predicate AllGone(s: State, ms: seq<SegmentId>) { forall m :: m in ms ==> Gone(s, m) }

  lemma {:induction false} ChainBeyond(s: State, ms: seq<SegmentId>, j: nat)
    requires Chain(s, ms) && 0 < j < |ms|
    ensures ms[j].start >= EndOf(s.segments, ms[0])
  {
    if j > 1 {
      ChainBeyond(s, ms, j - 1);
      assert ms[j - 1 + 1].start == EndOf(s.segments, ms[j - 1]);
    }
  }

  lemma GapAtHead(s: State, ms: seq<SegmentId>, j: nat)
    requires ms != [] && Gone(s, ms[0])
    ensures GapAt(s, ms, j) <==> j == 0 && !AllGone(s, ms)
  {
    hide Gone;
    assert ms[0..] == ms && ms[..0] == [];
    if 0 < j < |ms| {
      assert ms[..j][0] == ms[0] && ms[0] in ms[..j];
    }
  }

  lemma GapAtNext(s: State, ms: seq<SegmentId>, j: nat)
    requires ms != [] && !Gone(s, ms[0])
    ensures j == 0 ==> !GapAt(s, ms, j)
    ensures j > 0 ==> (GapAt(s, ms, j) <==> GapAt(s, ms[1..], j - 1))
  {
    hide Gone;
    var rest := ms[1..];
    if 0 < j < |ms| {
      assert rest[j - 1] == ms[j] && rest[j - 1..] == ms[j..];
      assert ms[..j] == [ms[0]] + rest[..j - 1];
    }
  }

  lemma GapShift(s: State, ms: seq<SegmentId>, limit: nat)
    requires ms != [] && limit > 0
    ensures Gone(s, ms[0]) ==> (Gap(s, ms, limit) <==> !AllGone(s, ms))
    ensures !Gone(s, ms[0]) ==> (Gap(s, ms, limit) <==> Gap(s, ms[1..], limit - 1))
  {
    hide Gone, AllGone, GapAt;
    if Gone(s, ms[0]) {
      forall j: nat ensures GapAt(s, ms, j) <==> j == 0 && !AllGone(s, ms) { GapAtHead(s, ms, j); }
      assert !AllGone(s, ms) ==> GapAt(s, ms, 0);
    } else {
      forall j: nat ensures j == 0 ==> !GapAt(s, ms, j) { GapAtNext(s, ms, j); }
      forall j: nat | j > 0 ensures GapAt(s, ms, j) <==> GapAt(s, ms[1..], j - 1) { GapAtNext(s, ms, j); }
      if j: nat :| j < limit - 1 && GapAt(s, ms[1..], j) {
        assert GapAt(s, ms, j + 1);
      }
    }
  }

  /** The first segment selected lies beyond a retired one. */
  lemma Skipped(s: State, ms: seq<SegmentId>, position: nat, limit: nat)
    requires Chain(s, ms) && ms != [] && Covers(s, ms[0], position) && Gone(s, ms[0]) && limit > 0
    ensures Walk(s, Page(limit, Unretired(s, ms)), position) == if AllGone(s, ms) then Reads(position) else NotContiguous
  {
    hide Unretired, Gone;
    var u := Unretired(s, ms);
    UnretiredMembers(s, ms);
    if u == [] {
      assert AllGone(s, ms);
    } else {
      assert u[0] in u && u[0] in ms && !AllGone(s, ms);
      var y :| 0 <= y < |ms| && ms[y] == u[0];
      assert y > 0;
      ChainBeyond(s, ms, y);
      assert Page(limit, u)[0] == u[0];
    }
  }

  lemma PageHead(limit: nat, m: SegmentId, u: seq<SegmentId>)
    requires limit > 0
    ensures var p := Page(limit, [m] + u); p != [] && p[0] == m && p[1..] == Page(limit - 1, u)
  {
  }

  /** The walk fails exactly at a gap. */
  lemma {:induction false} WalkExact(s: State, ms: seq<SegmentId>, position: nat, limit: nat)
    requires Chain(s, ms) && (ms != [] ==> Covers(s, ms[0], position))
    ensures var r := Walk(s, Page(limit, Unretired(s, ms)), position);
            && r != Missing && (r == NotContiguous <==> Gap(s, ms, limit))
            && (limit > 0 ==> (r == Reads(position) <==> AllGone(s, ms)))
            && (r.Reads? ==> r.upto >= position)
    decreases |ms|
  {
    hide Unretired, Gap, Gone, Page;
    if ms == [] || limit == 0 {
      NoWalk(s, ms, limit);
    } else {
      GapShift(s, ms, limit);
      if Gone(s, ms[0]) {
        Skipped(s, ms, position, limit);
      } else {
        var rest, end := ms[1..], EndOf(s.segments, ms[0]);
        assert Chain(s, rest) && (rest != [] ==> Covers(s, rest[0], end)) by { ChainRest(s, ms); }
        hide Chain;
        WalkExact(s, rest, end, limit - 1);
        UnretiredHead(s, ms);
        PageHead(limit, ms[0], Unretired(s, rest));
        assert ms[0] in ms && !AllGone(s, ms);
      }
    }
  }

  lemma ChainRest(s: State, ms: seq<SegmentId>)
    requires Chain(s, ms) && ms != []
    ensures Chain(s, ms[1..]) && (|ms| > 1 ==> Covers(s, ms[1], EndOf(s.segments, ms[0])))
  {
    var rest := ms[1..];
    forall j | 0 <= j < |rest| - 1 ensures rest[j + 1].start == EndOf(s.segments, rest[j]) {
      assert rest[j] == ms[j + 1] && ms[j + 1 + 1].start == EndOf(s.segments, ms[j + 1]);
    }
  }

  lemma NoWalk(s: State, ms: seq<SegmentId>, limit: nat)
    requires ms == [] || limit == 0
    ensures Page(limit, Unretired(s, ms)) == [] && !Gap(s, ms, limit)
  {
  }

  /** For every index worker in every run, late or not: what it has yet to write is a contiguous
      run of its extraction's own segments that begins with the one holding its cursor; the
      lookback finds exactly that unless a member of it is retired; its two errors occur exactly
      when one of the next `limit` is retired before one that is not, and when all are retired;
      and none is retired while the extraction is live or the claim is held. */
  lemma NextSegmentsFound(trace: seq<State>, steps: seq<Step>, n: nat, token: nat, limit: nat) returns (k: nat)
    requires Run(trace, steps) && n < |trace| && token in trace[n].workers && limit >= 1
    requires trace[n].workers[token].extraction < |trace[n].extractions|
    requires var s, w := trace[n], trace[n].workers[token];
             w.stage == Index && s.extractions[w.extraction].segmented && w.cursor < w.chunkCount
    ensures var s, w := trace[n], trace[n].workers[token];
            var members := s.extractions[w.extraction].members;
            && k < |members| && Covers(s, members[k], w.cursor) && Chain(s, members[k..])
            && (forall m :: m in members[k..] ==> m.owner == w.extraction)
            && (PreparedSegments(s, members, w.cursor) == members[k..] <==> Intact(s, members[k..]))
            && (Generate(s, members, w.cursor, w.chunkCount, limit) == NotContiguous <==> Gap(s, members[k..], limit))
            && (Generate(s, members, w.cursor, w.chunkCount, limit) == Missing <==> AllGone(s, members[k..]))
            && (Live(s, w.extraction) || OwnsIndex(s, token) ==> Intact(s, members[k..]))
  {
    hide Enabled, Apply, SegmentsGood, HeadGood, PreparedSegments, Unretired, Walk, Gap;
    var s, w := trace[n], trace[n].workers[token];
    var e := s.extractions[w.extraction];
    RunInv(trace, steps, n);
    RunOwns(trace, steps, n);
    assert WorkerGood(s, token) && WorkerOwns(s, token) && Good(s, w.extraction);
    GoodParts(s, w.extraction);
    k := PreparedIs(s, e.members, e.chunkCount, w.cursor);
    var suffix := e.members[k..];
    assert Chain(s, suffix) by { TiledChain(s, e.members, e.chunkCount, k); }
    WalkExact(s, suffix, w.cursor, limit);
    UnretiredMembers(s, suffix);
    forall m | m in suffix ensures m.owner == w.extraction {
      var j :| 0 <= j < |suffix| && suffix[j] == m;
      if j > 0 { ChainBeyond(s, suffix, j); }
      assert m in e.members;
    }
    MembersKnown(s, w.extraction);
    assert forall m :: m in suffix ==> m in e.members;
  }

  lemma TiledChain(s: State, members: seq<SegmentId>, count: nat, k: nat)
    requires Tiled(s.segments, members, count) && k <= |members|
    ensures Chain(s, members[k..])
  {
    var suffix := members[k..];
    forall j | 0 <= j < |suffix| - 1 ensures suffix[j + 1].start == EndOf(s.segments, suffix[j]) {
      assert suffix[j] == members[k + j] && suffix[j + 1] == members[k + j + 1];
    }
  }

  // ----- both errors happen to late workers -----

  lemma RunMore(trace: seq<State>, steps: seq<Step>, step: Step) returns (longer: seq<State>, more: seq<Step>)
    requires Run(trace, steps) && Enabled(trace[|steps|], step)
    ensures longer == trace + [Apply(trace[|steps|], step)] && more == steps + [step] && Run(longer, more)
  {
    longer, more := trace + [Apply(trace[|steps|], step)], steps + [step];
  }

  const FIRST := SegmentId(0, 0)
  const SECOND := SegmentId(0, 1)

  /** The extraction of the first version while it is being prepared. */
  const PREPARING := Extraction(0, true, Pending, false, 0, [], false, 0, Transform, Running, Some(0), 0)

  /** It is ready to be indexed, in two segments of one chunk. */
  const PREPARED := Extraction(0, true, Done, true, 2, [FIRST, SECOND], true, 0, Index, Ready, None, 0)

  lemma PreparingRun() returns (trace: seq<State>, steps: seq<Step>)
    ensures Run(trace, steps) && |trace| == 4 && steps == [Register(None, false), Claim(0), BeginSegmented(0)]
    ensures trace[3] == State([Version(false)], [PREPARING], map[], Some(0), None, map[0 := Worker(0, Transform, 0, 0, 0)], 1, {})
  {
    hide Run;
    trace, steps := [INITIAL], [];
    assert Run(trace, steps) by { RunNothing(); }
    trace, steps := RunMore(trace, steps, Register(None, false));
    trace, steps := RunMore(trace, steps, Claim(0));
    trace, steps := RunMore(trace, steps, BeginSegmented(0));
  }

  lemma RunNothing()
    ensures Run([INITIAL], [])
  {
  }

  lemma PreparedRun() returns (trace: seq<State>, steps: seq<Step>)
    ensures Run(trace, steps) && |trace| == 6 && |steps| == 5 && steps[3] == SaveTurn(0, [1, 1], true, 0) && steps[4] == Claim(0)
    ensures trace[5].versions == [Version(false)] && trace[5].captured == Some(0) && trace[5].indexed == None
    ensures trace[5].extractions == [PREPARED.(work := Running, token := Some(1))]
    ensures trace[5].segments == map[FIRST := Segment(1, false, false), SECOND := Segment(1, false, false)]
    ensures trace[5].workers == map[0 := Worker(0, Transform, 2, 0, 0), 1 := Worker(0, Index, 2, 0, 0)]
  {
    hide Run;
    trace, steps := PreparingRun();
    var s := trace[3];
    assert [1, 1][..1] == [1] && [1][..0] == [] && [1, 1][..0] == [];
    assert StoreAll(s, 0, []) == s;
    assert StoreAll(s, 0, [1]) == Store(s, 0, 1);
    var t := StoreAll(s, 0, [1, 1]);
    assert t == Store(Store(s, 0, 1), 0, 1);
    assert Of(t, 0) == PREPARING.(members := [FIRST, SECOND], chunkCount := 2);
    trace, steps := RunMore(trace, steps, SaveTurn(0, [1, 1], true, 0));
    assert trace[4].extractions[0] == PREPARED;
    trace, steps := RunMore(trace, steps, Claim(0));
  }

  /** A newer version is captured while worker 1 indexes the first; the work is superseded and
      its first segment retired. Worker 1 now finds that its segments are not contiguous. */
  lemma LateWorkerNotContiguous() returns (trace: seq<State>, steps: seq<Step>)
    ensures Run(trace, steps) && |trace| == 9 && |steps| == 8
    ensures steps[5..] == [Register(Some(0), false), Claim(0), Retire(FIRST)]
    ensures var s := trace[8];
            && 1 in s.workers && s.workers[1] == Worker(0, Index, 2, 0, 0) && |s.extractions| == 2
            && s.extractions == [PREPARED.(work := Superseded), New(1, false)] && s.captured == Some(1) && s.indexed == None
            && s.segments == map[FIRST := Segment(1, false, true), SECOND := Segment(1, false, false)]
            && Generate(s, s.extractions[0].members, 0, 2, 8) == NotContiguous
  {
    hide Run;
    trace, steps := PreparedRun();
    trace, steps := RunMore(trace, steps, Register(Some(0), false));
    trace, steps := RunMore(trace, steps, Claim(0));
    trace, steps := RunMore(trace, steps, Retire(FIRST));
    var s := trace[8];
    assert [FIRST, SECOND][..1] == [FIRST] && [FIRST][..0] == [];
    assert PreparedSegments(s, [FIRST], 0) == [];
    assert PreparedSegments(s, [FIRST, SECOND], 0) == [SECOND];
  }

  /** Once the second segment is retired too, its segments are missing. */
  lemma LateWorkerMissing() returns (trace: seq<State>, steps: seq<Step>)
    ensures Run(trace, steps) && |trace| == 10 && |steps| == 9 && steps[8] == Retire(SECOND)
    ensures var s := trace[9];
            && 1 in s.workers && s.workers[1] == Worker(0, Index, 2, 0, 0) && |s.extractions| == 2
            && Generate(s, s.extractions[0].members, 0, 2, 8) == Missing
  {
    hide Run;
    trace, steps := LateWorkerNotContiguous();
    trace, steps := RunMore(trace, steps, Retire(SECOND));
    var s := trace[9];
    assert [FIRST, SECOND][..1] == [FIRST] && [FIRST][..0] == [];
    assert PreparedSegments(s, [FIRST], 0) == [];
    assert PreparedSegments(s, [FIRST, SECOND], 0) == [];
  }
}
