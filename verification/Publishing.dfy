/** What publication achieves: when the head moves, that everything complete was published, and
    that a current extraction can always be brought to publication (`workers/index_publish.py`,
    `workers/index_worker.py`). */
module Publishing {
  import opened Wrappers
  import opened Publication

  // ----- when the head moves -----

  /** The extraction a step publishes: prepared, indexed to its end, of the captured version, and
      not older than what is published of that version. */
  ghost predicate Publishes(s: State, step: Step, i: nat) {
    && step.Publish? && OwnsIndex(s, step.token) && i == s.workers[step.token].extraction && i < |s.extractions|
    && s.extractions[i].status == Done && s.extractions[i].cursor == s.extractions[i].chunkCount
    && (s.extractions[i].segmented ==> s.extractions[i].verified)
    && s.captured == Some(s.extractions[i].version)
    && !(s.indexed.Some? && s.indexed.value.version == s.extractions[i].version && s.indexed.value.extraction > i)
  }

  lemma {:induction false} StoreAllKeepsWork(s: State, token: nat, counts: seq<nat>)
    requires Holds(s, token)
    ensures var t := StoreAll(s, token, counts);
            && t.indexed == s.indexed && |t.extractions| == |s.extractions|
            && forall j :: 0 <= j < |s.extractions| ==> t.extractions[j].work == s.extractions[j].work
  {
    if counts != [] {
      StoreAllKeepsWork(s, token, counts[..|counts| - 1]);
    }
  }

  /** The head moves exactly when such an extraction is published, and to it; only then does work
      become complete. */
  lemma HeadStep(s: State, step: Step, j: nat)
    requires Enabled(s, step) && j < |s.extractions|
    ensures var t := Apply(s, step);
            && j < |t.extractions|
            && (Publishes(s, step, j) ==> t.indexed == Some(Head(s.extractions[j].version, j)) && t.extractions[j].work == Complete)
            && (t.extractions[j].work == Complete ==> s.extractions[j].work == Complete || Publishes(s, step, j))
  {
    hide StoreAll, Rows, Mark, Copied, CopiesWhole, Writable, Live;
    if step.SaveTurn? {
      StoreAllKeepsWork(s, step.token, step.counts);
    }
  }

  lemma HeadMoves(s: State, step: Step)
    requires Enabled(s, step) && Apply(s, step).indexed != s.indexed
    ensures step.Publish? && step.token in s.workers && Publishes(s, step, s.workers[step.token].extraction)
  {
    hide StoreAll, Rows, Mark, Copied, CopiesWhole, Writable, Live;
    if step.SaveTurn? {
      StoreAllKeepsWork(s, step.token, step.counts);
    }
  }

  /** The step before `n` published extraction `i`. */
  ghost predicate PublishedAt(trace: seq<State>, steps: seq<Step>, k: nat, i: nat) {
    && k < |steps| && k + 1 < |trace| && Publishes(trace[k], steps[k], i) && i < |trace[k].extractions|
    && trace[k + 1].indexed == Some(Head(trace[k].extractions[i].version, i))
  }

  /** In every run, an extraction whose work is complete was the published head, and the head is
      the extraction published last. */
  lemma {:induction false} CompleteWasPublished(trace: seq<State>, steps: seq<Step>, n: nat, i: nat)
    requires Run(trace, steps) && n < |trace| && i < |trace[n].extractions| && trace[n].extractions[i].work == Complete
    ensures exists k: nat :: k < n && PublishedAt(trace, steps, k, i)
  {
    hide Enabled, Apply, Publishes;
    if n > 0 {
      if i < |trace[n - 1].extractions| {
        HeadStep(trace[n - 1], steps[n - 1], i);
        if trace[n - 1].extractions[i].work == Complete {
          CompleteWasPublished(trace, steps, n - 1, i);
        } else {
          assert PublishedAt(trace, steps, n - 1, i);
        }
      } else {
        NewIsNotComplete(trace[n - 1], steps[n - 1], i);
      }
    }
  }

  lemma NewIsNotComplete(s: State, step: Step, i: nat)
    requires Enabled(s, step) && |s.extractions| <= i < |Apply(s, step).extractions|
    ensures Apply(s, step).extractions[i].work == Ready
  {
    hide StoreAll, Rows, Mark, Copied, CopiesWhole, Writable, Live;
    if step.SaveTurn? {
      StoreAllKeepsWork(s, step.token, step.counts);
    }
  }

  /** In every run the head is what was published last. */
  lemma {:induction false} HeadWasPublished(trace: seq<State>, steps: seq<Step>, n: nat)
    requires Run(trace, steps) && n < |trace| && trace[n].indexed.Some?
    ensures exists k: nat :: k < n && PublishedAt(trace, steps, k, trace[n].indexed.value.extraction)
                             && trace[k + 1].indexed == trace[n].indexed
  {
    hide Enabled, Apply, Publishes;
    if n > 0 {
      if trace[n].indexed == trace[n - 1].indexed {
        HeadWasPublished(trace, steps, n - 1);
      } else {
        HeadMoves(trace[n - 1], steps[n - 1]);
        var i := trace[n - 1].workers[steps[n - 1].token].extraction;
        PublishesInRange(trace[n - 1], steps[n - 1], i);
        HeadStep(trace[n - 1], steps[n - 1], i);
        assert PublishedAt(trace, steps, n - 1, i);
      }
    }
  }

  lemma PublishesInRange(s: State, step: Step, i: nat)
    requires Publishes(s, step, i)
    ensures i < |s.extractions|
  {
  }

  // ----- a current extraction can always be published -----

  ghost predicate Path(trace: seq<State>, steps: seq<Step>) {
    && |trace| == |steps| + 1
    && forall n :: 0 <= n < |steps| ==> Enabled(trace[n], steps[n]) && trace[n + 1] == Apply(trace[n], steps[n])
  }

  /** Steps lead from `s` to `t`. */
  ghost predicate Leads(s: State, t: State) {
    exists trace, steps :: Path(trace, steps) && trace[0] == s && trace[|steps|] == t
  }

  lemma LeadsNowhere(s: State)
    ensures Leads(s, s)
  {
    var trace: seq<State>, steps: seq<Step> := [s], [];
    assert Path(trace, steps) && trace[0] == s && trace[|steps|] == s;
  }

  lemma PathMore(trace: seq<State>, steps: seq<Step>, step: Step)
    requires Path(trace, steps) && Enabled(trace[|steps|], step)
    ensures Path(trace + [Apply(trace[|steps|], step)], steps + [step])
  {
    hide Enabled, Apply;
    var longer, more := trace + [Apply(trace[|steps|], step)], steps + [step];
    forall n | 0 <= n < |more| ensures Enabled(longer[n], more[n]) && longer[n + 1] == Apply(longer[n], more[n]) {
      if n < |steps| {
        assert longer[n] == trace[n] && longer[n + 1] == trace[n + 1] && more[n] == steps[n];
      }
    }
  }

  lemma LeadsMore(first: State, s: State, step: Step)
    requires Leads(first, s) && Enabled(s, step)
    ensures Leads(first, Apply(s, step))
  {
    var trace, steps :| Path(trace, steps) && trace[0] == first && trace[|steps|] == s;
    assert |trace| == |steps| + 1;
    hide Path, Enabled, Apply;
    PathMore(trace, steps, step);
    var longer, more := trace + [Apply(s, step)], steps + [step];
    assert Path(longer, more) && longer[0] == first && longer[|more|] == Apply(s, step);
  }

  lemma Next(first: State, s: State, step: Step) returns (t: State)
    requires Leads(first, s) && Inv(s) && Enabled(s, step)
    ensures t == Apply(s, step) && Leads(first, t) && Inv(t)
  {
    hide Inv, Leads, Enabled, Apply;
    t := Apply(s, step);
    StepKeeps(s, step);
    LeadsMore(first, s, step);
  }

  ghost predicate Claimable(s: State, i: nat) {
    i < |s.extractions| && Current(s, i) && s.extractions[i].work in {Ready, Running}
  }

  /** Worker `token` holds extraction `i`, with nothing written beyond its cursor. */
  ghost predicate HasClaim(s: State, i: nat, token: nat) {
    && i < |s.extractions| && Current(s, i) && s.extractions[i].work == Running && s.extractions[i].token == Some(token)
    && token in s.workers
    && s.workers[token] == Worker(i, s.extractions[i].stage, s.extractions[i].chunkCount, s.extractions[i].cursor, s.extractions[i].cursor)
  }

  lemma ClaimIt(first: State, s: State, i: nat) returns (t: State)
    requires Leads(first, s) && Inv(s) && Claimable(s, i)
    ensures Leads(first, t) && Inv(t) && HasClaim(t, i, s.nextToken)
    ensures t.extractions[i] == s.extractions[i].(work := Running, token := Some(s.nextToken))
  {
    hide Inv, Leads;
    t := Next(first, s, Claim(i));
  }

  lemma OwnRows(s: State, i: nat)
    requires Inv(s) && i < |s.extractions|
    ensures Writable(s, i, s.extractions[i].cursor, s.extractions[i].chunkCount)
  {
    hide SegmentsGood, HeadGood, WorkersGood, Acked;
    assert Good(s, i);
    GoodParts(s, i);
  }

  /** Index what is prepared. */
  lemma IndexIt(first: State, s: State, i: nat, token: nat) returns (t: State)
    requires Leads(first, s) && Inv(s) && HasClaim(s, i, token) && s.extractions[i].stage == Index
    ensures Leads(first, t) && Inv(t) && HasClaim(t, i, token)
    ensures t.extractions[i] == s.extractions[i].(cursor := s.extractions[i].chunkCount)
  {
    hide Inv, Leads, Writable, Rows, Mark;
    var e := s.extractions[i];
    t := s;
    CursorWithin(s, i);
    if e.cursor < e.chunkCount {
      OwnRows(s, i);
      t := Next(first, t, WriteRows(token, e.chunkCount - e.cursor));
      t := Next(first, t, Checkpoint(token));
    }
  }

  lemma CursorWithin(s: State, i: nat)
    requires Inv(s) && i < |s.extractions|
    ensures s.extractions[i].cursor <= s.extractions[i].chunkCount
  {
    hide SegmentsGood, HeadGood, WorkersGood;
    assert Good(s, i);
    GoodParts(s, i);
  }

  lemma PublishIt(first: State, s: State, i: nat) returns (t: State)
    requires Leads(first, s) && Inv(s) && Claimable(s, i)
    requires var e := s.extractions[i]; e.stage == Index && e.status == Done && (e.segmented ==> e.verified)
    ensures Leads(first, t) && t.indexed == Some(Head(s.extractions[i].version, i)) && i < |t.extractions| && t.extractions[i].work == Complete
  {
    hide Inv, Leads;
    t := ClaimIt(first, s, i);
    t := IndexIt(first, t, i, s.nextToken);
    t := Next(first, t, Publish(s.nextToken));
  }

  /** Finish the preparation of a native extraction. */
  lemma PrepareIt(first: State, s: State, i: nat) returns (t: State)
    requires Leads(first, s) && Inv(s) && Claimable(s, i)
    requires var e := s.extractions[i]; e.stage == Transform && e.status == Pending
    ensures Leads(first, t) && Inv(t) && Claimable(t, i) && t.extractions[i].version == s.extractions[i].version
    ensures var e := t.extractions[i]; e.stage == Index && e.status == Done && e.segmented && e.verified
  {
    hide Inv, Leads;
    t := ClaimIt(first, s, i);
    var token := s.nextToken;
    if !s.extractions[i].segmented {
      PlainUnprepared(s, i);
      t := Next(first, t, BeginSegmented(token));
    }
    t := Next(first, t, SaveTurn(token, [], true, 0));
  }

  lemma PlainUnprepared(s: State, i: nat)
    requires Inv(s) && i < |s.extractions| && !s.extractions[i].segmented && s.extractions[i].stage == Transform
    ensures s.extractions[i].chunkCount == 0
  {
    hide SegmentsGood, HeadGood, WorkersGood;
    assert Good(s, i);
    GoodParts(s, i);
  }

  /** Index a prepared part and hand the extraction back to preparation. */
  lemma TurnBack(first: State, s: State, i: nat) returns (t: State)
    requires Leads(first, s) && Inv(s) && Claimable(s, i)
    requires var e := s.extractions[i]; e.stage == Index && e.status in {Pending, WaitingProvider} && e.segmented
    ensures Leads(first, t) && Inv(t) && i < |t.extractions| && Current(t, i) && t.extractions[i].version == s.extractions[i].version
    ensures t.extractions[i].stage == Transform && t.extractions[i].status == s.extractions[i].status
    ensures t.extractions[i].work == if s.extractions[i].status == Pending then Ready else Waiting
  {
    hide Inv, Leads;
    t := ClaimIt(first, s, i);
    t := IndexIt(first, t, i, s.nextToken);
    t := Next(first, t, FinishTurn(s.nextToken));
  }

  /** Assemble the provider's answers. */
  lemma AssembleIt(first: State, s: State, i: nat) returns (t: State)
    requires Leads(first, s) && Inv(s) && i < |s.extractions| && Current(s, i)
    requires var e := s.extractions[i]; e.stage == Transform && e.status == WaitingProvider && e.work == Waiting
    ensures Leads(first, t) && Inv(t) && Claimable(t, i) && t.extractions[i].version == s.extractions[i].version
    ensures var e := t.extractions[i]; e.stage == Index && e.status == Done && e.segmented && e.verified
  {
    hide Inv, Leads;
    t := Next(first, s, ClaimAssembly(i));
    t := Next(first, t, BeginAssembly(s.nextToken));
    t := Next(first, t, FinishAssembly(s.nextToken, true));
  }

  /** What can still come to publication: it waits for preparation, for indexing or for the
      provider, and its work was not given up. */
  ghost predicate Promising(s: State, i: nat) {
    && i < |s.extractions| && Current(s, i)
    && var e := s.extractions[i];
       if e.status == WaitingProvider && e.stage == Transform then e.work == Waiting
       else
         && e.work in {Ready, Running}
         && (|| (e.status == Pending && (e.stage == Transform || e.segmented))
             || (e.status == WaitingProvider && e.segmented)
             || (e.status == Done && e.stage == Index && (e.segmented ==> e.verified)))
  }

  /** From every state of every run, whatever workers did or left undone, a promising extraction
      of the captured version can be brought to publication. */
  lemma AlwaysPublishable(trace: seq<State>, steps: seq<Step>, n: nat, i: nat) returns (t: State)
    requires Run(trace, steps) && n < |trace| && Promising(trace[n], i)
    ensures Leads(trace[n], t) && t.indexed == Some(Head(trace[n].extractions[i].version, i))
  {
    hide Inv, Leads, Enabled, Apply, Current;
    var s := trace[n];
    RunInv(trace, steps, n);
    LeadsNowhere(s);
    t := s;
    if t.extractions[i].status in {Pending, WaitingProvider} {
      if t.extractions[i].stage == Index {
        t := TurnBack(s, t, i);
      }
      if t.extractions[i].status == Pending {
        t := PrepareIt(s, t, i);
      } else {
        t := AssembleIt(s, t, i);
      }
    }
    t := PublishIt(s, t, i);
  }

  // ----- claims are lost for good -----

  /** The work this step concerns, which ends every claim on it made before. */
  function Ended(s: State, step: Step): Option<nat>
    requires Enabled(s, step)
  {
    match step
    case Claim(i) => Some(i)
    case ClaimAssembly(i) => Some(i)
    case Exhaust(i) => Some(i)
    case DropAssembly(i, _) => Some(i)
    case Release(token, _) => Some(s.workers[token].extraction)
    case SaveTurn(token, _, _, _) => Some(s.workers[token].extraction)
    case CompleteExtraction(token, _) => Some(s.workers[token].extraction)
    case FinishPreparation(token) => Some(s.workers[token].extraction)
    case FinishAssembly(token, _) => Some(s.workers[token].extraction)
    case FinishTurn(token) => Some(s.workers[token].extraction)
    case Publish(token) => Some(s.workers[token].extraction)
    case _ => None
  }

  lemma {:induction false} StoreAllKeepsClaims(s: State, token: nat, counts: seq<nat>)
    requires Holds(s, token)
    ensures var t := StoreAll(s, token, counts);
            && t.workers.Keys == s.workers.Keys && |t.extractions| == |s.extractions|
            && (forall k :: k in s.workers ==> t.workers[k].extraction == s.workers[k].extraction)
            && forall j :: 0 <= j < |s.extractions| ==> t.extractions[j].token == s.extractions[j].token
  {
    if counts != [] {
      StoreAllKeepsClaims(s, token, counts[..|counts| - 1]);
    }
  }

  lemma TokenOld(s: State, token: nat)
    requires Inv(s) && token in s.workers
    ensures token < s.nextToken
  {
    hide Good, SegmentsGood, HeadGood;
    assert WorkerGood(s, token);
  }

  lemma ClaimTaken(s: State, step: Step, token: nat)
    requires Enabled(s, step) && token in s.workers && token < s.nextToken && (step.Claim? || step.ClaimAssembly?)
    ensures var t := Apply(s, step);
            && token in t.workers && t.workers[token].extraction == s.workers[token].extraction
            && (Holds(t, token) ==> Holds(s, token) && Ended(s, step) != Some(s.workers[token].extraction))
  {
    hide Live;
  }

  lemma ClaimSaved(s: State, step: Step, token: nat)
    requires Enabled(s, step) && token in s.workers && step.SaveTurn?
    ensures var t := Apply(s, step);
            && token in t.workers && t.workers[token].extraction == s.workers[token].extraction
            && (Holds(t, token) ==> Holds(s, token) && Ended(s, step) != Some(s.workers[token].extraction))
  {
    hide StoreAll;
    StoreAllKeepsClaims(s, step.token, step.counts);
  }

  /** No step gives a claim back to a worker that has lost it, and one that ends the work takes it
      from all. */
  lemma ClaimStep(s: State, step: Step, token: nat)
    requires Inv(s) && Enabled(s, step) && token in s.workers
    ensures var t := Apply(s, step);
            && token in t.workers && t.workers[token].extraction == s.workers[token].extraction
            && (Holds(t, token) ==> Holds(s, token) && Ended(s, step) != Some(s.workers[token].extraction))
  {
    TokenOld(s, token);
    hide Inv, StoreAll, Rows, Mark, Copied, CopiesWhole, Writable, Live, Current, Extendable;
    if step.Claim? || step.ClaimAssembly? {
      ClaimTaken(s, step, token);
    } else if step.SaveTurn? {
      ClaimSaved(s, step, token);
    }
  }

  /** In every run, a worker whose claim has ended never holds it again. */
  lemma {:induction false} LostForGood(trace: seq<State>, steps: seq<Step>, m: nat, n: nat, token: nat)
    requires Run(trace, steps) && m < n < |trace| && token in trace[m].workers
    requires !Holds(trace[m], token) || (Enabled(trace[m], steps[m]) && Ended(trace[m], steps[m]) == Some(trace[m].workers[token].extraction))
    ensures token in trace[n].workers && !Holds(trace[n], token)
    decreases n
  {
    hide Inv, Enabled, Apply, Holds, Ended;
    if m + 1 < n {
      LostForGood(trace, steps, m, n - 1, token);
    }
    RunInv(trace, steps, n - 1);
    ClaimStep(trace[n - 1], steps[n - 1], token);
  }

  // ----- a file, its append, and its old segment -----

  const FIRST := SegmentId(0, 0)
  const TAIL := SegmentId(0, 1)
  const ADDED := SegmentId(1, 1)

  /** Some run ends in `s`. */
  ghost predicate Reachable(s: State) { Leads(INITIAL, s) }

  lemma RunReaches(s: State)
    requires Reachable(s)
    ensures exists trace, steps :: Run(trace, steps) && trace[|steps|] == s
  {
    var trace, steps :| Path(trace, steps) && trace[0] == INITIAL && trace[|steps|] == s;
    assert Run(trace, steps);
  }

  /** Version 0, prepared in two segments, of which an append may keep one. */
  const VERSION0 := Extraction(0, true, Done, true, 2, [FIRST, TAIL], true, 1, Index, Ready, None, 0)

  const PREPARED := State([Version(false)], [VERSION0], map[FIRST := Segment(1, false, false), TAIL := Segment(1, false, false)],
                          Some(0), None, map[0 := Worker(0, Transform, 2, 0, 0)], 1, {})

  const BEGUN := State([Version(false)], [Extraction(0, true, Pending, false, 0, [], false, 0, Transform, Running, Some(0), 0)], map[],
                       Some(0), None, map[0 := Worker(0, Transform, 0, 0, 0)], 1, {})

  lemma FirstBegun()
    ensures Reachable(BEGUN) && Inv(BEGUN)
  {
    hide Leads, Inv, StoreAll, Rows, Mark, Writable;
    InitialInv();
    var s := INITIAL;
    LeadsNowhere(s);
    s := Next(INITIAL, s, Register(None, false));
    s := Next(INITIAL, s, Claim(0));
    s := Next(INITIAL, s, BeginSegmented(0));
    assert s == BEGUN;
  }

  lemma FirstStored()
    ensures Holds(BEGUN, 0) && Of(StoreAll(BEGUN, 0, [1]), 0).chunkCount == 1
    ensures StoreAll(BEGUN, 0, [1, 1]) == PREPARED.(extractions := [BEGUN.extractions[0].(chunkCount := 2, members := [FIRST, TAIL])])
  {
    hide Store;
    assert [1, 1][..1] == [1] && [1][..0] == [];
    assert StoreAll(BEGUN, 0, []) == BEGUN;
    StoreOnce();
    assert StoreAll(BEGUN, 0, [1]) == ONCE;
    StoreTwice();
  }

  const ONCE := PREPARED.(extractions := [BEGUN.extractions[0].(chunkCount := 1, members := [FIRST])],
                          segments := map[FIRST := Segment(1, false, false)], workers := map[0 := Worker(0, Transform, 1, 0, 0)])

  lemma StoreOnce()
    ensures Holds(BEGUN, 0) && Store(BEGUN, 0, 1) == ONCE
  {
    assert Store(BEGUN, 0, 1).extractions[0].members == [FIRST];
  }

  lemma StoreTwice()
    ensures Holds(ONCE, 0)
    ensures Store(ONCE, 0, 1) == PREPARED.(extractions := [BEGUN.extractions[0].(chunkCount := 2, members := [FIRST, TAIL])])
  {
    assert Store(ONCE, 0, 1).extractions[0].members == [FIRST, TAIL];
  }

  lemma FirstPrepared()
    ensures Reachable(PREPARED) && Inv(PREPARED)
  {
    hide Leads, Inv, Rows, Mark, Writable, StoreAll;
    FirstBegun();
    FirstStored();
    var s := BEGUN;
    assert [1, 1][..1] == [1];
    s := Next(INITIAL, s, SaveTurn(0, [1, 1], true, 1));
    assert s.extractions[0] == VERSION0;
    assert s == PREPARED;
  }

  const WRITTEN := PREPARED.(extractions := [VERSION0.(work := Running, token := Some(1))], nextToken := 2,
                             workers := map[0 := Worker(0, Transform, 2, 0, 0), 1 := Worker(0, Index, 2, 0, 2)],
                             acked := {SegmentRow(FIRST, 0), SegmentRow(TAIL, 1)})

  /** It is written to the index in one go. */
  lemma FirstWritten()
    ensures Reachable(WRITTEN) && Inv(WRITTEN)
  {
    hide Leads, Inv, Mark;
    FirstPrepared();
    var s := Next(INITIAL, PREPARED, Claim(0));
    assert s.extractions == [VERSION0.(work := Running, token := Some(1))];
    assert Rows(s, 0, 0, 2) == {SegmentRow(FIRST, 0), SegmentRow(TAIL, 1)};
    s := Next(INITIAL, s, WriteRows(1, 2));
    assert s == WRITTEN;
  }

  const PUBLISHED := State([Version(false)], [VERSION0.(work := Complete, cursor := 2)],
                           map[FIRST := Segment(1, true, false), TAIL := Segment(1, true, false)], Some(0), Some(Head(0, 0)),
                           map[0 := Worker(0, Transform, 2, 0, 0), 1 := Worker(0, Index, 2, 2, 2)], 2, WRITTEN.acked)

  const MARKED := WRITTEN.(segments := PUBLISHED.segments, workers := PUBLISHED.workers,
                           extractions := [VERSION0.(work := Running, token := Some(1), cursor := 2)])

  lemma FirstMarks()
    ensures Mark(WRITTEN.segments, [FIRST, TAIL], 0, 2) == MARKED.segments
  {
  }

  /** Its segments are marked. */
  lemma FirstMarked()
    ensures Reachable(MARKED) && Inv(MARKED)
  {
    hide Leads, Inv, Rows, Writable, Mark, StoreAll;
    FirstWritten();
    FirstMarks();
    var s := Next(INITIAL, WRITTEN, Checkpoint(1));
    assert s.extractions == MARKED.extractions;
    assert s == MARKED;
  }

  /** It is published. */
  lemma FirstPublished()
    ensures Reachable(PUBLISHED) && Inv(PUBLISHED)
  {
    hide Leads, Inv, Rows, Writable, Mark, StoreAll;
    FirstMarked();
    var s := Next(INITIAL, MARKED, Publish(1));
    assert s.extractions == [VERSION0.(work := Complete, cursor := 2)];
    assert s == PUBLISHED;
  }

  const SEEDING := Extraction(1, true, Pending, false, 1, [FIRST], false, 0, Transform, Running, Some(2), 1)

  const SEEDED := PUBLISHED.(versions := [Version(false), Version(false)], captured := Some(1), nextToken := 3,
                             extractions := [VERSION0.(work := Complete, cursor := 2), SEEDING],
                             workers := PUBLISHED.workers[2 := Worker(1, Transform, 1, 1, 1)])

  const APPENDING := SEEDED.(extractions := [VERSION0.(work := Complete, cursor := 2), SEEDING.(chunkCount := 0, members := [], cursor := 0)],
                             workers := PUBLISHED.workers[2 := Worker(1, Transform, 0, 0, 0)])

  lemma AppendBegun()
    ensures Reachable(APPENDING) && Inv(APPENDING)
  {
    hide Leads, Inv, StoreAll, Rows, Mark, Writable, CopiesWhole;
    FirstPublished();
    var s := Next(INITIAL, PUBLISHED, Register(Some(0), false));
    s := Next(INITIAL, s, Claim(1));
    s := Next(INITIAL, s, BeginSegmented(2));
    assert s.extractions == APPENDING.extractions;
    assert s == APPENDING;
  }

  lemma AppendCopies()
    ensures Copied(APPENDING, [FIRST, TAIL], 1) == [FIRST] && Chunks(APPENDING, [FIRST]) == 1
  {
    var s := APPENDING;
    assert [FIRST, TAIL][..1] == [FIRST] && [FIRST][..0] == [];
    assert Copied(s, [FIRST], 1) == [FIRST];
  }

  /** An append is captured, and reuses the segment it may keep. */
  lemma AppendSeeded()
    ensures Reachable(SEEDED) && Inv(SEEDED)
  {
    hide Leads, Inv, Mark, Rows, Writable, StoreAll, Copied, Chunks;
    AppendBegun();
    AppendCopies();
    var s := APPENDING;
    s := Next(INITIAL, s, Seed(2));
    assert s.extractions[1] == SEEDING;
    assert s == SEEDED;
  }

  const VERSION1 := Extraction(1, true, Done, true, 2, [FIRST, ADDED], true, 2, Index, Ready, None, 1)

  const EXTENDED := SEEDED.(extractions := [VERSION0.(work := Complete, cursor := 2), VERSION1],
                            segments := SEEDED.segments[ADDED := Segment(1, false, false)],
                            workers := PUBLISHED.workers[2 := Worker(1, Transform, 2, 1, 1)])

  lemma AppendStored()
    ensures Holds(SEEDED, 2)
    ensures StoreAll(SEEDED, 2, [1])
         == EXTENDED.(extractions := [SEEDED.extractions[0], SEEDING.(chunkCount := 2, members := [FIRST, ADDED])])
  {
    assert [1][..0] == [];
    assert StoreAll(SEEDED, 2, []) == SEEDED;
    var t := StoreAll(SEEDED, 2, [1]);
    assert t == Store(SEEDED, 2, 1);
    assert Of(t, 2).members == [FIRST, ADDED];
  }

  /** It adds one segment of its own. */
  lemma AppendExtended()
    ensures Reachable(EXTENDED) && Inv(EXTENDED)
  {
    hide Leads, Inv, Mark, Rows, Writable, StoreAll;
    AppendSeeded();
    AppendStored();
    var s := SEEDED;
    assert [1][..1] == [1];
    s := Next(INITIAL, s, SaveTurn(2, [1], true, 1));
    assert s.extractions[1] == VERSION1;
    assert s == EXTENDED;
  }

  const CONFIRMED := EXTENDED.(extractions := [VERSION0.(work := Complete, cursor := 2), VERSION1.(work := Running, token := Some(3))],
                               workers := EXTENDED.workers[3 := Worker(1, Index, 2, 1, 2)], nextToken := 4,
                               acked := {SegmentRow(FIRST, 0), SegmentRow(TAIL, 1), SegmentRow(ADDED, 1)})

  const CLAIMED := CONFIRMED.(acked := PUBLISHED.acked, workers := EXTENDED.workers[3 := Worker(1, Index, 2, 1, 1)])

  lemma AppendClaimed()
    ensures Reachable(CLAIMED) && Inv(CLAIMED)
  {
    hide Leads, Inv, Mark, StoreAll, Rows, Writable;
    AppendExtended();
    var s := Next(INITIAL, EXTENDED, Claim(1));
    assert s.extractions == CLAIMED.extractions;
    assert s == CLAIMED;
  }

  lemma AppendRows()
    ensures Rows(CLAIMED, 1, 1, 2) == {SegmentRow(ADDED, 1)} && Writable(CLAIMED, 1, 1, 2)
  {
  }

  /** Only what it added is written. */
  lemma AppendWritten()
    ensures Reachable(CONFIRMED) && Inv(CONFIRMED)
  {
    hide Leads, Inv, Mark, StoreAll, Rows, Writable;
    AppendClaimed();
    AppendRows();
    var s := Next(INITIAL, CLAIMED, WriteRows(3, 1));
    assert s.acked == CONFIRMED.acked;
    assert s.workers == CONFIRMED.workers;
    assert s == CONFIRMED;
  }

  const APPENDED := CONFIRMED.(extractions := [VERSION0.(work := Complete, cursor := 2), VERSION1.(work := Running, token := Some(3), cursor := 2)],
                               segments := map[FIRST := Segment(1, true, false), TAIL := Segment(1, true, false), ADDED := Segment(1, true, false)],
                               workers := EXTENDED.workers[3 := Worker(1, Index, 2, 2, 2)])

  lemma AppendMarks()
    ensures Mark(CONFIRMED.segments, [FIRST, ADDED], 1, 2) == APPENDED.segments
  {
  }

  lemma AppendIndexed()
    ensures Reachable(APPENDED) && Inv(APPENDED)
  {
    hide Leads, Inv, Rows, StoreAll, Writable, Mark;
    AppendWritten();
    AppendMarks();
    var s := Next(INITIAL, CONFIRMED, Checkpoint(3));
    assert s.segments == APPENDED.segments;
    assert s.extractions == APPENDED.extractions;
    assert s.workers == APPENDED.workers;
    assert s == APPENDED;
  }

  /** It is published, and the segment that nothing live uses any more is retired. */
  lemma AppendPublished() returns (s: State)
    ensures Reachable(s) && s.indexed == Some(Head(1, 1)) && s.captured == Some(1)
    ensures s.extractions == [VERSION0.(work := Complete, cursor := 2), VERSION1.(work := Complete, cursor := 2)]
    ensures s.segments == map[FIRST := Segment(1, true, false), TAIL := Segment(1, true, true), ADDED := Segment(1, true, false)]
    ensures s.acked == {SegmentRow(FIRST, 0), SegmentRow(TAIL, 1), SegmentRow(ADDED, 1)}
  {
    hide Leads, Inv, Mark, Rows, Writable;
    AppendIndexed();
    s := Next(INITIAL, APPENDED, Publish(3));
    assert s.extractions == [VERSION0.(work := Complete, cursor := 2), VERSION1.(work := Complete, cursor := 2)];
    s := Next(INITIAL, s, Retire(TAIL));
  }
}
