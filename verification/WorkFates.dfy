/** How the work on an extraction ends, and that it is never stuck before (`workers/file_runtime.py`,
    `workers/segment_runtime.py`, `workers/batch_collector.py`, `workers/index_publish.py`). */
module WorkFates {
  import opened Wrappers
  import opened Publication
  import Publishing
  import opened IndexTurns

  predicate Ended(e: Extraction) { e.work in {Complete, Superseded, Failed} }

  // ----- an end is final -----

  lemma {:induction false} StoreAllElsewhere(s: State, token: nat, counts: seq<nat>, i: nat)
    requires Holds(s, token) && i < |s.extractions|
    ensures var t := StoreAll(s, token, counts);
            && (s.workers[token].extraction != i ==> t.extractions[i] == s.extractions[i])
            && t.extractions[i] == s.extractions[i].(members := t.extractions[i].members, chunkCount := t.extractions[i].chunkCount)
  {
    if counts != [] {
      StoreAllElsewhere(s, token, counts[..|counts| - 1], i);
    }
  }

  lemma EndedStays(s: State, step: Step, i: nat)
    requires Enabled(s, step) && i < |s.extractions| && Ended(s.extractions[i])
    ensures i < |Apply(s, step).extractions| && Apply(s, step).extractions[i] == s.extractions[i]
  {
    hide StoreAll, Rows, Mark, Copied, CopiesWhole, Extendable, Writable, Live, Current;
    if step.SaveTurn? {
      StoreAllElsewhere(s, step.token, step.counts, i);
    }
  }

  // ----- what ends it -----

  /** Attempts are exhausted, or the provider failed. */
  predicate GivesUp(s: State, step: Step, i: nat) {
    || step == Exhaust(i)
    || step == DropAssembly(i, false)
    || (step.Release? && step.work == Failed && step.token in s.workers && s.workers[step.token].extraction == i)
  }

  /** A newer version or extraction is found to have taken its place. */
  predicate Overtaken(s: State, step: Step, i: nat) {
    || step == DropAssembly(i, true)
    || (&& i < |s.extractions| && !Current(s, i)
        && (step == Claim(i) || (step.Publish? && step.token in s.workers && s.workers[step.token].extraction == i)))
  }

  /** Each of the three ends has exactly its own causes. */
  ghost predicate FateOf(s: State, step: Step, i: nat, e: Extraction) {
    && (e.work == Failed <==> GivesUp(s, step, i))
    && (e.work == Superseded <==> Overtaken(s, step, i))
    && (e.work == Complete <==> Publishing.Publishes(s, step, i))
  }

  lemma MoveFate(s: State, step: Step, i: nat)
    requires Enabled(s, step) && i < |s.extractions| && !Ended(s.extractions[i]) && Moves(step)
    ensures i < |Apply(s, step).extractions| && FateOf(s, step, i, Apply(s, step).extractions[i])
  {
    hide StoreAll, Rows, Mark, Copied, CopiesWhole, Extendable, Writable, Live;
  }

  lemma EndFate(s: State, step: Step, i: nat)
    requires Enabled(s, step) && i < |s.extractions| && !Ended(s.extractions[i]) && Ends(step)
    ensures i < |Apply(s, step).extractions| && FateOf(s, step, i, Apply(s, step).extractions[i])
  {
    hide StoreAll, Rows, Mark, Copied, CopiesWhole, Extendable, Writable, Live;
  }

  lemma OtherFate(s: State, step: Step, i: nat)
    requires Enabled(s, step) && i < |s.extractions| && !Ended(s.extractions[i]) && !Moves(step) && !Ends(step)
    ensures i < |Apply(s, step).extractions| && Apply(s, step).extractions[i].work in {s.extractions[i].work, Ready}
  {
    hide StoreAll, Rows, Mark, Copied, CopiesWhole, Extendable, Writable, Live, Current;
    if step.SaveTurn? {
      StoreAllElsewhere(s, step.token, step.counts, i);
    }
  }

  lemma FateStep(s: State, step: Step, i: nat)
    requires Enabled(s, step) && i < |s.extractions| && !Ended(s.extractions[i])
    ensures i < |Apply(s, step).extractions| && FateOf(s, step, i, Apply(s, step).extractions[i])
  {
    hide Enabled, Apply, Current;
    if Moves(step) {
      MoveFate(s, step, i);
    } else if Ends(step) {
      EndFate(s, step, i);
    } else {
      OtherFate(s, step, i);
    }
  }

  // ----- it is never stuck -----

  /** Where an extraction can stand. */
  predicate Orderly(e: Extraction) {
    && (e.status == Dropped ==> e.work in {Superseded, Failed})
    && (e.work == Superseded ==> e.status in {Done, Dropped})
    && (e.work == Complete ==> e.status == Done)
    && (e.status == WaitingProvider && e.stage == Transform <==> e.work == Waiting)
    && (e.status in {Pending, WaitingProvider} && e.stage == Index ==> e.segmented)
    && (e.verified ==> e.status == Done)
    && (e.status == Done ==> e.stage == Index && (e.segmented ==> e.verified))
  }

  lemma MoveOrderly(s: State, step: Step, i: nat)
    requires Enabled(s, step) && i < |s.extractions| && Orderly(s.extractions[i]) && Moves(step)
    ensures i < |Apply(s, step).extractions| && Orderly(Apply(s, step).extractions[i])
  {
    hide StoreAll, Rows, Mark, Copied, CopiesWhole, Extendable, Writable, Live, Current;
  }

  lemma EndOrderly(s: State, step: Step, i: nat)
    requires Enabled(s, step) && i < |s.extractions| && Orderly(s.extractions[i]) && Ends(step)
    ensures i < |Apply(s, step).extractions| && Orderly(Apply(s, step).extractions[i])
  {
    hide StoreAll, Rows, Mark, Copied, CopiesWhole, Extendable, Writable, Live, Current;
  }

  lemma OtherOrderly(s: State, step: Step, i: nat)
    requires Enabled(s, step) && i < |s.extractions| && Orderly(s.extractions[i]) && !Moves(step) && !Ends(step)
    ensures i < |Apply(s, step).extractions| && Orderly(Apply(s, step).extractions[i])
  {
    hide StoreAll, Rows, Mark, Copied, CopiesWhole, Extendable, Writable, Live, Current;
    if step.SaveTurn? {
      StoreAllElsewhere(s, step.token, step.counts, i);
    }
  }

  lemma OrderlyStep(s: State, step: Step, i: nat)
    requires Enabled(s, step) && i < |s.extractions| && Orderly(s.extractions[i])
    ensures i < |Apply(s, step).extractions| && Orderly(Apply(s, step).extractions[i])
  {
    hide Enabled, Apply, Orderly;
    if Moves(step) {
      MoveOrderly(s, step, i);
    } else if Ends(step) {
      EndOrderly(s, step, i);
    } else {
      OtherOrderly(s, step, i);
    }
  }

  lemma NewOrderly(s: State, step: Step, i: nat)
    requires Enabled(s, step) && |s.extractions| <= i < |Apply(s, step).extractions|
    ensures Orderly(Apply(s, step).extractions[i]) && Apply(s, step).extractions[i].work == Ready
  {
    hide StoreAll, Rows, Mark, Copied, CopiesWhole, Extendable, Writable, Live, Current;
    if step.SaveTurn? {
      Publishing.StoreAllKeepsWork(s, step.token, step.counts);
    }
  }

  lemma {:induction false} RunOrderly(trace: seq<State>, steps: seq<Step>, n: nat, i: nat)
    requires Run(trace, steps) && n < |trace| && i < |trace[n].extractions|
    ensures Orderly(trace[n].extractions[i])
  {
    hide Enabled, Apply, Orderly;
    if n > 0 {
      var s, step := trace[n - 1], steps[n - 1];
      assert Enabled(s, step) && trace[n] == Apply(s, step);
      if i < |s.extractions| {
        RunOrderly(trace, steps, n - 1, i);
        OrderlyStep(s, step, i);
      } else {
        NewOrderly(s, step, i);
      }
    }
  }

  /** In every state of every run, an extraction of the captured version that no newer one of its
      kind has replaced has either ended, or some continuation of the run publishes it. */
  lemma NeverStuck(trace: seq<State>, steps: seq<Step>, n: nat, i: nat) returns (t: State)
    requires Run(trace, steps) && n < |trace| && i < |trace[n].extractions| && Current(trace[n], i) && !Ended(trace[n].extractions[i])
    ensures Publishing.Leads(trace[n], t) && t.indexed == Some(Head(trace[n].extractions[i].version, i))
  {
    hide Enabled, Apply, Current, Publishing.Leads;
    RunOrderly(trace, steps, n, i);
    t := Publishing.AlwaysPublishable(trace, steps, n, i);
  }

  ghost predicate Ending(s: State, step: Step, i: nat) { GivesUp(s, step, i) || Overtaken(s, step, i) || Publishing.Publishes(s, step, i) }

  lemma EndingFits(s: State, step: Step, i: nat)
    requires Enabled(s, step) && Ending(s, step, i)
    ensures i < |s.extractions| && !Ended(s.extractions[i])
  {
    hide Current, Live, Writable, CopiesWhole, Extendable;
  }

  /** Some step before `n` gave the extraction up, found it overtaken, or published it. */
  ghost predicate GivenUp(trace: seq<State>, steps: seq<Step>, n: nat, i: nat)
    requires n <= |steps| && n <= |trace|
  {
    exists k :: 0 <= k < n && GivesUp(trace[k], steps[k], i)
  }

  ghost predicate Replaced(trace: seq<State>, steps: seq<Step>, n: nat, i: nat)
    requires n <= |steps| && n <= |trace|
  {
    exists k :: 0 <= k < n && Overtaken(trace[k], steps[k], i)
  }

  ghost predicate Released(trace: seq<State>, steps: seq<Step>, n: nat, i: nat)
    requires n <= |steps| && n <= |trace|
  {
    exists k :: 0 <= k < n && Publishing.Publishes(trace[k], steps[k], i)
  }

  lemma NothingBefore(trace: seq<State>, steps: seq<Step>, n: nat, i: nat)
    requires Run(trace, steps) && n <= |steps| && i >= |trace[n].extractions|
    ensures !GivenUp(trace, steps, n, i) && !Replaced(trace, steps, n, i) && !Released(trace, steps, n, i)
  {
    hide Enabled, Apply, GivesUp, Overtaken, Publishing.Publishes, Evolves;
    forall k: nat | k < n ensures !Ending(trace[k], steps[k], i) {
      if Ending(trace[k], steps[k], i) {
        EndingFits(trace[k], steps[k], i);
        RunEvolves(trace, steps, k, n);
        MoreExtractions(trace[k], trace[n]);
      }
    }
  }

  lemma MoreExtractions(s: State, t: State)
    requires Evolves(s, t)
    ensures |s.extractions| <= |t.extractions|
  {
  }

  /** One more step. */
  lemma SinceLast(trace: seq<State>, steps: seq<Step>, n: nat, i: nat)
    requires Run(trace, steps) && n < |steps|
    ensures GivenUp(trace, steps, n + 1, i) <==> GivenUp(trace, steps, n, i) || GivesUp(trace[n], steps[n], i)
    ensures Replaced(trace, steps, n + 1, i) <==> Replaced(trace, steps, n, i) || Overtaken(trace[n], steps[n], i)
    ensures Released(trace, steps, n + 1, i) <==> Released(trace, steps, n, i) || Publishing.Publishes(trace[n], steps[n], i)
  {
    hide Enabled, Apply, GivesUp, Overtaken, Publishing.Publishes;
  }

  /** Work fails exactly if it was given up, is superseded exactly if it was overtaken, and is
      complete exactly if it was published; whichever comes first stands. */
  lemma {:induction false} FateDecided(trace: seq<State>, steps: seq<Step>, n: nat, i: nat)
    requires Run(trace, steps) && n < |trace| && i < |trace[n].extractions|
    ensures trace[n].extractions[i].work == Failed <==> GivenUp(trace, steps, n, i)
    ensures trace[n].extractions[i].work == Superseded <==> Replaced(trace, steps, n, i)
    ensures trace[n].extractions[i].work == Complete <==> Released(trace, steps, n, i)
  {
    hide Enabled, Apply, GivesUp, Overtaken, Publishing.Publishes, GivenUp, Replaced, Released;
    if n > 0 {
      var s, step := trace[n - 1], steps[n - 1];
      assert Enabled(s, step) && trace[n] == Apply(s, step);
      SinceLast(trace, steps, n - 1, i);
      if i >= |s.extractions| {
        NothingBefore(trace, steps, n - 1, i);
        NewOrderly(s, step, i);
        if Ending(s, step, i) {
          EndingFits(s, step, i);
        }
      } else {
        FateDecided(trace, steps, n - 1, i);
        if Ended(s.extractions[i]) {
          EndedStays(s, step, i);
          if Ending(s, step, i) {
            EndingFits(s, step, i);
          }
        } else {
          FateStep(s, step, i);
        }
      }
    }
  }

  // ----- what a turn hands on -----

  /** After a turn the extraction goes to the index exactly when it is done or has chunks that
      are not indexed yet, and any worker may claim it. */
  lemma TurnGoesOn(s: State, step: Step)
    requires Enabled(s, step) && step.SaveTurn?
    ensures var i, t := s.workers[step.token].extraction, Apply(s, step);
            && i < |t.extractions| && t.extractions[i].work == Ready && t.extractions[i].token == None
            && (t.extractions[i].stage == Index <==> t.extractions[i].status == Done || t.extractions[i].cursor < t.extractions[i].chunkCount)
            && (t.extractions[i].status == Done <==> step.complete)
  {
    hide StoreAll;
    StoreAllElsewhere(s, step.token, step.counts, s.workers[step.token].extraction);
  }

  // ----- every version has its extraction -----

  /** Capture and re-extraction open one extraction, which may be published at once if its version
      is the captured one; nothing else opens any. */
  lemma Opens(s: State, step: Step)
    requires Inv(s) && Enabled(s, step)
    ensures var t, n := Apply(s, step), |s.extractions|;
            if step.Register? || step.Reextract? then
              && |t.extractions| == n + 1 && !Ended(t.extractions[n])
              && t.extractions[n].version == (if step.Register? then |s.versions| else step.version)
              && (t.captured == Some(t.extractions[n].version) ==> Current(t, n))
            else |t.extractions| == n && t.versions == s.versions && t.captured == s.captured
  {
    hide Good, SegmentsGood, WorkersGood, StoreAll, Rows, Mark, Copied, CopiesWhole, Extendable, Writable, Live;
    if step.SaveTurn? {
      StoreAllSame(s, step.token, step.counts);
    }
  }

  lemma {:induction false} StoreAllSame(s: State, token: nat, counts: seq<nat>)
    requires Holds(s, token)
    ensures var t := StoreAll(s, token, counts); t.versions == s.versions && t.captured == s.captured && |t.extractions| == |s.extractions|
  {
    if counts != [] {
      StoreAllSame(s, token, counts[..|counts| - 1]);
    }
  }

  ghost predicate Extracted(s: State, v: nat) { exists i :: 0 <= i < |s.extractions| && s.extractions[i].version == v }

  /** Every captured version has an extraction, and the last one captured is the one to publish. */
  lemma {:induction false} EveryVersionExtracted(trace: seq<State>, steps: seq<Step>, n: nat, v: nat)
    requires Run(trace, steps) && n < |trace| && v < |trace[n].versions|
    ensures Extracted(trace[n], v)
  {
    hide Enabled, Apply, Inv, Evolves, Current;
    if n > 0 {
      var s, step := trace[n - 1], steps[n - 1];
      assert Enabled(s, step) && trace[n] == Apply(s, step);
      RunInv(trace, steps, n - 1);
      Opens(s, step);
      if v < |s.versions| {
        EveryVersionExtracted(trace, steps, n - 1, v);
        var i :| 0 <= i < |s.extractions| && s.extractions[i].version == v;
        RunEvolves(trace, steps, n - 1, n);
        VersionStays(s, trace[n], i);
      } else {
        OneVersion(s, step);
        assert trace[n].extractions[|s.extractions|].version == v;
      }
    }
  }

  lemma VersionStays(s: State, t: State, i: nat)
    requires Evolves(s, t) && i < |s.extractions|
    ensures s.versions <= t.versions && i < |t.extractions| && t.extractions[i].version == s.extractions[i].version
  {
  }

  lemma OneVersion(s: State, step: Step)
    requires Enabled(s, step) && (step.Register? || step.Reextract?)
    ensures |Apply(s, step).versions| == |s.versions| + if step.Register? then 1 else 0
  {
  }

  // ----- what is prepared is what is published -----

  function SumOf(counts: seq<nat>): nat {
    if counts == [] then 0 else SumOf(counts[..|counts| - 1]) + counts[|counts| - 1]
  }

  /** The segments of a turn follow what was there: each starts where the one before ends. */
  ghost predicate Appended(s: State, t: State, i: nat, counts: seq<nat>)
    requires i < |s.extractions| && i < |t.extractions|
  {
    var a, b := s.extractions[i], t.extractions[i];
    && b.chunkCount == a.chunkCount + SumOf(counts)
    && |b.members| == |a.members| + |counts| && a.members <= b.members
    && forall k :: 0 <= k < |counts| ==> StoredAs(t, b.members[|a.members| + k], SegmentId(i, a.chunkCount + SumOf(counts[..k])), counts[k])
  }

  predicate StoredAs(t: State, m: SegmentId, expected: SegmentId, count: nat) {
    m == expected && m in t.segments && t.segments[m].count == count && !t.segments[m].retired
  }

  lemma SumOfLast(counts: seq<nat>)
    requires counts != []
    ensures SumOf(counts) == SumOf(counts[..|counts| - 1]) + counts[|counts| - 1]
  {
  }

  lemma SumOfRises(counts: seq<nat>, k: nat)
    requires k < |counts| && counts[k] >= 1
    ensures SumOf(counts[..k]) < SumOf(counts)
    decreases |counts|
  {
    var n := |counts| - 1;
    if k < n {
      assert counts[..n][..k] == counts[..k];
      SumOfRises(counts[..n], k);
    }
  }

  lemma StoreIs(t: State, token: nat, count: nat)
    requires Holds(t, token)
    ensures var i, e, u := t.workers[token].extraction, Of(t, token), Store(t, token, count);
            var m := SegmentId(i, e.chunkCount);
            && |u.extractions| == |t.extractions| && u.extractions[i].members == e.members + [m]
            && u.extractions[i].chunkCount == e.chunkCount + count && u.segments == t.segments[m := Segment(count, false, false)]
  {
  }

  lemma AppendedStep(s: State, t: State, i: nat, token: nat, counts: seq<nat>)
    requires counts != [] && forall k :: 0 <= k < |counts| ==> counts[k] >= 1
    requires Holds(t, token) && t.workers[token].extraction == i && i < |s.extractions|
    requires Appended(s, t, i, counts[..|counts| - 1])
    ensures Appended(s, Store(t, token, counts[|counts| - 1]), i, counts)
  {
    hide Store, SumOf;
    var n := |counts| - 1;
    StoreIs(t, token, counts[n]);
    SumOfLast(counts);
    var u := Store(t, token, counts[n]);
    var a, b, c := s.extractions[i], t.extractions[i], u.extractions[i];
    forall k | 0 <= k < |counts|
      ensures StoredAs(u, c.members[|a.members| + k], SegmentId(i, a.chunkCount + SumOf(counts[..k])), counts[k])
    {
      if k < n {
        assert counts[..n][..k] == counts[..k];
        SumOfRises(counts[..n], k);
        assert StoredAs(t, b.members[|a.members| + k], SegmentId(i, a.chunkCount + SumOf(counts[..k])), counts[..n][k]);
      }
    }
  }

  lemma {:induction false} StoreAllAppends(s: State, token: nat, counts: seq<nat>)
    requires Holds(s, token) && forall k :: 0 <= k < |counts| ==> counts[k] >= 1
    ensures var i := s.workers[token].extraction; Appended(s, StoreAll(s, token, counts), i, counts)
  {
    hide Appended;
    if counts == [] {
      assert Appended(s, s, s.workers[token].extraction, []) by { NothingAppended(s, s.workers[token].extraction); }
    } else {
      var init := counts[..|counts| - 1];
      StoreAllAppends(s, token, init);
      AppendedStep(s, StoreAll(s, token, init), s.workers[token].extraction, token, counts);
    }
  }

  lemma NothingAppended(s: State, i: nat)
    requires i < |s.extractions|
    ensures Appended(s, s, i, [])
  {
  }

  /** A saved turn adds exactly its segments, and so does the assembly of a provider's answers. */
  lemma TurnAppends(s: State, step: Step)
    requires Enabled(s, step) && (step.SaveTurn? || step.StoreSegment?)
    ensures var i := s.workers[step.token].extraction;
            i < |Apply(s, step).extractions| && Appended(s, Apply(s, step), i, if step.SaveTurn? then step.counts else [step.count])
  {
    hide StoreAll;
    if step.SaveTurn? {
      StoreAllAppends(s, step.token, step.counts);
    } else {
      assert [step.count][..0] == [] && StoreAll(s, step.token, []) == s by { StoreNothing(s, step.token); }
      StoreAllUnfold(s, step.token, [step.count]);
      StoreAllAppends(s, step.token, [step.count]);
    }
  }

  lemma StoreNothing(s: State, token: nat)
    requires Holds(s, token)
    ensures StoreAll(s, token, []) == s
  {
  }

  /** Step `k` completes extraction `i` without segments, with that many chunks. */
  ghost predicate Completes(s: State, step: Step, i: nat, count: nat) {
    step.CompleteExtraction? && step.count == count && step.token in s.workers && s.workers[step.token].extraction == i
  }

  lemma CountStep(s: State, step: Step, i: nat)
    requires Inv(s) && Enabled(s, step) && i < |s.extractions| && i < |Apply(s, step).extractions|
    requires !Apply(s, step).extractions[i].segmented && Apply(s, step).extractions[i].status == Done
    ensures var t := Apply(s, step);
            || Completes(s, step, i, t.extractions[i].chunkCount)
            || (!s.extractions[i].segmented && s.extractions[i].status == Done && t.extractions[i].chunkCount == s.extractions[i].chunkCount)
  {
    hide Inv, StoreAll, Rows, Mark, Copied, CopiesWhole, Extendable, Writable, Live, Current;
    if step.SaveTurn? {
      StoreAllElsewhere(s, step.token, step.counts, i);
    }
  }

  ghost predicate Counted(trace: seq<State>, steps: seq<Step>, n: nat, i: nat, count: nat)
    requires n <= |steps| && n <= |trace|
  {
    exists k :: 0 <= k < n && Completes(trace[k], steps[k], i, count)
  }

  /** In every run, a finished extraction without segments has the chunks it was completed with, or
      is that of a tombstone and has none. */
  lemma {:induction false} CountedAsPrepared(trace: seq<State>, steps: seq<Step>, n: nat, i: nat)
    requires Run(trace, steps) && n < |trace| && i < |trace[n].extractions|
    requires !trace[n].extractions[i].segmented && trace[n].extractions[i].status == Done
    ensures var e := trace[n].extractions[i];
            Counted(trace, steps, n, i, e.chunkCount)
            || (e.chunkCount == 0 && e.version < |trace[n].versions| && trace[n].versions[e.version].deleted)
  {
    hide Enabled, Apply, Inv, Completes, Evolves;
    if n > 0 {
      var s, step, t := trace[n - 1], steps[n - 1], trace[n];
      assert Enabled(s, step) && t == Apply(s, step);
      RunInv(trace, steps, n - 1);
      if i < |s.extractions| {
        CountStep(s, step, i);
        if Completes(s, step, i, t.extractions[i].chunkCount) {
          assert Counted(trace, steps, n, i, t.extractions[i].chunkCount);
        } else {
          CountedAsPrepared(trace, steps, n - 1, i);
          RunEvolves(trace, steps, n - 1, n);
          VersionStays(s, t, i);
          if Counted(trace, steps, n - 1, i, t.extractions[i].chunkCount) {
            var k :| 0 <= k < n - 1 && Completes(trace[k], steps[k], i, t.extractions[i].chunkCount);
            assert Counted(trace, steps, n, i, t.extractions[i].chunkCount);
          }
        }
      } else {
        BornDone(s, step, i);
      }
    }
  }

  lemma BornDone(s: State, step: Step, i: nat)
    requires Inv(s) && Enabled(s, step) && |s.extractions| <= i < |Apply(s, step).extractions| && Apply(s, step).extractions[i].status == Done
    ensures var t := Apply(s, step);
            && t.extractions[i].chunkCount == 0 && t.extractions[i].version < |t.versions| && t.versions[t.extractions[i].version].deleted
  {
    hide Inv, StoreAll, Rows, Mark, Copied, CopiesWhole, Extendable, Writable, Live, Current;
    if step.SaveTurn? {
      StoreAllSame(s, step.token, step.counts);
    }
  }
}
