/** The paid, non-idempotent submission of one provider batch
    (`workers/provider_submission.py`, `workers/provider_retry.py`,
    `workers/provider_runtime.py`, `workers/collection.py`, `workers/batch_collector.py`).
    One transaction, one remote call and one reply are one step each. Leases run out at any
    moment; a worker that lost its lease may go on with whatever it was doing. */
module ProviderSubmission {
  import opened Wrappers

  const MAX_REQUEST_ATTEMPTS := 3

  type Worker = nat // a lease token, drawn fresh for every claim

  datatype Status = Preparing | Submitted | Retry | Complete | Failed

  /** What is known of a create call. `Open` also covers a reply that was lost: a job may still
      appear. `Refused` is an explicit rejection that reached the caller. */
  datatype Fate = Open | Created | Refused

  datatype Call = Call(attempt: nat, caller: Worker, fate: Fate)

  /** Where a worker is in `submit_batch`. */
  datatype Phase = Idle | Marked(attempt: nat) | Calling(call: nat) | Rejected(attempt: nat)

  /** The batch row, the workers, and the history of create calls. A remote job is named by the
      call that created it; `holder` remembers who set the marker. */
  datatype State = State(status: Status, attempt: nat, marker: bool, job: Option<nat>,
                         token: Option<Worker>, live: bool,
                         phases: map<Worker, Phase>, calls: seq<Call>, holder: Worker)

  datatype Step =
    | Claim(w: Worker)
    | Expire
    | Release(w: Worker)
    | Mark(w: Worker, attempt: nat)
    | Issue(w: Worker)
    | Accept(call: nat)
    | Refuse(w: Worker)
    | Abandon(w: Worker)
    | Clear(w: Worker)
    | Record(w: Worker, attempt: nat, call: nat)
    | Collect(w: Worker, attempt: nat, failures: bool)
    | ReserveRetry(w: Worker)
    | Fail(w: Worker)

  predicate Owns(s: State, w: Worker) { s.token == Some(w) && s.live }

  /** The row as `reserve_batch` inserts it. */
  function Reserved(w: Worker): State {
    State(Preparing, 1, false, None, Some(w), true, map[w := Idle], [], w)
  }

  predicate Enabled(s: State, step: Step) {
    match step
    case Claim(w) => !s.live && w !in s.phases
    case Expire => true
    case Release(w) => s.token == Some(w)
    case Mark(w, a) =>
      Owns(s, w) && w in s.phases && s.phases[w].Idle? && s.status.Preparing? && s.attempt == a && !s.marker
    case Issue(w) => w in s.phases && s.phases[w].Marked?
    case Accept(i) => i < |s.calls| && s.calls[i].fate.Open?
    case Refuse(w) =>
      w in s.phases && s.phases[w].Calling? && s.phases[w].call < |s.calls| && s.calls[s.phases[w].call].fate.Open?
    case Abandon(w) => w in s.phases
    case Clear(w) =>
      w in s.phases && s.phases[w].Rejected? && Owns(s, w) && s.job.None? && s.attempt == s.phases[w].attempt
    case Record(w, a, i) =>
      && i < |s.calls| && s.calls[i].fate.Created? && s.calls[i].attempt == a
      && Owns(s, w) && s.attempt == a && s.status.Preparing? && s.marker && s.job.None?
    case Collect(w, a, _) => Owns(s, w) && s.status.Submitted? && s.attempt == a
    case ReserveRetry(w) => Owns(s, w) && s.status.Retry? && s.attempt < MAX_REQUEST_ATTEMPTS
    case Fail(w) => Owns(s, w)
  }

  function Apply(s: State, step: Step): State
    requires Enabled(s, step)
  {
    match step
    case Claim(w) => s.(token := Some(w), live := true, phases := s.phases[w := Idle])
    case Expire => s.(live := false)
    case Release(w) => s.(token := None, live := false)
    case Mark(w, a) => s.(marker := true, holder := w, phases := s.phases[w := Marked(a)])
    case Issue(w) =>
      s.(calls := s.calls + [Call(s.phases[w].attempt, w, Open)], phases := s.phases[w := Calling(|s.calls|)])
    case Accept(i) => s.(calls := s.calls[i := s.calls[i].(fate := Created)])
    case Refuse(w) =>
      var i := s.phases[w].call;
      s.(calls := s.calls[i := s.calls[i].(fate := Refused)], phases := s.phases[w := Rejected(s.calls[i].attempt)])
    case Abandon(w) => s.(phases := s.phases[w := Idle])
    case Clear(w) => s.(marker := false, phases := s.phases[w := Idle])
    case Record(w, _, i) => s.(job := Some(i), status := Submitted)
    case Collect(w, _, failures) =>
      s.(status := if !failures then Complete else if s.attempt < MAX_REQUEST_ATTEMPTS then Retry else Failed)
    case ReserveRetry(w) => s.(status := Preparing, attempt := s.attempt + 1, marker := false, job := None)
    case Fail(w) => s.(status := Failed)
  }

  // ----- invariant -----

  /** Call `i` belongs to attempt `a` and did not end in an explicit rejection. */
  ghost predicate Spent(calls: seq<Call>, a: nat, i: nat) {
    i < |calls| && calls[i].attempt == a && !calls[i].fate.Refused?
  }

  ghost predicate Paid(calls: seq<Call>, a: nat) { exists i: nat :: Spent(calls, a, i) && calls[i].fate.Created? }

  ghost predicate OncePerAttempt(s: State) {
    forall a, i, j :: Spent(s.calls, a, i) && Spent(s.calls, a, j) ==> i == j
  }

  ghost predicate AttemptsBounded(s: State) {
    && 1 <= s.attempt <= MAX_REQUEST_ATTEMPTS
    && (forall i :: 0 <= i < |s.calls| ==> 1 <= s.calls[i].attempt <= s.attempt)
  }

  /** The marker covers every call that may have created a job for this attempt. */
  ghost predicate MarkerCovers(s: State) { forall i :: Spent(s.calls, s.attempt, i) ==> s.marker }

  /** A worker between marking and clearing is the one that set the marker now standing. */
  ghost predicate PhasesHold(s: State) {
    forall w :: w in s.phases ==> PhaseHolds(s, w, s.phases[w])
  }

  ghost predicate PhaseHolds(s: State, w: Worker, phase: Phase) {
    && (phase.Marked? ==> Exclusive(s, w, phase.attempt))
    && (phase.Rejected? ==> Exclusive(s, w, phase.attempt))
    && (phase.Calling? ==> Engaged(s, w, phase.call))
  }

  /** Nobody else is submitting, and nothing this attempt did so far can have created a job. */
  ghost predicate Exclusive(s: State, w: Worker, a: nat) {
    a == s.attempt && s.marker && s.holder == w && forall i :: !Spent(s.calls, a, i)
  }

  ghost predicate Engaged(s: State, w: Worker, i: nat) {
    && i < |s.calls| && s.calls[i].caller == w && Spent(s.calls, s.calls[i].attempt, i)
    && (s.calls[i].attempt == s.attempt ==> s.holder == w)
  }

  /** The recorded job was created for this attempt. */
  ghost predicate JobRecorded(s: State) {
    && (s.status in {Submitted, Retry, Complete} ==> s.job.Some?)
    && (s.job.Some? ==> Spent(s.calls, s.attempt, s.job.value) && s.calls[s.job.value].fate.Created?)
  }

  /** Every earlier attempt created its job. */
  ghost predicate EarlierPaid(s: State) {
    forall a :: 1 <= a < s.attempt ==> Paid(s.calls, a)
  }

  ghost predicate Inv(s: State) {
    OncePerAttempt(s) && AttemptsBounded(s) && MarkerCovers(s) && PhasesHold(s) && JobRecorded(s) && EarlierPaid(s)
  }

  lemma MarkKeeps(s: State, step: Step)
    requires Inv(s) && Enabled(s, step) && step.Mark?
    ensures Inv(Apply(s, step))
  {
    var t := Apply(s, step);
    forall w | w in t.phases ensures PhaseHolds(t, w, t.phases[w]) {
      if w != step.w {
        assert PhaseHolds(s, w, s.phases[w]);
      }
    }
  }

  lemma ClearKeeps(s: State, step: Step)
    requires Inv(s) && Enabled(s, step) && step.Clear?
    ensures Inv(Apply(s, step))
  {
    var t := Apply(s, step);
    assert PhaseHolds(s, step.w, s.phases[step.w]);
    forall w | w in t.phases ensures PhaseHolds(t, w, t.phases[w]) {
      if w != step.w {
        assert PhaseHolds(s, w, s.phases[w]);
      }
    }
  }

  lemma RetryKeeps(s: State, step: Step)
    requires Inv(s) && Enabled(s, step) && step.ReserveRetry?
    ensures Inv(Apply(s, step))
  {
    var t := Apply(s, step);
    assert Spent(s.calls, s.attempt, s.job.value) && Paid(s.calls, s.attempt);
    assert forall i: nat :: !Spent(s.calls, t.attempt, i);
    forall w | w in t.phases ensures PhaseHolds(t, w, t.phases[w]) {
      assert PhaseHolds(s, w, s.phases[w]);
    }
  }

  lemma IssueKeeps(s: State, w: Worker)
    requires Inv(s) && Enabled(s, Issue(w))
    ensures Inv(Apply(s, Issue(w)))
  {
    hide Paid;
    var t := Apply(s, Issue(w));
    var a := s.phases[w].attempt;
    assert PhaseHolds(s, w, s.phases[w]);
    assert forall b, i :: Spent(t.calls, b, i) <==> Spent(s.calls, b, i) || (b == a && i == |s.calls|);
    forall x | x in t.phases ensures PhaseHolds(t, x, t.phases[x]) {
      if x != w {
        assert PhaseHolds(s, x, s.phases[x]);
      }
    }
    forall b | 1 <= b < t.attempt ensures Paid(t.calls, b) {
      PaidKept(s.calls, t.calls, b);
    }
  }

  lemma PaidKept(calls: seq<Call>, later: seq<Call>, a: nat)
    requires Paid(calls, a) && |calls| <= |later|
    requires forall i :: 0 <= i < |calls| && calls[i].fate.Created? ==> later[i] == calls[i]
    ensures Paid(later, a)
  {
    var i: nat :| Spent(calls, a, i) && calls[i].fate.Created?;
    assert Spent(later, a, i);
  }

  lemma AcceptKeeps(s: State, i: nat)
    requires Inv(s) && Enabled(s, Accept(i))
    ensures Inv(Apply(s, Accept(i)))
  {
    hide Paid;
    var t := Apply(s, Accept(i));
    assert forall b, k :: Spent(t.calls, b, k) <==> Spent(s.calls, b, k);
    forall x | x in t.phases ensures PhaseHolds(t, x, t.phases[x]) {
      assert PhaseHolds(s, x, s.phases[x]);
    }
    forall b | 1 <= b < t.attempt ensures Paid(t.calls, b) {
      PaidKept(s.calls, t.calls, b);
    }
  }

  /** An explicit rejection can only reach a caller of the attempt that still runs. */
  lemma RefusedIsCurrent(s: State, w: Worker)
    requires Inv(s) && Enabled(s, Refuse(w))
    ensures s.calls[s.phases[w].call].attempt == s.attempt && s.holder == w && s.marker
  {
    var i := s.phases[w].call;
    var a := s.calls[i].attempt;
    assert PhaseHolds(s, w, s.phases[w]);
    assert !Paid(s.calls, a);
  }

  lemma RefuseKeeps(s: State, w: Worker)
    requires Inv(s) && Enabled(s, Refuse(w))
    ensures Inv(Apply(s, Refuse(w)))
  {
    hide Paid;
    var t := Apply(s, Refuse(w));
    var i := s.phases[w].call;
    RefusedIsCurrent(s, w);
    assert PhaseHolds(s, w, s.phases[w]);
    assert forall b, k :: Spent(t.calls, b, k) <==> Spent(s.calls, b, k) && k != i;
    forall x | x in t.phases ensures PhaseHolds(t, x, t.phases[x]) {
      if x != w {
        assert PhaseHolds(s, x, s.phases[x]);
      }
    }
    forall b | 1 <= b < t.attempt ensures Paid(t.calls, b) {
      PaidKept(s.calls, t.calls, b);
    }
  }

  /** The remaining steps change neither marker, nor attempt, nor calls. */
  lemma OtherKeeps(s: State, step: Step)
    requires Inv(s) && Enabled(s, step)
    requires !step.Issue? && !step.Accept? && !step.Refuse? && !step.Mark? && !step.Clear? && !step.ReserveRetry?
    ensures Inv(Apply(s, step))
  {
    hide Paid;
    var t := Apply(s, step);
    forall x | x in t.phases ensures PhaseHolds(t, x, t.phases[x]) {
      if !t.phases[x].Idle? {
        assert PhaseHolds(s, x, s.phases[x]);
      }
    }
  }

  /** Every step keeps the invariant. */
  lemma StepKeeps(s: State, step: Step)
    requires Inv(s) && Enabled(s, step)
    ensures Inv(Apply(s, step))
  {
    hide Inv, Apply, Enabled;
    if step.Issue? {
      IssueKeeps(s, step.w);
    } else if step.Accept? {
      AcceptKeeps(s, step.call);
    } else if step.Refuse? {
      RefuseKeeps(s, step.w);
    } else if step.Mark? {
      MarkKeeps(s, step);
    } else if step.Clear? {
      ClearKeeps(s, step);
    } else if step.ReserveRetry? {
      RetryKeeps(s, step);
    } else {
      OtherKeeps(s, step);
    }
  }

  // ----- whole runs -----

  ghost predicate Run(trace: seq<State>, steps: seq<Step>) {
    && |trace| == |steps| + 1 && (exists w :: trace[0] == Reserved(w))
    && forall k :: 0 <= k < |steps| ==> Enabled(trace[k], steps[k]) && trace[k + 1] == Apply(trace[k], steps[k])
  }

  lemma {:induction false} RunInv(trace: seq<State>, steps: seq<Step>, n: nat)
    requires Run(trace, steps) && n < |trace|
    ensures Inv(trace[n])
  {
    if n > 0 {
      RunInv(trace, steps, n - 1);
      StepKeeps(trace[n - 1], steps[n - 1]);
    }
  }

  /** Calls are never forgotten, an explicit rejection and a created job are final. */
  ghost predicate Remembers(s: State, t: State) {
    && |s.calls| <= |t.calls|
    && forall i :: 0 <= i < |s.calls| ==>
         t.calls[i].(fate := s.calls[i].fate) == s.calls[i] && (s.calls[i].fate.Open? || t.calls[i].fate == s.calls[i].fate)
  }

  lemma StepRemembers(s: State, step: Step)
    requires Enabled(s, step)
    ensures Remembers(s, Apply(s, step))
  {
  }

  lemma {:induction false} RunRemembers(trace: seq<State>, steps: seq<Step>, m: nat, n: nat)
    requires Run(trace, steps) && m <= n < |trace|
    ensures Remembers(trace[m], trace[n])
  {
    hide Enabled, Apply;
    if m < n {
      RunRemembers(trace, steps, m, n - 1);
      StepRemembers(trace[n - 1], steps[n - 1]);
    }
  }

  /** In every run, of all create calls made for one attempt of a batch, at most one did not
      end in an explicit rejection. */
  lemma OneSubmissionPerAttempt(trace: seq<State>, steps: seq<Step>, n: nat, i: nat, j: nat)
    requires Run(trace, steps) && n < |trace|
    requires i < j < |trace[n].calls| && trace[n].calls[i].attempt == trace[n].calls[j].attempt
    ensures trace[n].calls[i].fate.Refused? || trace[n].calls[j].fate.Refused?
  {
    RunInv(trace, steps, n);
    assert Spent(trace[n].calls, trace[n].calls[i].attempt, i) ==> trace[n].calls[i].fate != Refused;
    assert Spent(trace[n].calls, trace[n].calls[j].attempt, j) ==> trace[n].calls[j].fate != Refused;
  }

  function Jobs(calls: seq<Call>): set<nat> {
    set i | 0 <= i < |calls| && calls[i].fate.Created?
  }

  /** Numbers that map one-to-one into 1..n are at most n. */
  lemma {:induction false} Pigeonhole(indices: set<nat>, calls: seq<Call>, n: nat)
    requires forall i :: i in indices ==> i < |calls| && 1 <= calls[i].attempt <= n
    requires forall i, j :: i in indices && j in indices && calls[i].attempt == calls[j].attempt ==> i == j
    ensures |indices| <= n
  {
    if n == 0 {
      assert indices == {} by { if i :| i in indices { assert false; } }
    } else if exists i :: i in indices && calls[i].attempt == n {
      var i :| i in indices && calls[i].attempt == n;
      Pigeonhole(indices - {i}, calls, n - 1);
    } else {
      Pigeonhole(indices, calls, n - 1);
    }
  }

  /** In every run a batch has created at most three remote jobs: at most one per attempt. */
  lemma AtMostThreeJobs(trace: seq<State>, steps: seq<Step>, n: nat)
    requires Run(trace, steps) && n < |trace|
    ensures |Jobs(trace[n].calls)| <= trace[n].attempt <= MAX_REQUEST_ATTEMPTS
  {
    hide Run;
    RunInv(trace, steps, n);
    var s := trace[n];
    forall i, j | i in Jobs(s.calls) && j in Jobs(s.calls) && s.calls[i].attempt == s.calls[j].attempt
      ensures i == j
    {
      assert Spent(s.calls, s.calls[i].attempt, i) && Spent(s.calls, s.calls[i].attempt, j);
    }
    Pigeonhole(Jobs(s.calls), s.calls, s.attempt);
  }

  /** Reconciliation never meets two jobs with one attempt's name, and what is recorded is the
      job of the attempt it is recorded for; every retried attempt was paid exactly once. */
  lemma RecordedJobs(trace: seq<State>, steps: seq<Step>, n: nat)
    requires Run(trace, steps) && n < |trace|
    ensures var s := trace[n];
            && (forall i, j :: i in Jobs(s.calls) && j in Jobs(s.calls) && s.calls[i].attempt == s.calls[j].attempt ==> i == j)
            && (s.job.Some? ==> s.job.value in Jobs(s.calls) && s.calls[s.job.value].attempt == s.attempt)
            && (s.status in {Submitted, Retry, Complete} ==> s.job.Some?)
            && (forall a :: 1 <= a < s.attempt ==> Paid(s.calls, a))
  {
    hide Run;
    RunInv(trace, steps, n);
    var s := trace[n];
    forall i, j | i in Jobs(s.calls) && j in Jobs(s.calls) && s.calls[i].attempt == s.calls[j].attempt
      ensures i == j
    {
      assert Spent(s.calls, s.calls[i].attempt, i) && Spent(s.calls, s.calls[i].attempt, j);
    }
  }

  // ----- what a collection decides -----

  /** Nothing more will be submitted. */
  ghost predicate Closed(s: State) {
    s.status in {Complete, Failed} && forall w :: w in s.phases ==> !s.phases[w].Marked?
  }

  lemma StepStaysClosed(s: State, step: Step)
    requires Closed(s) && Enabled(s, step)
    ensures Closed(Apply(s, step)) && |Apply(s, step).calls| == |s.calls| && Apply(s, step).attempt == s.attempt
  {
  }

  lemma {:induction false} StaysClosed(trace: seq<State>, steps: seq<Step>, m: nat, n: nat)
    requires Run(trace, steps) && m <= n < |trace| && Closed(trace[m])
    ensures Closed(trace[n]) && |trace[n].calls| == |trace[m].calls| && trace[n].attempt == trace[m].attempt
    decreases n
  {
    hide Closed, Enabled, Apply;
    if m < n {
      StaysClosed(trace, steps, m, n - 1);
      StepStaysClosed(trace[n - 1], steps[n - 1]);
    }
  }

  lemma CollectCloses(s: State, step: Step)
    requires Inv(s) && Enabled(s, step) && step.Collect?
    ensures var t := Apply(s, step);
            && t.calls == s.calls && t.attempt == s.attempt
            && (!step.failures ==> t.status == Complete)
            && (step.failures ==> t.status == if s.attempt < MAX_REQUEST_ATTEMPTS then Retry else Failed)
            && (t.status != Retry ==> Closed(t))
  {
    assert Spent(s.calls, s.attempt, s.job.value);
    forall w | w in s.phases ensures !s.phases[w].Marked? { assert PhaseHolds(s, w, s.phases[w]); }
  }

  /** In every run, a collection without failures completes the batch, one with failures asks for
      a retry or, at the third attempt, fails it; and unless a retry was asked for, no create call
      is ever issued again. */
  lemma CollectionDecides(trace: seq<State>, steps: seq<Step>, k: nat, n: nat)
    requires Run(trace, steps) && k < n < |trace| && k < |steps| && steps[k].Collect?
    ensures !steps[k].failures ==> trace[k + 1].status == Complete
    ensures steps[k].failures ==> trace[k + 1].status == if steps[k].attempt < MAX_REQUEST_ATTEMPTS then Retry else Failed
    ensures !steps[k].failures || steps[k].attempt == MAX_REQUEST_ATTEMPTS ==> |trace[n].calls| == |trace[k].calls|
  {
    hide Inv, Closed, Apply;
    RunInv(trace, steps, k);
    CollectCloses(trace[k], steps[k]);
    if !steps[k].failures || steps[k].attempt == MAX_REQUEST_ATTEMPTS {
      StaysClosed(trace, steps, k + 1, n);
    }
  }

  /** The batch is failed, with the attempt and the job it had, and nobody is about to create
      anything who was not before. */
  ghost predicate FailedSince(s: State, t: State) {
    && t.status == Failed && t.attempt == s.attempt && t.job == s.job
    && forall w :: w in t.phases && t.phases[w].Marked? ==> w in s.phases && s.phases[w].Marked?
  }

  lemma StepStaysFailed(s: State, step: Step)
    requires Enabled(s, step) && (s.status == Failed || step.Fail?)
    ensures FailedSince(s, Apply(s, step))
  {
  }

  /** In every run, a batch that was failed stays so: no attempt is opened, marked or recorded any
      more, whatever a late worker still does. */
  lemma {:induction false} FailureIsFinal(trace: seq<State>, steps: seq<Step>, k: nat, n: nat)
    requires Run(trace, steps) && k < n < |trace| && k < |steps| && steps[k].Fail?
    ensures FailedSince(trace[k], trace[n])
    decreases n
  {
    hide Enabled, Apply;
    assert Enabled(trace[n - 1], steps[n - 1]) && trace[n] == Apply(trace[n - 1], steps[n - 1]);
    if k < n - 1 {
      FailureIsFinal(trace, steps, k, n - 1);
    }
    StepStaysFailed(trace[n - 1], steps[n - 1]);
  }

  /** A collection of attempt `a` with this outcome, before step `n`. */
  ghost predicate Collected(steps: seq<Step>, n: nat, a: nat, failures: bool) {
    exists k :: 0 <= k < n && k < |steps| && steps[k].Collect? && steps[k].attempt == a && steps[k].failures == failures
  }

  ghost predicate LastCollected(steps: seq<Step>, n: nat, a: nat, failures: bool) {
    exists k :: 0 <= k < n && k < |steps| && steps[k].Collect? && steps[k].attempt == a && steps[k].failures == failures
                && forall m :: k < m < n && m < |steps| ==> !steps[m].Collect?
  }

  lemma StepStatus(s: State, step: Step)
    requires Enabled(s, step)
    ensures var t := Apply(s, step);
            && (t.status == Complete ==> t.attempt == s.attempt && (s.status == Complete || (step.Collect? && !step.failures && step.attempt == s.attempt)))
            && (t.status == Retry ==> t.attempt == s.attempt && (s.status == Retry || (step.Collect? && step.failures && step.attempt == s.attempt)))
            && (t.attempt != s.attempt ==> step.ReserveRetry? && s.status == Retry && t.attempt == s.attempt + 1)
            && (step.Collect? ==> s.status == Submitted)
  {
  }

  /** In every run, a complete batch was last collected without failures, one that waits for a
      retry with failures. */
  lemma {:induction false} StatusExplained(trace: seq<State>, steps: seq<Step>, n: nat)
    requires Run(trace, steps) && n < |trace|
    ensures trace[n].status == Complete ==> LastCollected(steps, n, trace[n].attempt, false)
    ensures trace[n].status == Retry ==> LastCollected(steps, n, trace[n].attempt, true)
  {
    hide Enabled, Apply;
    if n > 0 {
      StatusExplained(trace, steps, n - 1);
      StepStatus(trace[n - 1], steps[n - 1]);
      if trace[n].status in {Complete, Retry} {
        var failures := trace[n].status == Retry;
        if steps[n - 1].Collect? {
          assert LastCollected(steps, n, trace[n].attempt, failures);
        } else {
          var k :| 0 <= k < n - 1 && k < |steps| && steps[k].Collect? && steps[k].attempt == trace[n].attempt && steps[k].failures == failures
            && forall m :: k < m < n - 1 && m < |steps| ==> !steps[m].Collect?;
          assert forall m :: k < m < n && m < |steps| ==> !steps[m].Collect?;
        }
      }
    }
  }

  /** In every run, every attempt before the current one was collected with failures: nothing is
      paid twice without need. */
  lemma {:induction false} RetriedForFailures(trace: seq<State>, steps: seq<Step>, n: nat, a: nat)
    requires Run(trace, steps) && n < |trace| && 1 <= a < trace[n].attempt
    ensures Collected(steps, n, a, true)
  {
    hide Enabled, Apply, LastCollected;
    if n > 0 {
      StepStatus(trace[n - 1], steps[n - 1]);
      if a < trace[n - 1].attempt {
        RetriedForFailures(trace, steps, n - 1, a);
        CollectedLater(steps, n - 1, a, true);
      } else {
        StatusExplained(trace, steps, n - 1);
        LastIsCollected(steps, n - 1, a, true);
        CollectedLater(steps, n - 1, a, true);
      }
    }
  }

  lemma CollectedLater(steps: seq<Step>, n: nat, a: nat, failures: bool)
    requires Collected(steps, n, a, failures)
    ensures Collected(steps, n + 1, a, failures)
  {
    var k :| 0 <= k < n && k < |steps| && steps[k].Collect? && steps[k].attempt == a && steps[k].failures == failures;
    assert k < n + 1;
  }

  lemma LastIsCollected(steps: seq<Step>, n: nat, a: nat, failures: bool)
    requires LastCollected(steps, n, a, failures)
    ensures Collected(steps, n, a, failures)
  {
  }

  // ----- a whole life -----

  /** Some run ends in `s`. */
  ghost predicate Reachable(s: State) {
    exists trace, steps :: Run(trace, steps) && trace[|steps|] == s
  }

  lemma Next(s: State, step: Step) returns (t: State)
    requires Reachable(s) && Enabled(s, step)
    ensures t == Apply(s, step) && Reachable(t)
  {
    t := Apply(s, step);
    var trace, steps :| Run(trace, steps) && trace[|steps|] == s;
    var longer, more := trace + [t], steps + [step];
    assert Run(longer, more) && longer[|more|] == t;
  }

  /** The first attempt is created, recorded and collected with failures. */
  lemma FirstAttempt() returns (s: State)
    ensures Reachable(s)
    ensures s == State(Retry, 1, true, Some(0), None, false, map[0 := Calling(0)], [Call(1, 0, Created)], 0)
  {
    hide Reachable;
    s := Reserved(0);
    ReservedReachable();
    s := Next(s, Mark(0, 1));
    s := Next(s, Issue(0));
    assert s.calls == [Call(1, 0, Open)] && s.phases == map[0 := Calling(0)];
    s := Next(s, Accept(0));
    s := Next(s, Record(0, 1, 0));
    s := Next(s, Collect(0, 1, true));
    s := Next(s, Release(0));
    assert s.calls == [Call(1, 0, Created)];
  }

  lemma ReservedReachable()
    ensures Reachable(Reserved(0))
  {
    var trace, steps := [Reserved(0)], [];
    assert Run(trace, steps) && trace[|steps|] == Reserved(0);
  }

  /** The retry is rejected explicitly, so its marker is cleared and it is submitted again. */
  lemma SecondAttempt() returns (s: State)
    ensures Reachable(s)
    ensures s == State(Preparing, 2, true, None, Some(1), true, map[0 := Calling(0), 1 := Marked(2)],
                       [Call(1, 0, Created), Call(2, 1, Refused)], 1)
  {
    hide Reachable;
    s := FirstAttempt();
    s := Next(s, Claim(1));
    s := Next(s, ReserveRetry(1));
    s := Next(s, Mark(1, 2));
    s := Next(s, Issue(1));
    assert s.calls == [Call(1, 0, Created), Call(2, 1, Open)] && s.phases == map[0 := Calling(0), 1 := Calling(1)];
    s := Next(s, Refuse(1));
    assert s.calls == [Call(1, 0, Created), Call(2, 1, Refused)] && s.phases == map[0 := Calling(0), 1 := Rejected(2)];
    s := Next(s, Clear(1));
    s := Next(s, Mark(1, 2));
    assert s.phases == map[0 := Calling(0), 1 := Marked(2)];
  }

  /** Its reply is lost with the lease; another worker finds the job by its name and collects it:
      the batch ends complete after two paid jobs. */
  lemma LostReplyCompletes() returns (s: State)
    ensures Reachable(s)
    ensures s == State(Complete, 2, true, Some(2), Some(2), true, map[0 := Calling(0), 1 := Idle, 2 := Idle],
                       [Call(1, 0, Created), Call(2, 1, Refused), Call(2, 1, Created)], 1)
    ensures Jobs(s.calls) == {0, 2}
  {
    hide Reachable;
    s := SecondAttempt();
    s := Next(s, Issue(1));
    assert s.calls == [Call(1, 0, Created), Call(2, 1, Refused), Call(2, 1, Open)] && s.phases == map[0 := Calling(0), 1 := Calling(2)];
    s := Next(s, Expire);
    s := Next(s, Accept(2));
    assert s.calls == [Call(1, 0, Created), Call(2, 1, Refused), Call(2, 1, Created)];
    s := Next(s, Claim(2));
    s := Next(s, Record(2, 2, 2));
    s := Next(s, Collect(2, 2, false));
    s := Next(s, Abandon(1));
    assert s.phases == map[0 := Calling(0), 1 := Idle, 2 := Idle];
  }
}
