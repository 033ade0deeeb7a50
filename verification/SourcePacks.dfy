/** Registration of captured versions, provenance of their byte ranges, and retirement of
    versions and source packs (`internal/server/file_catalog.go`,
    `internal/server/source_authorization.go`, `workers/source_cleanup.py`). One transaction
    is one step; every step may be attempted at any time. */
module SourcePacks {
  import opened Wrappers
  import opened SourceExtents

  type File = nat
  type Capture = nat
  type User = nat

  datatype Version = Version(file: File, capture: Capture, previous: Option<nat>, extents: seq<Extent>, retired: bool)

  /** An uploaded object; `capture` is set once, when a registration first uses it. */
  datatype Pack = Pack(size: nat, uploader: User, capture: Option<Capture>, retired: bool)

  datatype Head = Head(captured: Option<nat>, indexed: Option<nat>)

  /** Versions are numbered in registration order; registration holds the root lock. */
  datatype State = State(versions: seq<Version>, packs: map<string, Pack>, heads: map<File, Head>)

  datatype Write = Write(file: File, previous: Option<nat>, extents: seq<Extent>)

  datatype Step =
    | Upload(key: string, size: nat, uploader: User)
    | Register(user: User, capture: Capture, writes: seq<Write>)
    | Publish(file: File)
    | RetireVersion(version: nat)
    | RetirePack(key: string)

  predicate Contains(outer: Extent, inner: Extent) {
    && outer.key == inner.key && outer.offset <= inner.offset
    && inner.offset + inner.length <= outer.offset + outer.length
  }

  function HeadOf(s: State, f: File): Head { if f in s.heads then s.heads[f] else Head(None, None) }

  /** `e` lies inside a range of the previous version. */
  predicate Inherited(s: State, w: Write, e: Extent) {
    && w.previous.Some? && w.previous.value < |s.versions|
    && exists outer :: outer in s.versions[w.previous.value].extents && Contains(outer, e)
  }

  /** The authorization of one requested range. */
  predicate Authorized(s: State, user: User, w: Write, e: Extent) {
    && e.key in s.packs && e.length > 0 && e.offset + e.length <= s.packs[e.key].size
    && !s.packs[e.key].retired
    && (Inherited(s, w, e) || (s.packs[e.key].uploader == user && s.packs[e.key].capture.None?))
  }

  predicate Enabled(s: State, step: Step) {
    match step
    case Upload(key, _, _) => key !in s.packs
    case Register(user, capture, writes) =>
      && (forall i, j :: 0 <= i < j < |writes| ==> writes[i].file != writes[j].file)
      && (forall i :: 0 <= i < |writes| ==> HeadOf(s, writes[i].file).captured == writes[i].previous)
      && (forall i, k :: 0 <= i < |writes| && 0 <= k < |writes[i].extents| ==>
            Authorized(s, user, writes[i], writes[i].extents[k]))
    case Publish(f) => HeadOf(s, f).captured.Some?
    case RetireVersion(v) =>
      && v < |s.versions|
      && HeadOf(s, s.versions[v].file).captured != Some(v) && HeadOf(s, s.versions[v].file).indexed != Some(v)
    case RetirePack(key) =>
      && key in s.packs
      && forall v, k :: 0 <= v < |s.versions| && 0 <= k < |s.versions[v].extents| && s.versions[v].extents[k].key == key
           ==> s.versions[v].retired
  }

  predicate Requested(writes: seq<Write>, key: string) {
    exists i, k :: 0 <= i < |writes| && 0 <= k < |writes[i].extents| && writes[i].extents[k].key == key
  }

  /** Requested packs of this user that no capture uses yet are bound to this capture. */
  function Bind(s: State, user: User, capture: Capture, writes: seq<Write>): map<string, Pack> {
    map key | key in s.packs ::
      var p := s.packs[key];
      if p.capture.None? && p.uploader == user && Requested(writes, key) then p.(capture := Some(capture)) else p
  }

  function NewVersion(capture: Capture, w: Write): Version { Version(w.file, capture, w.previous, w.extents, false) }

  function NewVersions(capture: Capture, writes: seq<Write>): (r: seq<Version>)
    ensures |r| == |writes| && forall i :: 0 <= i < |writes| ==> r[i] == NewVersion(capture, writes[i])
  {
    seq(|writes|, i requires 0 <= i < |writes| => NewVersion(capture, writes[i]))
  }

  /** Position of the write to file `f`, or -1. */
  function WriteTo(writes: seq<Write>, f: File): (r: int)
    ensures r == -1 || (0 <= r < |writes| && writes[r].file == f)
    ensures r == -1 ==> forall i :: 0 <= i < |writes| ==> writes[i].file != f
  {
    if writes == [] then -1
    else if writes[|writes| - 1].file == f then |writes| - 1
    else WriteTo(writes[..|writes| - 1], f)
  }

  function AdvanceHeads(s: State, writes: seq<Write>): map<File, Head> {
    var files := set i | 0 <= i < |writes| :: writes[i].file;
    map f | f in s.heads.Keys + files ::
      var i := WriteTo(writes, f);
      if i < 0 then HeadOf(s, f) else HeadOf(s, f).(captured := Some(|s.versions| + i))
  }

  function Apply(s: State, step: Step): State
    requires Enabled(s, step)
  {
    match step
    case Upload(key, size, uploader) => s.(packs := s.packs[key := Pack(size, uploader, None, false)])
    case Register(user, capture, writes) =>
      State(s.versions + NewVersions(capture, writes), Bind(s, user, capture, writes), AdvanceHeads(s, writes))
    case Publish(f) => s.(heads := s.heads[f := HeadOf(s, f).(indexed := HeadOf(s, f).captured)])
    case RetireVersion(v) => s.(versions := s.versions[v := s.versions[v].(retired := true)])
    case RetirePack(key) => s.(packs := s.packs[key := s.packs[key].(retired := true)])
  }

  // ----- invariants -----

  ghost predicate Bound(s: State, key: string) { key in s.packs && s.packs[key].capture.Some? }

  /** The range `e` of version `v` came from the capture its pack is bound to: either that
      capture registered `v`, or `e` lies inside a range of the previous version that did. */
  ghost predicate Traced(s: State, v: nat, e: Extent)
    decreases v
  {
    && v < |s.versions| && Bound(s, e.key)
    && (|| Some(s.versions[v].capture) == s.packs[e.key].capture
        || (&& s.versions[v].previous.Some?
            && var p := s.versions[v].previous.value;
               p < v && p < |s.versions| && s.versions[p].file == s.versions[v].file
               && exists outer :: outer in s.versions[p].extents && Contains(outer, e) && Traced(s, p, outer)))
  }

  /** A version that a head of `f` names is a version of `f` and is not retired. */
  ghost predicate Pins(s: State, f: File, v: Option<nat>) {
    v.Some? ==> v.value < |s.versions| && s.versions[v.value].file == f && !s.versions[v.value].retired
  }

  ghost predicate HeadsPin(s: State) {
    forall f :: f in s.heads ==> Pins(s, f, s.heads[f].captured) && Pins(s, f, s.heads[f].indexed)
  }

  ghost predicate RangesLive(s: State) {
    forall v, k :: 0 <= v < |s.versions| && 0 <= k < |s.versions[v].extents| ==>
      && s.versions[v].extents[k].key in s.packs
      && (!s.versions[v].retired ==> !s.packs[s.versions[v].extents[k].key].retired)
  }

  ghost predicate RangesTraced(s: State) {
    forall v, k :: 0 <= v < |s.versions| && 0 <= k < |s.versions[v].extents| ==> Traced(s, v, s.versions[v].extents[k])
  }

  ghost predicate Inv(s: State) { HeadsPin(s) && RangesLive(s) && RangesTraced(s) }

  const INITIAL := State([], map[], map[])

  /** What a step leaves of the past: identities never change, binding is for ever. */
  ghost predicate Grows(s: State, t: State) {
    && |s.versions| <= |t.versions|
    && (forall v :: 0 <= v < |s.versions| ==>
          t.versions[v].(retired := s.versions[v].retired) == s.versions[v])
    && (forall key :: Bound(s, key) ==> Bound(t, key) && t.packs[key].capture == s.packs[key].capture)
  }

  lemma StepGrows(s: State, step: Step)
    requires Enabled(s, step)
    ensures Grows(s, Apply(s, step))
  {
  }

  lemma {:induction false} TracedGrows(s: State, t: State, v: nat, e: Extent)
    requires Grows(s, t) && Traced(s, v, e)
    ensures Traced(t, v, e)
    decreases v
  {
    if Some(s.versions[v].capture) != s.packs[e.key].capture {
      var p := s.versions[v].previous.value;
      var outer :| outer in s.versions[p].extents && Contains(outer, e) && Traced(s, p, outer);
      TracedGrows(s, t, p, outer);
      assert outer in t.versions[p].extents;
    }
  }

  lemma RegisterTraces(s: State, user: User, capture: Capture, writes: seq<Write>, i: nat, k: nat)
    requires Inv(s) && Enabled(s, Register(user, capture, writes))
    requires i < |writes| && k < |writes[i].extents|
    ensures Traced(Apply(s, Register(user, capture, writes)), |s.versions| + i, writes[i].extents[k])
  {
    var w, e := writes[i], writes[i].extents[k];
    var t := Apply(s, Register(user, capture, writes));
    StepGrows(s, Register(user, capture, writes));
    assert Authorized(s, user, w, e);
    assert t.versions[|s.versions| + i] == NewVersion(capture, w);
    assert Requested(writes, e.key);
    if Inherited(s, w, e) {
      var p := w.previous.value;
      assert HeadOf(s, w.file).captured == w.previous;
      var outer :| outer in s.versions[p].extents && Contains(outer, e);
      var j :| 0 <= j < |s.versions[p].extents| && s.versions[p].extents[j] == outer;
      assert Traced(s, p, s.versions[p].extents[j]);
      TracedGrows(s, t, p, outer);
      assert outer in t.versions[p].extents;
    }
  }

  /** Only registration adds versions. */
  lemma StepVersions(s: State, step: Step)
    requires Enabled(s, step)
    ensures var t := Apply(s, step);
            t.versions == s.versions
            || (step.RetireVersion? && step.version < |s.versions|
                && t.versions == s.versions[step.version := s.versions[step.version].(retired := true)])
            || (step.Register? && t.versions == s.versions + NewVersions(step.capture, step.writes))
  {
  }

  lemma StepTraces(s: State, step: Step)
    requires Inv(s) && Enabled(s, step)
    ensures RangesTraced(Apply(s, step))
  {
    hide Apply, Enabled, Traced, HeadsPin, RangesLive;
    var t := Apply(s, step);
    StepGrows(s, step);
    StepVersions(s, step);
    forall v, k | 0 <= v < |t.versions| && 0 <= k < |t.versions[v].extents|
      ensures Traced(t, v, t.versions[v].extents[k])
    {
      if v < |s.versions| {
        assert Traced(s, v, s.versions[v].extents[k]);
        TracedGrows(s, t, v, s.versions[v].extents[k]);
      } else {
        assert step.Register? && t.versions == s.versions + NewVersions(step.capture, step.writes);
        RegisterTraces(s, step.user, step.capture, step.writes, v - |s.versions|, k);
      }
    }
  }

  lemma RegisterLive(s: State, user: User, capture: Capture, writes: seq<Write>, i: nat, k: nat)
    requires Enabled(s, Register(user, capture, writes)) && i < |writes| && k < |writes[i].extents|
    ensures var packs := Bind(s, user, capture, writes);
            writes[i].extents[k].key in packs && !packs[writes[i].extents[k].key].retired
  {
    hide Inherited;
    assert Authorized(s, user, writes[i], writes[i].extents[k]);
  }

  lemma StepLive(s: State, step: Step)
    requires Inv(s) && Enabled(s, step)
    ensures RangesLive(Apply(s, step))
  {
    hide Traced, RangesTraced, HeadsPin, AdvanceHeads, HeadOf, Authorized, Requested;
    var t := Apply(s, step);
    match step {
      case Register(user, capture, writes) =>
        forall v, k | 0 <= v < |t.versions| && 0 <= k < |t.versions[v].extents|
          ensures t.versions[v].extents[k].key in t.packs
          ensures !t.versions[v].retired ==> !t.packs[t.versions[v].extents[k].key].retired
        {
          if v < |s.versions| {
            assert s.versions[v].extents[k].key in s.packs;
          } else {
            RegisterLive(s, user, capture, writes, v - |s.versions|, k);
          }
        }
      case _ =>
    }
  }

  lemma StepPins(s: State, step: Step)
    requires Inv(s) && Enabled(s, step)
    ensures HeadsPin(Apply(s, step))
  {
    hide Traced, RangesTraced, RangesLive, Authorized, Requested, Bind, WriteTo;
    var t := Apply(s, step);
    forall f | f in t.heads ensures Pins(t, f, t.heads[f].captured) && Pins(t, f, t.heads[f].indexed) {
      assert f in s.heads ==> Pins(s, f, s.heads[f].captured) && Pins(s, f, s.heads[f].indexed);
      match step {
        case Register(_, capture, writes) =>
          var i := WriteTo(writes, f);
          if i >= 0 {
            assert t.versions[|s.versions| + i] == NewVersion(capture, writes[i]);
          }
        case _ =>
      }
    }
  }

  /** Every step keeps the invariant. */
  lemma StepKeeps(s: State, step: Step)
    requires Inv(s) && Enabled(s, step)
    ensures Inv(Apply(s, step))
  {
    hide Inv, Enabled;
    assert Inv(Apply(s, step)) by {
      StepPins(s, step);
      StepLive(s, step);
      StepTraces(s, step);
      InvParts(Apply(s, step));
    }
  }

  lemma InvParts(s: State)
    requires HeadsPin(s) && RangesLive(s) && RangesTraced(s)
    ensures Inv(s)
  {
  }

  ghost predicate Reachable(trace: seq<State>, steps: seq<Step>) {
    && |trace| == |steps| + 1 && trace[0] == INITIAL
    && forall i :: 0 <= i < |steps| ==> Enabled(trace[i], steps[i]) && trace[i + 1] == Apply(trace[i], steps[i])
  }

  lemma {:induction false} ReachableInv(trace: seq<State>, steps: seq<Step>, n: nat)
    requires Reachable(trace, steps) && n < |trace|
    ensures Inv(trace[n])
  {
    if n > 0 {
      ReachableInv(trace, steps, n - 1);
      StepKeeps(trace[n - 1], steps[n - 1]);
    }
  }

  /** In every run, the packs of a captured head and of a published version are not
      retired, and each of their ranges traces back to the capture its pack is bound to. */
  lemma SourcesOfHeadsStay(trace: seq<State>, steps: seq<Step>, n: nat, f: File, v: nat, k: nat)
    requires Reachable(trace, steps) && n < |trace| && f in trace[n].heads
    requires trace[n].heads[f].captured == Some(v) || trace[n].heads[f].indexed == Some(v)
    requires v < |trace[n].versions| && k < |trace[n].versions[v].extents|
    ensures var e := trace[n].versions[v].extents[k];
            && e.key in trace[n].packs && !trace[n].packs[e.key].retired
            && Traced(trace[n], v, e)
  {
    ReachableInv(trace, steps, n);
  }

  // ----- what steps achieve -----

  /** The head of each written file names its new version, which holds exactly what was written
      and follows the version that was the head; published heads stay. */
  ghost predicate WritesMoved(s: State, t: State, capture: Capture, writes: seq<Write>) {
    forall i :: 0 <= i < |writes| ==> WriteMoved(s, t, capture, writes, i)
  }

  ghost predicate WriteMoved(s: State, t: State, capture: Capture, writes: seq<Write>, i: nat)
    requires i < |writes|
  {
    var f := writes[i].file;
    && HeadOf(t, f) == Head(Some(|s.versions| + i), HeadOf(s, f).indexed) && |s.versions| + i < |t.versions|
    && t.versions[|s.versions| + i] == Version(f, capture, HeadOf(s, f).captured, writes[i].extents, false)
  }

  /** Heads of other files and older versions stay. */
  ghost predicate OthersStay(s: State, t: State, writes: seq<Write>) {
    && s.versions <= t.versions
    && forall f :: (forall i :: 0 <= i < |writes| ==> writes[i].file != f) ==> HeadOf(t, f) == HeadOf(s, f)
  }

  /** A pack of the user's that no capture used yet is bound exactly if it was written from. */
  ghost predicate PacksBound(s: State, t: State, user: User, capture: Capture, writes: seq<Write>) {
    && t.packs.Keys == s.packs.Keys
    && forall key :: key in s.packs ==>
         t.packs[key] == if s.packs[key].capture.None? && s.packs[key].uploader == user && Requested(writes, key)
                         then s.packs[key].(capture := Some(capture)) else s.packs[key]
  }

  lemma WriteFound(writes: seq<Write>, i: nat)
    requires i < |writes| && forall k, l :: 0 <= k < l < |writes| ==> writes[k].file != writes[l].file
    ensures WriteTo(writes, writes[i].file) == i
  {
    hide WriteTo;
    var k := WriteTo(writes, writes[i].file);
    assert k >= 0 && writes[k].file == writes[i].file;
  }

  lemma RegisterMoves(s: State, user: User, capture: Capture, writes: seq<Write>, i: nat)
    requires Enabled(s, Register(user, capture, writes)) && i < |writes|
    ensures WriteMoved(s, Apply(s, Register(user, capture, writes)), capture, writes, i)
  {
    hide Authorized, WriteTo, Bind;
    WriteFound(writes, i);
    var t := Apply(s, Register(user, capture, writes));
    var f := writes[i].file;
    assert f in t.heads;
    assert t.versions[|s.versions| + i] == NewVersion(capture, writes[i]);
  }

  lemma RegisterSpares(s: State, user: User, capture: Capture, writes: seq<Write>)
    requires Enabled(s, Register(user, capture, writes))
    ensures OthersStay(s, Apply(s, Register(user, capture, writes)), writes)
    ensures PacksBound(s, Apply(s, Register(user, capture, writes)), user, capture, writes)
  {
    hide Authorized, WriteTo, Requested, NewVersions;
  }

  /** In every run, a registration does exactly this. */
  lemma RegistrationMoves(trace: seq<State>, steps: seq<Step>, n: nat)
    requires Reachable(trace, steps) && n < |steps| && steps[n].Register?
    ensures var s, t, r := trace[n], trace[n + 1], steps[n];
            WritesMoved(s, t, r.capture, r.writes) && OthersStay(s, t, r.writes) && PacksBound(s, t, r.user, r.capture, r.writes)
  {
    hide Enabled, Apply, WriteMoved, OthersStay, PacksBound;
    var s, t, r := trace[n], trace[n + 1], steps[n];
    forall i | 0 <= i < |r.writes| ensures WriteMoved(s, t, r.capture, r.writes, i) {
      RegisterMoves(s, r.user, r.capture, r.writes, i);
    }
    RegisterSpares(s, r.user, r.capture, r.writes);
  }

  /** Some run ends in `s`. */
  ghost predicate Ends(s: State) { exists trace, steps :: Reachable(trace, steps) && trace[|steps|] == s }

  lemma Next(s: State, step: Step) returns (t: State)
    requires Ends(s) && Enabled(s, step)
    ensures t == Apply(s, step) && Ends(t)
  {
    hide Enabled, Apply;
    t := Apply(s, step);
    var trace, steps :| Reachable(trace, steps) && trace[|steps|] == s;
    var longer, more := trace + [t], steps + [step];
    forall i | 0 <= i < |more| ensures Enabled(longer[i], more[i]) && longer[i + 1] == Apply(longer[i], more[i]) {
      if i < |steps| {
        assert longer[i] == trace[i] && longer[i + 1] == trace[i + 1] && more[i] == steps[i];
      }
    }
    assert Reachable(longer, more) && longer[|more|] == t;
  }

  lemma InitialEnds()
    ensures Ends(INITIAL)
  {
    var trace: seq<State>, steps: seq<Step> := [INITIAL], [];
    assert Reachable(trace, steps) && trace[|steps|] == INITIAL;
  }

  const OLD := Extent("a", 0, 4)
  const FRESH := Extent("b", 0, 2)

  /** A file is captured from pack `a` and published. */
  lemma FirstCapture() returns (s: State)
    ensures Ends(s) && s.versions == [Version(5, 1, None, [OLD], false)] && s.heads == map[5 := Head(Some(0), Some(0))]
    ensures s.packs == map["a" := Pack(4, 9, Some(1), false)]
  {
    hide Ends;
    InitialEnds();
    s := INITIAL;
    s := Next(s, Upload("a", 4, 9));
    assert s.packs == map["a" := Pack(4, 9, None, false)];
    var w := [Write(5, None, [OLD])];
    assert Requested(w, "a") by { assert w[0].extents[0].key == "a"; }
    s := Next(s, Register(9, 1, w));
    assert s.versions == [Version(5, 1, None, [OLD], false)];
    assert s.heads == map[5 := Head(Some(0), None)];
    s := Next(s, Publish(5));
  }

  /** It is replaced from pack `b`; once that is published, the old version and the old pack go. */
  lemma OldPackGoes() returns (s: State)
    ensures Ends(s) && s.versions == [Version(5, 1, None, [OLD], true), Version(5, 2, Some(0), [FRESH], false)]
    ensures s.heads == map[5 := Head(Some(1), Some(1))]
    ensures s.packs == map["a" := Pack(4, 9, Some(1), true), "b" := Pack(2, 9, Some(2), false)]
  {
    hide Ends;
    s := FirstCapture();
    s := Next(s, Upload("b", 2, 9));
    var w := [Write(5, Some(0), [FRESH])];
    assert Requested(w, "b") by { assert w[0].extents[0].key == "b"; }
    assert !Requested(w, "a");
    s := Next(s, Register(9, 2, w));
    assert s.versions == [Version(5, 1, None, [OLD], false), Version(5, 2, Some(0), [FRESH], false)];
    assert s.heads == map[5 := Head(Some(1), Some(0))];
    assert s.packs == map["a" := Pack(4, 9, Some(1), false), "b" := Pack(2, 9, Some(2), false)];
    s := Next(s, Publish(5));
    s := Next(s, RetireVersion(0));
    s := Next(s, RetirePack("a"));
  }
}
