/** What the index holds while late writes land and late deletes run: the deletes of tombstones
    (`workers/index_mutations.py`), of retired segments (`workers/segment_cleanup.py`) and of rows
    older than the published head (`workers/index_cleanup.py`). A delete may have been decided
    long before it runs, and may remove only part of what it matches. */
module IndexContents {
  import opened Wrappers
  import opened Publication
  import Segments

  /** The catalog with its workers, and the rows in the index. */
  datatype Store = Store(catalog: State, index: set<Row>)

  datatype Act =
    | Catalog(step: Step)
    | Land(token: nat, count: nat)
    | DeleteVersions(tombstone: nat, rows: set<Row>)
    | DeleteSegment(segment: SegmentId, rows: set<Row>)
    | DeleteOlder(cutoff: Head, rows: set<Row>)

  const NOTHING := Store(INITIAL, {})

  /** The version a row was written for. */
  function WrittenFor(s: State, row: Row): Option<nat> {
    var i := if row.SegmentRow? then row.segment.owner else row.extraction;
    if i < |s.extractions| then Some(s.extractions[i].version) else None
  }

  /** The filter of a tombstone: version sequence at most its own. */
  predicate UpTo(s: State, tombstone: nat, row: Row) {
    WrittenFor(s, row).Some? && WrittenFor(s, row).value <= tombstone
  }

  /** The filter below a published head: rows without a segment, of an older version or of an
      older extraction of the same version. */
  predicate Older(s: State, h: Head, row: Row) {
    && row.PlainRow? && WrittenFor(s, row).Some? && h.version < |s.versions|
    && var v := WrittenFor(s, row).value;
       if s.versions[h.version].deleted then v <= h.version
       else v < h.version || (v == h.version && row.extraction < h.extraction)
  }

  predicate Tombstone(s: State, t: nat) { t < |s.versions| && s.versions[t].deleted }

  /** Each delete was decided in this state or an earlier one: versions stay, retirement is for
      ever, and the published head only advances. */
  ghost predicate Allowed(x: Store, act: Act) {
    match act
    case Catalog(step) => Enabled(x.catalog, step)
    case Land(token, count) => Enabled(x.catalog, WriteRows(token, count))
    case DeleteVersions(t, rows) => Tombstone(x.catalog, t) && forall r :: r in rows ==> UpTo(x.catalog, t, r)
    case DeleteSegment(m, rows) =>
      m in x.catalog.segments && x.catalog.segments[m].retired && forall r :: r in rows ==> r.SegmentRow? && r.segment == m
    case DeleteOlder(h, rows) =>
      && x.catalog.indexed.Some? && NotBefore(h, x.catalog.indexed.value)
      && forall r :: r in rows ==> Older(x.catalog, h, r)
  }

  /** The rows a worker's next write carries. */
  function Carried(s: State, token: nat, count: nat): set<Row>
    requires Enabled(s, WriteRows(token, count))
  {
    Rows(s, s.workers[token].extraction, s.workers[token].cursor, s.workers[token].cursor + count)
  }

  /** A write that lands is acknowledged in the same step, or never. */
  function Perform(x: Store, act: Act): Store
    requires Allowed(x, act)
  {
    match act
    case Catalog(step) =>
      Store(Apply(x.catalog, step), if step.WriteRows? then x.index + Carried(x.catalog, step.token, step.count) else x.index)
    case Land(token, count) => x.(index := x.index + Carried(x.catalog, token, count))
    case DeleteVersions(_, rows) => x.(index := x.index - rows)
    case DeleteSegment(_, rows) => x.(index := x.index - rows)
    case DeleteOlder(_, rows) => x.(index := x.index - rows)
  }

  // ----- what can be missing -----

  /** Some delete may have removed this row. */
  ghost predicate Doomed(s: State, row: Row) {
    || (exists t: nat :: Tombstone(s, t) && UpTo(s, t, row))
    || (row.SegmentRow? && row.segment in s.segments && s.segments[row.segment].retired)
    || (s.indexed.Some? && exists h :: NotBefore(h, s.indexed.value) && Older(s, h, row))
  }

  ghost predicate Holds(x: Store) { Inv(x.catalog) && forall r :: r in x.catalog.acked && r !in x.index ==> Doomed(x.catalog, r) }

  /** What is doomed stays so. */
  lemma DoomedStays(s: State, step: Step, row: Row)
    requires Inv(s) && Enabled(s, step) && Doomed(s, row)
    ensures Doomed(Apply(s, step), row)
  {
    hide Inv, Enabled, Apply, NotBefore;
    var t := Apply(s, step);
    StepKeeps(s, step);
    if v: nat :| Tombstone(s, v) && UpTo(s, v, row) {
      assert UpTo(t, v, row) by { WrittenStays(s, t, row); }
      assert Tombstone(t, v) by { EvolvesVersions(s, t); }
    } else if row.SegmentRow? && row.segment in s.segments && s.segments[row.segment].retired {
      RetiredStays(s, step, row.segment);
    } else {
      var h :| NotBefore(h, s.indexed.value) && Older(s, h, row);
      StepAdvances(s, step);
      NotBeforeTrans(h, s.indexed.value, t.indexed.value);
      WrittenStays(s, t, row);
      EvolvesVersions(s, t);
      assert Older(t, h, row);
    }
  }

  lemma WrittenStays(s: State, t: State, row: Row)
    requires Evolves(s, t) && WrittenFor(s, row).Some?
    ensures WrittenFor(t, row) == WrittenFor(s, row)
  {
  }

  lemma EvolvesVersions(s: State, t: State)
    requires Evolves(s, t)
    ensures s.versions <= t.versions
  {
  }

  lemma NotBeforeTrans(a: Head, b: Head, c: Head)
    requires NotBefore(a, b) && NotBefore(b, c)
    ensures NotBefore(a, c)
  {
  }

  /** Storing segments adds new ones and leaves all others and the acknowledged rows alone. */
  lemma StoreAdds(s: State, token: nat, count: nat)
    requires Inv(s) && Publication.Holds(s, token)
    ensures var t := Publication.Store(s, token, count);
            t.acked == s.acked && forall m :: m in s.segments ==> m in t.segments && t.segments[m] == s.segments[m]
  {
    hide Good, HeadGood, WorkersGood;
    var m := SegmentId(s.workers[token].extraction, Of(s, token).chunkCount);
    assert m !in s.segments;
  }

  lemma {:induction false} StoreAllAdds(s: State, token: nat, counts: seq<nat>)
    requires Inv(s) && Publication.Holds(s, token) && Of(s, token).segmented && !Terminal(Of(s, token).work)
    requires forall k :: 0 <= k < |counts| ==> 1 <= counts[k] <= Segments.SEGMENT_CHUNKS
    ensures var t := StoreAll(s, token, counts);
            t.acked == s.acked && forall m :: m in s.segments ==> m in t.segments && t.segments[m] == s.segments[m]
    decreases |counts|
  {
    hide Inv, Evolves, Publication.Store;
    if counts != [] {
      var init := counts[..|counts| - 1];
      StoreAllAdds(s, token, init);
      StoreAllKeeps(s, token, init);
      StoreAdds(StoreAll(s, token, init), token, counts[|counts| - 1]);
    }
  }

  lemma RetiredStays(s: State, step: Step, m: SegmentId)
    requires Inv(s) && Enabled(s, step) && m in s.segments && s.segments[m].retired
    ensures m in Apply(s, step).segments && Apply(s, step).segments[m].retired
  {
    hide Inv, StoreAll, Publication.Store, Rows, Copied, Writable, Live, CopiesWhole, Current;
    if step.SaveTurn? {
      StoreAllAdds(s, step.token, step.counts);
    } else if step.StoreSegment? {
      StoreAdds(s, step.token, step.count);
    }
  }

  lemma ActKeeps(x: Store, act: Act)
    requires Holds(x) && Allowed(x, act)
    ensures Holds(Perform(x, act))
  {
    hide Inv, Doomed, Rows;
    var y := Perform(x, act);
    match act {
      case Catalog(step) =>
        StepKeeps(x.catalog, step);
        forall r | r in y.catalog.acked && r !in y.index ensures Doomed(y.catalog, r) {
          AckedGrows(x.catalog, step, r);
          DoomedStays(x.catalog, step, r);
        }
      case Land(_, _) =>
      case DeleteVersions(t, rows) =>
        forall r | r in rows ensures Doomed(y.catalog, r) { DoomedBy(x, act, r); }
      case DeleteSegment(_, rows) =>
        forall r | r in rows ensures Doomed(y.catalog, r) { DoomedBy(x, act, r); }
      case DeleteOlder(_, rows) =>
        forall r | r in rows ensures Doomed(y.catalog, r) { DoomedBy(x, act, r); }
    }
  }

  lemma DoomedBy(x: Store, act: Act, row: Row)
    requires Allowed(x, act)
    requires (act.DeleteVersions? || act.DeleteSegment? || act.DeleteOlder?) && row in act.rows
    ensures Doomed(x.catalog, row)
  {
  }

  /** Only a write acknowledges rows. */
  lemma AckedGrows(s: State, step: Step, row: Row)
    requires Inv(s) && Enabled(s, step) && row in Apply(s, step).acked
    ensures row in s.acked || (step.WriteRows? && row in Carried(s, step.token, step.count))
  {
    hide Inv, StoreAll, Publication.Store, Rows, Copied, Writable, Live, CopiesWhole, Current, Mark;
    if step.SaveTurn? {
      StoreAllAdds(s, step.token, step.counts);
    } else if step.StoreSegment? {
      StoreAdds(s, step.token, step.count);
    }
  }

  // ----- whole runs -----

  ghost predicate History(trace: seq<Store>, acts: seq<Act>) {
    && |trace| == |acts| + 1 && trace[0] == NOTHING
    && forall n :: 0 <= n < |acts| ==> Allowed(trace[n], acts[n]) && trace[n + 1] == Perform(trace[n], acts[n])
  }

  lemma {:induction false} HistoryHolds(trace: seq<Store>, acts: seq<Act>, n: nat)
    requires History(trace, acts) && n < |trace|
    ensures Holds(trace[n])
  {
    hide Holds, Allowed, Perform;
    if n == 0 {
      NothingHolds();
    } else {
      HistoryHolds(trace, acts, n - 1);
      ActKeeps(trace[n - 1], acts[n - 1]);
    }
  }

  lemma NothingHolds()
    ensures Holds(NOTHING)
  {
    InitialInv();
  }

  /** Version `v` or a later one deletes the file. */
  ghost predicate DeletedSince(s: State, v: nat) { exists t: nat :: t >= v && Tombstone(s, t) }

  /** Ordinal `o` of extraction `i` has its row in the index. */
  ghost predicate Present(x: Store, i: nat, o: nat)
    requires i < |x.catalog.extractions|
  {
    if x.catalog.extractions[i].segmented
    then exists m :: m in x.catalog.extractions[i].members && Covers(x.catalog, m, o) && SegmentRow(m, o) in x.index
    else PlainRow(i, o) in x.index
  }

  /** Only a tombstone can doom a row of the published extraction. */
  lemma HeadRowSafe(s: State, row: Row)
    requires Inv(s) && s.indexed.Some? && s.indexed.value.extraction < |s.extractions|
    requires var i := s.indexed.value.extraction;
             if row.SegmentRow? then s.extractions[i].segmented && row.segment in s.extractions[i].members else row.extraction == i
    ensures Doomed(s, row) ==> DeletedSince(s, s.indexed.value.version)
  {
    hide WorkersGood, SegmentsGood, Tiled, Acked;
    var i := s.indexed.value.extraction;
    assert Good(s, i);
    GoodParts(s, i);
    assert Live(s, i);
    KnownMembers(s, i);
    if t: nat :| Tombstone(s, t) && UpTo(s, t, row) {
      assert t >= s.indexed.value.version;
    } else if h :| NotBefore(h, s.indexed.value) && Older(s, h, row) {
      assert Tombstone(s, h.version) ==> h.version >= s.indexed.value.version;
    }
  }

  /** In every history of workers, late writes and late deletes, every row of the published
      extraction is in the index, unless that version or a later one deletes the file. */
  lemma PublishedIsPresent(trace: seq<Store>, acts: seq<Act>, n: nat, o: nat)
    requires History(trace, acts) && n < |trace| && trace[n].catalog.indexed.Some?
    requires trace[n].catalog.indexed.value.extraction < |trace[n].catalog.extractions|
    requires o < trace[n].catalog.extractions[trace[n].catalog.indexed.value.extraction].chunkCount
    ensures Present(trace[n], trace[n].catalog.indexed.value.extraction, o)
            || DeletedSince(trace[n].catalog, trace[n].catalog.indexed.value.version)
  {
    hide History, Inv, Doomed, DeletedSince, Covers;
    var x := trace[n];
    var s, i := x.catalog, x.catalog.indexed.value.extraction;
    HistoryHolds(trace, acts, n);
    HeadConfirmed(s, o);
    if s.extractions[i].segmented {
      var m :| m in s.extractions[i].members && Covers(s, m, o) && SegmentRow(m, o) in s.acked;
      HeadRowSafe(s, SegmentRow(m, o));
    } else {
      HeadRowSafe(s, PlainRow(i, o));
    }
  }

  // ----- what the index can hold -----

  /** Rows are written for ordinals that exist. */
  predicate Written(s: State, row: Row) {
    match row
    case PlainRow(i, o) => i < |s.extractions| && !s.extractions[i].segmented && o < s.extractions[i].chunkCount
    case SegmentRow(m, o) => Covers(s, m, o)
  }

  /** Every row in the index has been written: in all histories of late writes and deletes. */
  lemma {:induction false} IndexIsWritten(trace: seq<Store>, acts: seq<Act>, n: nat, row: Row)
    requires History(trace, acts) && n < |trace| && row in trace[n].index
    ensures Written(trace[n].catalog, row)
  {
    hide Written, Inv, Enabled, Apply;
    if n > 0 {
      var x, act := trace[n - 1], acts[n - 1];
      assert Allowed(x, act) && trace[n] == Perform(x, act);
      HistoryHolds(trace, acts, n - 1);
      if row in x.index {
        IndexIsWritten(trace, acts, n - 1, row);
      } else {
        CarriedIsWritten(x.catalog, if act.Land? then act.token else act.step.token, if act.Land? then act.count else act.step.count, row);
      }
      if act.Catalog? {
        RowStaysWritten(x.catalog, act.step, row);
      }
    }
  }

  lemma CarriedIsWritten(s: State, token: nat, count: nat, row: Row)
    requires Inv(s) && Enabled(s, WriteRows(token, count)) && row in Carried(s, token, count)
    ensures Written(s, row)
  {
    hide HeadGood, SegmentsGood, Good, Writable;
    assert WorkerGood(s, token);
  }

  lemma RowStaysWritten(s: State, step: Step, row: Row)
    requires Inv(s) && Enabled(s, step) && Written(s, row)
    ensures Written(Apply(s, step), row)
  {
    hide Inv, Enabled, Apply;
    StepKeeps(s, step);
    var t := Apply(s, step);
    match row {
      case PlainRow(i, o) => FormatStays(s, step, i);
      case SegmentRow(m, o) => assert SegmentKept(s, t, m);
    }
  }

  lemma {:induction false} StoreAllKeepsFormat(s: State, token: nat, counts: seq<nat>, i: nat)
    requires Publication.Holds(s, token) && i < |s.extractions|
    ensures StoreAll(s, token, counts).extractions[i].segmented == s.extractions[i].segmented
    ensures s.workers[token].extraction != i ==> StoreAll(s, token, counts).extractions[i] == s.extractions[i]
  {
    if counts != [] {
      StoreAllKeepsFormat(s, token, counts[..|counts| - 1], i);
    }
  }

  /** An extraction with rows stays segmented or not. */
  lemma FormatStays(s: State, step: Step, i: nat)
    requires Inv(s) && Enabled(s, step) && i < |s.extractions| && s.extractions[i].chunkCount > 0
    ensures i < |Apply(s, step).extractions| && Apply(s, step).extractions[i].segmented == s.extractions[i].segmented
  {
    hide Inv, Writable, StoreAll, Rows, Mark, Copied, CopiesWhole, Extendable, Live, Current;
    if step.SaveTurn? {
      StoreAllKeepsFormat(s, step.token, step.counts, i);
    } else if step.BeginAssembly? && !Of(s, step.token).segmented {
      Unbegun(s, s.workers[step.token].extraction);
    }
  }

  lemma Unbegun(s: State, i: nat)
    requires Inv(s) && i < |s.extractions| && s.extractions[i].stage == Transform && !s.extractions[i].segmented
    ensures s.extractions[i].chunkCount == 0
  {
    hide HeadGood, SegmentsGood, WorkersGood, Tiled, Live;
    assert Good(s, i);
    GoodParts(s, i);
  }

  /** The filter below the published head leaves, of the rows without a segment, none that are
      older than it: neither of an older version nor of an older extraction of its version, nor
      anything up to a published tombstone. */
  lemma CleanupLeaves(trace: seq<Store>, acts: seq<Act>, n: nat, row: Row)
    requires History(trace, acts) && n < |trace| && trace[n].catalog.indexed.Some?
    requires row in trace[n].index && row.PlainRow? && !Older(trace[n].catalog, trace[n].catalog.indexed.value, row)
    ensures var s, h := trace[n].catalog, trace[n].catalog.indexed.value;
            && row.extraction < |s.extractions| && h.version < |s.versions|
            && NotBefore(h, Head(s.extractions[row.extraction].version, row.extraction))
            && (s.versions[h.version].deleted ==> s.extractions[row.extraction].version > h.version)
  {
    hide History, Good, SegmentsGood, WorkersGood, Doomed;
    HistoryHolds(trace, acts, n);
    IndexIsWritten(trace, acts, n, row);
  }

  /** In every history a write that is never acknowledged, by a worker late or not, puts its rows
      into the index and changes nothing else. */
  lemma LateRowsLand(trace: seq<Store>, acts: seq<Act>, n: nat, row: Row)
    requires History(trace, acts) && n < |acts| && acts[n].Land? && Enabled(trace[n].catalog, WriteRows(acts[n].token, acts[n].count))
    ensures trace[n + 1].catalog == trace[n].catalog
    ensures row in trace[n + 1].index <==> row in trace[n].index || row in Carried(trace[n].catalog, acts[n].token, acts[n].count)
  {
    hide Enabled, Apply, Carried;
    assert Allowed(trace[n], acts[n]) && trace[n + 1] == Perform(trace[n], acts[n]);
  }

  /** The rows a delete is after. */
  predicate Matched(s: State, act: Act, row: Row) {
    match act
    case DeleteVersions(t, _) => UpTo(s, t, row)
    case DeleteSegment(m, _) => row.SegmentRow? && row.segment == m
    case DeleteOlder(h, _) => Older(s, h, row)
    case _ => false
  }

  /** A delete that removes all it matches leaves, in every history: after a tombstone only rows of
      later versions, after a retirement no row of the segment, and below the published head no
      row without a segment that is older than it. */
  lemma SweptClean(trace: seq<Store>, acts: seq<Act>, n: nat, row: Row)
    requires History(trace, acts) && n < |acts| && (acts[n].DeleteVersions? || acts[n].DeleteSegment? || acts[n].DeleteOlder?)
    requires forall r :: r in trace[n].index && Matched(trace[n].catalog, acts[n], r) ==> r in acts[n].rows
    requires row in trace[n + 1].index
    ensures var s, act := trace[n].catalog, acts[n];
            && trace[n + 1].catalog == s && row in trace[n].index
            && (act.DeleteSegment? ==> !(row.SegmentRow? && row.segment == act.segment))
            && (act.DeleteVersions? ==> WrittenFor(s, row).Some? && WrittenFor(s, row).value > act.tombstone)
            && (act.DeleteOlder? && s.indexed == Some(act.cutoff) && row.PlainRow? ==>
                  WrittenFor(s, row).Some? && NotBefore(act.cutoff, Head(WrittenFor(s, row).value, row.extraction)))
  {
    hide Written, Good, WorkersGood, HeadGood, Enabled, Apply, Doomed;
    var x, act := trace[n], acts[n];
    assert Allowed(x, act) && trace[n + 1] == Perform(x, act);
    HistoryHolds(trace, acts, n);
    IndexIsWritten(trace, acts, n, row);
    WrittenByExtraction(x.catalog, row);
    if act.DeleteOlder? && x.catalog.indexed == Some(act.cutoff) && row.PlainRow? {
      CleanupLeaves(trace, acts, n, row);
    }
  }

  lemma WrittenByExtraction(s: State, row: Row)
    requires Inv(s) && Written(s, row)
    ensures WrittenFor(s, row).Some?
  {
    hide Good, WorkersGood, HeadGood;
  }
}
