/** What a search serves, in terms of the files' publication (`internal/server/search_publication.go`,
    `internal/server/search_segments.go`): rows of the extraction that was the head when its path
    was first looked up, while workers go on publishing and retiring. */
module SearchPublished {
  import opened Wrappers
  import opened Publication
  import IndexContents
  import Search

  // ----- what the reads see -----

  /** The history of one file, and the state that each read of a request finds: pass `k` reads the
      catalog at moment `2 * k` and the memberships at `2 * k + 1`. */
  datatype Life = Life(trace: seq<State>, steps: seq<Step>, clock: nat -> nat)

  ghost predicate Proper(l: Life) {
    && Run(l.trace, l.steps)
    && (forall k :: l.clock(k) < |l.trace|)
    && (forall j, k :: j <= k ==> l.clock(j) <= l.clock(k))
  }

  ghost function At(l: Life, k: nat): State
    requires Proper(l)
  {
    l.trace[l.clock(k)]
  }

  ghost function Last(l: Life): State
    requires Proper(l)
  {
    l.trace[|l.trace| - 1]
  }

  /** The identities stored in rows: never empty, and never shared. */
  datatype Names = Names(extraction: (string, nat) -> string, segment: (string, SegmentId) -> string)

  ghost predicate Unique(names: Names) {
    && (forall p, i, q, j :: names.extraction(p, i) == names.extraction(q, j) ==> p == q && i == j)
    && (forall p, m, q, k :: names.segment(p, m) == names.segment(q, k) ==> p == q && m == k)
    && (forall p, i :: names.extraction(p, i) != "")
    && (forall p, m :: names.segment(p, m) != "")
  }

  /** The last captured version deletes the file. */
  predicate Deleted(s: State) { s.captured.Some? && s.captured.value < |s.versions| && s.versions[s.captured.value].deleted }

  /** The catalog's row for a path, or nothing at all when it has none. */
  function Answer(names: Names, path: string, s: State): Search.Publication {
    if s.versions == [] then Search.Publication("", false, 0)
    else if s.indexed.None? || s.indexed.value.extraction >= |s.extractions| then Search.Publication("", Deleted(s), 1)
    else
      var i := s.indexed.value.extraction;
      Search.Publication(names.extraction(path, i), Deleted(s), if s.extractions[i].segmented then 2 else 1)
  }

  /** The join over extractions, memberships and segments. */
  ghost predicate Joined(names: Names, s: State, c: Search.Candidate) {
    exists i: nat, m :: i < |s.extractions| && Joins(names, s, c, i, m)
  }

  ghost predicate Joins(names: Names, s: State, c: Search.Candidate, i: nat, m: SegmentId)
    requires i < |s.extractions|
  {
    && names.extraction(c.path, i) == c.extraction && names.segment(c.path, m) == c.segment
    && s.extractions[i].segmented && m in s.extractions[i].members && m in s.segments && !s.segments[m].retired
  }

  /** The answers of one namespace's passes come from the states of its files. */
  ghost predicate Reads(names: Names, lives: string -> Life, slot: nat, catalog: (nat, nat) -> string -> Search.Publication,
                        member: (nat, nat) -> Search.Candidate -> bool) {
    && (forall p :: Proper(lives(p)))
    && (forall k: nat, p :: catalog(k, slot)(p) == Answer(names, p, At(lives(p), 2 * k)))
    && (forall k: nat, c :: member(k, slot)(c) == Joined(names, At(lives(c.path), 2 * k + 1), c))
  }

  // ----- rows of the index -----

  /** A ranked row of the index. */
  datatype Entry = Entry(id: nat, path: string, row: Row)

  /** A row carries the extraction that wrote it, also when a later one has inherited its segment. */
  function Encoded(names: Names, e: Entry): Search.Row {
    match e.row
    case PlainRow(i, _) => Search.Row(e.id, e.path, names.extraction(e.path, i), "")
    case SegmentRow(m, _) => Search.Row(e.id, e.path, names.extraction(e.path, m.owner), names.segment(e.path, m))
  }

  function EncodedAll(names: Names, entries: seq<Entry>): seq<Search.Row> {
    seq(|entries|, x requires 0 <= x < |entries| => Encoded(names, entries[x]))
  }

  ghost predicate AllWritten(lives: string -> Life, entries: seq<Entry>)
    requires forall p :: Proper(lives(p))
  {
    forall x :: 0 <= x < |entries| ==> IndexContents.Written(Last(lives(entries[x].path)), entries[x].row)
  }

  // ----- what a head keeps -----

  /** What search reads of a published extraction does not change. */
  predicate Frozen(s: State, t: State, i: nat) {
    && i < |s.extractions| && i < |t.extractions| && s.extractions[i].work == Complete && t.extractions[i].work == Complete
    && t.extractions[i].segmented == s.extractions[i].segmented && t.extractions[i].members == s.extractions[i].members
    && t.extractions[i].chunkCount == s.extractions[i].chunkCount
  }

  lemma CompleteStays(s: State, step: Step, i: nat)
    requires Enabled(s, step) && i < |s.extractions| && s.extractions[i].work == Complete
    ensures Frozen(s, Apply(s, step), i)
  {
    hide Writable, StoreAll, Rows, Mark, Copied, CopiesWhole, Live;
    if step.SaveTurn? {
      IndexContents.StoreAllKeepsFormat(s, step.token, step.counts, i);
    }
  }

  lemma {:induction false} HeadFrozen(l: Life, j: nat, k: nat)
    requires Proper(l) && j <= k < |l.trace| && l.trace[j].indexed.Some?
    ensures Frozen(l.trace[j], l.trace[k], l.trace[j].indexed.value.extraction)
    decreases k
  {
    hide Enabled, Apply, Good, SegmentsGood, WorkersGood;
    RunInv(l.trace, l.steps, j);
    if j < k {
      HeadFrozen(l, j, k - 1);
      CompleteStays(l.trace[k - 1], l.steps[k - 1], l.trace[j].indexed.value.extraction);
    }
  }

  lemma {:induction false} RetiredForGood(l: Life, j: nat, k: nat, m: SegmentId)
    requires Proper(l) && j <= k < |l.trace| && m in l.trace[j].segments && l.trace[j].segments[m].retired
    ensures m in l.trace[k].segments && l.trace[k].segments[m].retired
    decreases k
  {
    hide Enabled, Apply, Inv;
    if j < k {
      RetiredForGood(l, j, k - 1, m);
      RunInv(l.trace, l.steps, k - 1);
      IndexContents.RetiredStays(l.trace[k - 1], l.steps[k - 1], m);
    }
  }

  // ----- published rows -----

  /** A row of the extraction that is the published head of a file that is not deleted. */
  predicate Published(s: State, row: Row) {
    && s.indexed.Some? && s.indexed.value.extraction < |s.extractions| && !Deleted(s)
    && row in Rows(s, s.indexed.value.extraction, 0, s.extractions[s.indexed.value.extraction].chunkCount)
  }

  /** Its segment is marked for removal from the index. */
  predicate Retired(s: State, row: Row) { row.SegmentRow? && row.segment in s.segments && s.segments[row.segment].retired }

  /** The row's identity belongs to the head. */
  predicate OfHead(s: State, row: Row) {
    && s.indexed.Some? && s.indexed.value.extraction < |s.extractions| && !Deleted(s)
    && var i := s.indexed.value.extraction;
       if row.PlainRow? then !s.extractions[i].segmented && row.extraction == i
       else s.extractions[i].segmented && row.segment in s.extractions[i].members
  }

  /** For written rows, identity decides. */
  lemma PublishedIs(l: Life, k: nat, row: Row)
    requires Proper(l) && IndexContents.Written(Last(l), row)
    ensures Published(At(l, k), row) <==> OfHead(At(l, k), row)
  {
    hide Inv, Enabled, Apply, Run;
    var s := At(l, k);
    if OfHead(s, row) {
      HeadFrozen(l, l.clock(k), |l.trace| - 1);
      if row.SegmentRow? {
        MemberRow(l, k, row);
      }
    }
  }

  lemma MemberRow(l: Life, k: nat, row: Row)
    requires Proper(l) && IndexContents.Written(Last(l), row) && row.SegmentRow? && OfHead(At(l, k), row)
    ensures var s := At(l, k); Covers(s, row.segment, row.ordinal) && row.ordinal < s.extractions[s.indexed.value.extraction].chunkCount
  {
    hide Enabled, Apply, Run, SegmentsGood, HeadGood, WorkersGood, Deleted;
    var s := At(l, k);
    var i := s.indexed.value.extraction;
    RunInv(l.trace, l.steps, l.clock(k));
    KnownMembers(s, i);
    RunEvolves(l.trace, l.steps, l.clock(k), |l.trace| - 1);
    assert SegmentKept(s, Last(l), row.segment);
    assert Good(s, i);
    GoodParts(s, i);
    MemberEnds(s, i, row.segment);
  }

  lemma MemberEnds(s: State, i: nat, m: SegmentId)
    requires i < |s.extractions| && Tiled(s.segments, s.extractions[i].members, s.extractions[i].chunkCount)
    requires m in s.extractions[i].members && m in s.segments
    ensures EndOf(s.segments, m) <= s.extractions[i].chunkCount
  {
    var members := s.extractions[i].members;
    var j :| 0 <= j < |members| && members[j] == m;
    EndsInOrder(s, i, j);
  }

  lemma {:induction false} EndsInOrder(s: State, i: nat, j: nat)
    requires i < |s.extractions| && Tiled(s.segments, s.extractions[i].members, s.extractions[i].chunkCount)
    requires j < |s.extractions[i].members|
    ensures EndOf(s.segments, s.extractions[i].members[j]) <= s.extractions[i].chunkCount
    decreases |s.extractions[i].members| - j
  {
    var members := s.extractions[i].members;
    if j < |members| - 1 {
      EndsInOrder(s, i, j + 1);
      assert members[j + 1].start == EndOf(s.segments, members[j]);
    }
  }

  // ----- the pinned answers decide rows as the head does -----

  /** The publication of the entry's path was read in pass `a`, its memberships not before. */
  ghost predicate Grounds(n: Search.Namespace, names: Names, l: Life, path: string, a: nat) {
    && Proper(l) && path in n.publications && n.publications[path] == Answer(names, path, At(l, 2 * a))
    && forall c :: c in n.segments && c.path == path ==> AskedOf(n.segments[c], names, l, c, a)
  }

  ghost predicate AskedOf(answer: bool, names: Names, l: Life, c: Search.Candidate, a: nat)
    requires Proper(l)
  {
    exists b: nat :: b >= a && answer == Joined(names, At(l, 2 * b + 1), c)
  }

  lemma HeadExists(l: Life, k: nat)
    requires Proper(l) && At(l, k).indexed.Some?
    ensures At(l, k).versions != [] && At(l, k).indexed.value.extraction < |At(l, k).extractions|
  {
    hide Run, Good, SegmentsGood, WorkersGood;
    RunInv(l.trace, l.steps, l.clock(k));
  }

  lemma PlainDecided(n: Search.Namespace, names: Names, l: Life, a: nat, e: Entry)
    requires Unique(names) && Grounds(n, names, l, e.path, a) && e.row.PlainRow? && Search.RealSegments(n)
    ensures Search.Valid(n, Encoded(names, e)) <==> OfHead(At(l, 2 * a), e.row)
  {
    hide Proper, At, Deleted, AskedOf;
    if At(l, 2 * a).indexed.Some? {
      HeadExists(l, 2 * a);
    }
  }

  /** What the membership join says of a segment of the head, then or later. */
  lemma JoinedIs(names: Names, l: Life, a: nat, b: nat, path: string, m: SegmentId)
    requires Proper(l) && Unique(names) && a <= b && At(l, 2 * a).indexed.Some?
    ensures var s, t := At(l, 2 * a), At(l, 2 * b + 1);
            && s.indexed.value.extraction < |s.extractions|
            && var i := s.indexed.value.extraction;
               var c := Search.Candidate(path, names.segment(path, m), names.extraction(path, i));
               && (Joined(names, t, c) ==> s.extractions[i].segmented && m in s.extractions[i].members)
               && (s.extractions[i].segmented && m in s.extractions[i].members && !Joined(names, t, c) ==>
                     m in t.segments && t.segments[m].retired)
  {
    hide Run, Inv;
    var s, t := At(l, 2 * a), At(l, 2 * b + 1);
    HeadExists(l, 2 * a);
    assert l.clock(2 * a) <= l.clock(2 * b + 1);
    HeadFrozen(l, l.clock(2 * a), l.clock(2 * b + 1));
    RunInv(l.trace, l.steps, l.clock(2 * b + 1));
    var i := s.indexed.value.extraction;
    KnownMembers(t, i);
    var c := Search.Candidate(path, names.segment(path, m), names.extraction(path, i));
    if s.extractions[i].segmented && m in s.extractions[i].members && !Joined(names, t, c) {
      assert !Joins(names, t, c, i, m);
    }
  }

  lemma SegmentDecided(n: Search.Namespace, names: Names, l: Life, a: nat, e: Entry)
    requires Unique(names) && Grounds(n, names, l, e.path, a) && e.row.SegmentRow? && Search.Known(n, Encoded(names, e))
    ensures Search.Valid(n, Encoded(names, e)) ==> OfHead(At(l, 2 * a), e.row)
    ensures OfHead(At(l, 2 * a), e.row) && !Search.Valid(n, Encoded(names, e)) ==> Retired(Last(l), e.row)
  {
    hide Run, Joined, Deleted;
    var s, m := At(l, 2 * a), e.row.segment;
    if s.indexed.Some? {
      HeadExists(l, 2 * a);
      var c := Search.Candidate(e.path, names.segment(e.path, m), names.extraction(e.path, s.indexed.value.extraction));
      if c in n.segments {
        assert AskedOf(n.segments[c], names, l, c, a);
        var b: nat :| b >= a && n.segments[c] == Joined(names, At(l, 2 * b + 1), c);
        JoinedIs(names, l, a, b, e.path, m);
        var t := At(l, 2 * b + 1);
        if m in t.segments && t.segments[m].retired {
          RetiredForGood(l, l.clock(2 * b + 1), |l.trace| - 1, m);
        }
      }
    }
  }

  /** A decided row is valid only if it is published, and a published one is invalid only if its
      segment has been retired since. */
  lemma Decided(n: Search.Namespace, names: Names, l: Life, a: nat, e: Entry)
    requires Unique(names) && Grounds(n, names, l, e.path, a) && Search.RealSegments(n)
    requires Search.Known(n, Encoded(names, e)) && IndexContents.Written(Last(l), e.row)
    ensures Search.Valid(n, Encoded(names, e)) ==> Published(At(l, 2 * a), e.row)
    ensures Published(At(l, 2 * a), e.row) && !Search.Valid(n, Encoded(names, e)) ==> Retired(Last(l), e.row)
  {
    hide Published, OfHead, Search.Known, Search.Valid, Encoded, Proper, At, Last, Retired;
    PublishedIs(l, 2 * a, e.row);
    if e.row.PlainRow? {
      PlainDecided(n, names, l, a, e);
    } else {
      SegmentDecided(n, names, l, a, e);
    }
  }

  /** Rows of one identity are published together. */
  lemma Alike(names: Names, l: Life, k: nat, d: Entry, e: Entry)
    requires Unique(names) && Proper(l) && IndexContents.Written(Last(l), d.row) && IndexContents.Written(Last(l), e.row) && Encoded(names, d) == Encoded(names, e)
    ensures Published(At(l, k), d.row) == Published(At(l, k), e.row)
  {
    hide Published, Proper, At, Last, Deleted;
    PublishedIs(l, k, d.row);
    PublishedIs(l, k, e.row);
    assert d.row.PlainRow? == e.row.PlainRow?;
  }

  // ----- the served lists -----

  lemma {:induction false} TopEncoded(names: Names, limit: nat, entries: seq<Entry>, keep: Search.Row -> bool)
    ensures Search.Top(limit, EncodedAll(names, entries), keep)
         == EncodedAll(names, Search.Top(limit, entries, e => keep(Encoded(names, e))))
  {
    hide Encoded;
    if entries != [] && limit > 0 {
      var all, rest := EncodedAll(names, entries), entries[1..];
      assert all[1..] == EncodedAll(names, rest);
      assert all[0] == Encoded(names, entries[0]);
      TopEncoded(names, if keep(all[0]) then limit - 1 else limit, rest, keep);
      if keep(all[0]) {
        var tail := Search.Top(limit - 1, rest, e => keep(Encoded(names, e)));
        assert EncodedAll(names, [entries[0]] + tail) == [all[0]] + EncodedAll(names, tail);
      }
    }
  }

  /** With `first` the pass that looked a path up: the list is the first `limit` entries of those
      kept. All kept entries are published at that moment, and of the published ones only entries
      of segments retired before the request ended may not be kept. */
  ghost predicate ServesPublished(names: Names, lives: string -> Life, limit: nat, entries: seq<Entry>, list: seq<Search.Row>,
                                  first: string -> nat, keep: Entry -> bool)
    requires forall p :: Proper(lives(p))
  {
    && list == EncodedAll(names, Search.Top(limit, entries, keep))
    && forall x :: 0 <= x < |entries| ==> KeepsPublished(lives(entries[x].path), entries[x], first(entries[x].path), keep(entries[x]))
  }

  ghost predicate KeepsPublished(l: Life, e: Entry, first: nat, kept: bool)
    requires Proper(l)
  {
    && (kept ==> Published(At(l, 2 * first), e.row))
    && (Published(At(l, 2 * first), e.row) && !kept ==> Retired(Last(l), e.row))
  }

  ghost function FirstRead(n: Search.Namespace, names: Names, lives: string -> Life, path: string): nat {
    if exists a: nat :: Grounds(n, names, lives(path), path, a)
    then var a: nat :| Grounds(n, names, lives(path), path, a); a else 0
  }

  lemma PinnedIsGrounded(n: Search.Namespace, names: Names, lives: string -> Life, slot: nat, pass: nat, path: string,
                         catalog: (nat, nat) -> string -> Search.Publication, member: (nat, nat) -> Search.Candidate -> bool)
    requires Reads(names, lives, slot, catalog, member) && Search.Honest(n, slot, pass, catalog, member) && path in n.publications
    ensures Grounds(n, names, lives(path), path, FirstRead(n, names, lives, path))
  {
    hide Proper, At, Joined, Answer;
    assert Search.Sourced(n, slot, pass, catalog, member, path);
    var a: nat :| a <= pass && Search.ReadAt(n, slot, pass, catalog, member, path, a);
    var l := lives(path);
    forall c | c in n.segments && c.path == path ensures AskedOf(n.segments[c], names, l, c, a) {
      assert Search.Asked(n.segments[c], slot, pass, member, c, a);
      var b: nat :| a <= b <= pass && n.segments[c] == member(b, slot)(c);
      assert member(b, slot)(c) == Joined(names, At(l, 2 * b + 1), c);
    }
    assert Grounds(n, names, l, path, a);
  }

  /** The verdict on a row, decided or not. */
  ghost predicate Verdict(n: Search.Namespace, names: Names, lives: string -> Life, entries: seq<Entry>, row: Search.Row)
    requires forall p :: Proper(lives(p))
  {
    if Search.Known(n, row) then Search.Valid(n, row)
    else exists x :: 0 <= x < |entries| && Encoded(names, entries[x]) == row
                  && Published(At(lives(entries[x].path), 2 * FirstRead(n, names, lives, entries[x].path)), entries[x].row)
  }

  lemma VerdictKeeps(n: Search.Namespace, names: Names, lives: string -> Life, slot: nat, pass: nat, entries: seq<Entry>, x: nat,
                     catalog: (nat, nat) -> string -> Search.Publication, member: (nat, nat) -> Search.Candidate -> bool)
    requires Unique(names) && Reads(names, lives, slot, catalog, member) && AllWritten(lives, entries) && x < |entries|
    requires Search.Honest(n, slot, pass, catalog, member) && Search.RealSegments(n)
    ensures KeepsPublished(lives(entries[x].path), entries[x], FirstRead(n, names, lives, entries[x].path),
                           Verdict(n, names, lives, entries, Encoded(names, entries[x])))
  {
    hide Proper, At, Last, Published, Retired, IndexContents.Written, Search.Valid, FirstRead, Grounds, Unique, Search.Honest, Search.RealSegments;
    var e := entries[x];
    var l, a, row := lives(e.path), FirstRead(n, names, lives, e.path), Encoded(names, e);
    if Search.Known(n, row) {
      PinnedIsGrounded(n, names, lives, slot, pass, e.path, catalog, member);
      Decided(n, names, l, a, e);
    } else if Verdict(n, names, lives, entries, row) {
      var y :| 0 <= y < |entries| && Encoded(names, entries[y]) == row
               && Published(At(lives(entries[y].path), 2 * FirstRead(n, names, lives, entries[y].path)), entries[y].row);
      Alike(names, l, 2 * a, entries[y], e);
    }
  }

  /** The exact lists of the publication loop are the published rows. */
  lemma ServedIsPublished(n: Search.Namespace, names: Names, lives: string -> Life, slot: nat, pass: nat, limit: nat, entries: seq<Entry>, list: seq<Search.Row>,
                          catalog: (nat, nat) -> string -> Search.Publication, member: (nat, nat) -> Search.Candidate -> bool)
    returns (keep: Entry -> bool)
    requires Unique(names) && Reads(names, lives, slot, catalog, member) && AllWritten(lives, entries)
    requires Search.Honest(n, slot, pass, catalog, member) && Search.RealSegments(n)
    requires Search.Exact(n, limit, EncodedAll(names, entries), list)
    ensures ServesPublished(names, lives, limit, entries, list, p => FirstRead(n, names, lives, p), keep)
  {
    hide Proper, KeepsPublished, FirstRead, Unique, Search.Honest, Search.RealSegments, AllWritten, Encoded, Search.Known, Search.Valid;
    var v: Search.Row -> bool := row => Verdict(n, names, lives, entries, row);
    keep := e => v(Encoded(names, e));
    assert Search.Agrees(n, EncodedAll(names, entries), v);
    TopEncoded(names, limit, entries, v);
    forall x | 0 <= x < |entries|
      ensures KeepsPublished(lives(entries[x].path), entries[x], FirstRead(n, names, lives, entries[x].path), keep(entries[x]))
    {
      VerdictKeeps(n, names, lives, slot, pass, entries, x, catalog, member);
    }
  }

  /** Unique names make ranked rows coherent. */
  lemma WrittenIsCoherent(names: Names, lives: string -> Life, entries: seq<seq<Entry>>)
    requires Unique(names) && (forall p :: Proper(lives(p))) && forall j :: 0 <= j < |entries| ==> AllWritten(lives, entries[j])
    ensures Search.Coherent(Rankings(names, entries))
  {
    hide Unique, Encoded, Proper, Search.Coherent, AllWritten;
    var all := Rankings(names, entries);
    forall i, j, x, y | 0 <= i < |all| && 0 <= j < |all| && 0 <= x < |all[i]| && 0 <= y < |all[j]|
      ensures Coheres(all[i][x], all[j][y])
    {
      RankedPair(names, lives, entries, i, j, x, y);
    }
    AllCohere(all);
  }

  function Rankings(names: Names, entries: seq<seq<Entry>>): (r: seq<seq<Search.Row>>)
    ensures |r| == |entries| && forall j :: 0 <= j < |entries| ==> r[j] == EncodedAll(names, entries[j])
  {
    seq(|entries|, j requires 0 <= j < |entries| => EncodedAll(names, entries[j]))
  }

  predicate Coheres(a: Search.Row, b: Search.Row) {
    && (a.extraction == b.extraction ==> a.path == b.path && (a.segment == "" <==> b.segment == ""))
    && (a.segment == b.segment && a.segment != "" ==> a.path == b.path)
  }

  lemma AllCohere(all: seq<seq<Search.Row>>)
    requires forall i, j, x, y :: 0 <= i < |all| && 0 <= j < |all| && 0 <= x < |all[i]| && 0 <= y < |all[j]| ==> Coheres(all[i][x], all[j][y])
    ensures Search.Coherent(all)
  {
  }

  lemma RankedPair(names: Names, lives: string -> Life, entries: seq<seq<Entry>>, i: nat, j: nat, x: nat, y: nat)
    requires Unique(names) && (forall p :: Proper(lives(p))) && forall j :: 0 <= j < |entries| ==> AllWritten(lives, entries[j])
    requires i < |entries| && j < |entries| && x < |entries[i]| && y < |entries[j]|
    ensures Coheres(EncodedAll(names, entries[i])[x], EncodedAll(names, entries[j])[y])
  {
    hide Proper, Last, IndexContents.Written;
    assert AllWritten(lives, entries[i]) && AllWritten(lives, entries[j]);
    EncodedCohere(names, lives, entries[i][x], entries[j][y]);
  }

  lemma EncodedCohere(names: Names, lives: string -> Life, d: Entry, e: Entry)
    requires Unique(names) && forall p :: Proper(lives(p))
    requires IndexContents.Written(Last(lives(d.path)), d.row) && IndexContents.Written(Last(lives(e.path)), e.row)
    ensures Coheres(Encoded(names, d), Encoded(names, e))
  {
    hide Proper, Covers, Last;
    if d.path == e.path {
      OwnerSegmented(lives(d.path), d.row);
      OwnerSegmented(lives(d.path), e.row);
    }
  }

  lemma OwnerSegmented(l: Life, row: Row)
    requires Proper(l) && IndexContents.Written(Last(l), row)
    ensures row.SegmentRow? ==> row.segment.owner < |Last(l).extractions| && Last(l).extractions[row.segment.owner].segmented
  {
    hide Enabled, Apply, Good, HeadGood, WorkersGood;
    RunInv(l.trace, l.steps, |l.trace| - 1);
  }

  /** One moment per path, and every list as published at those moments. */
  ghost predicate AllPublished(names: Names, lives: string -> Life, limit: nat, entries: seq<seq<Entry>>, sets: seq<seq<Search.Row>>, first: string -> nat) {
    (forall p :: Proper(lives(p))) && |sets| == |entries| && forall j :: 0 <= j < |entries| ==> IsPublished(names, lives, limit, entries[j], sets[j], first)
  }

  ghost predicate IsPublished(names: Names, lives: string -> Life, limit: nat, entries: seq<Entry>, list: seq<Search.Row>, first: string -> nat)
    requires forall p :: Proper(lives(p))
  {
    exists keep :: ServesPublished(names, lives, limit, entries, list, first, keep)
  }

  ghost predicate NamespaceServes(names: Names, lives: string -> Life, limit: nat, entries: seq<seq<Entry>>, sets: seq<seq<Search.Row>>) {
    exists first :: AllPublished(names, lives, limit, entries, sets, first)
  }

  /** A search over files that workers go on publishing: what is served are the first `limit` rows
      of each ranking among those published when their path was looked up. */
  method SearchFiles(names: Names, ghost lives: nat -> string -> Life, entries: seq<seq<seq<Entry>>>, limit: nat, root: (nat, nat) -> bool,
                     catalog: (nat, nat) -> string -> Search.Publication, member: (nat, nat) -> Search.Candidate -> bool)
    returns (r: Search.Outcome<seq<seq<seq<Search.Row>>>>)
    requires Unique(names)
    requires forall s: nat :: s < |entries| ==>
               Reads(names, lives(s), s, catalog, member) && forall j :: 0 <= j < |entries[s]| ==> AllWritten(lives(s), entries[s][j])
    ensures r.Done? ==> |r.value| == |entries| && forall s: nat :: s < |entries| ==>
              NamespaceServes(names, lives(s), limit, entries[s], r.value[s])
  {
    hide Unique, Proper, AllWritten, Search.Coherent, Search.Established, Search.Served, Search.Honest, NamespaceServes;
    var rankings := seq(|entries|, s requires 0 <= s < |entries| => Rankings(names, entries[s]));
    forall s | 0 <= s < |rankings| ensures Search.Coherent(rankings[s]) { WrittenIsCoherent(names, lives(s), entries[s]); }
    var done, searches := Search.QueryPublishedRows(rankings, limit, root, catalog, member);
    if done.Gave? {
      return Search.Gave(done.up);
    }
    r := Search.Done(seq(|entries|, s requires 0 <= s < |searches| => searches[s].sets));
    forall s: nat | s < |entries| ensures NamespaceServes(names, lives(s), limit, entries[s], r.value[s]) {
      assert r.value[s] == searches[s].sets && rankings[s] == Rankings(names, entries[s]);
      NamespacePublished(searches[s], names, lives(s), s, limit, entries[s], catalog, member);
    }
  }

  lemma NamespacePublished(n: Search.Namespace, names: Names, lives: string -> Life, slot: nat, limit: nat, entries: seq<seq<Entry>>,
                           catalog: (nat, nat) -> string -> Search.Publication, member: (nat, nat) -> Search.Candidate -> bool)
    requires Unique(names) && Reads(names, lives, slot, catalog, member) && forall j :: 0 <= j < |entries| ==> AllWritten(lives, entries[j])
    requires Search.Honest(n, slot, Search.MAX_PASSES, catalog, member) && Search.Established(n, Rankings(names, entries))
    requires Search.Served(n, Rankings(names, entries), limit)
    ensures NamespaceServes(names, lives, limit, entries, n.sets)
  {
    hide Unique, Proper, AllWritten, Search.Honest, Search.Known, Search.Valid, Search.Exact, ServesPublished, FirstRead, EncodedAll, Search.RealSegments;
    var first: string -> nat := p => FirstRead(n, names, lives, p);
    forall j | 0 <= j < |entries| ensures IsPublished(names, lives, limit, entries[j], n.sets[j], first) {
      var keep := ServedIsPublished(n, names, lives, slot, Search.MAX_PASSES, limit, entries[j], n.sets[j], catalog, member);
    }
    assert AllPublished(names, lives, limit, entries, n.sets, first);
  }

  /** While the extraction that was looked up stays live, nothing published is missing. */
  lemma LiveServesAll(names: Names, lives: string -> Life, limit: nat, entries: seq<Entry>, list: seq<Search.Row>, first: string -> nat, keep: Entry -> bool)
    requires (forall p :: Proper(lives(p))) && ServesPublished(names, lives, limit, entries, list, first, keep)
    requires forall x :: 0 <= x < |entries| ==> StaysLive(lives(entries[x].path), first(entries[x].path))
    ensures list == EncodedAll(names, Search.Top(limit, entries, (e: Entry) => Published(At(lives(e.path), 2 * first(e.path)), e.row)))
  {
    hide Published, StaysLive, EncodedAll, At, Last, Proper, Retired;
    var published: Entry -> bool := (e: Entry) => Published(At(lives(e.path), 2 * first(e.path)), e.row);
    forall x | 0 <= x < |entries| ensures keep(entries[x]) == published(entries[x]) {
      var e := entries[x];
      assert KeepsPublished(lives(e.path), e, first(e.path), keep(e));
      if published(e) {
        LiveIsNotRetired(lives(e.path), first(e.path), e.row);
      }
    }
    SameTop(limit, entries, keep, published);
  }

  /** The head found in pass `first` is live to the end. */
  ghost predicate StaysLive(l: Life, first: nat)
    requires Proper(l)
  {
    var h := At(l, 2 * first).indexed;
    h.Some? ==> h.value.extraction < |Last(l).extractions| && Live(Last(l), h.value.extraction)
  }

  lemma LiveIsNotRetired(l: Life, first: nat, row: Row)
    requires Proper(l) && StaysLive(l, first) && Published(At(l, 2 * first), row)
    ensures !Retired(Last(l), row)
  {
    hide Run, Live, Inv, Covers;
    var s := At(l, 2 * first);
    var i := s.indexed.value.extraction;
    HeadFrozen(l, l.clock(2 * first), |l.trace| - 1);
    LiveSegmentsStay(l.trace, l.steps, l.clock(2 * first), |l.trace| - 1, i);
  }

  lemma {:induction false} SameTop(limit: nat, entries: seq<Entry>, f: Entry -> bool, g: Entry -> bool)
    requires forall x :: 0 <= x < |entries| ==> f(entries[x]) == g(entries[x])
    ensures Search.Top(limit, entries, f) == Search.Top(limit, entries, g)
  {
    if entries != [] && limit > 0 {
      assert f(entries[0]) == g(entries[0]);
      SameTop(if f(entries[0]) then limit - 1 else limit, entries[1..], f, g);
    }
  }
}
