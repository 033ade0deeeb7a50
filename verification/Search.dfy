/** Search over an index that still holds stale rows (`internal/server/search_publication.go`,
    `internal/server/search_segments.go`): rows that are not published are excluded and the
    query is repeated. */
module Search {
  const MAX_PASSES := 16
  const MAX_EXCLUSIONS := 4096
  const MAX_FILTER_BYTES := 1048576
  const MAX_CANDIDATES := 8192

  /** An index row; an absent segment is the empty string. */
  datatype Row = Row(id: nat, path: string, extraction: string, segment: string)

  /** The published state of a path; all empty when the path is not in the catalog. */
  datatype Publication = Publication(extraction: string, deleted: bool, rowFormat: nat)

  datatype Candidate = Candidate(path: string, segment: string, extraction: string)

  /** One namespace's ranked lists, pinned answers and exclusions. */
  datatype Namespace = Namespace(sets: seq<seq<Row>>, publications: map<string, Publication>,
                                 excluded: set<string>, excludedSegments: set<string>,
                                 segments: map<Candidate, bool>, filterBytes: nat)

  /** Why a search gives up. */
  datatype Trouble = BadRow | RootMissing | TooManyCandidates | NoProgress | TooManyExclusions | PassesSpent

  datatype Outcome<T> = Done(value: T) | Gave(up: Trouble)

  const FRESH := Namespace([], map[], {}, {}, map[], 0)

  // ----- the provider -----

  predicate Passes(n: Namespace, row: Row) {
    row.extraction !in n.excluded && (row.segment == "" || row.segment !in n.excludedSegments)
  }

  /** The first `limit` rows of a ranking that satisfy `keep`, in order. */
  function Top<T>(limit: nat, ranking: seq<T>, keep: T -> bool): (r: seq<T>) {
    if ranking == [] || limit == 0 then []
    else if keep(ranking[0]) then [ranking[0]] + Top(limit - 1, ranking[1..], keep)
    else Top(limit, ranking[1..], keep)
  }

  function Filter<T>(ranking: seq<T>, keep: T -> bool): seq<T> {
    if ranking == [] then [] else (if keep(ranking[0]) then [ranking[0]] else []) + Filter(ranking[1..], keep)
  }

  /** Of the rows that satisfy `keep`, the first `limit`. */
  lemma {:induction false} TopIsFirst<T>(limit: nat, ranking: seq<T>, keep: T -> bool)
    ensures var all := Filter(ranking, keep); Top(limit, ranking, keep) == if |all| <= limit then all else all[..limit]
  {
    if ranking != [] && limit > 0 {
      TopIsFirst(if keep(ranking[0]) then limit - 1 else limit, ranking[1..], keep);
    }
  }

  /** The provider answers a filtered query from its fixed rankings. */
  function Query(n: Namespace, rankings: seq<seq<Row>>, limit: nat): (r: seq<seq<Row>>)
    ensures |r| == |rankings|
    ensures forall j :: 0 <= j < |rankings| ==> r[j] == Top(limit, rankings[j], row => Passes(n, row))
  {
    seq(|rankings|, j requires 0 <= j < |rankings| => Top(limit, rankings[j], row => Passes(n, row)))
  }

  /** What is assumed of index rows: the rows of one extraction belong to one path and are
      all segmented or all not, and the rows of one segment belong to one path. */
  ghost predicate Coherent(rankings: seq<seq<Row>>) {
    forall i, j, x, y :: 0 <= i < |rankings| && 0 <= j < |rankings| && 0 <= x < |rankings[i]| && 0 <= y < |rankings[j]| ==>
      var a, b := rankings[i][x], rankings[j][y];
      && (a.extraction == b.extraction ==> a.path == b.path && (a.segment == "" <==> b.segment == ""))
      && (a.segment == b.segment && a.segment != "" ==> a.path == b.path)
  }

  // ----- validity under the pinned answers -----

  /** The pinned answers decide this row. */
  predicate Known(n: Namespace, row: Row) {
    && row.path in n.publications
    && var p := n.publications[row.path];
       (!p.deleted && p.rowFormat == 2 && row.segment != "" ==>
          Candidate(row.path, row.segment, p.extraction) in n.segments)
  }

  predicate Valid(n: Namespace, row: Row) {
    && row.path in n.publications
    && var p := n.publications[row.path];
       && !p.deleted && p.extraction != ""
       && if p.rowFormat == 2
          then var c := Candidate(row.path, row.segment, p.extraction); c in n.segments && n.segments[c]
          else p.extraction == row.extraction && p.rowFormat == 1 && row.segment == ""
  }

  /** `v` is the validity of ranked rows in a catalog that agrees with every pinned answer. */
  ghost predicate Agrees(n: Namespace, ranking: seq<Row>, v: Row -> bool) {
    forall x :: 0 <= x < |ranking| && Known(n, ranking[x]) ==> v(ranking[x]) == Valid(n, ranking[x])
  }

  /** The list is what an index holding published rows only would have returned. */
  ghost predicate Exact(n: Namespace, limit: nat, ranking: seq<Row>, list: seq<Row>) {
    forall v: Row -> bool :: Agrees(n, ranking, v) ==> list == Top(limit, ranking, v)
  }

  /** A row the filter removes is known not to be valid. */
  ghost predicate SoundExclusions(n: Namespace, rankings: seq<seq<Row>>) {
    forall j, x :: 0 <= j < |rankings| && 0 <= x < |rankings[j]| && !Passes(n, rankings[j][x]) ==>
      Known(n, rankings[j][x]) && !Valid(n, rankings[j][x])
  }

  /** Segment answers exist only for real segments. */
  ghost predicate RealSegments(n: Namespace) { forall c :: c in n.segments ==> c.segment != "" }

  /** Top rows are the same under two tests that agree wherever it matters: rows removed by
      one are removed by the other, and all that the first returns pass the second. */
  lemma {:induction false} TopAgree(limit: nat, ranking: seq<Row>, f: Row -> bool, g: Row -> bool)
    requires forall x :: 0 <= x < |ranking| && !f(ranking[x]) ==> !g(ranking[x])
    requires forall row :: row in Top(limit, ranking, f) ==> g(row)
    ensures Top(limit, ranking, f) == Top(limit, ranking, g)
  {
    if ranking != [] && limit > 0 {
      var r, rest := ranking[0], ranking[1..];
      assert forall x :: 0 <= x < |rest| ==> rest[x] == ranking[x + 1];
      if f(r) {
        assert r in Top(limit, ranking, f);
        assert forall row :: row in Top(limit - 1, rest, f) ==> row in Top(limit, ranking, f);
        TopAgree(limit - 1, rest, f, g);
      } else {
        assert !f(ranking[0]);
        TopAgree(limit, rest, f, g);
      }
    }
  }

  lemma {:induction false} TopMembers(limit: nat, ranking: seq<Row>, f: Row -> bool, row: Row)
    requires row in Top(limit, ranking, f)
    ensures row in ranking && f(row)
  {
    if ranking[0] == row && f(row) {
    } else if f(ranking[0]) {
      TopMembers(limit - 1, ranking[1..], f, row);
    } else {
      TopMembers(limit, ranking[1..], f, row);
    }
  }

  /** The argument for the whole loop: once every returned row is valid, the answer is exact. */
  lemma ValidIsExact(n: Namespace, rankings: seq<seq<Row>>, limit: nat, j: nat)
    requires j < |rankings| && SoundExclusions(n, rankings)
    requires forall row :: row in Top(limit, rankings[j], row => Passes(n, row)) ==> Known(n, row) && Valid(n, row)
    ensures Exact(n, limit, rankings[j], Top(limit, rankings[j], row => Passes(n, row)))
  {
    forall v: Row -> bool | Agrees(n, rankings[j], v)
      ensures Top(limit, rankings[j], row => Passes(n, row)) == Top(limit, rankings[j], v)
    {
      forall row | row in Top(limit, rankings[j], row => Passes(n, row)) ensures v(row) {
        TopMembers(limit, rankings[j], row => Passes(n, row), row);
        var x :| 0 <= x < |rankings[j]| && rankings[j][x] == row;
      }
      TopAgree(limit, rankings[j], row => Passes(n, row), v);
    }
  }

  // ----- what one pass adds keeps the earlier answers -----

  /** Later answers for new paths and candidates do not change what was decided. */
  ghost predicate Extends(m: Namespace, n: Namespace) {
    && (forall p :: p in n.publications ==> p in m.publications && m.publications[p] == n.publications[p])
    && (forall c :: c in n.segments ==> c in m.segments && m.segments[c] == n.segments[c])
  }

  lemma ExtendsKeepsAnswers(m: Namespace, n: Namespace, row: Row)
    requires Extends(m, n) && Known(n, row) && RealSegments(m)
    ensures Known(m, row) && Valid(m, row) == Valid(n, row)
  {
    var p := n.publications[row.path];
    assert m.publications[row.path] == p;
    if p.rowFormat == 2 && !p.deleted {
      var c := Candidate(row.path, row.segment, p.extraction);
      assert row.segment == "" ==> c !in m.segments && (c in n.segments ==> c in m.segments);
    }
  }

  lemma ExtendsKeepsExclusions(m: Namespace, n: Namespace, rankings: seq<seq<Row>>)
    requires Extends(m, n) && RealSegments(m) && SoundExclusions(n, rankings)
    requires m.excluded == n.excluded && m.excludedSegments == n.excludedSegments
    ensures SoundExclusions(m, rankings)
  {
    hide Known, Valid, Extends;
    forall j, x | 0 <= j < |rankings| && 0 <= x < |rankings[j]| && !Passes(m, rankings[j][x])
      ensures Known(m, rankings[j][x]) && !Valid(m, rankings[j][x])
    {
      assert !Passes(n, rankings[j][x]);
      ExtendsKeepsAnswers(m, n, rankings[j][x]);
    }
  }

  lemma IndexIn(rankings: seq<seq<Row>>, row: Row) returns (j: nat, x: nat)
    requires exists j :: 0 <= j < |rankings| && row in rankings[j]
    ensures j < |rankings| && x < |rankings[j]| && rankings[j][x] == row
  {
    j :| 0 <= j < |rankings| && row in rankings[j];
    x :| 0 <= x < |rankings[j]| && rankings[j][x] == row;
  }

  /** Every identity that was added belongs to a rejected row of the rankings. */
  ghost predicate Grounded(m: Namespace, n: Namespace, rows: set<Row>) {
    && (forall x :: x in m.excluded && x !in n.excluded ==>
          exists row :: row in rows && row.segment == "" && row.extraction == x)
    && (forall x :: x in m.excludedSegments && x !in n.excludedSegments ==>
          x != "" && exists row :: row in rows && row.segment == x)
  }

  /** Exclusions stay sound: no valid row is ever filtered away. */
  lemma RejectionSound(m: Namespace, n: Namespace, rankings: seq<seq<Row>>, rows: set<Row>)
    requires Coherent(rankings) && RealSegments(n) && SoundExclusions(n, rankings)
    requires m.publications == n.publications && m.segments == n.segments && Grounded(m, n, rows)
    requires forall row :: row in rows ==>
               Known(n, row) && !Valid(n, row) && exists j :: 0 <= j < |rankings| && row in rankings[j]
    ensures SoundExclusions(m, rankings)
  {
    forall j, x | 0 <= j < |rankings| && 0 <= x < |rankings[j]| && !Passes(m, rankings[j][x])
      ensures Known(m, rankings[j][x]) && !Valid(m, rankings[j][x])
    {
      var b := rankings[j][x];
      if Passes(n, b) {
        var a;
        if b.extraction in m.excluded {
          a :| a in rows && a.segment == "" && a.extraction == b.extraction;
        } else {
          a :| a in rows && a.segment == b.segment;
        }
        var i, y := IndexIn(rankings, a);
        assert rankings[i][y].path == rankings[j][x].path;
      }
    }
  }

  // ----- one pass over one namespace -----

  function Paths(rows: seq<Row>): set<string> { set i | 0 <= i < |rows| :: rows[i].path }

  lemma PathsSnoc(rows: seq<Row>, i: nat)
    requires i < |rows|
    ensures Paths(rows[..i + 1]) == Paths(rows[..i]) + {rows[i].path}
  {
    var more, less := rows[..i + 1], rows[..i];
    assert forall k :: 0 <= k < i ==> less[k] == more[k];
    forall p | p in Paths(more) ensures p in Paths(less) + {rows[i].path} {
      var k :| 0 <= k < |more| && more[k].path == p;
      assert k < i ==> less[k].path == p;
    }
    forall p | p in Paths(less) ensures p in Paths(more) {
      var k :| 0 <= k < |less| && less[k].path == p;
      assert more[k].path == p;
    }
    assert more[i].path == rows[i].path;
  }

  lemma PathsHave(rows: seq<Row>, row: Row)
    requires row in rows
    ensures row.path in Paths(rows)
  {
  }

  predicate Malformed(row: Row) { row.path == "" || row.extraction == "" }

  /** How many paths are pinned once those of the rows are. */
  function PathCount(n: Namespace, rows: seq<Row>): nat { |n.publications.Keys + Paths(rows)| }

  predicate AllPinned(n: Namespace, rows: seq<Row>) { Paths(rows) <= n.publications.Keys }

  lemma PathCountIs(n: Namespace, rows: seq<Row>, unseen: set<string>)
    requires unseen == Paths(rows) - n.publications.Keys
    ensures PathCount(n, rows) == |n.publications| + |unseen|
    ensures unseen != {} <==> !AllPinned(n, rows)
  {
    hide Paths;
    assert n.publications.Keys + Paths(rows) == n.publications.Keys + unseen;
    if p :| p in unseen {
      assert p in Paths(rows) && p !in n.publications.Keys;
    }
  }

  /** The paths seen for the first time, unless a row is malformed. */
  method Unseen(n: Namespace, rows: seq<Row>) returns (bad: bool, unseen: set<string>)
    ensures bad <==> exists i :: 0 <= i < |rows| && Malformed(rows[i])
    ensures !bad ==> unseen == Paths(rows) - n.publications.Keys
  {
    hide Paths, Malformed;
    unseen := {};
    var i := 0;
    assert Paths(rows[..0]) == {} by { NoPaths(rows); }
    while i < |rows|
      invariant 0 <= i <= |rows|
      invariant unseen == Paths(rows[..i]) - n.publications.Keys
      invariant forall k :: 0 <= k < i ==> !Malformed(rows[k])
    {
      PathsSnoc(rows, i);
      if Malformed(rows[i]) {
        return true, unseen;
      }
      if rows[i].path !in n.publications {
        unseen := unseen + {rows[i].path};
      }
      i := i + 1;
    }
    assert rows[..i] == rows;
    return false, unseen;
  }

  /** Old answers stay, and every path of the rows is answered by the catalog. */
  ghost predicate Pins(m: Namespace, n: Namespace, rows: seq<Row>, catalog: string -> Publication) {
    && m == n.(publications := m.publications) && Extends(m, n)
    && (forall row :: row in rows ==> row.path in m.publications && !Malformed(row))
    && (forall p :: p in m.publications && p !in n.publications ==> m.publications[p] == catalog(p))
  }

  lemma PinsWith(m: Namespace, n: Namespace, rows: seq<Row>, catalog: string -> Publication, added: map<string, Publication>)
    requires m == n.(publications := added + n.publications) && added.Keys == Paths(rows) - n.publications.Keys
    requires forall p :: p in added ==> added[p] == catalog(p)
    requires forall i :: 0 <= i < |rows| ==> !Malformed(rows[i])
    ensures Pins(m, n, rows, catalog)
  {
    hide Malformed, Paths;
    forall row | row in rows ensures row.path in m.publications && !Malformed(row) { PathsHave(rows, row); }
  }

  /** Pin the publication of every path seen for the first time; what was pinned stays. */
  method Pin(n: Namespace, rows: seq<Row>, root: bool, catalog: string -> Publication) returns (r: Outcome<Namespace>)
    ensures r.Done? ==> Pins(r.value, n, rows, catalog)
    ensures r.Gave? ==> r.up in {BadRow, TooManyCandidates, RootMissing}
    ensures r == Gave(BadRow) <==> exists i :: 0 <= i < |rows| && Malformed(rows[i])
    ensures r == Gave(TooManyCandidates) <==> r != Gave(BadRow) && PathCount(n, rows) > MAX_CANDIDATES
    ensures r == Gave(RootMissing) <==> r != Gave(BadRow) && r != Gave(TooManyCandidates) && !root && !AllPinned(n, rows)
  {
    hide Paths, Malformed, Pins, PathCount, AllPinned;
    var bad, unseen := Unseen(n, rows);
    if bad {
      return Gave(BadRow);
    }
    PathCountIs(n, rows, unseen);
    if |n.publications| + |unseen| > MAX_CANDIDATES {
      return Gave(TooManyCandidates);
    }
    if unseen != {} && !root {
      return Gave(RootMissing);
    }
    return Done(Pinned(n, rows, unseen, catalog));
  }

  /** The catalog's answer for each new path. */
  function Pinned(n: Namespace, rows: seq<Row>, unseen: set<string>, catalog: string -> Publication): (m: Namespace)
    requires unseen == Paths(rows) - n.publications.Keys && forall i :: 0 <= i < |rows| ==> !Malformed(rows[i])
    ensures Pins(m, n, rows, catalog)
  {
    var added := map p | p in unseen :: catalog(p);
    var m := n.(publications := added + n.publications);
    PinsWith(m, n, rows, catalog, added);
    m
  }

  lemma NoPaths(rows: seq<Row>)
    ensures Paths(rows[..0]) == {}
  {
  }

  /** The memberships that decide these rows. */
  function Wanted(n: Namespace, rows: seq<Row>): set<Candidate> {
    set i | 0 <= i < |rows| && NeedsMember(n, rows[i]) :: CandidateOf(n, rows[i])
  }

  function CandidateOf(n: Namespace, row: Row): Candidate
    requires row.path in n.publications
  {
    Candidate(row.path, row.segment, n.publications[row.path].extraction)
  }

  predicate NeedsMember(n: Namespace, row: Row) {
    row.path in n.publications && !n.publications[row.path].deleted && n.publications[row.path].rowFormat == 2 && row.segment != ""
  }

  lemma WantedSnoc(n: Namespace, rows: seq<Row>, i: nat)
    requires i < |rows|
    ensures Wanted(n, rows[..i + 1]) == Wanted(n, rows[..i]) + if NeedsMember(n, rows[i]) then {CandidateOf(n, rows[i])} else {}
    ensures Wanted(n, rows[..i + 1]) <= Wanted(n, rows)
  {
    hide CandidateOf;
    var more, less := rows[..i + 1], rows[..i];
    assert forall k :: 0 <= k < i ==> less[k] == more[k];
    assert more[i] == rows[i];
    forall c | c in Wanted(n, more) ensures c in Wanted(n, less) || (NeedsMember(n, rows[i]) && c == CandidateOf(n, rows[i])) {
      var k :| 0 <= k < |more| && NeedsMember(n, more[k]) && CandidateOf(n, more[k]) == c;
      assert k < i ==> NeedsMember(n, less[k]);
    }
    forall c | c in Wanted(n, less) ensures c in Wanted(n, more) {
      var k :| 0 <= k < |less| && NeedsMember(n, less[k]) && CandidateOf(n, less[k]) == c;
      assert NeedsMember(n, more[k]);
    }
    forall c | c in Wanted(n, more) ensures c in Wanted(n, rows) {
      var k :| 0 <= k < |more| && NeedsMember(n, more[k]) && CandidateOf(n, more[k]) == c;
      assert NeedsMember(n, rows[k]);
    }
  }

  lemma Larger(a: set<Candidate>, c: Candidate, b: set<Candidate>)
    requires a <= b && c in b && c !in a
    ensures |b| > |a|
  {
    assert b == a + (b - a) && c in b - a;
  }

  /** Old answers stay, and every row becomes decided. */
  ghost predicate Recalls(m: Namespace, n: Namespace, rows: seq<Row>, member: Candidate -> bool) {
    && m == n.(segments := m.segments) && RealSegments(m) && Extends(m, n)
    && (forall row :: row in rows ==> Known(m, row))
    && (forall c :: c in m.segments && c !in n.segments ==> m.segments[c] == member(c) && c.path in m.publications)
  }

  lemma RecallsWith(m: Namespace, n: Namespace, rows: seq<Row>, member: Candidate -> bool)
    requires forall row :: row in rows ==> row.path in n.publications
    requires m == n.(segments := m.segments) && RealSegments(n) && Recalling(n, rows, |rows|, m.segments, member)
    ensures Recalls(m, n, rows, member)
  {
    hide Known, Wanted;
    assert rows[..|rows|] == rows;
    forall row | row in rows ensures Known(m, row) { KnownWith(m, n, rows, row); }
  }

  /** How many memberships are known once those of the rows are. */
  function MemberCount(n: Namespace, rows: seq<Row>): nat { |n.segments.Keys + Wanted(n, rows)| }

  function WithMember(n: Namespace, segments: map<Candidate, bool>, row: Row, member: Candidate -> bool): map<Candidate, bool> {
    if NeedsMember(n, row) && CandidateOf(n, row) !in segments then segments[CandidateOf(n, row) := member(CandidateOf(n, row))] else segments
  }

  /** The answers after the first `i` rows. */
  ghost predicate Recalling(n: Namespace, rows: seq<Row>, i: nat, segments: map<Candidate, bool>, member: Candidate -> bool)
    requires i <= |rows|
  {
    && segments.Keys == n.segments.Keys + Wanted(n, rows[..i])
    && (forall c :: c in n.segments ==> c in segments && segments[c] == n.segments[c])
    && (forall c :: c in segments && c !in n.segments ==> segments[c] == member(c) && c.segment != "" && c.path in n.publications)
  }

  lemma RecallingStep(n: Namespace, rows: seq<Row>, i: nat, segments: map<Candidate, bool>, member: Candidate -> bool)
    requires i < |rows| && Recalling(n, rows, i, segments, member)
    ensures Recalling(n, rows, i + 1, WithMember(n, segments, rows[i], member), member)
  {
    hide Wanted, NeedsMember, CandidateOf;
    WantedSnoc(n, rows, i);
    if NeedsMember(n, rows[i]) {
      CandidateReal(n, rows[i]);
    }
  }

  lemma RecallingFull(n: Namespace, rows: seq<Row>, i: nat, segments: map<Candidate, bool>, member: Candidate -> bool)
    requires i < |rows| && Recalling(n, rows, i, segments, member) && |segments| >= MAX_CANDIDATES
    requires NeedsMember(n, rows[i]) && CandidateOf(n, rows[i]) !in segments
    ensures MemberCount(n, rows) > MAX_CANDIDATES
  {
    assert rows[i].path in n.publications;
    hide Wanted, NeedsMember, CandidateOf, Recalling;
    RecallingKeys(n, rows, i, segments, member);
    Larger(segments.Keys, CandidateOf(n, rows[i]), n.segments.Keys + Wanted(n, rows));
  }

  lemma RecallingKeys(n: Namespace, rows: seq<Row>, i: nat, segments: map<Candidate, bool>, member: Candidate -> bool)
    requires i < |rows| && Recalling(n, rows, i, segments, member) && NeedsMember(n, rows[i])
    ensures segments.Keys <= n.segments.Keys + Wanted(n, rows) && CandidateOf(n, rows[i]) in Wanted(n, rows)
  {
    assert rows[i].path in n.publications;
    hide NeedsMember, CandidateOf, Wanted;
    WantedSnoc(n, rows, i);
    assert CandidateOf(n, rows[i]) in Wanted(n, rows[..i + 1]);
  }

  /** Look up the membership of every segment candidate seen for the first time. */
  method Recall(n: Namespace, rows: seq<Row>, member: Candidate -> bool) returns (r: Outcome<Namespace>)
    requires forall row :: row in rows ==> row.path in n.publications
    requires RealSegments(n)
    ensures r.Done? ==> Recalls(r.value, n, rows, member)
    ensures r.Done? && |n.segments| <= MAX_CANDIDATES ==> |r.value.segments| <= MAX_CANDIDATES
    ensures r.Gave? ==> r.up == TooManyCandidates && MemberCount(n, rows) > MAX_CANDIDATES
  {
    hide Recalls, RealSegments, CandidateOf, NeedsMember, Recalling, MemberCount;
    var segments := n.segments;
    var i := 0;
    assert Recalling(n, rows, 0, segments, member) by { NothingRecalled(n, rows, member); }
    while i < |rows|
      invariant 0 <= i <= |rows| && Recalling(n, rows, i, segments, member)
      invariant |n.segments| <= MAX_CANDIDATES ==> |segments| <= MAX_CANDIDATES
    {
      RecallingStep(n, rows, i, segments, member);
      assert rows[i] in rows;
      if NeedsMember(n, rows[i]) {
        var c := CandidateOf(n, rows[i]);
        if c !in segments {
          if |segments| >= MAX_CANDIDATES {
            RecallingFull(n, rows, i, segments, member);
            return Gave(TooManyCandidates);
          }
          segments := segments[c := member(c)];
        }
      }
      i := i + 1;
    }
    RecallsWith(n.(segments := segments), n, rows, member);
    return Done(n.(segments := segments));
  }

  lemma NothingRecalled(n: Namespace, rows: seq<Row>, member: Candidate -> bool)
    ensures Recalling(n, rows, 0, n.segments, member)
  {
    NoneWanted(n, rows);
  }

  lemma CandidateReal(n: Namespace, row: Row)
    requires NeedsMember(n, row)
    ensures CandidateOf(n, row).segment != "" && CandidateOf(n, row).path in n.publications
  {
  }

  lemma NoneWanted(n: Namespace, rows: seq<Row>)
    ensures Wanted(n, rows[..0]) == {}
  {
  }

  lemma KnownWith(m: Namespace, n: Namespace, rows: seq<Row>, row: Row)
    requires m == n.(segments := m.segments) && Wanted(n, rows) <= m.segments.Keys && row in rows && row.path in n.publications
    ensures Known(m, row)
  {
    if NeedsMember(n, row) {
      assert CandidateOf(n, row) in Wanted(n, rows);
    }
  }

  function ByteCost(identity: string): nat { 6 * |identity| + 32 }

  ghost function SetTotal(names: set<string>, weight: string -> nat): nat {
    if names == {} then 0 else var x :| x in names; weight(x) + SetTotal(names - {x}, weight)
  }

  /** What the names in a filter may cost. */
  ghost function Cost(names: set<string>): nat { SetTotal(names, ByteCost) }

  lemma {:induction false} SetTotalAdd(names: set<string>, x: string, weight: string -> nat)
    requires x !in names
    ensures SetTotal(names + {x}, weight) == SetTotal(names, weight) + weight(x)
    decreases |names|
  {
    var all := names + {x};
    var y :| y in all && SetTotal(all, weight) == weight(y) + SetTotal(all - {y}, weight);
    if y == x {
      assert all - {y} == names;
    } else {
      assert all - {y} == names - {y} + {x};
      SetTotalAdd(names - {y}, x, weight);
      SetTotalAdd(names - {y}, y, weight);
      assert names - {y} + {y} == names;
    }
  }

  lemma CostAdd(names: set<string>, x: string)
    requires x !in names
    ensures Cost(names + {x}) == Cost(names) + ByteCost(x)
  {
    SetTotalAdd(names, x, ByteCost);
  }

  /** The length of a byte of a name in JSON: escaped in six characters or two, or as it is. */
  function JsonLength(c: char): nat {
    if c < ' ' || c in "<>&" then 6 else if c in "\"\\" then 2 else 1
  }

  /** The length of a name in a JSON list: quoted, with a separator. */
  function JsonBytes(name: string): nat {
    if name == "" then 3 else JsonBytes(name[..|name| - 1]) + JsonLength(name[|name| - 1])
  }

  lemma {:induction false} NameFits(name: string)
    ensures JsonBytes(name) <= ByteCost(name)
  {
    if name != "" {
      NameFits(name[..|name| - 1]);
    }
  }

  /** The estimate is conservative: the encoded names are never longer. */
  lemma {:induction false} FilterFits(names: set<string>)
    ensures SetTotal(names, JsonBytes) <= Cost(names)
    decreases |names|
  {
    if x :| x in names {
      FilterFits(names - {x});
      NameFits(x);
      SetTotalAdd(names - {x}, x, JsonBytes);
      SetTotalAdd(names - {x}, x, ByteCost);
      assert names - {x} + {x} == names;
    }
  }

  /** The running estimate is the cost of all names. */
  ghost predicate Priced(n: Namespace) { n.filterBytes == Cost(n.excluded) + Cost(n.excludedSegments) }

  function Exclusions(n: Namespace): nat { |n.excluded| + |n.excludedSegments| }

  /** The filter names this row's identity. */
  predicate Excluded(n: Namespace, row: Row) {
    if row.segment != "" then row.segment in n.excludedSegments else row.extraction in n.excluded
  }

  /** Exclude the identity of every row that is not valid; `bad` are those rows. */
  method Reject(n: Namespace, rows: seq<Row>) returns (m: Namespace, bad: set<Row>)
    requires Priced(n) && forall row :: row in rows ==> Known(n, row)
    ensures Priced(m)
    ensures m == n.(excluded := m.excluded, excludedSegments := m.excludedSegments, filterBytes := m.filterBytes)
    ensures n.excluded <= m.excluded && n.excludedSegments <= m.excludedSegments
    ensures forall row :: row in bad <==> row in rows && !Valid(n, row)
    ensures forall row :: row in bad ==> Excluded(m, row)
    ensures bad == {} ==> m == n
    ensures Grounded(m, n, bad)
  {
    hide Valid, Known, Cost;
    m, bad := n, {};
    var i := 0;
    while i < |rows|
      invariant 0 <= i <= |rows|
      invariant m == n.(excluded := m.excluded, excludedSegments := m.excludedSegments, filterBytes := m.filterBytes)
      invariant n.excluded <= m.excluded && n.excludedSegments <= m.excludedSegments
      invariant forall row :: row in bad <==> row in rows[..i] && !Valid(n, row)
      invariant forall row :: row in bad ==> Excluded(m, row)
      invariant bad == {} ==> m == n
      invariant Grounded(m, n, bad) && Priced(m)
    {
      var row := rows[i];
      assert rows[..i + 1] == rows[..i] + [row];
      if !Valid(n, row) {
        bad := bad + {row};
        if row.segment != "" {
          if row.segment !in m.excludedSegments {
            CostAdd(m.excludedSegments, row.segment);
            m := m.(excludedSegments := m.excludedSegments + {row.segment}, filterBytes := m.filterBytes + ByteCost(row.segment));
          }
        } else if row.extraction !in m.excluded {
          CostAdd(m.excluded, row.extraction);
          m := m.(excluded := m.excluded + {row.extraction}, filterBytes := m.filterBytes + ByteCost(row.extraction));
        }
      }
      i := i + 1;
    }
    assert rows[..i] == rows;
  }

  /** A rejected row that passed the filter brings a new exclusion. */
  lemma RejectionGrows(m: Namespace, n: Namespace, row: Row)
    requires n.excluded <= m.excluded && n.excludedSegments <= m.excludedSegments
    requires Passes(n, row) && Excluded(m, row)
    ensures Exclusions(m) > Exclusions(n)
  {
    Smaller(n.excluded, m.excluded);
    Smaller(n.excludedSegments, m.excludedSegments);
  }

  lemma Smaller(a: set<string>, b: set<string>)
    requires a <= b
    ensures |a| <= |b|
    ensures a != b ==> |a| < |b|
  {
    assert b == a + (b - a);
  }

  function Concat(sets: seq<seq<Row>>): (r: seq<Row>) {
    if sets == [] then [] else sets[0] + Concat(sets[1..])
  }

  lemma {:induction false} ConcatMembers(sets: seq<seq<Row>>, row: Row)
    ensures row in Concat(sets) <==> exists j :: 0 <= j < |sets| && row in sets[j]
  {
    if sets != [] {
      ConcatMembers(sets[1..], row);
      assert forall j :: 0 <= j < |sets| - 1 ==> sets[1..][j] == sets[j + 1];
    }
  }

  /** What a namespace has established so far. */
  ghost predicate Established(n: Namespace, rankings: seq<seq<Row>>) {
    RealSegments(n) && SoundExclusions(n, rankings) && Priced(n)
  }

  /** What is new comes from these answers. */
  ghost predicate Adds(m: Namespace, n: Namespace, catalog: string -> Publication, member: Candidate -> bool) {
    && (forall p :: p in m.publications && p !in n.publications ==> m.publications[p] == catalog(p))
    && (forall c :: c in m.segments && c !in n.segments ==> m.segments[c] == member(c) && c.path in m.publications)
  }

  /** Giving up has its cause in the lists that were fetched, or in the filter they led to. */
  ghost predicate Justified(m: Namespace, up: Trouble, root: bool) {
    var rows := Concat(m.sets);
    match up
    case BadRow => exists i :: 0 <= i < |rows| && Malformed(rows[i])
    case RootMissing => !root && !AllPinned(m, rows)
    case TooManyCandidates =>
      PathCount(m, rows) > MAX_CANDIDATES || MemberCount(m, rows) > MAX_CANDIDATES
    case TooManyExclusions => Exclusions(m) > MAX_EXCLUSIONS || Cost(m.excluded) + Cost(m.excludedSegments) > MAX_FILTER_BYTES
    case _ => false
  }

  /** Every list is exact, and consists of rows known to be valid. */
  ghost predicate Served(n: Namespace, rankings: seq<seq<Row>>, limit: nat) {
    && |n.sets| == |rankings|
    && (forall j, row :: 0 <= j < |rankings| && row in n.sets[j] ==> Known(n, row) && Valid(n, row))
    && (forall j :: 0 <= j < |rankings| ==> Exact(n, limit, rankings[j], n.sets[j]))
  }

  lemma AllValidIsServed(n: Namespace, rankings: seq<seq<Row>>, limit: nat)
    requires SoundExclusions(n, rankings) && n.sets == Query(n, rankings, limit)
    requires forall row :: row in Concat(n.sets) ==> Known(n, row) && Valid(n, row)
    ensures Served(n, rankings, limit)
  {
    hide Known, Valid, Exact, SoundExclusions;
    forall j | 0 <= j < |rankings|
      ensures Exact(n, limit, rankings[j], n.sets[j])
      ensures forall row :: row in n.sets[j] ==> Known(n, row) && Valid(n, row)
    {
      forall row | row in n.sets[j] ensures Known(n, row) && Valid(n, row) { ConcatMembers(n.sets, row); }
      ValidIsExact(n, rankings, limit, j);
    }
  }

  lemma SameFilter(m: Namespace, n: Namespace, rankings: seq<seq<Row>>, limit: nat)
    requires m.excluded == n.excluded && m.excludedSegments == n.excludedSegments
    ensures Query(m, rankings, limit) == Query(n, rankings, limit)
  {
    forall j | 0 <= j < |rankings| ensures Query(m, rankings, limit)[j] == Query(n, rankings, limit)[j] {
      var f, g := row => Passes(m, row), row => Passes(n, row);
      forall row | row in Top(limit, rankings[j], f) ensures g(row) { TopMembers(limit, rankings[j], f, row); }
      TopAgree(limit, rankings[j], f, g);
    }
  }

  /** Rows a query returns come from its rankings and pass its filter. */
  lemma QueryMembers(n: Namespace, rankings: seq<seq<Row>>, limit: nat, row: Row)
    requires row in Concat(Query(n, rankings, limit))
    ensures Passes(n, row) && exists j :: 0 <= j < |rankings| && row in rankings[j]
  {
    ConcatMembers(Query(n, rankings, limit), row);
    var j :| 0 <= j < |rankings| && row in Query(n, rankings, limit)[j];
    TopMembers(limit, rankings[j], row => Passes(n, row), row);
  }

  /** What a fetch leaves: the answer to the query, every row of it decided, old answers kept. */
  ghost predicate Fetched(k: Namespace, start: Namespace, rankings: seq<seq<Row>>, limit: nat) {
    && k.sets == Query(start, rankings, limit) && k.excluded == start.excluded && k.excludedSegments == start.excludedSegments
    && Established(k, rankings) && forall row :: row in Concat(k.sets) ==> Known(k, row)
  }

  /** Query one namespace and pin what is new. */
  method Fetch(start: Namespace, rankings: seq<seq<Row>>, limit: nat, root: bool, catalog: string -> Publication, member: Candidate -> bool)
    returns (r: Outcome<bool>, k: Namespace)
    requires Established(start, rankings)
    ensures Extends(k, start) && Adds(k, start, catalog, member)
    ensures r.Done? ==> Fetched(k, start, rankings, limit)
    ensures r.Gave? ==> Justified(k, r.up, root)
  {
    hide Known, Valid, SoundExclusions, Query, PathCount, AllPinned, MemberCount, Cost, Concat, Malformed;
    k := start.(sets := Query(start, rankings, limit));
    var rows := Concat(k.sets);
    var pinned := Pin(k, rows, root, catalog);
    if pinned.Gave? {
      return Gave(pinned.up), k;
    }
    var recalled := Recall(pinned.value, rows, member);
    if recalled.Gave? {
      return Gave(recalled.up), pinned.value;
    }
    k := recalled.value;
    ExtendsKeepsExclusions(k, start, rankings);
    return Done(true), k;
  }

  lemma RejectedRows(k: Namespace, start: Namespace, rankings: seq<seq<Row>>, limit: nat, bad: set<Row>)
    requires Fetched(k, start, rankings, limit) && forall row :: row in bad ==> row in Concat(k.sets) && !Valid(k, row)
    ensures forall row :: row in bad ==>
              Known(k, row) && !Valid(k, row) && Passes(k, row) && exists j :: 0 <= j < |rankings| && row in rankings[j]
  {
    hide Known, Valid, Established, Concat, Query;
    forall row | row in bad ensures Passes(k, row) && exists j :: 0 <= j < |rankings| && row in rankings[j] {
      QueryMembers(start, rankings, limit, row);
    }
  }

  /** Fetch and reject. `Done(true)` asks for another pass, which then has more exclusions than
      this one had. */
  method Pass(start: Namespace, rankings: seq<seq<Row>>, limit: nat, root: bool,
              catalog: string -> Publication, member: Candidate -> bool)
    returns (r: Outcome<bool>, m: Namespace)
    requires Coherent(rankings) && Established(start, rankings)
    ensures Extends(m, start) && Adds(m, start, catalog, member)
    ensures r.Done? ==> Established(m, rankings)
    ensures r == Done(true) ==> Exclusions(start) < Exclusions(m) <= MAX_EXCLUSIONS && m.filterBytes <= MAX_FILTER_BYTES
    ensures r == Done(false) ==> Served(m, rankings, limit)
    ensures r.Gave? ==> Justified(m, r.up, root)
  {
    hide Known, Valid, SoundExclusions, Coherent, Served, Grounded, PathCount, AllPinned, MemberCount, Cost, Concat, Query;
    r, m := Fetch(start, rankings, limit, root, catalog, member);
    if r.Gave? {
      return;
    }
    ghost var k := m;
    var bad;
    m, bad := Reject(m, Concat(m.sets));
    RejectedRows(k, start, rankings, limit, bad);
    RejectionSound(m, k, rankings, bad);
    if bad != {} {
      ghost var row :| row in bad;
      RejectionGrows(m, k, row);
      if Exclusions(m) == Exclusions(start) {
        return Gave(NoProgress), m;
      }
      if Exclusions(m) > MAX_EXCLUSIONS || m.filterBytes > MAX_FILTER_BYTES {
        return Gave(TooManyExclusions), m;
      }
      return Done(true), m;
    }
    SameFilter(k, start, rankings, limit);
    AllValidIsServed(k, rankings, limit);
    return Done(false), m;
  }

  // ----- the whole request -----

  /** The publication of path `p` was read in some pass, and each of its memberships in that
      pass or a later one. */
  ghost predicate Sourced(n: Namespace, slot: nat, pass: nat, catalog: (nat, nat) -> string -> Publication, member: (nat, nat) -> Candidate -> bool, p: string)
    requires p in n.publications
  {
    exists a: nat :: a <= pass && ReadAt(n, slot, pass, catalog, member, p, a)
  }

  ghost predicate ReadAt(n: Namespace, slot: nat, pass: nat, catalog: (nat, nat) -> string -> Publication, member: (nat, nat) -> Candidate -> bool, p: string, a: nat)
    requires p in n.publications
  {
    && n.publications[p] == catalog(a, slot)(p)
    && forall c :: c in n.segments && c.path == p ==> Asked(n.segments[c], slot, pass, member, c, a)
  }

  ghost predicate Asked(answer: bool, slot: nat, pass: nat, member: (nat, nat) -> Candidate -> bool, c: Candidate, a: nat) {
    exists b: nat :: a <= b <= pass && answer == member(b, slot)(c)
  }

  /** Every pinned answer was given by the catalog or the segment tables in some pass. */
  ghost predicate Honest(n: Namespace, slot: nat, pass: nat, catalog: (nat, nat) -> string -> Publication, member: (nat, nat) -> Candidate -> bool) {
    && (forall p :: p in n.publications ==> Sourced(n, slot, pass, catalog, member, p))
    && (forall c :: c in n.segments ==> c.path in n.publications)
  }

  lemma StaysSourced(m: Namespace, n: Namespace, slot: nat, pass: nat, catalog: (nat, nat) -> string -> Publication, member: (nat, nat) -> Candidate -> bool, p: string)
    requires Honest(n, slot, pass, catalog, member) && Extends(m, n) && Adds(m, n, catalog(pass, slot), member(pass, slot))
    requires p in m.publications
    ensures Sourced(m, slot, pass, catalog, member, p)
  {
    var a: nat := pass;
    if p in n.publications {
      a :| a <= pass && ReadAt(n, slot, pass, catalog, member, p, a);
    }
    forall c | c in m.segments && c.path == p ensures Asked(m.segments[c], slot, pass, member, c, a) {
      if c in n.segments {
        assert m.segments[c] == n.segments[c];
      } else {
        assert m.segments[c] == member(pass, slot)(c);
      }
    }
    assert ReadAt(m, slot, pass, catalog, member, p, a);
  }

  lemma StaysHonest(m: Namespace, n: Namespace, slot: nat, pass: nat, catalog: (nat, nat) -> string -> Publication, member: (nat, nat) -> Candidate -> bool)
    requires Honest(n, slot, pass, catalog, member) && Extends(m, n) && Adds(m, n, catalog(pass, slot), member(pass, slot))
    ensures Honest(m, slot, pass, catalog, member)
  {
    hide Sourced;
    forall p | p in m.publications ensures Sourced(m, slot, pass, catalog, member, p) {
      StaysSourced(m, n, slot, pass, catalog, member, p);
    }
  }

  lemma HonestLater(n: Namespace, slot: nat, pass: nat, catalog: (nat, nat) -> string -> Publication, member: (nat, nat) -> Candidate -> bool)
    requires Honest(n, slot, pass, catalog, member)
    ensures Honest(n, slot, pass + 1, catalog, member)
  {
    forall p | p in n.publications ensures Sourced(n, slot, pass + 1, catalog, member, p) {
      var a: nat :| a <= pass && ReadAt(n, slot, pass, catalog, member, p, a);
      assert ReadAt(n, slot, pass + 1, catalog, member, p, a);
    }
  }

  /** Slots still to be queried in this pass, and slots already rejected in it. */
  ghost predicate Halfway(searches: seq<Namespace>, rankings: seq<seq<seq<Row>>>, limit: nat, left: seq<nat>, next: seq<nat>, pass: nat) {
    && |searches| == |rankings|
    && (forall s :: 0 <= s < |rankings| ==> Established(searches[s], rankings[s]))
    && (forall s :: s in left ==> s < |rankings| && Exclusions(searches[s]) >= pass && s !in next)
    && (forall s :: s in next ==> s < |rankings| && Exclusions(searches[s]) > pass)
    && (forall s :: 0 <= s < |rankings| && s !in left && s !in next ==> Served(searches[s], rankings[s], limit))
  }

  predicate Distinct(s: seq<nat>) { forall k, l :: 0 <= k < l < |s| ==> s[k] != s[l] }

  lemma HalfwayStep(searches: seq<Namespace>, rankings: seq<seq<seq<Row>>>, limit: nat, left: seq<nat>, next: seq<nat>, pass: nat, n: Namespace, again: bool)
    requires left != [] && Distinct(left) && Halfway(searches, rankings, limit, left, next, pass)
    requires left[0] in left && Established(n, rankings[left[0]])
    requires if again then Exclusions(n) > Exclusions(searches[left[0]]) else Served(n, rankings[left[0]], limit)
    ensures Halfway(searches[left[0] := n], rankings, limit, left[1..], if again then next + [left[0]] else next, pass)
  {
    hide Established, Served, Exclusions;
    assert left[0] !in left[1..];
    assert forall s :: s in left <==> s == left[0] || s in left[1..];
  }

  ghost predicate AllHonest(searches: seq<Namespace>, pass: nat, catalog: (nat, nat) -> string -> Publication, member: (nat, nat) -> Candidate -> bool) {
    forall s :: 0 <= s < |searches| ==> Honest(searches[s], s, pass, catalog, member)
  }

  /** Some namespace gave up for a cause of its own. */
  ghost predicate Excused(searches: seq<Namespace>, up: Trouble, root: (nat, nat) -> bool) {
    exists s: nat, pass: nat :: s < |searches| && Justified(searches[s], up, root(pass, s))
  }

  lemma {:induction false} AllHonestLater(searches: seq<Namespace>, pass: nat, later: nat, catalog: (nat, nat) -> string -> Publication, member: (nat, nat) -> Candidate -> bool)
    requires pass <= later && AllHonest(searches, pass, catalog, member)
    ensures AllHonest(searches, later, catalog, member)
    decreases later - pass
  {
    hide Honest;
    if pass < later {
      forall s | 0 <= s < |searches| ensures Honest(searches[s], s, pass + 1, catalog, member) {
        HonestLater(searches[s], s, pass, catalog, member);
      }
      AllHonestLater(searches, pass + 1, later, catalog, member);
    }
  }

  /** One pass over the pending slots. */
  method Round(start: seq<Namespace>, rankings: seq<seq<seq<Row>>>, limit: nat, pending: seq<nat>, pass: nat, root: (nat, nat) -> bool,
               catalog: (nat, nat) -> string -> Publication, member: (nat, nat) -> Candidate -> bool)
    returns (r: Outcome<seq<nat>>, searches: seq<Namespace>)
    requires forall s :: 0 <= s < |rankings| ==> Coherent(rankings[s])
    requires Distinct(pending) && Halfway(start, rankings, limit, pending, [], pass) && AllHonest(start, pass, catalog, member)
    ensures |searches| == |rankings| && AllHonest(searches, pass, catalog, member)
    ensures r.Done? ==> Distinct(r.value) && Halfway(searches, rankings, limit, [], r.value, pass)
    ensures r.Gave? ==> Excused(searches, r.up, root)
  {
    hide Coherent, Established, Served, Exclusions, Extends, Adds, Honest, Justified;
    searches := start;
    var next: seq<nat> := [];
    var i := 0;
    while i < |pending|
      invariant 0 <= i <= |pending|
      invariant Distinct(next) && Halfway(searches, rankings, limit, pending[i..], next, pass) && AllHonest(searches, pass, catalog, member)
    {
      var slot := pending[i];
      assert slot in pending[i..] && pending[i..][0] == slot && pending[i..][1..] == pending[i + 1..] && Distinct(pending[i..]);
      var step, n := Pass(searches[slot], rankings[slot], limit, root(pass, slot), catalog(pass, slot), member(pass, slot));
      StaysHonest(n, searches[slot], slot, pass, catalog, member);
      if step.Gave? {
        searches := searches[slot := n];
        assert Justified(searches[slot], step.up, root(pass, slot));
        return Gave(step.up), searches;
      }
      HalfwayStep(searches, rankings, limit, pending[i..], next, pass, n, step.value);
      searches := searches[slot := n];
      if step.value {
        next := next + [slot];
      }
      i := i + 1;
    }
    assert pending[i..] == [];
    return Done(next), searches;
  }

  /** The publication loop. The catalog and the segment tables may give a different answer on
      every pass; each path and each candidate is asked about once. */
  method QueryPublishedRows(rankings: seq<seq<seq<Row>>>, limit: nat, root: (nat, nat) -> bool,
                            catalog: (nat, nat) -> string -> Publication, member: (nat, nat) -> Candidate -> bool)
    returns (r: Outcome<seq<Namespace>>, searches: seq<Namespace>)
    requires forall s :: 0 <= s < |rankings| ==> Coherent(rankings[s])
    ensures |searches| == |rankings|
    ensures r.Done? ==> r.value == searches && forall s :: 0 <= s < |rankings| ==> Established(searches[s], rankings[s]) && Served(searches[s], rankings[s], limit)
    ensures AllHonest(searches, MAX_PASSES, catalog, member)
    ensures r != Gave(NoProgress)
    ensures r == Gave(PassesSpent) ==> exists s :: 0 <= s < |searches| && Exclusions(searches[s]) >= MAX_PASSES
    ensures r.Gave? && r.up != PassesSpent ==> Excused(searches, r.up, root)
  {
    hide Coherent, Established, Served, Exclusions, Honest, Justified;
    searches := seq(|rankings|, _ => FRESH);
    forall s | 0 <= s < |rankings| ensures Established(searches[s], rankings[s]) { FreshEstablished(rankings[s]); }
    assert AllHonest(searches, 0, catalog, member) by {
      forall s | 0 <= s < |searches| ensures Honest(searches[s], s, 0, catalog, member) { FreshHonest(s, catalog, member); }
    }
    var pending: seq<nat> := seq(|rankings|, i => i);
    forall s | 0 <= s < |rankings| ensures s in pending { assert pending[s] == s; }
    var pass := 0;
    while pass < MAX_PASSES && pending != []
      invariant 0 <= pass <= MAX_PASSES
      invariant Distinct(pending) && Halfway(searches, rankings, limit, pending, [], pass) && AllHonest(searches, pass, catalog, member)
    {
      var next;
      next, searches := Round(searches, rankings, limit, pending, pass, root, catalog, member);
      if next.Gave? {
        assert !Excused(searches, NoProgress, root) && !Excused(searches, PassesSpent, root) by { NoExcuse(searches, root); }
        AllHonestLater(searches, pass, MAX_PASSES, catalog, member);
        return Gave(next.up), searches;
      }
      AllHonestLater(searches, pass, pass + 1, catalog, member);
      pending := next.value;
      pass := pass + 1;
    }
    AllHonestLater(searches, pass, MAX_PASSES, catalog, member);
    if pending == [] {
      return Done(searches), searches;
    }
    assert pending[0] in pending;
    return Gave(PassesSpent), searches;
  }

  lemma FreshHonest(slot: nat, catalog: (nat, nat) -> string -> Publication, member: (nat, nat) -> Candidate -> bool)
    ensures Honest(FRESH, slot, 0, catalog, member)
  {
  }

  lemma NoExcuse(searches: seq<Namespace>, root: (nat, nat) -> bool)
    ensures !Excused(searches, NoProgress, root) && !Excused(searches, PassesSpent, root)
  {
  }

  lemma FreshEstablished(rankings: seq<seq<Row>>)
    ensures Established(FRESH, rankings)
  {
    forall j, x | 0 <= j < |rankings| && 0 <= x < |rankings[j]| ensures Passes(FRESH, rankings[j][x]) {}
  }
}
