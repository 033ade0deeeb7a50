/** The catalog change feed and a client's cache of it (`internal/server/catalog_changes.go`,
    `cmd/pufferfs/capture_catalog_cache.go`). Events commit to an outbox, a reader assigns them
    revisions, and a client follows a cursor page by page. One client is modelled; what other
    clients do to the server is the step `Advance`. Revisions are assigned by a transaction of
    several statements: it deletes events (`Consume`) and later looks at the outbox again and
    commits (`Look`). It holds the root's revision row, so nobody else assigns revisions
    meanwhile, but captures do not wait for it. */
module CatalogFeed {
  import opened Wrappers

  const MAX_EVENTS := 2000

  type File = nat
  type Head = nat // what a page reports of a file; any change of it makes an event
  type Access = nat // the digest of a role and its denied prefixes

  datatype Cursor = Cursor(access: Access, revision: nat)

  /** A row of the page query. */
  datatype Entry = Entry(revision: nat, file: File, head: Head)

  datatype Page = Page(files: map<File, Head>, cursor: Cursor, more: bool)

  /** Where the client's request stands: `Consuming` is an open transaction, `stamp` the number
      of captures committed when it looked at the outbox. */
  datatype Request =
    | Idle
    | Asked(access: Access, from: nat)
    | Consuming(access: Access, from: nat, ids: seq<File>, consumed: multiset<File>)
    | Refused
    | Ready(access: Access, from: nat, upto: nat, more: bool, stamp: nat)
    | Answered(page: Page, stamp: nat)

  datatype Server = Server(heads: map<File, Head>, outbox: multiset<File>, changes: map<File, nat>, revision: nat, captures: nat)

  /** `synced` is the cache as it was when a capture last completed. */
  datatype Client = Client(cache: map<File, Head>, cursor: Option<Cursor>, pending: set<File>, synced: map<File, Head>, request: Request)

  datatype State = State(server: Server, access: Access, client: Client)

  datatype Step =
    | Capture(file: File, head: Head)
    | SetAccess(access: Access)
    | Advance(ids: seq<File>, consumed: multiset<File>)
    | Ask
    | Consume(ids: seq<File>, consumed: multiset<File>)
    | Look
    | Query(rows: seq<Entry>, limit: nat)
    | Deliver
    | Drop
    | Reset
    | SavePolicy

  const EMPTY := State(Server(map[], multiset{}, map[], 0, 0), 0, Client(map[], None, {}, map[], Idle))

  // ----- the server -----

  /** Events of the outbox, and the files they name, each once. */
  ghost predicate Takes(s: Server, ids: seq<File>, consumed: multiset<File>) {
    && consumed <= s.outbox
    && (forall i, j :: 0 <= i < j < |ids| ==> ids[i] != ids[j])
    && (forall f :: f in ids ==> f in consumed) && (forall f :: f in consumed ==> f in ids)
  }

  /** The delete takes all events there are, up to its limit. */
  ghost predicate Consumes(s: Server, ids: seq<File>, consumed: multiset<File>) {
    Takes(s, ids, consumed) && |consumed| <= MAX_EVENTS && (consumed == s.outbox || |consumed| == MAX_EVENTS)
  }

  /** Consecutive new revisions for the changed files. */
  function Revised(changes: map<File, nat>, revision: nat, ids: seq<File>): map<File, nat> {
    if ids == [] then changes
    else var n := |ids| - 1; Revised(changes, revision, ids[..n])[ids[n] := revision + n + 1]
  }

  function Advanced(s: Server, ids: seq<File>, consumed: multiset<File>): Server {
    s.(outbox := s.outbox - consumed, changes := Revised(s.changes, s.revision, ids), revision := s.revision + |ids|)
  }

  /** The query: changes after `from` up to `upto`, in order, `bound` of them at most. */
  ghost predicate Lists(s: Server, from: nat, upto: nat, bound: nat, rows: seq<Entry>) {
    && |rows| <= bound
    && (forall i :: 0 <= i < |rows| ==>
          && rows[i].file in s.changes && rows[i].file in s.heads
          && rows[i] == Entry(s.changes[rows[i].file], rows[i].file, s.heads[rows[i].file])
          && from < rows[i].revision <= upto)
    && (forall i, j :: 0 <= i < j < |rows| ==> rows[i].revision < rows[j].revision)
    && (forall f :: f in s.changes && f in s.heads && from < s.changes[f] <= upto ==>
          || (exists i :: 0 <= i < |rows| && rows[i].file == f)
          || (|rows| == bound && bound > 0 && s.changes[f] > rows[bound - 1].revision))
  }

  /** The visible files of the rows, as a page reports them. */
  function Shown(rows: seq<Entry>, visible: File -> bool): map<File, Head> {
    if rows == [] then map[]
    else
      var n := |rows| - 1;
      var before := Shown(rows[..n], visible);
      if visible(rows[n].file) then before[rows[n].file := rows[n].head] else before
  }

  /** The page for the listed rows: `limit` of them, and where to go on. */
  function PageOf(rows: seq<Entry>, limit: nat, access: Access, upto: nat, more: bool, visible: File -> bool): Page
    requires limit >= 1
  {
    if |rows| > limit
    then Page(Shown(rows[..limit], visible), Cursor(access, rows[limit - 1].revision), true)
    else Page(Shown(rows, visible), Cursor(access, upto), more)
  }

  /** The page loop of `handleCatalogChanges`. */
  method BuildPage(rows: seq<Entry>, limit: nat, access: Access, from: nat, upto: nat, pending: bool, visible: File -> bool) returns (page: Page)
    requires limit >= 1
    ensures page == PageOf(rows, limit, access, upto, pending, visible)
  {
    var files: map<File, Head>, position, more, count, remaining := map[], from, pending, 0, false;
    while count < |rows|
      invariant 0 <= count <= |rows| && count <= limit
      invariant files == Shown(rows[..count], visible) && !remaining && more == pending
      invariant position == if count == 0 then from else rows[count - 1].revision
    {
      if count == limit {
        remaining, more := true, true;
        break;
      }
      assert rows[..count + 1][..count] == rows[..count];
      position := rows[count].revision;
      if visible(rows[count].file) {
        files := files[rows[count].file := rows[count].head];
      }
      count := count + 1;
    }
    if !remaining {
      position := upto;
      assert rows[..count] == rows;
    }
    return Page(files, Cursor(access, position), more);
  }

  // ----- steps -----

  function From(cursor: Option<Cursor>): nat { if cursor.Some? then cursor.value.revision else 0 }

  function Sees(visible: (Access, File) -> bool, access: Access): File -> bool { (f: File) => visible(access, f) }

  ghost predicate Enabled(s: State, step: Step) {
    match step
    case Capture(_, _) => true
    case SetAccess(_) => true
    case Advance(ids, consumed) => !s.client.request.Consuming? && Takes(s.server, ids, consumed)
    case Ask => s.client.request.Idle?
    case Consume(ids, consumed) => s.client.request.Asked? && Consumes(s.server, ids, consumed)
    case Look => s.client.request.Consuming?
    case Query(rows, limit) =>
      && s.client.request.Ready? && 1 <= limit <= 1000
      && Lists(s.server, s.client.request.from, s.client.request.upto, limit + 1, rows)
    case Deliver => s.client.request.Answered?
    case Drop => true
    case Reset => s.client.request.Refused?
    case SavePolicy => s.client.request.Idle?
  }

  function Captured(s: Server, f: File, h: Head): Server {
    s.(heads := s.heads[f := h], outbox := s.outbox + multiset{f}, captures := s.captures + 1)
  }

  function Apply(s: State, step: Step, visible: (Access, File) -> bool): State
    requires Enabled(s, step)
  {
    var c := s.client;
    match step
    case Capture(f, h) => s.(server := Captured(s.server, f, h))
    case SetAccess(a) => s.(access := a)
    case Advance(ids, consumed) => s.(server := Advanced(s.server, ids, consumed))
    case Ask =>
      if c.cursor.Some? && c.cursor.value.access != s.access then s.(client := c.(request := Refused))
      else s.(client := c.(request := Asked(s.access, From(c.cursor))))
    case Consume(ids, consumed) => s.(client := c.(request := Consuming(c.request.access, c.request.from, ids, consumed)))
    case Look =>
      var r := c.request;
      var t := Advanced(s.server, r.ids, r.consumed);
      if r.from > t.revision then State(t, s.access, c.(request := Refused))
      else State(t, s.access, c.(request := Ready(r.access, r.from, t.revision, t.outbox != multiset{}, t.captures)))
    case Query(rows, limit) =>
      var r := c.request;
      s.(client := c.(request := Answered(PageOf(rows, limit, r.access, r.upto, r.more, Sees(visible, r.access)), r.stamp)))
    case Deliver =>
      var page := c.request.page;
      s.(client := Client(c.cache + page.files, Some(page.cursor), c.pending + page.files.Keys, c.synced, Idle))
    case Drop => s.(client := c.(request := Idle))
    case Reset => s.(client := Client(map[], None, {}, map[], Idle))
    case SavePolicy => s.(client := c.(pending := {}, synced := c.cache))
  }

  // ----- invariant -----

  /** A change that a cursor at `revision` has yet to see. */
  ghost predicate Due(s: Server, f: File, revision: nat) {
    f in s.outbox || (f in s.changes && s.changes[f] > revision)
  }

  /** `cache` is right about every visible file that is not still due. */
  ghost predicate Follows(s: Server, cache: map<File, Head>, access: Access, revision: nat, visible: (Access, File) -> bool) {
    && revision <= s.revision
    && (forall f :: f in s.heads && visible(access, f) ==> (f in cache && cache[f] == s.heads[f]) || Due(s, f, revision))
    && (forall f :: f in cache ==> f in s.heads && visible(access, f))
  }

  ghost predicate Recorded(s: Server) {
    && (forall f :: f in s.heads ==> f in s.outbox || f in s.changes)
    && (forall f :: f in s.outbox ==> f in s.heads)
    && (forall f :: f in s.changes ==> f in s.heads && 1 <= s.changes[f] <= s.revision)
    && (forall f, g :: f in s.changes && g in s.changes && s.changes[f] == s.changes[g] ==> f == g)
  }

  /** If no event was left at the second look and no capture came after it, all is numbered. */
  ghost predicate Settled(s: Server, upto: nat, more: bool, stamp: nat) {
    stamp <= s.captures && (!more && stamp == s.captures ==> s.outbox == multiset{} && s.revision == upto)
  }

  ghost predicate Cached(s: Server, c: Client, visible: (Access, File) -> bool) {
    if c.cursor.Some? then Follows(s, c.cache, c.cursor.value.access, c.cursor.value.revision, visible)
    else c.cache == map[]
  }

  /** A request goes on from the saved cursor. */
  ghost predicate GoesOn(c: Client, access: Access, from: nat) {
    from == From(c.cursor) && (c.cursor.Some? ==> c.cursor.value.access == access)
  }

  ghost predicate Asking(s: Server, c: Client, visible: (Access, File) -> bool) {
    var r := c.request;
    && (r.Asked? ==> GoesOn(c, r.access, r.from))
    && (r.Consuming? ==> GoesOn(c, r.access, r.from) && Takes(s, r.ids, r.consumed))
    && (r.Ready? ==> GoesOn(c, r.access, r.from) && r.from <= r.upto <= s.revision && Settled(s, r.upto, r.more, r.stamp))
    && (r.Answered? ==>
          && Follows(s, c.cache + r.page.files, r.page.cursor.access, r.page.cursor.revision, visible)
          && Settled(s, r.page.cursor.revision, r.page.more, r.stamp))
  }

  /** A path whose cached head changed since the last completed capture is still pending. */
  ghost predicate PendingKept(c: Client) {
    && c.synced.Keys <= c.cache.Keys
    && forall f :: f in c.cache && f !in c.pending ==> f in c.synced && c.synced[f] == c.cache[f]
  }

  ghost predicate Inv(s: State, visible: (Access, File) -> bool) {
    Recorded(s.server) && Cached(s.server, s.client, visible) && Asking(s.server, s.client, visible) && PendingKept(s.client)
  }

  // ----- captures -----

  lemma CaptureFollows(s: Server, f: File, h: Head, cache: map<File, Head>, access: Access, revision: nat, visible: (Access, File) -> bool)
    requires Follows(s, cache, access, revision, visible)
    ensures Follows(Captured(s, f, h), cache, access, revision, visible)
  {
    var t := Captured(s, f, h);
    forall g | g in t.heads && visible(access, g)
      ensures (g in cache && cache[g] == t.heads[g]) || Due(t, g, revision)
    {
      assert g != f ==> g in s.heads && (Due(s, g, revision) ==> Due(t, g, revision));
    }
  }

  lemma CaptureRecorded(s: Server, f: File, h: Head)
    requires Recorded(s)
    ensures Recorded(Captured(s, f, h))
  {
  }

  lemma CaptureTakes(s: Server, f: File, h: Head, ids: seq<File>, consumed: multiset<File>)
    requires Takes(s, ids, consumed)
    ensures Takes(Captured(s, f, h), ids, consumed)
  {
  }

  lemma CaptureKeeps(s: Server, c: Client, f: File, h: Head, visible: (Access, File) -> bool)
    requires Recorded(s) && Cached(s, c, visible) && Asking(s, c, visible)
    ensures var t := Captured(s, f, h); Recorded(t) && Cached(t, c, visible) && Asking(t, c, visible)
  {
    hide Follows, Takes, Recorded;
    CaptureRecorded(s, f, h);
    if c.request.Consuming? {
      CaptureTakes(s, f, h, c.request.ids, c.request.consumed);
    }
    if c.cursor.Some? {
      CaptureFollows(s, f, h, c.cache, c.cursor.value.access, c.cursor.value.revision, visible);
    }
    if c.request.Answered? {
      var page := c.request.page;
      CaptureFollows(s, f, h, c.cache + page.files, page.cursor.access, page.cursor.revision, visible);
    }
  }

  // ----- revisions -----

  ghost predicate Unique(ids: seq<File>) { forall i, j :: 0 <= i < j < |ids| ==> ids[i] != ids[j] }

  lemma {:induction false} RevisedValues(changes: map<File, nat>, revision: nat, ids: seq<File>)
    requires Unique(ids)
    ensures var r := Revised(changes, revision, ids);
            && (forall f :: f in r <==> f in changes || f in ids)
            && (forall f :: f in changes && f !in ids ==> r[f] == changes[f])
            && (forall i :: 0 <= i < |ids| ==> r[ids[i]] == revision + i + 1)
  {
    if ids != [] {
      var n := |ids| - 1;
      assert ids == ids[..n] + [ids[n]];
      RevisedValues(changes, revision, ids[..n]);
    }
  }

  /** A consumed event becomes a revision beyond every cursor, so what was due stays due. */
  lemma AdvanceDue(s: Server, ids: seq<File>, consumed: multiset<File>, f: File, revision: nat)
    requires Takes(s, ids, consumed) && revision <= s.revision && Due(s, f, revision)
    ensures Due(Advanced(s, ids, consumed), f, revision)
  {
    RevisedValues(s.changes, s.revision, ids);
    hide Revised;
    if f in ids {
      var i :| 0 <= i < |ids| && ids[i] == f;
    }
  }

  lemma AdvanceFollows(s: Server, ids: seq<File>, consumed: multiset<File>, cache: map<File, Head>, access: Access, revision: nat, visible: (Access, File) -> bool)
    requires Takes(s, ids, consumed) && Follows(s, cache, access, revision, visible)
    ensures Follows(Advanced(s, ids, consumed), cache, access, revision, visible)
  {
    hide Takes, Due, Revised;
    forall f | f in s.heads && visible(access, f) && Due(s, f, revision) ensures Due(Advanced(s, ids, consumed), f, revision) {
      AdvanceDue(s, ids, consumed, f, revision);
    }
  }

  lemma AdvanceRecorded(s: Server, ids: seq<File>, consumed: multiset<File>)
    requires Takes(s, ids, consumed) && Recorded(s)
    ensures Recorded(Advanced(s, ids, consumed))
  {
    hide Revised;
    var t := Advanced(s, ids, consumed);
    assert Unique(ids);
    RevisedValues(s.changes, s.revision, ids);
    RevisedInjective(s.changes, s.revision, ids);
    forall f | f in t.changes ensures f in t.heads && 1 <= t.changes[f] <= t.revision {
      if f in ids { var i :| 0 <= i < |ids| && ids[i] == f; }
    }
  }

  lemma RevisedInjective(changes: map<File, nat>, revision: nat, ids: seq<File>)
    requires Unique(ids)
    requires forall f :: f in changes ==> changes[f] <= revision
    requires forall f, g :: f in changes && g in changes && changes[f] == changes[g] ==> f == g
    ensures var r := Revised(changes, revision, ids); forall f, g :: f in r && g in r && r[f] == r[g] ==> f == g
  {
    RevisedValues(changes, revision, ids);
    hide Revised;
    var r := Revised(changes, revision, ids);
    forall f, g | f in r && g in r && r[f] == r[g] ensures f == g {
      if f in ids { var i :| 0 <= i < |ids| && ids[i] == f; }
      if g in ids { var j :| 0 <= j < |ids| && ids[j] == g; }
    }
  }

  /** A numbered file had an event. */
  lemma SomethingConsumed(s: Server, ids: seq<File>, consumed: multiset<File>)
    requires Takes(s, ids, consumed) && ids != []
    ensures s.outbox != multiset{}
  {
    assert ids[0] in ids && ids[0] in consumed;
  }

  lemma AdvanceKeeps(s: Server, c: Client, ids: seq<File>, consumed: multiset<File>, visible: (Access, File) -> bool)
    requires Recorded(s) && Cached(s, c, visible) && Asking(s, c, visible) && !c.request.Consuming? && Takes(s, ids, consumed)
    ensures var t := Advanced(s, ids, consumed); Recorded(t) && Cached(t, c, visible) && Asking(t, c, visible)
  {
    hide Follows, Takes, Recorded, Revised;
    AdvanceRecorded(s, ids, consumed);
    if ids != [] {
      SomethingConsumed(s, ids, consumed);
    }
    if c.cursor.Some? {
      AdvanceFollows(s, ids, consumed, c.cache, c.cursor.value.access, c.cursor.value.revision, visible);
    }
    if c.request.Answered? {
      var page := c.request.page;
      AdvanceFollows(s, ids, consumed, c.cache + page.files, page.cursor.access, page.cursor.revision, visible);
    }
  }

  /** The answer that the second look prepares. */
  function LookedAt(s: Server, r: Request): Request
    requires r.Consuming?
  {
    Ready(r.access, r.from, s.revision + |r.ids|, s.outbox - r.consumed != multiset{}, s.captures)
  }

  lemma LookKeeps(s: State, visible: (Access, File) -> bool)
    requires Inv(s, visible) && Enabled(s, Look)
    ensures Inv(Apply(s, Look, visible), visible)
    ensures Apply(s, Look, visible).client == s.client.(request := LookedAt(s.server, s.client.request))
  {
    hide Follows, Takes, Recorded, Revised, PendingKept, Cached, Lists, PageOf, Shown;
    var r := s.client.request;
    var t := Advanced(s.server, r.ids, r.consumed);
    var before := s.client.(request := Idle);
    OnlyRequest(s.server, s.client, before, visible);
    AdvanceKeeps(s.server, before, r.ids, r.consumed, visible);
    CursorBehind(s.server, s.client, visible);
    var c := Apply(s, Look, visible).client;
    assert c == before.(request := c.request);
    assert Cached(t, c, visible) && PendingKept(c) by { OnlyRequest(t, before, c, visible); }
  }

  lemma OnlyRequest(s: Server, c: Client, d: Client, visible: (Access, File) -> bool)
    requires d == c.(request := d.request)
    ensures (Cached(s, c, visible) <==> Cached(s, d, visible)) && (PendingKept(c) <==> PendingKept(d))
  {
    hide Follows;
  }

  /** The server never lags behind a cursor it gave out. */
  lemma CursorBehind(s: Server, c: Client, visible: (Access, File) -> bool)
    requires Cached(s, c, visible)
    ensures From(c.cursor) <= s.revision
  {
  }

  // ----- pages -----

  lemma {:induction false} ShownFiles(rows: seq<Entry>, visible: File -> bool)
    requires forall i, j :: 0 <= i < j < |rows| ==> rows[i].file != rows[j].file
    ensures var m := Shown(rows, visible);
            && (forall f :: f in m ==> visible(f) && exists i :: 0 <= i < |rows| && rows[i].file == f && rows[i].head == m[f])
            && (forall i :: 0 <= i < |rows| && visible(rows[i].file) ==> rows[i].file in m && m[rows[i].file] == rows[i].head)
  {
    if rows != [] {
      var n := |rows| - 1;
      ShownFiles(rows[..n], visible);
      var m := Shown(rows, visible);
      forall f | f in m
        ensures visible(f) && exists i :: 0 <= i < |rows| && rows[i].file == f && rows[i].head == m[f]
      {
        if f != rows[n].file || !visible(f) {
          var i :| 0 <= i < n && rows[..n][i].file == f && rows[..n][i].head == m[f];
          assert rows[i].file == f;
        }
      }
    }
  }

  lemma ListsDistinct(s: Server, from: nat, upto: nat, bound: nat, rows: seq<Entry>, k: nat)
    requires Lists(s, from, upto, bound, rows) && k <= |rows|
    ensures forall i, j :: 0 <= i < j < k ==> rows[..k][i].file != rows[..k][j].file
  {
  }

  /** What the page does not show lies beyond its cursor. */
  lemma PageComplete(s: Server, from: nat, upto: nat, limit: nat, rows: seq<Entry>, f: File)
    requires Lists(s, from, upto, limit + 1, rows) && limit >= 1 && f in s.changes && f in s.heads && s.changes[f] > from
    ensures var last := if |rows| > limit then rows[limit - 1].revision else upto;
            s.changes[f] > last || exists i :: 0 <= i < |rows| && i < limit && rows[i].file == f
  {
    if s.changes[f] <= upto && exists i :: 0 <= i < |rows| && rows[i].file == f {
      var k :| 0 <= k < |rows| && rows[k].file == f;
      if k >= limit {
        assert rows[limit - 1].revision < rows[k].revision;
      }
    } else if |rows| > limit {
      assert rows[limit - 1].revision < rows[limit].revision;
    }
  }

  /** The head of a listed file is the current one. */
  lemma ShownCurrent(s: Server, rows: seq<Entry>, k: nat, from: nat, upto: nat, bound: nat, look: File -> bool)
    requires Lists(s, from, upto, bound, rows) && k <= |rows|
    ensures var m := Shown(rows[..k], look);
            && (forall f :: f in m ==> look(f) && f in s.heads && m[f] == s.heads[f])
            && (forall i :: 0 <= i < k && look(rows[i].file) ==> rows[i].file in m)
  {
    hide Shown;
    ListsDistinct(s, from, upto, bound, rows, k);
    ShownFiles(rows[..k], look);
    var m := Shown(rows[..k], look);
    forall f | f in m ensures f in s.heads && m[f] == s.heads[f] {
      var i :| 0 <= i < k && rows[..k][i].file == f && rows[..k][i].head == m[f];
      assert rows[i] == rows[..k][i];
    }
    forall i | 0 <= i < k && look(rows[i].file) ensures rows[i].file in m { assert rows[..k][i] == rows[i]; }
  }

  lemma PageFollows(s: Server, rows: seq<Entry>, limit: nat, cache: map<File, Head>, access: Access, from: nat, upto: nat, more: bool, visible: (Access, File) -> bool)
    requires Lists(s, from, upto, limit + 1, rows) && limit >= 1 && from <= upto <= s.revision
    requires Follows(s, cache, access, from, visible)
    ensures var page := PageOf(rows, limit, access, upto, more, Sees(visible, access));
            Follows(s, cache + page.files, access, page.cursor.revision, visible)
  {
    hide Shown, Follows;
    var look := Sees(visible, access);
    var k := if |rows| > limit then limit else |rows|;
    var page := PageOf(rows, limit, access, upto, more, look);
    assert rows[..|rows|] == rows;
    assert page.files == Shown(rows[..k], look);
    assert page.cursor.revision <= s.revision by { if |rows| > limit { assert rows[limit - 1].revision <= upto; } }
    ShownCurrent(s, rows, k, from, upto, limit + 1, look);
    forall f | f in s.heads && visible(access, f) && f in s.changes && s.changes[f] > from
      ensures s.changes[f] > page.cursor.revision || f in page.files
    {
      PageComplete(s, from, upto, limit, rows, f);
      if i :| 0 <= i < |rows| && i < limit && rows[i].file == f {
        assert look(rows[i].file);
      }
    }
    Catches(s, cache, page.files, access, from, page.cursor.revision, visible);
  }

  /** Current heads for every visible file that was due before `last`. */
  lemma Catches(s: Server, cache: map<File, Head>, files: map<File, Head>, access: Access, from: nat, last: nat, visible: (Access, File) -> bool)
    requires Follows(s, cache, access, from, visible) && last <= s.revision
    requires forall f :: f in files ==> visible(access, f) && f in s.heads && files[f] == s.heads[f]
    requires forall f :: f in s.heads && visible(access, f) && f in s.changes && s.changes[f] > from ==> s.changes[f] > last || f in files
    ensures Follows(s, cache + files, access, last, visible)
  {
  }

  /** A first request, with nothing cached yet, follows revision zero. */
  lemma NothingFollows(s: Server, access: Access, visible: (Access, File) -> bool)
    requires Recorded(s)
    ensures Follows(s, map[], access, 0, visible)
  {
  }

  lemma QueryKeeps(s: State, step: Step, visible: (Access, File) -> bool)
    requires Inv(s, visible) && step.Query? && Enabled(s, step)
    ensures Inv(Apply(s, step, visible), visible)
  {
    hide Shown, Lists, Follows, Recorded;
    var c := s.client;
    var r := c.request;
    if c.cursor.None? {
      NothingFollows(s.server, r.access, visible);
    }
    PageFollows(s.server, step.rows, step.limit, c.cache, r.access, r.from, r.upto, r.more, visible);
    PageSettles(s.server, step.rows, step.limit, r, visible);
  }

  lemma PageSettles(s: Server, rows: seq<Entry>, limit: nat, r: Request, visible: (Access, File) -> bool)
    requires r.Ready? && Settled(s, r.upto, r.more, r.stamp) && limit >= 1
    ensures var page := PageOf(rows, limit, r.access, r.upto, r.more, Sees(visible, r.access));
            Settled(s, page.cursor.revision, page.more, r.stamp) && page.cursor.access == r.access
  {
  }

  // ----- every step -----

  lemma DeliverKeeps(s: State, visible: (Access, File) -> bool)
    requires Inv(s, visible) && Enabled(s, Deliver)
    ensures Inv(Apply(s, Deliver, visible), visible)
  {
    hide Follows, Recorded;
  }

  lemma OtherKeeps(s: State, step: Step, visible: (Access, File) -> bool)
    requires Inv(s, visible) && Enabled(s, step)
    requires step.SetAccess? || step.Ask? || step.Consume? || step.Drop? || step.Reset? || step.SavePolicy?
    ensures Inv(Apply(s, step, visible), visible)
  {
    hide Follows, Recorded;
  }

  lemma StepKeeps(s: State, step: Step, visible: (Access, File) -> bool)
    requires Inv(s, visible) && Enabled(s, step)
    ensures Inv(Apply(s, step, visible), visible)
  {
    hide Recorded, Cached, PendingKept, Takes, Lists;
    if step.Capture? {
      CaptureKeeps(s.server, s.client, step.file, step.head, visible);
    } else if step.Advance? {
      AdvanceKeeps(s.server, s.client, step.ids, step.consumed, visible);
    } else if step.Look? {
      LookKeeps(s, visible);
    } else if step.Query? {
      QueryKeeps(s, step, visible);
    } else if step.Deliver? {
      DeliverKeeps(s, visible);
    } else {
      OtherKeeps(s, step, visible);
    }
  }

  ghost predicate Run(trace: seq<State>, steps: seq<Step>, visible: (Access, File) -> bool) {
    && |trace| == |steps| + 1 && trace[0] == EMPTY
    && forall k :: 0 <= k < |steps| ==> Enabled(trace[k], steps[k]) && trace[k + 1] == Apply(trace[k], steps[k], visible)
  }

  lemma {:induction false} RunInv(trace: seq<State>, steps: seq<Step>, visible: (Access, File) -> bool, n: nat)
    requires Run(trace, steps, visible) && n < |trace|
    ensures Inv(trace[n], visible)
  {
    hide Inv, Enabled, Apply;
    if n > 0 {
      RunInv(trace, steps, visible, n - 1);
      StepKeeps(trace[n - 1], steps[n - 1], visible);
    } else {
      EmptyInv(visible);
    }
  }

  lemma EmptyInv(visible: (Access, File) -> bool)
    ensures Inv(EMPTY, visible)
  {
  }

  /** In every run, a cached head that differs from the catalog has an unconsumed event or a
      revision beyond the client's cursor; nothing is cached that the client may not see. */
  lemma StaleIsDue(trace: seq<State>, steps: seq<Step>, visible: (Access, File) -> bool, n: nat, f: File)
    requires Run(trace, steps, visible) && n < |trace|
    ensures var s, c := trace[n].server, trace[n].client;
            && (c.cursor.Some? && f in s.heads && visible(c.cursor.value.access, f) ==>
                  (f in c.cache && c.cache[f] == s.heads[f]) || Due(s, f, c.cursor.value.revision))
            && (c.cursor.None? && f in s.heads ==> Due(s, f, 0))
            && (f in c.cache ==> c.cursor.Some? && f in s.heads && visible(c.cursor.value.access, f))
            && (f in c.cache && f !in c.pending ==> f in c.synced && c.synced[f] == c.cache[f])
  {
    RunInv(trace, steps, visible, n);
  }

  /** In every run, when the last page of a refresh is saved and no capture came after the look
      at the outbox that preceded it, the cache is exactly the visible part of the catalog. */
  lemma FinishedRefreshIsCurrent(trace: seq<State>, steps: seq<Step>, visible: (Access, File) -> bool, n: nat)
    requires Run(trace, steps, visible) && n < |steps| && steps[n].Deliver?
    requires trace[n].client.request.Answered? && !trace[n].client.request.page.more
    requires trace[n].client.request.stamp == trace[n].server.captures
    ensures var s, c := trace[n + 1].server, trace[n + 1].client;
            c.cursor.Some? && c.cache == map f | f in s.heads && visible(c.cursor.value.access, f) :: s.heads[f]
  {
    hide Run;
    RunStep(trace, steps, visible, n);
    RunInv(trace, steps, visible, n);
    var s, c := trace[n].server, trace[n].client;
    SettledCurrent(s, c.cache + c.request.page.files, c.request.page.cursor.access, c.request.page.cursor.revision, visible);
  }

  lemma RunStep(trace: seq<State>, steps: seq<Step>, visible: (Access, File) -> bool, n: nat)
    requires Run(trace, steps, visible) && n < |steps|
    ensures |trace| == |steps| + 1 && Enabled(trace[n], steps[n]) && trace[n + 1] == Apply(trace[n], steps[n], visible)
  {
  }

  lemma SettledCurrent(s: Server, cache: map<File, Head>, access: Access, revision: nat, visible: (Access, File) -> bool)
    requires Recorded(s) && Follows(s, cache, access, revision, visible) && s.outbox == multiset{} && revision == s.revision
    ensures cache == map f | f in s.heads && visible(access, f) :: s.heads[f]
  {
    forall f | f in s.heads && visible(access, f) ensures f in cache && cache[f] == s.heads[f] {
      assert !Due(s, f, revision);
    }
  }

  /** A cursor the server gave out is never ahead of it. */
  lemma CursorNeverAhead(trace: seq<State>, steps: seq<Step>, visible: (Access, File) -> bool, n: nat)
    requires Run(trace, steps, visible) && n < |steps| && steps[n].Look?
    ensures trace[n + 1].client.request.Ready?
  {
    RunInv(trace, steps, visible, n);
    LookKeeps(trace[n], visible);
  }

  // ----- progress of a refresh -----

  lemma PageMoves(q: Server, rows: seq<Entry>, limit: nat, r: Request, visible: (Access, File) -> bool)
    requires r.Ready? && r.from <= r.upto && limit >= 1 && Lists(q, r.from, r.upto, limit + 1, rows)
    ensures var page := PageOf(rows, limit, r.access, r.upto, r.more, Sees(visible, r.access));
            && page.cursor.access == r.access && (page.cursor.revision == r.from <==> r.upto == r.from)
            && (r.upto == r.from ==> page.more == r.more)
  {
    if rows != [] {
      assert r.from < rows[0].revision <= r.upto;
    }
    if |rows| > limit {
      assert r.from < rows[limit - 1].revision <= r.upto;
    }
  }

  /** The request that consumes at step `i` looks at step `j` and reads its page at step `k`. */
  ghost predicate OneRequest(steps: seq<Step>, i: nat, j: nat, k: nat) {
    && i < j < k < |steps| && steps[i].Consume? && steps[j].Look? && steps[k].Query?
    && (forall m :: i < m < j ==> !steps[m].Drop? && !steps[m].Look?)
    && (forall m :: j < m < k ==> !steps[m].Drop? && !steps[m].Query?)
  }

  ghost predicate CaptureBetween(steps: seq<Step>, i: nat, j: nat) {
    exists m :: i < m < j && m < |steps| && steps[m].Capture?
  }

  /** While its transaction is open or its page unread, nothing else changes a client; while the
      transaction is open, only captures change the server. */
  lemma Steady(s: State, step: Step, visible: (Access, File) -> bool)
    requires Enabled(s, step) && !step.Drop?
    ensures s.client.request.Consuming? && !step.Look? ==>
              && Apply(s, step, visible).client == s.client
              && Apply(s, step, visible).server == if step.Capture? then Captured(s.server, step.file, step.head) else s.server
    ensures s.client.request.Ready? && !step.Query? ==> Apply(s, step, visible).client == s.client
  {
    hide Revised, PageOf, Lists, Takes;
  }

  /** From the delete to the look: the client waits, the revision stands, and an empty outbox
      stays empty exactly as long as nothing is captured. */
  lemma {:induction false} Waits(trace: seq<State>, steps: seq<Step>, visible: (Access, File) -> bool, i: nat, m: nat)
    requires Run(trace, steps, visible) && i < m <= |steps| && steps[i].Consume?
    requires forall n :: i < n < m ==> !steps[n].Drop? && !steps[n].Look?
    ensures var c := trace[i].client;
            && Enabled(trace[i], steps[i]) && c.request.Asked?
            && trace[m].client == c.(request := Consuming(c.request.access, c.request.from, steps[i].ids, steps[i].consumed))
    ensures trace[m].server.revision == trace[i].server.revision
    ensures trace[i].server.outbox == multiset{} ==> (trace[m].server.outbox == multiset{} <==> !CaptureBetween(steps, i, m))
    decreases m
  {
    if m == i + 1 {
      RunStep(trace, steps, visible, i);
    } else {
      RunStep(trace, steps, visible, m - 1);
      hide Run, Enabled, Apply;
      Waits(trace, steps, visible, i, m - 1);
      Steady(trace[m - 1], steps[m - 1], visible);
      BetweenSnoc(steps, i, m - 1);
    }
  }

  lemma BetweenSnoc(steps: seq<Step>, i: nat, m: nat)
    requires i < m < |steps|
    ensures CaptureBetween(steps, i, m + 1) <==> CaptureBetween(steps, i, m) || steps[m].Capture?
  {
    if CaptureBetween(steps, i, m) {
      var n :| i < n < m && n < |steps| && steps[n].Capture?;
      assert n < m + 1;
    }
    if CaptureBetween(steps, i, m + 1) {
      var n :| i < n < m + 1 && n < |steps| && steps[n].Capture?;
      assert n == m || n < m;
    }
  }

  /** From the look to the page: the client waits. */
  lemma {:induction false} WaitsForPage(trace: seq<State>, steps: seq<Step>, visible: (Access, File) -> bool, j: nat, m: nat)
    requires Run(trace, steps, visible) && j < m <= |steps| && trace[j + 1].client.request.Ready?
    requires forall n :: j < n < m ==> !steps[n].Drop? && !steps[n].Query?
    ensures trace[m].client == trace[j + 1].client
    decreases m
  {
    hide Run, Enabled, Apply;
    if m > j + 1 {
      RunStep(trace, steps, visible, m - 1);
      WaitsForPage(trace, steps, visible, j, m - 1);
      Steady(trace[m - 1], steps[m - 1], visible);
    }
  }

  /** The client refuses a page that announces more and does not move its cursor. */
  ghost predicate Stalls(c: Client) {
    c.request.Answered? && c.request.page.more && c.cursor == Some(c.request.page.cursor)
  }

  lemma PageStalls(c: Client, q: Server, rows: seq<Entry>, limit: nat, r: Request, visible: (Access, File) -> bool)
    requires r.Ready? && r.from <= r.upto && limit >= 1 && Lists(q, r.from, r.upto, limit + 1, rows) && GoesOn(c, r.access, r.from)
    ensures var page := PageOf(rows, limit, r.access, r.upto, r.more, Sees(visible, r.access));
            page.more && c.cursor == Some(page.cursor) <==> c.cursor.Some? && r.upto == r.from && r.more
  {
    hide Lists, PageOf;
    PageMoves(q, rows, limit, r, visible);
  }

  /** What a request brings from its delete to its page query. */
  lemma ReadyWith(trace: seq<State>, steps: seq<Step>, visible: (Access, File) -> bool, i: nat, j: nat, k: nat)
    requires Run(trace, steps, visible) && OneRequest(steps, i, j, k)
    ensures var c, r := trace[i].client, trace[k].client.request;
            && trace[k].client.cursor == c.cursor && r.Ready? && GoesOn(c, r.access, r.from)
            && r.from <= trace[i].server.revision && r.upto == trace[i].server.revision + |steps[i].ids|
            && Takes(trace[i].server, steps[i].ids, steps[i].consumed)
            && (steps[i].consumed == multiset{} ==> (r.more <==> CaptureBetween(steps, i, j)))
  {
    RunStep(trace, steps, visible, j);
    RunInv(trace, steps, visible, i);
    RunInv(trace, steps, visible, j);
    Waits(trace, steps, visible, i, j);
    LookKeeps(trace[j], visible);
    hide Run, Apply, CaptureBetween, Takes, PendingKept, Recorded, Follows;
    CursorBehind(trace[i].server, trace[i].client, visible);
    WaitsForPage(trace, steps, visible, j, k);
  }

  /** In every run, a refresh gives up with "did not advance" exactly when its delete found no
      event, its cursor was then at the server's revision, and something was captured between
      that delete and the second look at the outbox. */
  lemma RefreshStalls(trace: seq<State>, steps: seq<Step>, visible: (Access, File) -> bool, i: nat, j: nat, k: nat)
    requires Run(trace, steps, visible) && OneRequest(steps, i, j, k)
    ensures Stalls(trace[k + 1].client) <==>
              && trace[i].server.outbox == multiset{}
              && trace[i].client.cursor.Some? && trace[i].client.cursor.value.revision == trace[i].server.revision
              && CaptureBetween(steps, i, j)
  {
    RunStep(trace, steps, visible, k);
    hide Run, Lists, CaptureBetween, PageOf, Takes;
    ReadyWith(trace, steps, visible, i, j, k);
    PageStalls(trace[i].client, trace[k].server, steps[k].rows, steps[k].limit, trace[k].client.request, visible);
    NumbersConsumed(trace[i].server, steps[i].ids, steps[i].consumed);
  }

  /** No event was numbered exactly when none was consumed. */
  lemma NumbersConsumed(s: Server, ids: seq<File>, consumed: multiset<File>)
    requires Takes(s, ids, consumed)
    ensures ids == [] <==> consumed == multiset{}
  {
    if ids != [] {
      assert ids[0] in ids && ids[0] in consumed;
    }
  }

  lemma RunMore(trace: seq<State>, steps: seq<Step>, visible: (Access, File) -> bool, step: Step)
    returns (longer: seq<State>, more: seq<Step>)
    requires Run(trace, steps, visible) && Enabled(trace[|steps|], step)
    ensures longer == trace + [Apply(trace[|steps|], step, visible)] && more == steps + [step] && Run(longer, more, visible)
  {
    longer, more := trace + [Apply(trace[|steps|], step, visible)], steps + [step];
  }

  /** A first refresh of an empty catalog: it leaves the client at revision zero. */
  lemma FirstRefresh(visible: (Access, File) -> bool) returns (trace: seq<State>, steps: seq<Step>)
    ensures Run(trace, steps, visible) && steps == [Ask, Consume([], multiset{}), Look, Query([], 500), Deliver]
    ensures trace[5] == EMPTY.(client := EMPTY.client.(cursor := Some(Cursor(0, 0))))
  {
    hide Run;
    trace, steps := [EMPTY], [];
    assert Run(trace, steps, visible) by { RunNothing(visible); }
    trace, steps := RunMore(trace, steps, visible, Ask);
    trace, steps := RunMore(trace, steps, visible, Consume([], multiset{}));
    trace, steps := RunMore(trace, steps, visible, Look);
    trace, steps := RunMore(trace, steps, visible, Query([], 500));
    trace, steps := RunMore(trace, steps, visible, Deliver);
  }

  lemma RunNothing(visible: (Access, File) -> bool)
    ensures Run([EMPTY], [], visible)
  {
  }

  /** The next request deletes nothing, and then a file is captured. */
  lemma LateCapture(visible: (Access, File) -> bool) returns (trace: seq<State>, steps: seq<Step>)
    ensures Run(trace, steps, visible) && |steps| == 8 && steps[6] == Consume([], multiset{}) && steps[7] == Capture(0, 0)
    ensures trace[8].client == EMPTY.client.(cursor := Some(Cursor(0, 0)), request := Consuming(0, 0, [], multiset{}))
    ensures trace[8].server == Server(map[0 := 0], multiset{0}, map[], 0, 1)
  {
    hide Run, Lists, PageOf, Revised;
    trace, steps := FirstRefresh(visible);
    trace, steps := RunMore(trace, steps, visible, Ask);
    trace, steps := RunMore(trace, steps, visible, Consume([], multiset{}));
    trace, steps := RunMore(trace, steps, visible, Capture(0, 0));
  }

  /** It does happen: the client is up to date, its request deletes nothing, a file is captured,
      and the second look finds that event. */
  lemma StallHappens(visible: (Access, File) -> bool) returns (trace: seq<State>, steps: seq<Step>)
    ensures Run(trace, steps, visible) && |steps| == 10 && OneRequest(steps, 6, 8, 9) && steps[7] == Capture(0, 0)
    ensures Stalls(trace[10].client) && trace[10].server.outbox == multiset{0}
  {
    hide Run;
    trace, steps := LateCapture(visible);
    trace, steps := RunMore(trace, steps, visible, Look);
    trace, steps := RunMore(trace, steps, visible, Query([], 500));
  }

  // ----- what steps achieve -----

  /** In every run, saving a page moves the cursor to the page's own and caches exactly its heads;
      the paths it names are pending. */
  lemma PageMovesCursor(trace: seq<State>, steps: seq<Step>, visible: (Access, File) -> bool, n: nat)
    requires Run(trace, steps, visible) && n < |steps| && steps[n].Deliver?
    ensures var before, after := trace[n].client, trace[n + 1].client;
            && before.request.Answered? && after.cursor == Some(before.request.page.cursor)
            && (forall f :: f in after.cache <==> f in before.cache || f in before.request.page.files)
            && (forall f :: f in before.request.page.files ==> after.cache[f] == before.request.page.files[f] && f in after.pending)
            && (forall f :: f in before.cache && f !in before.request.page.files ==> after.cache[f] == before.cache[f])
            && trace[n + 1].server == trace[n].server
  {
    RunStep(trace, steps, visible, n);
  }

  /** In every run, a captured head is in the catalog, and due at every cursor. */
  lemma CaptureIsDue(trace: seq<State>, steps: seq<Step>, visible: (Access, File) -> bool, n: nat, revision: nat)
    requires Run(trace, steps, visible) && n < |steps| && steps[n].Capture?
    ensures var s, t, f := trace[n].server, trace[n + 1].server, steps[n].file;
            && f in t.heads && t.heads[f] == steps[n].head && Due(t, f, revision)
            && (forall g :: g != f ==> (g in t.heads <==> g in s.heads) && (g in s.heads ==> t.heads[g] == s.heads[g]))
  {
    RunStep(trace, steps, visible, n);
  }

  /** In every run, a lost reply costs nothing: the client is as before and may ask again. */
  lemma LostReplyIsRetried(trace: seq<State>, steps: seq<Step>, visible: (Access, File) -> bool, n: nat)
    requires Run(trace, steps, visible) && n < |steps| && steps[n].Drop?
    ensures var s, t := trace[n], trace[n + 1];
            && Enabled(t, Ask) && t.server == s.server && t.client.cursor == s.client.cursor
            && t.client.cache == s.client.cache && t.client.pending == s.client.pending
  {
    RunStep(trace, steps, visible, n);
  }

  /** Some run ends in `s`. */
  ghost predicate Reachable(s: State, visible: (Access, File) -> bool) {
    exists trace, steps :: Run(trace, steps, visible) && trace[|steps|] == s
  }

  lemma Next(s: State, step: Step, visible: (Access, File) -> bool) returns (t: State)
    requires Reachable(s, visible) && Enabled(s, step)
    ensures t == Apply(s, step, visible) && Reachable(t, visible)
  {
    var trace, steps :| Run(trace, steps, visible) && trace[|steps|] == s;
    hide Enabled, Apply, Run;
    t := Apply(s, step, visible);
    assert |trace| == |steps| + 1 by { RunLength(trace, steps, visible); }
    var longer, more := RunMore(trace, steps, visible, step);
    assert longer[|more|] == t;
  }

  lemma RunLength(trace: seq<State>, steps: seq<Step>, visible: (Access, File) -> bool)
    requires Run(trace, steps, visible)
    ensures |trace| == |steps| + 1
  {
  }

  lemma EmptyReachable(visible: (Access, File) -> bool)
    ensures Reachable(EMPTY, visible)
  {
    RunNothing(visible);
    var trace: seq<State>, steps: seq<Step> := [EMPTY], [];
    assert Run(trace, steps, visible) && trace[|steps|] == EMPTY;
  }

  const TWO := Server(map[1 := 7, 2 := 8], multiset{1, 2}, map[], 0, 2)
  const NUMBERED := Server(map[1 := 7, 2 := 8], multiset{}, map[1 := 1, 2 := 2], 2, 2)

  lemma TwoCaptured(visible: (Access, File) -> bool) returns (s: State)
    ensures Reachable(s, visible) && s == State(TWO, 0, EMPTY.client)
  {
    hide Reachable, Lists, PageOf, Revised, Takes;
    EmptyReachable(visible);
    s := EMPTY;
    s := Next(s, Capture(1, 7), visible);
    s := Next(s, Capture(2, 8), visible);
    assert s.server.outbox == multiset{1, 2} && s.server.heads == map[1 := 7, 2 := 8];
  }

  /** Two captures are numbered. */
  lemma TwoNumbered(visible: (Access, File) -> bool) returns (s: State)
    ensures Reachable(s, visible) && s == State(NUMBERED, 0, EMPTY.client.(request := Ready(0, 0, 2, false, 2)))
  {
    hide Reachable, Lists, PageOf;
    s := TwoCaptured(visible);
    s := Next(s, Ask, visible);
    assert |multiset{1, 2}| == 2;
    s := Next(s, Consume([1, 2], multiset{1, 2}), visible);
    assert [1, 2][..1] == [1] && [1][..0] == [];
    assert Revised(map[], 0, [1]) == map[1 := 1];
    assert Revised(map[], 0, [1, 2]) == map[1 := 1, 2 := 2];
    hide Revised, Takes;
    s := Next(s, Look, visible);
    assert s.server.outbox == multiset{};
  }

  lemma TwoListed()
    ensures Lists(NUMBERED, 0, 2, 2, [Entry(1, 1, 7), Entry(2, 2, 8)])
    ensures Lists(NUMBERED, 1, 2, 2, [Entry(2, 2, 8)])
  {
    var rows, rest := [Entry(1, 1, 7), Entry(2, 2, 8)], [Entry(2, 2, 8)];
    assert rows[0].file == 1 && rows[1].file == 2 && rest[0].file == 2;
  }

  lemma TwoShown(visible: (Access, File) -> bool)
    requires visible(0, 1) && visible(0, 2)
    ensures PageOf([Entry(1, 1, 7), Entry(2, 2, 8)], 1, 0, 2, false, Sees(visible, 0)) == Page(map[1 := 7], Cursor(0, 1), true)
    ensures PageOf([Entry(2, 2, 8)], 1, 0, 2, false, Sees(visible, 0)) == Page(map[2 := 8], Cursor(0, 2), false)
  {
    var rows, look := [Entry(1, 1, 7), Entry(2, 2, 8)], Sees(visible, 0);
    assert rows[..1] == [Entry(1, 1, 7)] && [Entry(1, 1, 7)][..0] == [] && [Entry(2, 2, 8)][..0] == [];
    assert Shown([], look) == map[];
    assert Shown([Entry(1, 1, 7)], look) == map[1 := 7];
    assert Shown([Entry(2, 2, 8)], look) == map[2 := 8];
  }

  const HALFWAY := State(NUMBERED, 0, Client(map[1 := 7], Some(Cursor(0, 1)), {1}, map[], Idle))

  lemma FirstPage(visible: (Access, File) -> bool)
    requires visible(0, 1) && visible(0, 2)
    ensures Reachable(HALFWAY, visible)
  {
    TwoListed();
    TwoShown(visible);
    hide Reachable, Lists, PageOf, Takes, Revised;
    var s := TwoNumbered(visible);
    s := Next(s, Query([Entry(1, 1, 7), Entry(2, 2, 8)], 1), visible);
    s := Next(s, Deliver, visible);
    assert s.client == HALFWAY.client;
  }

  const READY := HALFWAY.(client := HALFWAY.client.(request := Ready(0, 1, 2, false, 2)))

  lemma SecondRequest(visible: (Access, File) -> bool)
    requires visible(0, 1) && visible(0, 2)
    ensures Reachable(READY, visible)
  {
    hide Reachable, Lists, PageOf;
    FirstPage(visible);
    var s := Next(HALFWAY, Ask, visible);
    s := Next(s, Consume([], multiset{}), visible);
    s := Next(s, Look, visible);
    assert s.server == NUMBERED;
    assert s == READY;
  }

  /** They are read in two pages of one row. */
  lemma TwoPages(visible: (Access, File) -> bool) returns (s: State)
    requires visible(0, 1) && visible(0, 2)
    ensures Reachable(s, visible)
    ensures s == State(NUMBERED, 0, Client(map[1 := 7, 2 := 8], Some(Cursor(0, 2)), {1, 2}, map[], Idle))
  {
    TwoListed();
    TwoShown(visible);
    hide Reachable, Lists, PageOf, Takes, Revised;
    SecondRequest(visible);
    s := Next(READY, Query([Entry(2, 2, 8)], 1), visible);
    s := Next(s, Deliver, visible);
    assert s.client.cache == map[1 := 7, 2 := 8] && s.client.pending == {1, 2};
  }

  /** When access changes, the next request is refused and the cache starts over. */
  lemma AccessResets(visible: (Access, File) -> bool) returns (s: State)
    requires visible(0, 1) && visible(0, 2)
    ensures Reachable(s, visible) && s == State(NUMBERED, 1, EMPTY.client)
  {
    hide Reachable, Lists, PageOf, Takes, Revised;
    s := TwoPages(visible);
    s := Next(s, SavePolicy, visible);
    assert s.client.pending == {} && s.client.synced == map[1 := 7, 2 := 8];
    s := Next(s, SetAccess(1), visible);
    s := Next(s, Ask, visible);
    assert s.client.request == Refused;
    s := Next(s, Reset, visible);
  }
}
