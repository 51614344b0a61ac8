/**
 * Listing sessions page by page (internal/db/sessions.go): newest first, and each page continues
 * below the last row of the page before.
 */
module Pagination {
  import opened Common
  import opened Ordering

  const DEFAULT_SESSION_LIMIT: nat := 200
  const MAX_SESSION_LIMIT: nat := 500

  datatype Session = Session(id: string, endedAt: Option<string>, startedAt: Option<string>, createdAt: string, rest: string)

  /** Rows by primary key. */
  type Table = map<string, Session>

  ghost predicate KeyedByID(t: Table) {
    forall id | id in t :: t[id].id == id
  }

  // -------------------------------------------------------------------- the key

  function NullIfEmpty(s: Option<string>): Option<string> {
    if s == Some("") then None else s
  }

  function Coalesce(a: Option<string>, b: Option<string>): Option<string> {
    if a.Some? then a else b
  }

  /** The sort key of the query: COALESCE(NULLIF(ended_at, ''), NULLIF(started_at, ''), created_at). */
  function ActivityKey(s: Session): string {
    Coalesce(Coalesce(NullIfEmpty(s.endedAt), NullIfEmpty(s.startedAt)), Some(s.createdAt)).value
  }

  /** The key the program puts in a cursor, overwritten step by step. */
  method CursorKey(s: Session) returns (ea: string)
    ensures ea == ActivityKey(s)
  {
    ea := s.createdAt;
    if s.startedAt.Some? && s.startedAt.value != "" {
      ea := s.startedAt.value;
    }
    if s.endedAt.Some? && s.endedAt.value != "" {
      ea := s.endedAt.value;
    }
  }

  /** A session was last active when it ended, else when it started, else when it was stored; empty times are no times. */
  lemma LastActivityIs(s: Session)
    ensures s.endedAt.Some? && s.endedAt.value != "" ==> ActivityKey(s) == s.endedAt.value
    ensures s.endedAt in {None, Some("")} && s.startedAt.Some? && s.startedAt.value != "" ==> ActivityKey(s) == s.startedAt.value
    ensures s.endedAt in {None, Some("")} && s.startedAt in {None, Some("")} ==> ActivityKey(s) == s.createdAt
  {
  }

  // ------------------------------------------------------------------- positions

  datatype Pos = Pos(key: string, id: string)

  function PosOf(s: Session): Pos {
    Pos(ActivityKey(s), s.id)
  }

  predicate PosLE(a: Pos, b: Pos) {
    if a.key != b.key then StringLE(a.key, b.key) else StringLE(a.id, b.id)
  }

  /** The row value comparison (a.key, a.id) < (b.key, b.id). */
  predicate Below(a: Pos, b: Pos) {
    a != b && PosLE(a, b)
  }

  lemma PosTotal(a: Pos, b: Pos)
    ensures PosLE(a, b) || PosLE(b, a)
  {
    StringIsTotal(a.key, b.key);
    StringIsTotal(a.id, b.id);
  }

  lemma PosAntisymmetric(a: Pos, b: Pos)
    requires PosLE(a, b) && PosLE(b, a)
    ensures a == b
  {
    if a.key != b.key {
      StringIsAntisymmetric(a.key, b.key);
    } else {
      StringIsAntisymmetric(a.id, b.id);
    }
  }

  lemma PosTransitive(a: Pos, b: Pos, c: Pos)
    requires PosLE(a, b) && PosLE(b, c)
    ensures PosLE(a, c)
  {
    if a.key == b.key == c.key {
      StringIsTransitive(a.id, b.id, c.id);
    } else if a.key == b.key || b.key == c.key {
    } else if a.key == c.key {
      StringIsAntisymmetric(a.key, b.key);
    } else {
      StringIsTransitive(a.key, b.key, c.key);
    }
  }

  lemma BelowTransitive(a: Pos, b: Pos, c: Pos)
    requires PosLE(a, b) && PosLE(b, c) && (Below(a, b) || Below(b, c))
    ensures Below(a, c)
  {
    PosTransitive(a, b, c);
    if a == c {
      PosAntisymmetric(a, b);
    }
  }

  lemma BelowMeansNotAbove(a: Pos, b: Pos)
    requires Below(a, b)
    ensures !PosLE(b, a)
  {
    if PosLE(b, a) {
      PosAntisymmetric(a, b);
    }
  }

  predicate NewerFirst(a: Session, b: Session) {
    PosLE(PosOf(b), PosOf(a))
  }

  lemma NewerFirstOrder()
    ensures TotalOrder(NewerFirst)
  {
    forall a, b
      ensures NewerFirst(a, b) || NewerFirst(b, a)
    {
      PosTotal(PosOf(a), PosOf(b));
    }
    forall a, b, c | NewerFirst(a, b) && NewerFirst(b, c)
      ensures NewerFirst(a, c)
    {
      PosTransitive(PosOf(c), PosOf(b), PosOf(a));
    }
  }

  // --------------------------------------------------------------------- a page

  datatype Cursor = Cursor(pos: Pos, total: int)

  datatype Page = Page(sessions: seq<Session>, next: Option<Cursor>, total: int)

  /** The rows that match the filter and come after the cursor. */
  function Remaining(t: Table, matching: set<string>, cursor: Option<Cursor>): set<string> {
    set id | id in matching && id in t && (cursor.None? || Below(PosOf(t[id]), cursor.value.pos))
  }

  ghost predicate Descends(rows: seq<Session>) {
    forall i, j | 0 <= i < j < |rows| :: Below(PosOf(rows[j]), PosOf(rows[i]))
  }

  /** Exactly these rows, in descending order of (activity, id). */
  ghost predicate Ranks(rows: seq<Session>, t: Table, ids: set<string>) {
    && Descends(rows)
    && (forall s | s in rows :: s.id in ids && s.id in t && t[s.id] == s)
    && (forall id | id in ids :: id in t && t[id] in rows)
  }

  /** Pages have 200 rows unless a number up to 500 is asked for. */
  function Clamped(limit: int): (n: nat)
    ensures 0 < limit <= 500 ==> n == limit
    ensures limit <= 0 || limit > 500 ==> n == 200
  {
    if limit <= 0 || limit > MAX_SESSION_LIMIT then DEFAULT_SESSION_LIMIT else limit
  }

  method Query(t: Table, ids: set<string>) returns (rows: seq<Session>)
    requires KeyedByID(t) && ids <= t.Keys
    ensures Ranks(rows, t, ids)
  {
    var unsorted: seq<Session> := [];
    var todo := ids;
    while todo != {}
      invariant todo <= ids && NoDuplicates(unsorted)
      invariant forall s :: s in unsorted <==> s.id in ids - todo && t[s.id] == s
    {
      var id :| id in todo;
      assert t[id] !in unsorted;
      unsorted := unsorted + [t[id]];
      todo := todo - {id};
    }
    rows := Sort(unsorted, NewerFirst);
    NewerFirstOrder();
    SortSorts(unsorted, NewerFirst);
    PermutationIsDistinct(unsorted, rows);
    forall i, j | 0 <= i < j < |rows|
      ensures Below(PosOf(rows[j]), PosOf(rows[i]))
    {
      assert rows[i] in rows && rows[j] in rows;
      assert NewerFirst(rows[i], rows[j]);
    }
    forall id | id in ids
      ensures t[id] in rows
    {
      assert t[id] in unsorted;
    }
  }

  /** What a page holds: the first rows of what remains, and a cursor exactly when more remains. */
  ghost predicate IsPage(page: Page, t: Table, matching: set<string>, cursor: Option<Cursor>, limit: int) {
    && Descends(page.sessions) && |page.sessions| <= Clamped(limit)
    && (forall s | s in page.sessions :: s.id in Remaining(t, matching, cursor) && t[s.id] == s)
    && (page.next.None? ==> forall id | id in Remaining(t, matching, cursor) :: t[id] in page.sessions)
    && (page.next.Some? ==>
          && page.sessions != [] && page.next.value.pos == PosOf(page.sessions[|page.sessions| - 1])
          && |page.sessions| == Clamped(limit)
          && page.next.value.total == page.total
          && (forall id | id in Remaining(t, matching, cursor) ::
                t[id] in page.sessions || Below(PosOf(t[id]), page.next.value.pos))
          && exists id :: id in Remaining(t, matching, cursor) && t[id] !in page.sessions)
    && page.total == if cursor.Some? && cursor.value.total > 0 then cursor.value.total else |Remaining(t, matching, None)|
  }

  method ListSessions(t: Table, matching: set<string>, cursor: Option<Cursor>, limit: int) returns (page: Page)
    requires KeyedByID(t)
    ensures IsPage(page, t, matching, cursor, limit)
  {
    var n := Clamped(limit);
    var total := 0;
    if cursor.Some? {
      total := cursor.value.total;
    }
    if total <= 0 {
      total := |Remaining(t, matching, None)|;
    }
    var rows := Query(t, Remaining(t, matching, cursor));
    var sessions := if |rows| > n + 1 then rows[..n + 1] else rows;
    page := Page(sessions, None, total);
    if |sessions| > n {
      var last := sessions[n - 1];
      var ea := CursorKey(last);
      CutAt(rows, t, Remaining(t, matching, cursor), n);
      assert sessions[..n] == rows[..n];
      page := Page(rows[..n], Some(Cursor(Pos(ea, last.id), total)), total);
    }
  }

  /** Cutting the ranking leaves everything else below the last row kept. */
  lemma CutAt(rows: seq<Session>, t: Table, ids: set<string>, n: nat)
    requires Ranks(rows, t, ids) && 0 < n < |rows|
    ensures Descends(rows[..n]) && forall s | s in rows[..n] :: s.id in ids && t[s.id] == s
    ensures forall id | id in ids :: t[id] in rows[..n] || Below(PosOf(t[id]), PosOf(rows[n - 1]))
    ensures exists id :: id in ids && t[id] !in rows[..n]
  {
    forall id | id in ids
      ensures t[id] in rows[..n] || Below(PosOf(t[id]), PosOf(rows[n - 1]))
    {
      var i :| 0 <= i < |rows| && rows[i] == t[id];
      if i < n {
        assert rows[..n][i] == t[id];
      }
    }
    assert rows[n] in rows;
    assert rows[n].id in ids && t[rows[n].id] == rows[n];
    forall i | 0 <= i < n
      ensures rows[..n][i] != rows[n]
    {
      assert Below(PosOf(rows[n]), PosOf(rows[i]));
    }
  }

  // --------------------------------------------------- following the cursors, nothing moving

  /** Following the cursors to the end over an unchanging table gives every match once, newest first. */
  method ListAll(t: Table, matching: set<string>, limit: int) returns (all: seq<Session>)
    requires KeyedByID(t)
    ensures Ranks(all, t, Remaining(t, matching, None))
  {
    all := [];
    var cursor: Option<Cursor> := None;
    while true
      invariant Ranks(all, t, Remaining(t, matching, None) - Remaining(t, matching, cursor))
      invariant cursor.Some? ==> forall s | s in all :: PosLE(cursor.value.pos, PosOf(s))
      invariant cursor.None? ==> all == []
      decreases |Remaining(t, matching, cursor)|
    {
      ghost var before := all;
      var page := ListSessions(t, matching, cursor, limit);
      PageContinues(all, page, t, matching, cursor, limit);
      all := all + page.sessions;
      if page.next.None? {
        assert Remaining(t, matching, None) - {} == Remaining(t, matching, None);
        return;
      }
      CursorMoves(page, t, matching, cursor, limit);
      cursor := page.next;
    }
  }

  lemma PageContinues(all: seq<Session>, page: Page, t: Table, matching: set<string>, cursor: Option<Cursor>, limit: int)
    requires KeyedByID(t) && IsPage(page, t, matching, cursor, limit)
    requires Ranks(all, t, Remaining(t, matching, None) - Remaining(t, matching, cursor))
    requires cursor.Some? ==> forall s | s in all :: PosLE(cursor.value.pos, PosOf(s))
    requires cursor.None? ==> all == []
    ensures page.next.None? ==> Ranks(all + page.sessions, t, Remaining(t, matching, None))
    ensures page.next.Some? ==>
      Ranks(all + page.sessions, t, Remaining(t, matching, None) - Remaining(t, matching, page.next))
    ensures page.next.Some? ==> forall s | s in all + page.sessions :: PosLE(page.next.value.pos, PosOf(s))
  {
    var rows := all + page.sessions;
    JoinDescends(all, page.sessions, cursor);
    forall s | s in rows
      ensures s.id in Remaining(t, matching, None) && t[s.id] == s
    {
    }
    forall id | id in Remaining(t, matching, None)
      ensures t[id] in rows || (page.next.Some? && id in Remaining(t, matching, page.next))
    {
      if id !in Remaining(t, matching, cursor) {
        assert t[id] in all;
      }
    }
    if page.next.Some? {
      LastIsLeast(all, page.sessions, cursor);
      var pos := page.next.value.pos;
      forall s | s in rows
        ensures s.id !in Remaining(t, matching, page.next)
      {
        if s.id in Remaining(t, matching, page.next) {
          BelowMeansNotAbove(PosOf(s), pos);
        }
      }
    }
  }

  lemma JoinDescends(all: seq<Session>, rows: seq<Session>, cursor: Option<Cursor>)
    requires Descends(all) && Descends(rows)
    requires cursor.None? ==> all == []
    requires cursor.Some? ==> forall s | s in all :: PosLE(cursor.value.pos, PosOf(s))
    requires cursor.Some? ==> forall s | s in rows :: Below(PosOf(s), cursor.value.pos)
    ensures Descends(all + rows)
  {
    var both := all + rows;
    forall i, j | 0 <= i < j < |both|
      ensures Below(PosOf(both[j]), PosOf(both[i]))
    {
      if i < |all| <= j {
        assert both[i] in all && both[j] in rows;
        BelowTransitive(PosOf(both[j]), cursor.value.pos, PosOf(both[i]));
      }
    }
  }

  lemma LastIsLeast(all: seq<Session>, rows: seq<Session>, cursor: Option<Cursor>)
    requires Descends(all + rows) && rows != []
    ensures forall s | s in all + rows :: PosLE(PosOf(rows[|rows| - 1]), PosOf(s))
  {
    var both := all + rows;
    PosTotal(PosOf(rows[|rows| - 1]), PosOf(rows[|rows| - 1]));
    forall s | s in both
      ensures PosLE(PosOf(rows[|rows| - 1]), PosOf(s))
    {
      var i :| 0 <= i < |both| && both[i] == s;
      assert both[|both| - 1] == rows[|rows| - 1];
    }
  }

  lemma CursorMoves(page: Page, t: Table, matching: set<string>, cursor: Option<Cursor>, limit: int)
    requires IsPage(page, t, matching, cursor, limit) && page.next.Some?
    ensures |Remaining(t, matching, page.next)| < |Remaining(t, matching, cursor)|
  {
    var last := page.sessions[|page.sessions| - 1];
    assert last in page.sessions;
    var now, was := Remaining(t, matching, page.next), Remaining(t, matching, cursor);
    forall id | id in now
      ensures id in was
    {
      if cursor.Some? {
        BelowTransitive(PosOf(t[id]), PosOf(last), cursor.value.pos);
      }
    }
    assert last.id in was && last.id !in now;
    SmallerSet(now, was, last.id);
  }

  lemma SmallerSet(a: set<string>, b: set<string>, x: string)
    requires a <= b && x in b && x !in a
    ensures |a| < |b|
  {
    assert b == (b - a) + a && x in b - a;
  }

  // -------------------------------------------- following the cursors while sessions change

  /** One page request: the tables and the matching ids as they were at that moment. */
  datatype Request = Request(t: Table, matching: set<string>, limit: int, page: Page)

  ghost function CursorAt(run: seq<Request>, k: nat): Option<Cursor>
    requires k <= |run|
  {
    if k == 0 then None else run[k - 1].page.next
  }

  /** The k-th request gets the cursor that the one before passed on; only the last one gets none back. */
  ghost predicate Answered(run: seq<Request>, k: nat)
    requires k < |run|
  {
    && KeyedByID(run[k].t)
    && IsPage(run[k].page, run[k].t, run[k].matching, CursorAt(run, k), run[k].limit)
    && (run[k].page.next.None? <==> k == |run| - 1)
  }

  ghost predicate PageRun(run: seq<Request>) {
    run != [] && forall k {:trigger Answered(run, k)} | 0 <= k < |run| :: Answered(run, k)
  }

  /** The session is there and matches at every request, and its place in the order never moves. */
  ghost predicate Unchanged(run: seq<Request>, s: Session) {
    forall k {:trigger run[k]} | 0 <= k < |run| :: s.id in run[k].matching && s.id in run[k].t && run[k].t[s.id] == s
  }

  /** What one request of a run does to the cursor. */
  lemma RequestStep(run: seq<Request>, k: nat)
    requires PageRun(run) && k < |run|
    ensures k > 0 ==> CursorAt(run, k).Some?
    ensures k + 1 < |run| ==> CursorAt(run, k + 1).Some?
    ensures forall x | x in run[k].page.sessions && k > 0 :: Below(PosOf(x), CursorAt(run, k).value.pos)
    ensures forall x | x in run[k].page.sessions && k + 1 < |run| :: PosLE(CursorAt(run, k + 1).value.pos, PosOf(x))
    ensures 0 < k && k + 1 < |run| ==> Below(CursorAt(run, k + 1).value.pos, CursorAt(run, k).value.pos)
  {
    var page := run[k].page;
    assert Answered(run, k);
    if k + 1 < |run| {
      assert [] + page.sessions == page.sessions;
      LastIsLeast([], page.sessions, None);
      assert page.sessions[|page.sessions| - 1] in page.sessions;
    }
    if k > 0 {
      assert Answered(run, k - 1);
    }
  }

  /** The cursors only ever go down. */
  lemma {:induction false} CursorsDescend(run: seq<Request>, j: nat, k: nat)
    requires PageRun(run) && 0 < j <= k < |run|
    ensures CursorAt(run, j).Some? && CursorAt(run, k).Some?
    ensures PosLE(CursorAt(run, k).value.pos, CursorAt(run, j).value.pos)
    decreases k
  {
    RequestStep(run, k - 1);
    if j < k {
      CursorsDescend(run, j, k - 1);
      PosTransitive(CursorAt(run, k).value.pos, CursorAt(run, k - 1).value.pos, CursorAt(run, j).value.pos);
    } else {
      PosTotal(CursorAt(run, k).value.pos, CursorAt(run, j).value.pos);
    }
  }

  /** Rows of later pages come strictly below rows of earlier ones, whatever happened in between. */
  lemma PagesDescend(run: seq<Request>, j: nat, k: nat, x: Session, y: Session)
    requires PageRun(run) && j < k < |run| && x in run[j].page.sessions && y in run[k].page.sessions
    ensures Below(PosOf(y), PosOf(x))
  {
    RequestStep(run, j);
    RequestStep(run, k);
    CursorsDescend(run, j + 1, k);
    PosTransitive(CursorAt(run, k).value.pos, CursorAt(run, j + 1).value.pos, PosOf(x));
    BelowTransitive(PosOf(y), CursorAt(run, k).value.pos, PosOf(x));
  }

  /** While it is not yet returned, an unchanged session stays below the cursor. */
  lemma {:induction false} ReturnedOrBelow(run: seq<Request>, s: Session, k: nat)
    requires PageRun(run) && Unchanged(run, s) && k <= |run|
    ensures (exists j | 0 <= j < k :: s in run[j].page.sessions)
      || (k < |run| && s.id in Remaining(run[k].t, run[k].matching, CursorAt(run, k)))
  {
    if k > 0 {
      ReturnedOrBelow(run, s, k - 1);
      var r := run[k - 1];
      assert Answered(run, k - 1);
      if s !in r.page.sessions && s.id in Remaining(r.t, r.matching, CursorAt(run, k - 1)) {
        assert r.t[s.id] == s;
        assert r.page.next.Some?;
        assert run[k].t[s.id] == s;
      }
    } else {
      assert run[0].t[s.id] == s;
    }
  }

  /** A session left alone is returned exactly once, even if others come, move and go between the pages. */
  lemma UnchangedIsReturnedOnce(run: seq<Request>, s: Session)
    requires PageRun(run) && Unchanged(run, s)
    ensures exists k, i | 0 <= k < |run| && 0 <= i < |run[k].page.sessions| :: run[k].page.sessions[i] == s
    ensures forall j, i, k, l
      | 0 <= j < |run| && 0 <= i < |run[j].page.sessions| && 0 <= k < |run| && 0 <= l < |run[k].page.sessions|
        && run[j].page.sessions[i] == s && run[k].page.sessions[l] == s :: j == k && i == l
  {
    ReturnedOrBelow(run, s, |run|);
    forall j, i, k, l
      | 0 <= j < |run| && 0 <= i < |run[j].page.sessions| && 0 <= k < |run| && 0 <= l < |run[k].page.sessions|
        && run[j].page.sessions[i] == s && run[k].page.sessions[l] == s
      ensures j == k && i == l
    {
      if j < k {
        PagesDescend(run, j, k, s, s);
      } else if k < j {
        PagesDescend(run, k, j, s, s);
      } else {
        assert Answered(run, j);
        assert i < l ==> Below(PosOf(s), PosOf(s));
      }
    }
  }

  /** The total shown on the first page is the one shown on all of them. */
  lemma {:induction false} TotalIsKept(run: seq<Request>, k: nat)
    requires PageRun(run) && k < |run|
    ensures run[k].page.total == |Remaining(run[0].t, run[0].matching, None)|
  {
    if k > 0 {
      TotalIsKept(run, k - 1);
      assert Answered(run, 0) && Answered(run, k - 1) && Answered(run, k);
      SomeRemained(run[0]);
    } else {
      assert Answered(run, 0);
    }
  }

  lemma SomeRemained(r: Request)
    requires IsPage(r.page, r.t, r.matching, None, r.limit) && r.page.next.Some?
    ensures |Remaining(r.t, r.matching, None)| > 0
  {
    var id :| id in Remaining(r.t, r.matching, None) && r.t[id] !in r.page.sessions;
  }

  /** x was active later than y, or at the same time and has the greater id. */
  predicate Newer(x: Session, y: Session) {
    if ActivityKey(x) == ActivityKey(y) then x.id != y.id && StringLE(y.id, x.id) else StringLE(ActivityKey(y), ActivityKey(x))
  }

  /**
   * A page in plain terms: matching rows, newest first; every other match that the cursor left is older than all of
   * them, and there is one exactly when the page passes a cursor on.
   */
  lemma PageIsNewest(page: Page, t: Table, matching: set<string>, limit: int)
    requires KeyedByID(t) && IsPage(page, t, matching, None, limit)
    ensures forall i, j | 0 <= i < j < |page.sessions| :: Newer(page.sessions[i], page.sessions[j])
    ensures forall s | s in page.sessions :: s.id in matching && s.id in t && t[s.id] == s
    ensures forall id, s | id in matching && id in t && t[id] !in page.sessions && s in page.sessions :: Newer(s, t[id])
    ensures page.next.Some? <==> exists id :: id in matching && id in t && t[id] !in page.sessions
    ensures page.total == |set id | id in matching && id in t|
    ensures page.next.Some? ==> |page.sessions| == if 0 < limit <= 500 then limit else 200
  {
    assert Remaining(t, matching, None) == set id | id in matching && id in t;
    forall id, s | id in matching && id in t && t[id] !in page.sessions && s in page.sessions
      ensures Newer(s, t[id])
    {
      assert id in Remaining(t, matching, None);
      var i :| 0 <= i < |page.sessions| && page.sessions[i] == s;
      var last := page.sessions[|page.sessions| - 1];
      PosTotal(PosOf(last), PosOf(last));
      BelowTransitive(PosOf(t[id]), PosOf(last), PosOf(s));
    }
    assert forall id :: id in matching && id in t <==> id in Remaining(t, matching, None);
  }

  /** The next page starts after the row the cursor names: what remains is exactly what is older. */
  lemma CursorLeavesOlder(t: Table, matching: set<string>, last: Session, total: int, id: string)
    requires KeyedByID(t) && id in t
    ensures id in Remaining(t, matching, Some(Cursor(PosOf(last), total))) <==> id in matching && Newer(last, t[id])
  {
  }
}
