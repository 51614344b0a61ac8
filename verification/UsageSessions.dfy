/** Per-session usage (internal/db/usage.go): the cost ranking and the session counts, against the daily view. */
module UsageSessions {
  import opened Ordering
  import opened Usage

  function SessionsOf(rows: seq<Row>): set<string> {
    set r | r in rows :: r.sessionID
  }

  /** The row that introduced the session. */
  ghost function First(rows: seq<Row>, sid: string): Row
    requires sid in SessionsOf(rows)
  {
    var n := |rows| - 1;
    assert rows == rows[..n] + [rows[n]];
    if sid in SessionsOf(rows[..n]) then First(rows[..n], sid) else rows[n]
  }

  function Tokens(b: Bucket): int {
    b.input + b.output + b.cacheCreation + b.cacheRead
  }

  datatype SessAccum = SessAccum(
    displayName: string, agent: string, project: string, startedAt: string, totalTokens: int, cost: real)

  /** Labels from the first row, tokens and cost from all of them. */
  ghost predicate IsAccum(a: SessAccum, rows: seq<Row>, pricing: Pricing, sid: string)
    requires sid in SessionsOf(rows)
  {
    var first, sum := First(rows, sid), Sum(rows, pricing, Sessions({sid}));
    a == SessAccum(first.displayName, first.agent, first.project, first.startedAt, Tokens(sum), sum.cost)
  }

  ghost predicate AccumOK(accum: map<string, SessAccum>, order: seq<string>, rows: seq<Row>, pricing: Pricing) {
    && accum.Keys == SessionsOf(rows)
    && NoDuplicates(order) && (forall s :: s in order <==> s in accum)
    && forall s | s in accum :: IsAccum(accum[s], rows, pricing, s)
  }

  function Charged(accum: map<string, SessAccum>, r: Row, b: Bucket): map<string, SessAccum> {
    var a := if r.sessionID in accum then accum[r.sessionID] else SessAccum(r.displayName, r.agent, r.project, r.startedAt, 0, 0.0);
    accum[r.sessionID := a.(totalTokens := a.totalTokens + Tokens(b), cost := a.cost + b.cost)]
  }

  function Ordered(accum: map<string, SessAccum>, order: seq<string>, sid: string): seq<string> {
    if sid in accum then order else order + [sid]
  }

  lemma FirstStep(rows: seq<Row>, r: Row, sid: string)
    requires sid in SessionsOf(rows + [r])
    ensures sid == r.sessionID || sid in SessionsOf(rows)
    ensures First(rows + [r], sid) == if sid in SessionsOf(rows) then First(rows, sid) else r
  {
    assert (rows + [r])[..|rows|] == rows;
  }

  lemma ChargeStep(accum: map<string, SessAccum>, order: seq<string>, rows: seq<Row>, r: Row, pricing: Pricing)
    requires AccumOK(accum, order, rows, pricing)
    ensures AccumOK(Charged(accum, r, Value(pricing, r)), Ordered(accum, order, r.sessionID), rows + [r], pricing)
  {
    var next := Charged(accum, r, Value(pricing, r));
    assert SessionsOf(rows + [r]) == SessionsOf(rows) + {r.sessionID};
    forall s | s in next
      ensures IsAccum(next[s], rows + [r], pricing, s)
    {
      ChargeOne(accum, rows, r, pricing, s);
    }
  }

  lemma ChargeOne(accum: map<string, SessAccum>, rows: seq<Row>, r: Row, pricing: Pricing, s: string)
    requires s in accum <==> s in SessionsOf(rows)
    requires s in accum ==> IsAccum(accum[s], rows, pricing, s)
    requires s in SessionsOf(rows + [r]) && s in Charged(accum, r, Value(pricing, r))
    ensures IsAccum(Charged(accum, r, Value(pricing, r))[s], rows + [r], pricing, s)
  {
    FirstStep(rows, r, s);
    SumSnoc(rows, r, pricing, Sessions({s}));
    if s !in accum {
      SumNone(rows, pricing, Sessions({s}));
    }
  }

  datatype TopEntry = TopEntry(
    sessionID: string, displayName: string, agent: string, project: string, startedAt: string, totalTokens: int, cost: real)

  /** Most expensive first, then by id. */
  predicate EntryLE(x: TopEntry, y: TopEntry) {
    if x.cost != y.cost then x.cost > y.cost else StringLE(x.sessionID, y.sessionID)
  }

  lemma EntryOrder()
    ensures TotalOrder(EntryLE)
  {
    StringOrder();
  }

  function EntryOf(sid: string, a: SessAccum): TopEntry {
    TopEntry(sid, a.displayName, a.agent, a.project, a.startedAt, a.totalTokens, a.cost)
  }

  /** One entry per session with a counted message, and it holds what that session used. */
  ghost predicate Covers(list: seq<TopEntry>, rows: seq<Row>, pricing: Pricing) {
    && (forall i, j | 0 <= i < j < |list| :: list[i].sessionID != list[j].sessionID)
    && (forall s | s in SessionsOf(rows) :: exists i | 0 <= i < |list| :: list[i].sessionID == s)
    && (forall e | e in list :: EntryOK(e, rows, pricing))
  }

  ghost predicate EntryOK(e: TopEntry, rows: seq<Row>, pricing: Pricing) {
    && e.sessionID in SessionsOf(rows)
    && IsAccum(SessAccum(e.displayName, e.agent, e.project, e.startedAt, e.totalTokens, e.cost), rows, pricing, e.sessionID)
  }

  method AccumulateSessions(rows: seq<Row>, pricing: Pricing, from: string, to: string)
    returns (accum: map<string, SessAccum>, order: seq<string>)
    ensures AccumOK(accum, order, Kept(rows, from, to), pricing)
  {
    accum, order := map[], [];
    var seen: set<(string, string)> := {};
    for i := 0 to |rows|
      invariant AccumOK(accum, order, Kept(rows[..i], from, to), pricing)
      invariant seen == DedupKeys(Kept(rows[..i], from, to))
    {
      var r := rows[i];
      KeptStep(rows, from, to, i);
      if !InRange(r, from, to) {
        continue;
      }
      if r.msgID != "" && r.reqID != "" {
        if (r.msgID, r.reqID) in seen {
          continue;
        }
        seen := seen + {(r.msgID, r.reqID)};
      }
      ChargeStep(accum, order, Kept(rows[..i], from, to), r, pricing);
      accum, order := Charged(accum, r, Value(pricing, r)), Ordered(accum, order, r.sessionID);
    }
    assert rows[..|rows|] == rows;
  }

  method RankSessions(rows: seq<Row>, pricing: Pricing, from: string, to: string) returns (list: seq<TopEntry>)
    ensures SortedBy(list, EntryLE) && Covers(list, Kept(rows, from, to), pricing)
  {
    var accum, order := AccumulateSessions(rows, pricing, from, to);
    var result: seq<TopEntry> := [];
    for i := 0 to |order|
      invariant |result| == i
      invariant forall k | 0 <= k < i :: result[k] == EntryOf(order[k], accum[order[k]])
    {
      assert order[i] in order;
      result := result + [EntryOf(order[i], accum[order[i]])];
    }
    AccumCovers(accum, order, result, Kept(rows, from, to), pricing);
    list := Sort(result, EntryLE);
    EntryOrder();
    SortSorts(result, EntryLE);
    CoversAnyOrder(result, list, Kept(rows, from, to), pricing);
  }

  lemma AccumCovers(accum: map<string, SessAccum>, order: seq<string>, list: seq<TopEntry>, rows: seq<Row>, pricing: Pricing)
    requires AccumOK(accum, order, rows, pricing) && |list| == |order|
    requires forall k | 0 <= k < |order| :: order[k] in accum && list[k] == EntryOf(order[k], accum[order[k]])
    ensures Covers(list, rows, pricing)
  {
    forall s | s in SessionsOf(rows)
      ensures exists i | 0 <= i < |list| :: list[i].sessionID == s
    {
      assert s in order;
      var i :| 0 <= i < |order| && order[i] == s;
      assert list[i].sessionID == s;
    }
  }

  lemma CoversAnyOrder(a: seq<TopEntry>, b: seq<TopEntry>, rows: seq<Row>, pricing: Pricing)
    requires Covers(a, rows, pricing) && multiset(a) == multiset(b)
    ensures Covers(b, rows, pricing)
  {
    assert NoDuplicates(a);
    PermutationIsDistinct(a, b);
    forall i, j | 0 <= i < j < |b|
      ensures b[i].sessionID != b[j].sessionID
    {
      assert b[i] in b && b[j] in b;
    }
    forall s | s in SessionsOf(rows)
      ensures exists i | 0 <= i < |b| :: b[i].sessionID == s
    {
      var k :| 0 <= k < |a| && a[k].sessionID == s;
      assert a[k] in a && a[k] in b;
    }
  }

  /** The default limit is 20, the largest 100. */
  function Limit(limit: int): nat {
    if limit <= 0 then 20 else if limit > 100 then 100 else limit
  }

  method GetTopSessionsByCost(rows: seq<Row>, pricing: Pricing, from: string, to: string, limit: int)
    returns (result: seq<TopEntry>, ghost all: seq<TopEntry>)
    ensures SortedBy(all, EntryLE) && Covers(all, Kept(rows, from, to), pricing)
    ensures result <= all && |result| <= Limit(limit) && (result == all || |result| == Limit(limit))
    ensures forall x, y | x in result && y in all && y !in result :: x.cost >= y.cost
  {
    result := RankSessions(rows, pricing, from, to);
    all := result;
    if |result| > Limit(limit) {
      result := result[..Limit(limit)];
    }
    forall x, y | x in result && y in all && y !in result
      ensures x.cost >= y.cost
    {
      var i :| 0 <= i < |result| && result[i] == x;
      var j :| 0 <= j < |all| && all[j] == y;
      assert j >= |result|;
      assert EntryLE(all[i], all[j]);
    }
  }

  // ------------------------------------------------------------------ they agree

  ghost function ListTotal(list: seq<TopEntry>): (int, real) {
    if list == [] then (0, 0.0)
    else
      var before, e := ListTotal(list[..|list| - 1]), list[|list| - 1];
      (before.0 + e.totalTokens, before.1 + e.cost)
  }

  /** Tokens and cost over the whole list are those of the daily totals. */
  lemma SessionsAddUpToDays(list: seq<TopEntry>, daily: Daily, rows: seq<Row>, pricing: Pricing, breakdowns: bool)
    requires Covers(list, rows, pricing) && IsDaily(daily, rows, pricing, breakdowns)
    ensures ListTotal(list) == (Tokens(daily.totals), daily.totals.cost)
  {
    SomeSessionsAddUp(list, rows, pricing);
    EveryRowIsListed(list, rows, pricing);
    SumSame(rows, pricing, Sessions(IDsOf(list)), All);
  }

  lemma EveryRowIsListed(list: seq<TopEntry>, rows: seq<Row>, pricing: Pricing)
    requires Covers(list, rows, pricing)
    ensures forall r | r in rows :: r.sessionID in IDsOf(list)
  {
    forall r | r in rows
      ensures r.sessionID in IDsOf(list)
    {
      assert r.sessionID in SessionsOf(rows);
      var i :| 0 <= i < |list| && list[i].sessionID == r.sessionID;
      assert list[i] in list;
    }
  }

  ghost function IDsOf(list: seq<TopEntry>): set<string> {
    set e | e in list :: e.sessionID
  }

  lemma IDsStep(list: seq<TopEntry>)
    requires list != [] && forall i, j | 0 <= i < j < |list| :: list[i].sessionID != list[j].sessionID
    ensures IDsOf(list) == IDsOf(list[..|list| - 1]) + {list[|list| - 1].sessionID}
    ensures list[|list| - 1].sessionID !in IDsOf(list[..|list| - 1])
  {
    assert list == list[..|list| - 1] + [list[|list| - 1]];
  }

  lemma SessionsStep(rows: seq<Row>, pricing: Pricing, ids: set<string>, e: TopEntry)
    requires e.sessionID !in ids && EntryOK(e, rows, pricing)
    ensures var before, sum := Sum(rows, pricing, Sessions(ids)), Sum(rows, pricing, Sessions(ids + {e.sessionID}));
      Tokens(sum) == Tokens(before) + e.totalTokens && sum.cost == before.cost + e.cost
  {
    SumSplits(rows, pricing, Sessions(ids + {e.sessionID}), Sessions(ids), Sessions({e.sessionID}));
  }

  lemma {:induction false} SomeSessionsAddUp(list: seq<TopEntry>, rows: seq<Row>, pricing: Pricing)
    requires forall i, j | 0 <= i < j < |list| :: list[i].sessionID != list[j].sessionID
    requires forall i | 0 <= i < |list| :: EntryOK(list[i], rows, pricing)
    ensures var sum := Sum(rows, pricing, Sessions(IDsOf(list)));
      ListTotal(list) == (Tokens(sum), sum.cost)
  {
    if list == [] {
      SumNone(rows, pricing, Sessions(IDsOf(list)));
    } else {
      var n := |list| - 1;
      SomeSessionsAddUp(list[..n], rows, pricing);
      IDsStep(list);
      SessionsStep(rows, pricing, IDsOf(list[..n]), list[n]);
    }
  }

  /** The list has one entry per session that counts. */
  lemma ListLength(list: seq<TopEntry>, rows: seq<Row>, pricing: Pricing)
    requires Covers(list, rows, pricing)
    ensures |list| == |SessionsOf(rows)|
  {
    var ids := seq(|list|, i requires 0 <= i < |list| => list[i].sessionID);
    DistinctIsItsSet(ids);
    forall s
      ensures s in ids <==> s in SessionsOf(rows)
    {
      if s in SessionsOf(rows) {
        var i :| 0 <= i < |list| && list[i].sessionID == s;
        assert ids[i] == s;
      }
      if s in ids {
        var i :| 0 <= i < |ids| && ids[i] == s;
        assert list[i] in list;
      }
    }
    assert (set s | s in ids) == SessionsOf(rows);
  }

  // ----------------------------------------------------------------------- counts

  datatype SessInfo = SessInfo(project: string, agent: string)

  datatype SessionCounts = SessionCounts(total: nat, byProject: map<string, nat>, byAgent: map<string, nat>)

  ghost predicate InfoOK(info: map<string, SessInfo>, rows: seq<Row>) {
    && info.Keys == SessionsOf(rows)
    && forall s | s in info :: info[s] == SessInfo(First(rows, s).project, First(rows, s).agent)
  }

  lemma InfoStep(info: map<string, SessInfo>, rows: seq<Row>, r: Row)
    requires InfoOK(info, rows)
    ensures InfoOK(if r.sessionID in info then info else info[r.sessionID := SessInfo(r.project, r.agent)], rows + [r])
  {
    assert SessionsOf(rows + [r]) == SessionsOf(rows) + {r.sessionID};
    forall s | s in SessionsOf(rows + [r])
      ensures First(rows + [r], s) == if s in SessionsOf(rows) then First(rows, s) else r
    {
      FirstStep(rows, r, s);
    }
  }

  function Field(x: SessInfo, byAgent: bool): string {
    if byAgent then x.agent else x.project
  }

  function Having(info: map<string, SessInfo>, done: set<string>, byAgent: bool, name: string): set<string> {
    set s | s in done && s in info && Field(info[s], byAgent) == name
  }

  /** Each name counts the sessions that carry it. */
  ghost predicate Counts(m: map<string, nat>, info: map<string, SessInfo>, done: set<string>, byAgent: bool) {
    && (forall x {:trigger x in m} :: x in m <==> Having(info, done, byAgent, x) != {})
    && forall x | x in m :: m[x] == |Having(info, done, byAgent, x)|
  }

  function Incremented(m: map<string, nat>, x: string): map<string, nat> {
    m[x := (if x in m then m[x] else 0) + 1]
  }

  lemma CountStep(m: map<string, nat>, info: map<string, SessInfo>, done: set<string>, byAgent: bool, s: string)
    requires Counts(m, info, done, byAgent) && s in info && s !in done
    ensures Counts(Incremented(m, Field(info[s], byAgent)), info, done + {s}, byAgent)
  {
    var next := Incremented(m, Field(info[s], byAgent));
    forall x
      ensures x in next <==> Having(info, done + {s}, byAgent, x) != {}
      ensures x in next ==> next[x] == |Having(info, done + {s}, byAgent, x)|
    {
      HavingStep(info, done, byAgent, x, s);
    }
  }

  lemma HavingStep(info: map<string, SessInfo>, done: set<string>, byAgent: bool, x: string, s: string)
    requires s in info && s !in done
    ensures var was, now := Having(info, done, byAgent, x), Having(info, done + {s}, byAgent, x);
      if x == Field(info[s], byAgent) then |now| == |was| + 1 && now != {} else now == was
  {
    var was, now := Having(info, done, byAgent, x), Having(info, done + {s}, byAgent, x);
    if x == Field(info[s], byAgent) {
      assert now == was + {s};
    }
  }

  method GetUsageSessionCounts(rows: seq<Row>, from: string, to: string) returns (out: SessionCounts, ghost info: map<string, SessInfo>)
    ensures InfoOK(info, Kept(rows, from, to)) && out.total == |SessionsOf(Kept(rows, from, to))|
    ensures Counts(out.byProject, info, info.Keys, false) && Counts(out.byAgent, info, info.Keys, true)
  {
    var found := CollectSessions(rows, from, to);
    info := found;
    var byProject, byAgent := CountSessions(found);
    out := SessionCounts(|found|, byProject, byAgent);
    assert |found| == |found.Keys|;
  }

  method CountSessions(found: map<string, SessInfo>) returns (byProject: map<string, nat>, byAgent: map<string, nat>)
    ensures Counts(byProject, found, found.Keys, false) && Counts(byAgent, found, found.Keys, true)
  {
    byProject, byAgent := map[], map[];
    var todo := found.Keys;
    while todo != {}
      invariant todo <= found.Keys
      invariant Counts(byProject, found, found.Keys - todo, false)
      invariant Counts(byAgent, found, found.Keys - todo, true)
    {
      var s :| s in todo;
      CountStep(byProject, found, found.Keys - todo, false, s);
      CountStep(byAgent, found, found.Keys - todo, true, s);
      assert found.Keys - (todo - {s}) == found.Keys - todo + {s};
      byProject := Incremented(byProject, found[s].project);
      byAgent := Incremented(byAgent, found[s].agent);
      todo := todo - {s};
    }
    assert found.Keys - todo == found.Keys;
  }

  method CollectSessions(rows: seq<Row>, from: string, to: string) returns (info: map<string, SessInfo>)
    ensures InfoOK(info, Kept(rows, from, to))
  {
    info := map[];
    var dedup: set<(string, string)> := {};
    for i := 0 to |rows|
      invariant InfoOK(info, Kept(rows[..i], from, to))
      invariant dedup == DedupKeys(Kept(rows[..i], from, to))
    {
      var r := rows[i];
      KeptStep(rows, from, to, i);
      if !InRange(r, from, to) {
        continue;
      }
      if r.msgID != "" && r.reqID != "" {
        if (r.msgID, r.reqID) in dedup {
          continue;
        }
        dedup := dedup + {(r.msgID, r.reqID)};
      }
      InfoStep(info, Kept(rows[..i], from, to), r);
      if r.sessionID !in info {
        info := info[r.sessionID := SessInfo(r.project, r.agent)];
      }
    }
    assert rows[..|rows|] == rows;
  }

  ghost function CountsTotal(m: map<string, nat>, names: set<string>): nat
    requires names <= m.Keys
    decreases names
  {
    if names == {} then 0
    else
      var x :| x in names;
      m[x] + CountsTotal(m, names - {x})
  }

  /** The counts per project, and per agent, add up to the number of sessions. */
  lemma CountsAddUp(m: map<string, nat>, info: map<string, SessInfo>, byAgent: bool)
    requires Counts(m, info, info.Keys, byAgent)
    ensures CountsTotal(m, m.Keys) == |info|
  {
    SomeCountsAddUp(m, info, byAgent, m.Keys);
    AllAreNamed(m, info, byAgent);
  }

  lemma AllAreNamed(m: map<string, nat>, info: map<string, SessInfo>, byAgent: bool)
    requires Counts(m, info, info.Keys, byAgent)
    ensures WithNames(info, byAgent, m.Keys) == info.Keys
  {
    forall s | s in info
      ensures Field(info[s], byAgent) in m
    {
      assert s in Having(info, info.Keys, byAgent, Field(info[s], byAgent));
    }
  }

  lemma {:induction false} SomeCountsAddUp(m: map<string, nat>, info: map<string, SessInfo>, byAgent: bool, names: set<string>)
    requires Counts(m, info, info.Keys, byAgent) && names <= m.Keys
    ensures CountsTotal(m, names) == |WithNames(info, byAgent, names)|
    decreases names
  {
    if names == {} {
      assert WithNames(info, byAgent, names) == {};
    } else {
      var x :| x in names && CountsTotal(m, names) == m[x] + CountsTotal(m, names - {x});
      SomeCountsAddUp(m, info, byAgent, names - {x});
      WithNamesStep(info, byAgent, names, x);
    }
  }

  function WithNames(info: map<string, SessInfo>, byAgent: bool, names: set<string>): set<string> {
    set s | s in info && Field(info[s], byAgent) in names
  }

  lemma WithNamesStep(info: map<string, SessInfo>, byAgent: bool, names: set<string>, x: string)
    requires x in names
    ensures |WithNames(info, byAgent, names)|
         == |WithNames(info, byAgent, names - {x})| + |Having(info, info.Keys, byAgent, x)|
  {
    assert WithNames(info, byAgent, names) == WithNames(info, byAgent, names - {x}) + Having(info, info.Keys, byAgent, x);
  }

  /** The session count, the ranking and the rows agree on how many sessions there are. */
  lemma CountsMatchRanking(out: SessionCounts, list: seq<TopEntry>, rows: seq<Row>, pricing: Pricing)
    requires Covers(list, rows, pricing) && out.total == |SessionsOf(rows)|
    ensures out.total == |list|
  {
    ListLength(list, rows, pricing);
  }
}
