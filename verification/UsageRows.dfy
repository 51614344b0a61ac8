/** Which messages the usage views count, and what each figure is the sum of, in plain terms (internal/db/usage.go). */
module UsageRows {
  import opened Ordering
  import opened Usage
  import opened UsageSessions

  // ------------------------------------------------------------ which rows count

  /** Both ids are there, and an earlier row of the range has the same ones. */
  ghost predicate CountedBefore(rows: seq<Row>, from: string, to: string, i: nat)
    requires i < |rows|
  {
    && rows[i].msgID != "" && rows[i].reqID != ""
    && exists j | 0 <= j < i :: Eligible(rows[j], from, to) && rows[j].msgID == rows[i].msgID && rows[j].reqID == rows[i].reqID
  }

  /** The rows that count, among the first n. */
  ghost function Counting(rows: seq<Row>, from: string, to: string, n: nat): seq<Row>
    requires n <= |rows|
  {
    if n == 0 then []
    else if Eligible(rows[n - 1], from, to) && !CountedBefore(rows, from, to, n - 1) then Counting(rows, from, to, n - 1) + [rows[n - 1]]
    else Counting(rows, from, to, n - 1)
  }

  lemma {:induction false} KeysOfCounting(rows: seq<Row>, from: string, to: string, n: nat, m: string, q: string)
    requires n <= |rows| && m != "" && q != ""
    ensures (m, q) in DedupKeys(Counting(rows, from, to, n))
        <==> exists j | 0 <= j < n :: Eligible(rows[j], from, to) && rows[j].msgID == m && rows[j].reqID == q
  {
    if n > 0 {
      KeysOfCounting(rows, from, to, n - 1, m, q);
      var before, r := Counting(rows, from, to, n - 1), rows[n - 1];
      if Eligible(r, from, to) {
        if CountedBefore(rows, from, to, n - 1) {
          if (r.msgID, r.reqID) == (m, q) {
            var j :| 0 <= j < n - 1 && Eligible(rows[j], from, to) && rows[j].msgID == r.msgID && rows[j].reqID == r.reqID;
            assert (m, q) in DedupKeys(before);
          }
        } else {
          DedupKeysSnoc(before, r);
        }
      }
    }
  }

  lemma DedupKeysSnoc(rows: seq<Row>, r: Row)
    ensures DedupKeys(rows + [r]) == DedupKeys(rows) + if r.msgID != "" && r.reqID != "" then {(r.msgID, r.reqID)} else {}
  {
    assert r in rows + [r];
  }

  /** A row counts exactly when its day is in range and no earlier row in range has both its ids. */
  lemma {:induction false} KeptIsCounting(rows: seq<Row>, from: string, to: string, n: nat)
    requires n <= |rows|
    ensures Kept(rows[..n], from, to) == Counting(rows, from, to, n)
  {
    if n > 0 {
      KeptIsCounting(rows, from, to, n - 1);
      KeptStep(rows, from, to, n - 1);
      var before, r := Counting(rows, from, to, n - 1), rows[n - 1];
      InRangeIff(r, from, to);
      if r.msgID != "" && r.reqID != "" {
        KeysOfCounting(rows, from, to, n - 1, r.msgID, r.reqID);
      }
    }
  }

  // --------------------------------------------------------------- what they add up to

  /** What one message is worth: its own tokens, billed per million; a model without prices is free. */
  lemma ValueIs(pricing: Pricing, r: Row)
    ensures var v := Value(pricing, r);
      && v.input == r.input && v.output == r.output && v.cacheCreation == r.cacheCreation && v.cacheRead == r.cacheRead
      && (r.model !in pricing ==> v.cost == 0.0)
      && (r.model in pricing ==>
        var p := pricing[r.model];
        1000000.0 * v.cost == r.input as real * p.input + r.output as real * p.output
                            + r.cacheCreation as real * p.cacheCreation + r.cacheRead as real * p.cacheRead)
  {
  }

  ghost function Tokened(rows: seq<Row>, chosen: Row -> bool, give: Row -> int): int {
    if rows == [] then 0
    else Tokened(rows[..|rows| - 1], chosen, give) + if chosen(rows[|rows| - 1]) then give(rows[|rows| - 1]) else 0
  }

  ghost function Billed(rows: seq<Row>, chosen: Row -> bool, pricing: Pricing): real {
    if rows == [] then 0.0
    else Billed(rows[..|rows| - 1], chosen, pricing) + if chosen(rows[|rows| - 1]) then Value(pricing, rows[|rows| - 1]).cost else 0.0
  }

  /** Each figure of b is the sum of that figure over the chosen rows. */
  ghost predicate Tallies(b: Bucket, rows: seq<Row>, pricing: Pricing, chosen: Row -> bool) {
    && b.input == Tokened(rows, chosen, (r: Row) => r.input)
    && b.output == Tokened(rows, chosen, (r: Row) => r.output)
    && b.cacheCreation == Tokened(rows, chosen, (r: Row) => r.cacheCreation)
    && b.cacheRead == Tokened(rows, chosen, (r: Row) => r.cacheRead)
    && b.cost == Billed(rows, chosen, pricing)
  }

  lemma {:induction false} SumTallies(rows: seq<Row>, pricing: Pricing, c: Choice, chosen: Row -> bool)
    requires forall r | r in rows :: Picks(c, r) <==> chosen(r)
    ensures Tallies(Sum(rows, pricing, c), rows, pricing, chosen)
  {
    if rows != [] {
      var front, last := rows[..|rows| - 1], rows[|rows| - 1];
      assert last in rows && forall r | r in front :: r in rows;
      SumTallies(front, pricing, c, chosen);
      ValueIs(pricing, last);
    }
  }

  // --------------------------------------------------------------------------- days

  /** What a line of a breakdown is named after. */
  function NameOf(dim: Dim, r: Row): string {
    match dim
    case Models => r.model
    case Projects => r.project
    case Agents => r.agent
  }

  /** The lines hold one line for each name of the day, with its sums, dearest first and then by name. */
  ghost predicate BreaksDown(lines: seq<Line>, rows: seq<Row>, pricing: Pricing, dim: Dim, day: string) {
    && (forall r | r in rows && r.date == day :: HasLine(lines, NameOf(dim, r)))
    && (forall l | l in lines :: LineFits(l, rows, pricing, dim, day))
    && LinesDescend(lines)
  }

  predicate HasLine(lines: seq<Line>, name: string) {
    exists i | 0 <= i < |lines| :: lines[i].name == name
  }

  ghost predicate LinesDescend(lines: seq<Line>) {
    forall i, j | 0 <= i < j < |lines| :: LineBefore(lines[i], lines[j])
  }

  predicate LineBefore(x: Line, y: Line) {
    x.b.cost > y.b.cost || (x.b.cost == y.b.cost && x.name != y.name && StringLE(x.name, y.name))
  }

  ghost predicate LineFits(l: Line, rows: seq<Row>, pricing: Pricing, dim: Dim, day: string) {
    && (exists r | r in rows :: r.date == day && NameOf(dim, r) == l.name)
    && Tallies(l.b, rows, pricing, (r: Row) => r.date == day && NameOf(dim, r) == l.name)
  }

  lemma CellFits(rows: seq<Row>, pricing: Pricing, dim: Dim, day: string, x: string)
    requires x in NamesOn(rows, dim, day)
    ensures LineFits(Line(x, Sum(rows, pricing, Cells(dim, day, {x}))), rows, pricing, dim, day)
  {
    var r :| r in rows && r.date == day && DimOf(dim, KeyOf(true, r)) == x;
    assert NameOf(dim, r) == x;
    SumTallies(rows, pricing, Cells(dim, day, {x}), (r: Row) => r.date == day && NameOf(dim, r) == x);
  }

  lemma ListsBreaksDown(lines: seq<Line>, rows: seq<Row>, pricing: Pricing, dim: Dim, day: string)
    requires Lists(lines, CellTable(rows, pricing, dim, day))
    ensures BreaksDown(lines, rows, pricing, dim, day)
  {
    var table := CellTable(rows, pricing, dim, day);
    forall r | r in rows && r.date == day
      ensures HasLine(lines, NameOf(dim, r))
    {
      assert NameOf(dim, r) in NamesOn(rows, dim, day);
      assert Line(NameOf(dim, r), table[NameOf(dim, r)]) in lines;
    }
    forall l | l in lines
      ensures LineFits(l, rows, pricing, dim, day)
    {
      assert l.name in table && l == Line(l.name, table[l.name]);
      CellFits(rows, pricing, dim, day, l.name);
    }
    LinesAscend(lines, table);
  }

  lemma LinesAscend(lines: seq<Line>, table: map<string, Bucket>)
    requires Lists(lines, table)
    ensures LinesDescend(lines)
  {
  }

  /** The whole daily view, figure by figure. */
  ghost predicate ShowsDays(d: Daily, rows: seq<Row>, pricing: Pricing, breakdowns: bool) {
    && (forall r | r in rows :: HasDate(d.entries, r.date))
    && (forall i | 0 <= i < |d.entries| :: ShowsDay(d.entries[i], rows, pricing, breakdowns))
    && DaysAscend(d.entries)
    && Tallies(d.totals, rows, pricing, (r: Row) => true)
  }

  predicate HasDate(entries: seq<Entry>, date: string) {
    exists i | 0 <= i < |entries| :: entries[i].date == date
  }

  ghost predicate DaysAscend(entries: seq<Entry>) {
    forall i, j | 0 <= i < j < |entries| :: entries[i].date != entries[j].date && StringLE(entries[i].date, entries[j].date)
  }

  ghost predicate ShowsDay(e: Entry, rows: seq<Row>, pricing: Pricing, breakdowns: bool) {
    && (exists r | r in rows :: r.date == e.date)
    && Tallies(e.totals, rows, pricing, (r: Row) => r.date == e.date)
    && BreaksDown(e.models, rows, pricing, Models, e.date)
    && (!breakdowns ==> e.projects == [] && e.agents == [])
    && (breakdowns ==>
      && BreaksDown(e.projects, rows, pricing, Projects, e.date)
      && BreaksDown(e.agents, rows, pricing, Agents, e.date))
  }

  lemma EntryShowsDay(e: Entry, rows: seq<Row>, pricing: Pricing, breakdowns: bool)
    requires IsEntry(e, rows, pricing, e.date, breakdowns) && e.date in DatesOf(rows)
    ensures ShowsDay(e, rows, pricing, breakdowns)
  {
    SumTallies(rows, pricing, Days({e.date}), (r: Row) => r.date == e.date);
    ListsBreaksDown(e.models, rows, pricing, Models, e.date);
    if breakdowns {
      ListsBreaksDown(e.projects, rows, pricing, Projects, e.date);
      ListsBreaksDown(e.agents, rows, pricing, Agents, e.date);
    }
  }

  lemma DailyShowsDays(d: Daily, rows: seq<Row>, pricing: Pricing, breakdowns: bool)
    requires IsDaily(d, rows, pricing, breakdowns)
    ensures ShowsDays(d, rows, pricing, breakdowns)
  {
    var dates := Dates(d.entries);
    forall r | r in rows
      ensures HasDate(d.entries, r.date)
    {
      assert r.date in ToSet(dates);
      var i :| 0 <= i < |dates| && dates[i] == r.date;
      assert d.entries[i].date == r.date;
    }
    forall i | 0 <= i < |d.entries|
      ensures ShowsDay(d.entries[i], rows, pricing, breakdowns)
    {
      assert dates[i] in ToSet(dates);
      EntryShowsDay(d.entries[i], rows, pricing, breakdowns);
    }
    DatesAscend(d.entries, rows);
    SumTallies(rows, pricing, All, (r: Row) => true);
  }

  lemma DatesAscend(entries: seq<Entry>, rows: seq<Row>)
    requires ListsDays(Dates(entries), rows)
    ensures DaysAscend(entries)
  {
    var dates := Dates(entries);
    forall i, j | 0 <= i < j < |entries|
      ensures entries[i].date != entries[j].date && StringLE(entries[i].date, entries[j].date)
    {
      assert dates[i] != dates[j] && StringLE(dates[i], dates[j]);
    }
  }

  /** The daily view is that of the rows that count: their days in order, and for each day and name its sums. */
  lemma DailyOfCounting(d: Daily, rows: seq<Row>, pricing: Pricing, from: string, to: string, breakdowns: bool)
    requires IsDaily(d, Kept(rows, from, to), pricing, breakdowns)
    ensures ShowsDays(d, Counting(rows, from, to, |rows|), pricing, breakdowns)
  {
    assert rows[..|rows|] == rows;
    KeptIsCounting(rows, from, to, |rows|);
    DailyShowsDays(d, Kept(rows, from, to), pricing, breakdowns);
  }

  lemma {:induction false} CountingHas(rows: seq<Row>, from: string, to: string, n: nat, i: nat)
    requires i < n <= |rows| && Eligible(rows[i], from, to) && !CountedBefore(rows, from, to, i)
    ensures rows[i] in Counting(rows, from, to, n)
  {
    if i < n - 1 {
      CountingHas(rows, from, to, n - 1, i);
    }
  }

  /** A message of the first or the last day of the range reaches the result, unless it was counted before. */
  lemma BothEndsAreShown(d: Daily, rows: seq<Row>, pricing: Pricing, from: string, to: string, breakdowns: bool, i: nat)
    requires IsDaily(d, Kept(rows, from, to), pricing, breakdowns)
    requires i < |rows| && from != "" && to != "" && StringLE(from, to) && (rows[i].date == from || rows[i].date == to)
    requires !CountedBefore(rows, from, to, i)
    ensures HasDate(d.entries, rows[i].date)
  {
    StringOrder();
    CountingHas(rows, from, to, |rows|, i);
    DailyOfCounting(d, rows, pricing, from, to, breakdowns);
  }

  // ----------------------------------------------------------------------- sessions

  /** The row i is the first one of its session. */
  predicate Introduces(rows: seq<Row>, i: nat) {
    i < |rows| && forall j | 0 <= j < i :: rows[j].sessionID != rows[i].sessionID
  }

  lemma {:induction false} FirstIntroduces(rows: seq<Row>, sid: string) returns (i: nat)
    requires sid in SessionsOf(rows)
    ensures Introduces(rows, i) && rows[i].sessionID == sid && First(rows, sid) == rows[i]
  {
    var n := |rows| - 1;
    assert rows == rows[..n] + [rows[n]];
    if sid in SessionsOf(rows[..n]) {
      i := FirstIntroduces(rows[..n], sid);
      assert forall j | 0 <= j < i :: rows[j] == rows[..n][j];
    } else {
      i := n;
      assert forall j | 0 <= j < n :: rows[j] == rows[..n][j] && rows[j] in rows[..n];
    }
  }

  lemma IntroducedFirst(rows: seq<Row>, i: nat)
    requires Introduces(rows, i)
    ensures rows[i].sessionID in SessionsOf(rows) && First(rows, rows[i].sessionID) == rows[i]
  {
    var k := FirstIntroduces(rows, rows[i].sessionID);
    assert !(k < i) && !(i < k);
  }

  /** What the ranking shows of a session: its first row's labels, and all its tokens and its whole cost. */
  ghost predicate ShowsSession(e: TopEntry, rows: seq<Row>, pricing: Pricing) {
    && (exists i: nat :: ShowsLabels(e, rows, i))
    && e.totalTokens == Tokened(rows, (r: Row) => r.sessionID == e.sessionID, (r: Row) => r.input + r.output + r.cacheCreation + r.cacheRead)
    && e.cost == Billed(rows, (r: Row) => r.sessionID == e.sessionID, pricing)
  }

  predicate ShowsLabels(e: TopEntry, rows: seq<Row>, i: nat) {
    && Introduces(rows, i)
    && e.sessionID == rows[i].sessionID && e.displayName == rows[i].displayName && e.agent == rows[i].agent
    && e.project == rows[i].project && e.startedAt == rows[i].startedAt
  }

  lemma {:induction false} TokensTally(rows: seq<Row>, chosen: Row -> bool)
    ensures Tokened(rows, chosen, (r: Row) => r.input + r.output + r.cacheCreation + r.cacheRead)
         == Tokened(rows, chosen, (r: Row) => r.input) + Tokened(rows, chosen, (r: Row) => r.output)
          + Tokened(rows, chosen, (r: Row) => r.cacheCreation) + Tokened(rows, chosen, (r: Row) => r.cacheRead)
  {
    if rows != [] {
      TokensTally(rows[..|rows| - 1], chosen);
    }
  }

  lemma EntryShowsSession(e: TopEntry, rows: seq<Row>, pricing: Pricing)
    requires EntryOK(e, rows, pricing)
    ensures ShowsSession(e, rows, pricing)
  {
    var i := FirstIntroduces(rows, e.sessionID);
    assert ShowsLabels(e, rows, i);
    var chosen := (r: Row) => r.sessionID == e.sessionID;
    SumTallies(rows, pricing, Sessions({e.sessionID}), chosen);
    TokensTally(rows, chosen);
  }

  /** Dearest first, and at the same cost by id. */
  predicate RankedBefore(x: TopEntry, y: TopEntry) {
    x.cost > y.cost || (x.cost == y.cost && x.sessionID != y.sessionID && StringLE(x.sessionID, y.sessionID))
  }

  ghost predicate Ranks(list: seq<TopEntry>) {
    forall i, j | 0 <= i < j < |list| :: RankedBefore(list[i], list[j])
  }

  predicate IsListed(list: seq<TopEntry>, sid: string) {
    exists i | 0 <= i < |list| :: list[i].sessionID == sid
  }

  /** The ranking lists every session with a row that counts, once, in its place. */
  lemma RankingShowsSessions(list: seq<TopEntry>, rows: seq<Row>, pricing: Pricing, from: string, to: string)
    requires SortedBy(list, EntryLE) && UsageSessions.Covers(list, Kept(rows, from, to), pricing)
    ensures var counting := Counting(rows, from, to, |rows|);
      && (forall r | r in counting :: IsListed(list, r.sessionID))
      && (forall e | e in list :: ShowsSession(e, counting, pricing))
    ensures Ranks(list)
  {
    assert rows[..|rows|] == rows;
    KeptIsCounting(rows, from, to, |rows|);
    var counting := Counting(rows, from, to, |rows|);
    forall e | e in list
      ensures ShowsSession(e, counting, pricing)
    {
      EntryShowsSession(e, counting, pricing);
    }
    forall r | r in counting
      ensures IsListed(list, r.sessionID)
    {
      assert r.sessionID in SessionsOf(counting);
    }
  }

  /** At most 20 sessions are shown when no number is asked for, and never more than 100. */
  lemma LimitIs(limit: int)
    ensures limit <= 0 ==> Limit(limit) == 20
    ensures limit > 0 ==> Limit(limit) <= limit && Limit(limit) <= 100 && (Limit(limit) == limit || Limit(limit) == 100)
  {
  }

  // ------------------------------------------------------------------------- counts

  /** The sessions whose first row has this label. */
  function Labelled(rows: seq<Row>, byAgent: bool, name: string): set<string> {
    set i | 0 <= i < |rows| && Introduces(rows, i) && (if byAgent then rows[i].agent else rows[i].project) == name :: rows[i].sessionID
  }

  /** A project, or an agent, is counted once for each session whose first row names it. */
  lemma CountsAreLabels(m: map<string, nat>, info: map<string, SessInfo>, rows: seq<Row>, from: string, to: string, byAgent: bool, name: string)
    requires InfoOK(info, Kept(rows, from, to)) && Counts(m, info, info.Keys, byAgent)
    ensures var sessions := Labelled(Counting(rows, from, to, |rows|), byAgent, name);
      (name in m <==> sessions != {}) && (name in m ==> m[name] == |sessions|)
  {
    assert rows[..|rows|] == rows;
    KeptIsCounting(rows, from, to, |rows|);
    LabelsAreHaving(info, Counting(rows, from, to, |rows|), byAgent, name);
  }

  lemma LabelsAreHaving(info: map<string, SessInfo>, rows: seq<Row>, byAgent: bool, name: string)
    requires InfoOK(info, rows)
    ensures Having(info, info.Keys, byAgent, name) == Labelled(rows, byAgent, name)
  {
    forall s
      ensures s in Having(info, info.Keys, byAgent, name) <==> s in Labelled(rows, byAgent, name)
    {
      if s in SessionsOf(rows) {
        var i := FirstIntroduces(rows, s);
        assert rows[i].sessionID == s;
      }
      forall i | 0 <= i < |rows| && Introduces(rows, i)
        ensures rows[i].sessionID in SessionsOf(rows) && First(rows, rows[i].sessionID) == rows[i]
      {
        IntroducedFirst(rows, i);
      }
    }
  }
}
