/** Daily token usage and cost, on the fast and on the breakdown path (internal/db/usage.go). Rows come ordered. */
module Usage {
  import opened Ordering

  /** One message with usage, joined to its session; date is its local date. */
  datatype Row = Row(
    date: string, sessionID: string, displayName: string, agent: string, project: string, startedAt: string,
    model: string, msgID: string, reqID: string,
    input: int, output: int, cacheCreation: int, cacheRead: int)

  /** Prices per million tokens. */
  datatype Rates = Rates(input: real, output: real, cacheCreation: real, cacheRead: real)

  type Pricing = map<string, Rates>

  datatype Bucket = Bucket(input: int, output: int, cacheCreation: int, cacheRead: int, cost: real)

  const ZERO: Bucket := Bucket(0, 0, 0, 0, 0.0)

  function Add(a: Bucket, b: Bucket): Bucket {
    Bucket(a.input + b.input, a.output + b.output, a.cacheCreation + b.cacheCreation, a.cacheRead + b.cacheRead,
           a.cost + b.cost)
  }

  function RatesOf(pricing: Pricing, model: string): Rates {
    if model in pricing then pricing[model] else Rates(0.0, 0.0, 0.0, 0.0)
  }

  function Value(pricing: Pricing, r: Row): Bucket {
    var p := RatesOf(pricing, r.model);
    Bucket(r.input, r.output, r.cacheCreation, r.cacheRead,
      (r.input as real * p.input + r.output as real * p.output
       + r.cacheCreation as real * p.cacheCreation + r.cacheRead as real * p.cacheRead) / 1000000.0)
  }

  function SavingsOf(pricing: Pricing, r: Row): real {
    var p := RatesOf(pricing, r.model);
    r.cacheRead as real * (p.input - p.cacheRead) / 1000000.0
    + r.cacheCreation as real * (p.input - p.cacheCreation) / 1000000.0
  }

  // ------------------------------------------------------------ which rows count

  /** An empty bound is no bound. */
  predicate InRange(r: Row, from: string, to: string) {
    !(from != "" && StringLT(r.date, from)) && !(to != "" && StringLT(to, r.date))
  }

  /** On or after a start, on or before an end; an empty bound is no bound. */
  predicate Eligible(r: Row, from: string, to: string) {
    (from == "" || StringLE(from, r.date)) && (to == "" || StringLE(r.date, to))
  }

  lemma InRangeIff(r: Row, from: string, to: string)
    ensures InRange(r, from, to) <==> Eligible(r, from, to)
  {
    StringOrder();
  }

  predicate Keyed(r: Row) { r.msgID != "" && r.reqID != "" }

  function DedupKeys(rows: seq<Row>): set<(string, string)> {
    set r | r in rows && Keyed(r) :: (r.msgID, r.reqID)
  }

  predicate Duplicate(r: Row, before: seq<Row>) {
    Keyed(r) && (r.msgID, r.reqID) in DedupKeys(before)
  }

  /** In range, and the first in range with its ids. */
  function Kept(rows: seq<Row>, from: string, to: string): seq<Row> {
    if rows == [] then []
    else
      var n := |rows| - 1;
      var before := Kept(rows[..n], from, to);
      if InRange(rows[n], from, to) && !Duplicate(rows[n], before) then before + [rows[n]] else before
  }

  lemma KeptStep(rows: seq<Row>, from: string, to: string, i: nat)
    requires i < |rows|
    ensures Kept(rows[..i + 1], from, to) ==
      var before := Kept(rows[..i], from, to);
      if InRange(rows[i], from, to) && !Duplicate(rows[i], before) then before + [rows[i]] else before
    ensures DedupKeys(Kept(rows[..i], from, to) + [rows[i]]) ==
      DedupKeys(Kept(rows[..i], from, to)) + if Keyed(rows[i]) then {(rows[i].msgID, rows[i].reqID)} else {}
  {
    assert rows[..i + 1][..i] == rows[..i];
  }

  /** No two counted rows share their ids. */
  ghost predicate DistinctKeys(rows: seq<Row>) {
    forall i, j | 0 <= i < j < |rows| && Keyed(rows[j]) :: rows[i].msgID != rows[j].msgID || rows[i].reqID != rows[j].reqID
  }

  lemma DistinctKeysStep(rows: seq<Row>, r: Row)
    requires DistinctKeys(rows) && !Duplicate(r, rows)
    ensures DistinctKeys(rows + [r])
  {
    forall i | 0 <= i < |rows| && Keyed(r)
      ensures rows[i].msgID != r.msgID || rows[i].reqID != r.reqID
    {
      assert rows[i] in rows;
    }
  }

  lemma {:induction false} KeptIsDistinct(rows: seq<Row>, from: string, to: string)
    ensures DistinctKeys(Kept(rows, from, to))
    ensures forall r | r in Kept(rows, from, to) :: r in rows && InRange(r, from, to)
  {
    if rows != [] {
      var n := |rows| - 1;
      KeptIsDistinct(rows[..n], from, to);
      assert rows == rows[..n] + [rows[n]];
      var before := Kept(rows[..n], from, to);
      if InRange(rows[n], from, to) && !Duplicate(rows[n], before) {
        DistinctKeysStep(before, rows[n]);
      }
    }
  }

  /** A row without ids is counted as often as it occurs. */
  lemma {:induction false} UnkeyedAllCount(rows: seq<Row>, from: string, to: string, r: Row)
    requires InRange(r, from, to) && !Keyed(r)
    ensures multiset(Kept(rows, from, to))[r] == multiset(rows)[r]
  {
    if rows != [] {
      var n := |rows| - 1;
      UnkeyedAllCount(rows[..n], from, to, r);
      assert rows == rows[..n] + [rows[n]];
    }
  }

  /** For every message in range with ids, one with the same ids is counted. */
  lemma {:induction false} KeyedIsCovered(rows: seq<Row>, from: string, to: string, r: Row)
    requires r in rows && InRange(r, from, to) && Keyed(r)
    ensures (r.msgID, r.reqID) in DedupKeys(Kept(rows, from, to))
  {
    var n := |rows| - 1;
    assert rows == rows[..n] + [rows[n]];
    var before := Kept(rows[..n], from, to);
    if r in rows[..n] {
      KeyedIsCovered(rows[..n], from, to, r);
      assert forall x | x in before :: x in Kept(rows, from, to);
    } else if !Duplicate(r, before) {
      assert r in before + [r];
    }
  }

  /** Every message in range is counted, and none twice: with both ids there is one for them, else it counts as often as it occurs. */
  lemma KeptCountsEachOnce(rows: seq<Row>, from: string, to: string, r: Row)
    requires r in rows && Eligible(r, from, to)
    ensures var kept := Kept(rows, from, to);
      && (forall x | x in kept :: x in rows && Eligible(x, from, to))
      && (r.msgID == "" || r.reqID == "" ==> multiset(kept)[r] == multiset(rows)[r])
      && (r.msgID != "" && r.reqID != "" ==>
        && (exists x | x in kept :: x.msgID == r.msgID && x.reqID == r.reqID)
        && forall i, j | 0 <= i < j < |kept| && kept[j].msgID == r.msgID && kept[j].reqID == r.reqID ::
             kept[i].msgID != r.msgID || kept[i].reqID != r.reqID)
  {
    forall x | x in Kept(rows, from, to)
      ensures x in rows && Eligible(x, from, to)
    {
      KeptIsDistinct(rows, from, to);
      InRangeIff(x, from, to);
    }
    InRangeIff(r, from, to);
    KeptIsDistinct(rows, from, to);
    if r.msgID != "" && r.reqID != "" {
      KeyedIsCovered(rows, from, to, r);
    } else {
      UnkeyedAllCount(rows, from, to, r);
    }
  }

  // ------------------------------------------------------------------- selections

  datatype Key = Key(date: string, project: string, agent: string, model: string)

  datatype Dim = Models | Projects | Agents

  /** Row keys: the fast path reads neither project nor agent. */
  function KeyOf(full: bool, r: Row): Key {
    if full then Key(r.date, r.project, r.agent, r.model) else Key(r.date, "", "", r.model)
  }

  function DimOf(dim: Dim, k: Key): string {
    match dim
    case Models => k.model
    case Projects => k.project
    case Agents => k.agent
  }

  /** A way of choosing rows. */
  datatype Choice =
    | All
    | Keys(full: bool, keys: set<Key>)
    | Cells(dim: Dim, day: string, names: set<string>)
    | Days(days: set<string>)
    | Sessions(ids: set<string>)

  predicate Picks(c: Choice, r: Row) {
    match c
    case All => true
    case Keys(full, keys) => KeyOf(full, r) in keys
    case Cells(dim, day, names) => r.date == day && DimOf(dim, KeyOf(true, r)) in names
    case Days(days) => r.date in days
    case Sessions(ids) => r.sessionID in ids
  }

  /** What the chosen rows add up to. */
  ghost function Sum(rows: seq<Row>, pricing: Pricing, c: Choice): Bucket {
    if rows == [] then ZERO
    else
      var n := |rows| - 1;
      var before := Sum(rows[..n], pricing, c);
      if Picks(c, rows[n]) then Add(before, Value(pricing, rows[n])) else before
  }

  lemma SumSnoc(rows: seq<Row>, r: Row, pricing: Pricing, c: Choice)
    ensures Sum(rows + [r], pricing, c) ==
      if Picks(c, r) then Add(Sum(rows, pricing, c), Value(pricing, r)) else Sum(rows, pricing, c)
  {
    assert (rows + [r])[..|rows|] == rows;
  }

  lemma {:induction false} SumNone(rows: seq<Row>, pricing: Pricing, c: Choice)
    requires forall r | r in rows :: !Picks(c, r)
    ensures Sum(rows, pricing, c) == ZERO
  {
    if rows != [] {
      SumNone(rows[..|rows| - 1], pricing, c);
      assert rows[|rows| - 1] in rows;
    }
  }

  lemma {:induction false} SumSame(rows: seq<Row>, pricing: Pricing, c: Choice, d: Choice)
    requires forall r | r in rows :: Picks(c, r) <==> Picks(d, r)
    ensures Sum(rows, pricing, c) == Sum(rows, pricing, d)
  {
    if rows != [] {
      SumSame(rows[..|rows| - 1], pricing, c, d);
      assert rows[|rows| - 1] in rows;
    }
  }

  lemma {:induction false} SumSplits(rows: seq<Row>, pricing: Pricing, c: Choice, a: Choice, b: Choice)
    requires forall r | r in rows :: (Picks(c, r) <==> Picks(a, r) || Picks(b, r)) && !(Picks(a, r) && Picks(b, r))
    ensures Sum(rows, pricing, c) == Add(Sum(rows, pricing, a), Sum(rows, pricing, b))
  {
    if rows != [] {
      var front, last := rows[..|rows| - 1], rows[|rows| - 1];
      assert last in rows && forall r | r in front :: r in rows;
      SumSplits(front, pricing, c, a, b);
      AddMoves(Sum(front, pricing, a), Sum(front, pricing, b), Value(pricing, last));
    }
  }

  lemma AddMoves(a: Bucket, b: Bucket, v: Bucket)
    ensures Add(Add(a, b), v) == Add(Add(a, v), b) == Add(a, Add(b, v))
  {
  }

  // ---------------------------------------------------------------- accumulation

  ghost function KeysIn(rows: seq<Row>, full: bool): set<Key> {
    set r | r in rows :: KeyOf(full, r)
  }

  ghost predicate Grouped(rows: seq<Row>, pricing: Pricing, full: bool, accum: map<Key, Bucket>) {
    && accum.Keys == KeysIn(rows, full)
    && forall k | k in accum :: accum[k] == Sum(rows, pricing, Keys(full, {k}))
  }

  function Bumped<K>(m: map<K, Bucket>, k: K, b: Bucket): map<K, Bucket> {
    m[k := Add(if k in m then m[k] else ZERO, b)]
  }

  lemma GroupSnoc(rows: seq<Row>, r: Row, pricing: Pricing, full: bool, accum: map<Key, Bucket>)
    requires Grouped(rows, pricing, full, accum)
    ensures Grouped(rows + [r], pricing, full, Bumped(accum, KeyOf(full, r), Value(pricing, r)))
  {
    var k := KeyOf(full, r);
    var next := Bumped(accum, k, Value(pricing, r));
    assert KeysIn(rows + [r], full) == KeysIn(rows, full) + {k};
    forall x | x in next
      ensures next[x] == Sum(rows + [r], pricing, Keys(full, {x}))
    {
      SumSnoc(rows, r, pricing, Keys(full, {x}));
      if k !in accum && x == k {
        SumNone(rows, pricing, Keys(full, {k}));
      }
    }
  }

  ghost function Savings(rows: seq<Row>, pricing: Pricing): real {
    if rows == [] then 0.0
    else Savings(rows[..|rows| - 1], pricing) + SavingsOf(pricing, rows[|rows| - 1])
  }

  lemma SavingsSnoc(rows: seq<Row>, r: Row, pricing: Pricing)
    ensures Savings(rows + [r], pricing) == Savings(rows, pricing) + SavingsOf(pricing, r)
  {
    assert (rows + [r])[..|rows|] == rows;
  }

  method Accumulate(rows: seq<Row>, pricing: Pricing, from: string, to: string, full: bool)
    returns (accum: map<Key, Bucket>, savings: real)
    ensures Grouped(Kept(rows, from, to), pricing, full, accum)
    ensures savings == Savings(Kept(rows, from, to), pricing)
  {
    accum, savings := map[], 0.0;
    var seen: set<(string, string)> := {};
    for i := 0 to |rows|
      invariant Grouped(Kept(rows[..i], from, to), pricing, full, accum)
      invariant savings == Savings(Kept(rows[..i], from, to), pricing)
      invariant seen == DedupKeys(Kept(rows[..i], from, to))
    {
      var r := rows[i];
      KeptStep(rows, from, to, i);
      if !InRange(r, from, to) {
        continue;
      }
      if r.msgID != "" && r.reqID != "" {
        if (r.msgID, r.reqID) in seen {
          continue;
        }
        seen := seen + {(r.msgID, r.reqID)};
      }
      GroupSnoc(Kept(rows[..i], from, to), r, pricing, full, accum);
      SavingsSnoc(Kept(rows[..i], from, to), r, pricing);
      savings := savings + SavingsOf(pricing, r);
      accum := Bumped(accum, KeyOf(full, r), Value(pricing, r));
    }
    assert rows[..|rows|] == rows;
  }

  // ---------------------------------------------------------------------- tables

  /** The keys of one day that carry one name. */
  function Slice(keys: set<Key>, dim: Dim, day: string, name: string): set<Key> {
    set k | k in keys && k.date == day && DimOf(dim, k) == name
  }

  /** A per-name table of one day, built from the keys handled so far. */
  ghost predicate TableOK(table: map<string, Bucket>, rows: seq<Row>, pricing: Pricing, full: bool, done: set<Key>, dim: Dim, day: string) {
    && (forall x {:trigger x in table} :: x in table <==> Slice(done, dim, day, x) != {})
    && forall x | x in table :: table[x] == Sum(rows, pricing, Keys(full, Slice(done, dim, day, x)))
  }

  /** One more key changes its own name's slice only. */
  lemma SliceStep(rows: seq<Row>, pricing: Pricing, full: bool, done: set<Key>, dim: Dim, k: Key, b: Bucket, x: string)
    requires rows != [] && k !in done && b == Sum(rows, pricing, Keys(full, {k}))
    ensures x != DimOf(dim, k) ==> Slice(done + {k}, dim, k.date, x) == Slice(done, dim, k.date, x)
    ensures x == DimOf(dim, k) ==>
      && Slice(done + {k}, dim, k.date, x) != {}
      && Sum(rows, pricing, Keys(full, Slice(done + {k}, dim, k.date, x))) == Add(Sum(rows, pricing, Keys(full, Slice(done, dim, k.date, x))), b)
    ensures Slice(done, dim, k.date, x) == {} ==> Sum(rows, pricing, Keys(full, Slice(done, dim, k.date, x))) == ZERO
  {
    var was, now := Slice(done, dim, k.date, x), Slice(done + {k}, dim, k.date, x);
    if x == DimOf(dim, k) {
      assert now == was + {k} && k in now;
      SumSplits(rows, pricing, Keys(full, now), Keys(full, was), Keys(full, {k}));
    } else {
      assert now == was;
    }
    if was == {} {
      SumNone(rows, pricing, Keys(full, was));
    }
  }

  lemma TableStep(table: map<string, Bucket>, rows: seq<Row>, pricing: Pricing, full: bool, done: set<Key>, dim: Dim, k: Key, b: Bucket)
    requires TableOK(table, rows, pricing, full, done, dim, k.date)
    requires rows != [] && k !in done && b == Sum(rows, pricing, Keys(full, {k}))
    ensures TableOK(Bumped(table, DimOf(dim, k), b), rows, pricing, full, done + {k}, dim, k.date)
  {
    var next := Bumped(table, DimOf(dim, k), b);
    forall x
      ensures x in next <==> Slice(done + {k}, dim, k.date, x) != {}
      ensures x in next ==> next[x] == Sum(rows, pricing, Keys(full, Slice(done + {k}, dim, k.date, x)))
    {
      SliceStep(rows, pricing, full, done, dim, k, b, x);
    }
  }

  lemma TableOfOtherDay(table: map<string, Bucket>, rows: seq<Row>, pricing: Pricing, full: bool, done: set<Key>, dim: Dim, k: Key, day: string)
    requires TableOK(table, rows, pricing, full, done, dim, day) && k.date != day
    ensures TableOK(table, rows, pricing, full, done + {k}, dim, day)
  {
    forall x
      ensures Slice(done + {k}, dim, day, x) == Slice(done, dim, day, x)
    {
    }
  }

  lemma EmptyTableOK(rows: seq<Row>, pricing: Pricing, full: bool, done: set<Key>, dim: Dim, day: string)
    requires forall k | k in done :: k.date != day
    ensures TableOK(map[], rows, pricing, full, done, dim, day)
  {
    forall x
      ensures Slice(done, dim, day, x) == {}
    {
    }
  }

  datatype DayMaps = DayMaps(models: map<string, Bucket>, projects: map<string, Bucket>, agents: map<string, Bucket>)

  function Table(dm: DayMaps, dim: Dim): map<string, Bucket> {
    match dim
    case Models => dm.models
    case Projects => dm.projects
    case Agents => dm.agents
  }

  ghost predicate HasDay(done: set<Key>, day: string) {
    exists k | k in done :: k.date == day
  }

  ghost predicate DayOK(dm: DayMaps, rows: seq<Row>, pricing: Pricing, done: set<Key>, day: string) {
    forall dim :: TableOK(Table(dm, dim), rows, pricing, true, done, dim, day)
  }

  ghost predicate DaysOK(days: map<string, DayMaps>, rows: seq<Row>, pricing: Pricing, done: set<Key>) {
    && (forall d :: d in days <==> HasDay(done, d))
    && forall d | d in days :: DayOK(days[d], rows, pricing, done, d)
  }

  /** The breakdown path: one walk over the accumulator, in any order, fills all three tables of each day. */
  method BuildDays(ghost rows: seq<Row>, ghost pricing: Pricing, accum: map<Key, Bucket>) returns (days: map<string, DayMaps>)
    requires Grouped(rows, pricing, true, accum)
    ensures DaysOK(days, rows, pricing, accum.Keys)
  {
    days := map[];
    var todo := accum.Keys;
    while todo != {}
      invariant todo <= accum.Keys
      invariant DaysOK(days, rows, pricing, accum.Keys - todo)
    {
      var k :| k in todo;
      assert rows != [];
      ghost var done := accum.Keys - todo;
      var dm := if k.date in days then days[k.date] else DayMaps(map[], map[], map[]);
      if k.date !in days {
        assert !HasDay(done, k.date);
        forall dim
          ensures TableOK(Table(dm, dim), rows, pricing, true, done, dim, k.date)
        {
          EmptyTableOK(rows, pricing, true, done, dim, k.date);
        }
      }
      DayStep(days, dm, rows, pricing, done, k, accum[k]);
      days := days[k.date := BumpedDay(dm, k, accum[k])];
      todo := todo - {k};
      assert accum.Keys - todo == done + {k};
    }
    assert accum.Keys - todo == accum.Keys;
  }

  function BumpedDay(dm: DayMaps, k: Key, b: Bucket): DayMaps {
    DayMaps(Bumped(dm.models, k.model, b), Bumped(dm.projects, k.project, b), Bumped(dm.agents, k.agent, b))
  }

  lemma DayStep(days: map<string, DayMaps>, dm: DayMaps, rows: seq<Row>, pricing: Pricing, done: set<Key>, k: Key, b: Bucket)
    requires DaysOK(days, rows, pricing, done) && DayOK(dm, rows, pricing, done, k.date)
    requires rows != [] && k !in done && b == Sum(rows, pricing, Keys(true, {k}))
    ensures DaysOK(days[k.date := BumpedDay(dm, k, b)], rows, pricing, done + {k})
  {
    var next := days[k.date := BumpedDay(dm, k, b)];
    forall d
      ensures d in next <==> HasDay(done + {k}, d)
    {
      HasDayStep(done, k, d);
    }
    BumpedDayOK(dm, rows, pricing, done, k, b);
    forall d | d in next && d != k.date
      ensures DayOK(next[d], rows, pricing, done + {k}, d)
    {
      OtherDayOK(days[d], rows, pricing, done, k, d);
    }
  }

  lemma HasDayStep(done: set<Key>, k: Key, day: string)
    ensures HasDay(done + {k}, day) <==> HasDay(done, day) || day == k.date
  {
    if HasDay(done, day) {
      var x :| x in done && x.date == day;
      assert x in done + {k};
    }
    assert k in done + {k};
  }

  lemma BumpedDayOK(dm: DayMaps, rows: seq<Row>, pricing: Pricing, done: set<Key>, k: Key, b: Bucket)
    requires DayOK(dm, rows, pricing, done, k.date)
    requires rows != [] && k !in done && b == Sum(rows, pricing, Keys(true, {k}))
    ensures DayOK(BumpedDay(dm, k, b), rows, pricing, done + {k}, k.date)
  {
    forall dim
      ensures TableOK(Table(BumpedDay(dm, k, b), dim), rows, pricing, true, done + {k}, dim, k.date)
    {
      TableStep(Table(dm, dim), rows, pricing, true, done, dim, k, b);
    }
  }

  lemma OtherDayOK(dm: DayMaps, rows: seq<Row>, pricing: Pricing, done: set<Key>, k: Key, day: string)
    requires DayOK(dm, rows, pricing, done, day) && day != k.date
    ensures DayOK(dm, rows, pricing, done + {k}, day)
  {
    forall dim
      ensures TableOK(Table(dm, dim), rows, pricing, true, done + {k}, dim, day)
    {
      TableOfOtherDay(Table(dm, dim), rows, pricing, true, done, dim, k, day);
    }
  }

  /** The fast path regroups by (date, model) first ... */
  method GroupByDateModel(ghost rows: seq<Row>, ghost pricing: Pricing, accum: map<Key, Bucket>)
    returns (dm: map<(string, string), Bucket>)
    requires Grouped(rows, pricing, false, accum)
    ensures forall d, m :: (d, m) in dm <==> Slice(accum.Keys, Models, d, m) != {}
    ensures forall d, m | (d, m) in dm :: dm[(d, m)] == Sum(rows, pricing, Keys(false, Slice(accum.Keys, Models, d, m)))
  {
    dm := map[];
    var todo := accum.Keys;
    while todo != {}
      invariant todo <= accum.Keys
      invariant forall d, m :: (d, m) in dm <==> Slice(accum.Keys - todo, Models, d, m) != {}
      invariant forall d, m | (d, m) in dm ::
        dm[(d, m)] == Sum(rows, pricing, Keys(false, Slice(accum.Keys - todo, Models, d, m)))
    {
      var k :| k in todo;
      ghost var done := accum.Keys - todo;
      ghost var was := dm;
      dm := Bumped(dm, (k.date, k.model), accum[k]);
      todo := todo - {k};
      assert accum.Keys - todo == done + {k};
      forall d, m
        ensures (d, m) in dm <==> Slice(done + {k}, Models, d, m) != {}
        ensures (d, m) in dm ==> dm[(d, m)] == Sum(rows, pricing, Keys(false, Slice(done + {k}, Models, d, m)))
      {
        RegroupStep(was, rows, pricing, done, k, accum[k], d, m);
      }
    }
    assert accum.Keys - todo == accum.Keys;
  }

  lemma RegroupStep(
    dm: map<(string, string), Bucket>, rows: seq<Row>, pricing: Pricing, done: set<Key>, k: Key, b: Bucket, d: string, m: string)
    requires k !in done && b == Sum(rows, pricing, Keys(false, {k}))
    requires (d, m) in dm <==> Slice(done, Models, d, m) != {}
    requires (d, m) in dm ==> dm[(d, m)] == Sum(rows, pricing, Keys(false, Slice(done, Models, d, m)))
    ensures var next := Bumped(dm, (k.date, k.model), b);
      && ((d, m) in next <==> Slice(done + {k}, Models, d, m) != {})
      && ((d, m) in next ==> next[(d, m)] == Sum(rows, pricing, Keys(false, Slice(done + {k}, Models, d, m))))
  {
    var was, now := Slice(done, Models, d, m), Slice(done + {k}, Models, d, m);
    assert now == if (d, m) == (k.date, k.model) then was + {k} else was;
    if (d, m) == (k.date, k.model) {
      SumSplits(rows, pricing, Keys(false, now), Keys(false, was), Keys(false, {k}));
      if was == {} {
        SumNone(rows, pricing, Keys(false, was));
      }
    }
  }

  /** ... and then collects the models of each day. */
  method CollectDays(dm: map<(string, string), Bucket>) returns (days: map<string, map<string, Bucket>>)
    ensures forall d :: d in days <==> exists m :: (d, m) in dm
    ensures forall d, m | d in days :: m in days[d] <==> (d, m) in dm
    ensures forall d, m | d in days && m in days[d] :: days[d][m] == dm[(d, m)]
  {
    days := map[];
    var todo := dm.Keys;
    while todo != {}
      invariant todo <= dm.Keys
      invariant forall d :: d in days <==> exists m :: (d, m) in dm.Keys - todo
      invariant forall d, m | d in days :: m in days[d] <==> (d, m) in dm.Keys - todo
      invariant forall d, m | d in days && m in days[d] :: days[d][m] == dm[(d, m)]
    {
      var key :| key in todo;
      ghost var done, was := dm.Keys - todo, days;
      var models := if key.0 in days then days[key.0] else map[];
      days := days[key.0 := models[key.1 := dm[key]]];
      todo := todo - {key};
      assert dm.Keys - todo == done + {key};
      forall d
        ensures d in days <==> exists m :: (d, m) in dm.Keys - todo
      {
        if d == key.0 {
          assert (d, key.1) in dm.Keys - todo;
        } else if d in was {
          var m :| (d, m) in done;
          assert (d, m) in dm.Keys - todo;
        }
      }
    }
    assert dm.Keys - todo == dm.Keys;
  }

  // ----------------------------------------------------------------------- lines

  datatype Line = Line(name: string, b: Bucket)

  /** Most expensive first, then by name. */
  predicate LineLE(x: Line, y: Line) {
    if x.b.cost != y.b.cost then x.b.cost > y.b.cost else StringLE(x.name, y.name)
  }

  lemma LineOrder()
    ensures TotalOrder(LineLE)
  {
    StringOrder();
  }

  /** Exactly the rows of the table, in order. */
  ghost predicate Lists(lines: seq<Line>, table: map<string, Bucket>) {
    && SortedBy(lines, LineLE)
    && Covers(lines, table)
  }

  ghost predicate Covers(lines: seq<Line>, table: map<string, Bucket>) {
    && (forall i, j | 0 <= i < j < |lines| :: lines[i].name != lines[j].name)
    && (forall l | l in lines :: l.name in table && table[l.name] == l.b)
    && (forall x | x in table :: Line(x, table[x]) in lines)
  }

  method SortedLines(table: map<string, Bucket>) returns (lines: seq<Line>)
    ensures Lists(lines, table)
  {
    var unsorted: seq<Line> := [];
    var todo := table.Keys;
    while todo != {}
      invariant todo <= table.Keys
      invariant Covers(unsorted, table - todo)
    {
      var x :| x in todo;
      CoversStep(unsorted, table - todo, x, table[x]);
      assert table - (todo - {x}) == (table - todo)[x := table[x]];
      unsorted := unsorted + [Line(x, table[x])];
      todo := todo - {x};
    }
    assert table - todo == table;
    lines := Sort(unsorted, LineLE);
    LineOrder();
    SortSorts(unsorted, LineLE);
    CoversAnyOrder(unsorted, lines, table);
  }

  lemma CoversStep(lines: seq<Line>, table: map<string, Bucket>, x: string, b: Bucket)
    requires Covers(lines, table) && x !in table
    ensures Covers(lines + [Line(x, b)], table[x := b])
  {
    var next := lines + [Line(x, b)];
    assert next[|lines|] == Line(x, b);
    assert forall y | y in table :: Line(y, table[y]) in next;
  }

  lemma CoversAnyOrder(a: seq<Line>, b: seq<Line>, table: map<string, Bucket>)
    requires Covers(a, table) && multiset(a) == multiset(b)
    ensures Covers(b, table)
  {
    assert NoDuplicates(a);
    PermutationIsDistinct(a, b);
    forall i, j | 0 <= i < j < |b|
      ensures b[i].name != b[j].name
    {
      assert b[i] in b && b[j] in b;
    }
  }

  /** There is only one way to list a table. */
  lemma ListsIsUnique(a: seq<Line>, b: seq<Line>, table: map<string, Bucket>)
    requires Lists(a, table) && Lists(b, table)
    ensures a == b
  {
    StringOrder();
    DistinctIsItsSet(a);
    DistinctIsItsSet(b);
    forall l
      ensures l in a <==> l in b
    {
      if l in a || l in b {
        assert l == Line(l.name, table[l.name]);
      }
    }
    assert (set l | l in a) == (set l | l in b);
    assert NoTies(a, LineLE);
    SortedIsUnique(a, b, LineLE);
  }

  ghost function LinesTotal(lines: seq<Line>): Bucket {
    if lines == [] then ZERO else Add(LinesTotal(lines[..|lines| - 1]), lines[|lines| - 1].b)
  }

  method AddLines(lines: seq<Line>) returns (total: Bucket)
    ensures total == LinesTotal(lines)
  {
    total := ZERO;
    for i := 0 to |lines|
      invariant total == LinesTotal(lines[..i])
    {
      assert lines[..i + 1][..i] == lines[..i];
      total := Add(total, lines[i].b);
    }
    assert lines[..|lines|] == lines;
  }

  // ------------------------------------------------------------- the daily result

  datatype Entry = Entry(date: string, totals: Bucket, models: seq<Line>, projects: seq<Line>, agents: seq<Line>)

  datatype Daily = Daily(entries: seq<Entry>, totals: Bucket, savings: real)

  /** What the rows of one day give under each name. */
  ghost function CellTable(rows: seq<Row>, pricing: Pricing, dim: Dim, day: string): map<string, Bucket> {
    map x | x in NamesOn(rows, dim, day) :: Sum(rows, pricing, Cells(dim, day, {x}))
  }

  ghost function NamesOn(rows: seq<Row>, dim: Dim, day: string): set<string> {
    set r | r in rows && r.date == day :: DimOf(dim, KeyOf(true, r))
  }

  ghost function DatesOf(rows: seq<Row>): set<string> {
    set r | r in rows :: r.date
  }

  lemma NamesAreSlices(rows: seq<Row>, full: bool, dim: Dim, day: string, x: string)
    requires full || dim == Models
    ensures x in NamesOn(rows, dim, day) <==> Slice(KeysIn(rows, full), dim, day, x) != {}
  {
    if x in NamesOn(rows, dim, day) {
      var r :| r in rows && r.date == day && DimOf(dim, KeyOf(true, r)) == x;
      assert KeyOf(full, r) in Slice(KeysIn(rows, full), dim, day, x);
    }
    if k :| k in Slice(KeysIn(rows, full), dim, day, x) {
      var r :| r in rows && KeyOf(full, r) == k;
      assert r.date == day && DimOf(dim, KeyOf(true, r)) == x;
    }
  }

  lemma SliceIsCell(rows: seq<Row>, pricing: Pricing, full: bool, dim: Dim, day: string, x: string)
    requires full || dim == Models
    ensures Sum(rows, pricing, Keys(full, Slice(KeysIn(rows, full), dim, day, x))) == Sum(rows, pricing, Cells(dim, day, {x}))
  {
    var keys := KeysIn(rows, full);
    forall r | r in rows
      ensures Picks(Keys(full, Slice(keys, dim, day, x)), r) <==> Picks(Cells(dim, day, {x}), r)
    {
      assert KeyOf(full, r) in keys;
    }
    SumSame(rows, pricing, Keys(full, Slice(keys, dim, day, x)), Cells(dim, day, {x}));
  }

  lemma TableIsCells(table: map<string, Bucket>, rows: seq<Row>, pricing: Pricing, full: bool, dim: Dim, day: string)
    requires full || dim == Models
    requires TableOK(table, rows, pricing, full, KeysIn(rows, full), dim, day)
    ensures table == CellTable(rows, pricing, dim, day)
  {
    forall x
      ensures x in table <==> x in NamesOn(rows, dim, day)
      ensures x in table ==> table[x] == Sum(rows, pricing, Cells(dim, day, {x}))
    {
      NamesAreSlices(rows, full, dim, day, x);
      SliceIsCell(rows, pricing, full, dim, day, x);
    }
  }

  function NamesOf(lines: seq<Line>): set<string> {
    set l | l in lines :: l.name
  }

  /** The lines of a day, along any dimension, add up to the day. */
  lemma BreakdownAddsUp(lines: seq<Line>, rows: seq<Row>, pricing: Pricing, dim: Dim, day: string)
    requires Covers(lines, CellTable(rows, pricing, dim, day))
    ensures LinesTotal(lines) == Sum(rows, pricing, Days({day}))
  {
    if rows == [] {
      assert lines == [] && NamesOn(rows, dim, day) == {};
      return;
    }
    SomeLinesAddUp(lines, rows, pricing, dim, day);
    forall r | r in rows
      ensures Picks(Cells(dim, day, NamesOf(lines)), r) <==> Picks(Days({day}), r)
    {
      var x := DimOf(dim, KeyOf(true, r));
      if r.date == day {
        assert x in NamesOn(rows, dim, day);
        assert Line(x, CellTable(rows, pricing, dim, day)[x]) in lines;
      }
    }
    SumSame(rows, pricing, Cells(dim, day, NamesOf(lines)), Days({day}));
  }

  lemma {:induction false} SomeLinesAddUp(lines: seq<Line>, rows: seq<Row>, pricing: Pricing, dim: Dim, day: string)
    requires rows != [] && forall i, j | 0 <= i < j < |lines| :: lines[i].name != lines[j].name
    requires forall i | 0 <= i < |lines| :: lines[i].b == Sum(rows, pricing, Cells(dim, day, {lines[i].name}))
    ensures LinesTotal(lines) == Sum(rows, pricing, Cells(dim, day, NamesOf(lines)))
  {
    if lines == [] {
      SumNone(rows, pricing, Cells(dim, day, NamesOf(lines)));
    } else {
      var n := |lines| - 1;
      SomeLinesAddUp(lines[..n], rows, pricing, dim, day);
      NamesStep(lines);
      CellsStep(rows, pricing, dim, day, NamesOf(lines[..n]), lines[n].name);
    }
  }

  lemma NamesStep(lines: seq<Line>)
    requires lines != [] && forall i, j | 0 <= i < j < |lines| :: lines[i].name != lines[j].name
    ensures var n := |lines| - 1;
      NamesOf(lines) == NamesOf(lines[..n]) + {lines[n].name} && lines[n].name !in NamesOf(lines[..n])
  {
    assert lines == lines[..|lines| - 1] + [lines[|lines| - 1]];
  }

  lemma CellsStep(rows: seq<Row>, pricing: Pricing, dim: Dim, day: string, names: set<string>, x: string)
    requires x !in names
    ensures Sum(rows, pricing, Cells(dim, day, names + {x}))
         == Add(Sum(rows, pricing, Cells(dim, day, names)), Sum(rows, pricing, Cells(dim, day, {x})))
  {
    SumSplits(rows, pricing, Cells(dim, day, names + {x}), Cells(dim, day, names), Cells(dim, day, {x}));
  }

  /** The entry of one day, down to the order of its lines. */
  ghost predicate IsEntry(e: Entry, rows: seq<Row>, pricing: Pricing, day: string, breakdowns: bool) {
    && e.date == day
    && e.totals == Sum(rows, pricing, Days({day}))
    && Lists(e.models, CellTable(rows, pricing, Models, day))
    && (if breakdowns
        then Lists(e.projects, CellTable(rows, pricing, Projects, day)) && Lists(e.agents, CellTable(rows, pricing, Agents, day))
        else e.projects == [] && e.agents == [])
  }

  /** Each day with a counted message, once, in order. */
  ghost predicate ListsDays(dates: seq<string>, rows: seq<Row>) {
    SortedBy(dates, StringLE) && NoDuplicates(dates) && ToSet(dates) == DatesOf(rows)
  }

  ghost function ToSet(dates: seq<string>): set<string> {
    set d | d in dates
  }

  ghost predicate EntriesFit(entries: seq<Entry>, dates: seq<string>, rows: seq<Row>, pricing: Pricing, breakdowns: bool) {
    |entries| == |dates| && forall i | 0 <= i < |dates| :: IsEntry(entries[i], rows, pricing, dates[i], breakdowns)
  }

  ghost predicate IsDaily(d: Daily, rows: seq<Row>, pricing: Pricing, breakdowns: bool) {
    && ListsDays(Dates(d.entries), rows)
    && EntriesFit(d.entries, Dates(d.entries), rows, pricing, breakdowns)
    && d.totals == Sum(rows, pricing, All)
    && d.savings == Savings(rows, pricing)
  }

  function Dates(entries: seq<Entry>): seq<string> {
    seq(|entries|, i requires 0 <= i < |entries| => entries[i].date)
  }

  method SortedDates(days: set<string>) returns (dates: seq<string>)
    ensures SortedBy(dates, StringLE) && NoDuplicates(dates) && ToSet(dates) == days
  {
    var unsorted: seq<string> := [];
    var todo := days;
    while todo != {}
      invariant todo <= days && NoDuplicates(unsorted)
      invariant forall x :: x in unsorted <==> x in days - todo
    {
      var x :| x in todo;
      assert x !in unsorted;
      unsorted := unsorted + [x];
      todo := todo - {x};
    }
    dates := Sort(unsorted, StringLE);
    StringOrder();
    SortSorts(unsorted, StringLE);
    PermutationIsDistinct(unsorted, dates);
  }

  lemma DaysMatchDates(rows: seq<Row>, full: bool)
    ensures forall d :: HasDay(KeysIn(rows, full), d) <==> d in DatesOf(rows)
  {
    forall d
      ensures HasDay(KeysIn(rows, full), d) <==> d in DatesOf(rows)
    {
      if d in DatesOf(rows) {
        var r :| r in rows && r.date == d;
        assert KeyOf(full, r) in KeysIn(rows, full);
      }
    }
  }

  lemma DaysStep(dates: seq<string>, date: string, rows: seq<Row>, pricing: Pricing)
    requires date !in dates
    ensures Sum(rows, pricing, Days(ToSet(dates + [date]))) == Add(Sum(rows, pricing, Days(ToSet(dates))), Sum(rows, pricing, Days({date})))
  {
    assert ToSet(dates + [date]) == ToSet(dates) + {date};
    SumSplits(rows, pricing, Days(ToSet(dates + [date])), Days(ToSet(dates)), Days({date}));
  }

  lemma EntriesFitStep(entries: seq<Entry>, dates: seq<string>, rows: seq<Row>, pricing: Pricing, breakdowns: bool, e: Entry, date: string)
    requires EntriesFit(entries, dates, rows, pricing, breakdowns) && IsEntry(e, rows, pricing, date, breakdowns)
    ensures EntriesFit(entries + [e], dates + [date], rows, pricing, breakdowns)
  {
    forall i | 0 <= i < |dates| + 1
      ensures IsEntry((entries + [e])[i], rows, pricing, (dates + [date])[i], breakdowns)
    {
      if i < |dates| {
        assert (entries + [e])[i] == entries[i] && (dates + [date])[i] == dates[i];
      }
    }
  }

  /** The entries and the totals of the days collected so far. */
  ghost predicate Collects(
    entries: seq<Entry>, totals: Bucket, dates: seq<string>, rows: seq<Row>, pricing: Pricing, breakdowns: bool) {
    EntriesFit(entries, dates, rows, pricing, breakdowns) && totals == Sum(rows, pricing, Days(ToSet(dates)))
  }

  lemma CollectNone(dates: seq<string>, rows: seq<Row>, pricing: Pricing, breakdowns: bool)
    ensures Collects([], ZERO, dates[..0], rows, pricing, breakdowns)
  {
    SumNone(rows, pricing, Days(ToSet(dates[..0])));
  }

  lemma CollectStep(
    entries: seq<Entry>, totals: Bucket, dates: seq<string>, rows: seq<Row>, pricing: Pricing, breakdowns: bool, i: nat, e: Entry)
    requires rows != [] && i < |dates| && NoDuplicates(dates) && Collects(entries, totals, dates[..i], rows, pricing, breakdowns)
    requires IsEntry(e, rows, pricing, dates[i], breakdowns)
    ensures Collects(entries + [e], Add(totals, e.totals), dates[..i + 1], rows, pricing, breakdowns)
  {
    EntriesFitStep(entries, dates[..i], rows, pricing, breakdowns, e, dates[i]);
    assert dates[i] !in dates[..i];
    DaysStep(dates[..i], dates[i], rows, pricing);
    assert dates[..i + 1] == dates[..i] + [dates[i]];
  }

  lemma CollectedIsDaily(d: Daily, dates: seq<string>, rows: seq<Row>, pricing: Pricing, breakdowns: bool)
    requires Collects(d.entries, d.totals, dates, rows, pricing, breakdowns) && d.savings == Savings(rows, pricing)
    requires SortedBy(dates, StringLE) && NoDuplicates(dates) && ToSet(dates) == DatesOf(rows)
    ensures IsDaily(d, rows, pricing, breakdowns)
  {
    DaysAreAll(dates, rows, pricing);
    DatesFit(d.entries, dates, rows, pricing, breakdowns);
  }

  lemma DaysAreAll(dates: seq<string>, rows: seq<Row>, pricing: Pricing)
    requires ToSet(dates) == DatesOf(rows)
    ensures Sum(rows, pricing, Days(ToSet(dates))) == Sum(rows, pricing, All)
  {
    SumSame(rows, pricing, Days(ToSet(dates)), All);
  }

  lemma DatesFit(entries: seq<Entry>, dates: seq<string>, rows: seq<Row>, pricing: Pricing, breakdowns: bool)
    requires EntriesFit(entries, dates, rows, pricing, breakdowns)
    ensures Dates(entries) == dates
  {
  }

  method FastModels(ghost rows: seq<Row>, ghost pricing: Pricing, accum: map<Key, Bucket>) returns (days: map<string, map<string, Bucket>>)
    requires Grouped(rows, pricing, false, accum)
    ensures forall d :: d in days <==> d in DatesOf(rows)
    ensures forall d | d in days :: days[d] == CellTable(rows, pricing, Models, d)
  {
    var dm := GroupByDateModel(rows, pricing, accum);
    days := CollectDays(dm);
    FastDays(rows, accum.Keys, dm, days);
    forall d | d in days
      ensures days[d] == CellTable(rows, pricing, Models, d)
    {
      FastTable(rows, pricing, accum, dm, days[d], d);
    }
  }

  method FastDaily(ghost rows: seq<Row>, ghost pricing: Pricing, accum: map<Key, Bucket>, savings: real) returns (result: Daily)
    requires Grouped(rows, pricing, false, accum) && savings == Savings(rows, pricing)
    ensures IsDaily(result, rows, pricing, false)
  {
    var days := FastModels(rows, pricing, accum);
    var dates := SortedDates(days.Keys);
    var entries: seq<Entry>, totals := [], ZERO;
    CollectNone(dates, rows, pricing, false);
    for i := 0 to |dates|
      invariant Collects(entries, totals, dates[..i], rows, pricing, false)
    {
      var date := dates[i];
      assert date in DatesOf(rows);
      var e := FastEntry(rows, pricing, days[date], date);
      CollectStep(entries, totals, dates, rows, pricing, false, i, e);
      entries, totals := entries + [e], Add(totals, e.totals);
    }
    assert dates[..|dates|] == dates;
    result := Daily(entries, totals, savings);
    CollectedIsDaily(result, dates, rows, pricing, false);
  }

  method FastEntry(ghost rows: seq<Row>, ghost pricing: Pricing, models: map<string, Bucket>, date: string) returns (e: Entry)
    requires models == CellTable(rows, pricing, Models, date)
    ensures IsEntry(e, rows, pricing, date, false)
  {
    var lines := SortedLines(models);
    BreakdownAddsUp(lines, rows, pricing, Models, date);
    var total := AddLines(lines);
    e := Entry(date, total, lines, [], []);
  }

  lemma FastDays(rows: seq<Row>, keys: set<Key>, dm: map<(string, string), Bucket>, days: map<string, map<string, Bucket>>)
    requires keys == KeysIn(rows, false)
    requires forall d, m :: (d, m) in dm <==> Slice(keys, Models, d, m) != {}
    requires forall d :: d in days <==> exists m :: (d, m) in dm
    ensures forall d :: d in days <==> d in DatesOf(rows)
  {
    forall d
      ensures d in days <==> d in DatesOf(rows)
    {
      if d in DatesOf(rows) {
        var r :| r in rows && r.date == d;
        assert KeyOf(false, r) in Slice(keys, Models, d, r.model);
        assert (d, r.model) in dm;
      }
      if d in days {
        var m :| (d, m) in dm;
        var k :| k in Slice(keys, Models, d, m);
        var r :| r in rows && KeyOf(false, r) == k;
      }
    }
  }

  lemma FastTable(
    rows: seq<Row>, pricing: Pricing, accum: map<Key, Bucket>, dm: map<(string, string), Bucket>, models: map<string, Bucket>, date: string)
    requires Grouped(rows, pricing, false, accum)
    requires forall m :: (date, m) in dm <==> Slice(accum.Keys, Models, date, m) != {}
    requires forall m | (date, m) in dm :: dm[(date, m)] == Sum(rows, pricing, Keys(false, Slice(accum.Keys, Models, date, m)))
    requires forall m :: m in models <==> (date, m) in dm
    requires forall m | m in models :: models[m] == dm[(date, m)]
    ensures models == CellTable(rows, pricing, Models, date)
  {
    TableIsCells(models, rows, pricing, false, Models, date);
  }

  method BreakdownDaily(ghost rows: seq<Row>, ghost pricing: Pricing, accum: map<Key, Bucket>, savings: real) returns (result: Daily)
    requires Grouped(rows, pricing, true, accum) && savings == Savings(rows, pricing)
    ensures IsDaily(result, rows, pricing, true)
  {
    var days := BuildDays(rows, pricing, accum);
    DaysMatchDates(rows, true);
    var dates := SortedDates(days.Keys);
    var entries: seq<Entry>, totals := [], ZERO;
    CollectNone(dates, rows, pricing, true);
    for i := 0 to |dates|
      invariant Collects(entries, totals, dates[..i], rows, pricing, true)
    {
      var date := dates[i];
      assert date in DatesOf(rows);
      var e := BreakdownEntry(rows, pricing, days[date], date);
      CollectStep(entries, totals, dates, rows, pricing, true, i, e);
      entries, totals := entries + [e], Add(totals, e.totals);
    }
    assert dates[..|dates|] == dates;
    result := Daily(entries, totals, savings);
    CollectedIsDaily(result, dates, rows, pricing, true);
  }

  method BreakdownEntry(ghost rows: seq<Row>, ghost pricing: Pricing, dm: DayMaps, date: string) returns (e: Entry)
    requires DayOK(dm, rows, pricing, KeysIn(rows, true), date)
    ensures IsEntry(e, rows, pricing, date, true)
  {
    forall dim
      ensures Table(dm, dim) == CellTable(rows, pricing, dim, date)
    {
      TableIsCells(Table(dm, dim), rows, pricing, true, dim, date);
    }
    assert Table(dm, Models) == dm.models && Table(dm, Projects) == dm.projects && Table(dm, Agents) == dm.agents;
    var models := SortedLines(dm.models);
    BreakdownAddsUp(models, rows, pricing, Models, date);
    var total := AddLines(models);
    var projects := SortedLines(dm.projects);
    var agents := SortedLines(dm.agents);
    e := Entry(date, total, models, projects, agents);
  }

  method GetDailyUsage(rows: seq<Row>, pricing: Pricing, from: string, to: string, breakdowns: bool) returns (result: Daily)
    ensures IsDaily(result, Kept(rows, from, to), pricing, breakdowns)
  {
    var accum, savings := Accumulate(rows, pricing, from, to, breakdowns);
    if !breakdowns {
      result := FastDaily(Kept(rows, from, to), pricing, accum, savings);
    } else {
      result := BreakdownDaily(Kept(rows, from, to), pricing, accum, savings);
    }
  }

  // ------------------------------------------------------------------ they agree

  /** On every day the three breakdowns add up to the day's totals, and the days to the grand totals. */
  lemma EveryBreakdownAddsUp(d: Daily, rows: seq<Row>, pricing: Pricing, e: Entry)
    requires IsDaily(d, rows, pricing, true) && e in d.entries
    ensures LinesTotal(e.models) == LinesTotal(e.projects) == LinesTotal(e.agents) == e.totals
  {
    BreakdownAddsUp(e.models, rows, pricing, Models, e.date);
    BreakdownAddsUp(e.projects, rows, pricing, Projects, e.date);
    BreakdownAddsUp(e.agents, rows, pricing, Agents, e.date);
  }

  ghost function EntriesTotal(entries: seq<Entry>): Bucket {
    if entries == [] then ZERO else Add(EntriesTotal(entries[..|entries| - 1]), entries[|entries| - 1].totals)
  }

  lemma DaysAddUp(d: Daily, rows: seq<Row>, pricing: Pricing, breakdowns: bool)
    requires IsDaily(d, rows, pricing, breakdowns)
    ensures EntriesTotal(d.entries) == d.totals
  {
    SomeDaysAddUp(d.entries, rows, pricing);
    DaysAreAll(Dates(d.entries), rows, pricing);
  }

  lemma {:induction false} SomeDaysAddUp(entries: seq<Entry>, rows: seq<Row>, pricing: Pricing)
    requires NoDuplicates(Dates(entries))
    requires forall i | 0 <= i < |entries| :: entries[i].totals == Sum(rows, pricing, Days({entries[i].date}))
    ensures EntriesTotal(entries) == Sum(rows, pricing, Days(ToSet(Dates(entries))))
  {
    if entries == [] {
      SumNone(rows, pricing, Days(ToSet(Dates(entries))));
    } else {
      var n := |entries| - 1;
      var dates := Dates(entries);
      assert dates == Dates(entries[..n]) + [entries[n].date] && dates[n] !in dates[..n];
      SomeDaysAddUp(entries[..n], rows, pricing);
      DaysStep(dates[..n], dates[n], rows, pricing);
    }
  }

  function WithoutBreakdowns(d: Daily): Daily {
    Daily(seq(|d.entries|, i requires 0 <= i < |d.entries| => d.entries[i].(projects := [], agents := [])), d.totals, d.savings)
  }

  /** The fast path is the breakdown path without its project and agent lines, to the last line and its place. */
  lemma FastIsBreakdown(fast: Daily, full: Daily, rows: seq<Row>, pricing: Pricing)
    requires IsDaily(fast, rows, pricing, false) && IsDaily(full, rows, pricing, true)
    ensures fast == WithoutBreakdowns(full)
  {
    DaysAreUnique(Dates(fast.entries), Dates(full.entries), rows);
    assert |fast.entries| == |Dates(fast.entries)| == |full.entries|;
    forall i | 0 <= i < |fast.entries|
      ensures fast.entries[i] == full.entries[i].(projects := [], agents := [])
    {
      assert Dates(fast.entries)[i] == Dates(full.entries)[i];
      ListsIsUnique(fast.entries[i].models, full.entries[i].models, CellTable(rows, pricing, Models, fast.entries[i].date));
    }
  }

  /** There is only one way to list the days. */
  lemma DaysAreUnique(x: seq<string>, y: seq<string>, rows: seq<Row>)
    requires ListsDays(x, rows) && ListsDays(y, rows)
    ensures x == y
  {
    DistinctIsItsSet(x);
    DistinctIsItsSet(y);
    StringOrder();
    assert NoTies(x, StringLE);
    SortedIsUnique(x, y, StringLE);
  }

  /** What the rows would have cost had every cached token been billed as input. */
  function UncachedCost(pricing: Pricing, r: Row): real {
    var p := RatesOf(pricing, r.model);
    ((r.input + r.cacheCreation + r.cacheRead) as real * p.input + r.output as real * p.output) / 1000000.0
  }

  ghost function TotalUncached(rows: seq<Row>, pricing: Pricing): real {
    if rows == [] then 0.0
    else TotalUncached(rows[..|rows| - 1], pricing) + UncachedCost(pricing, rows[|rows| - 1])
  }

  lemma SavingsOfRow(pricing: Pricing, r: Row)
    ensures SavingsOf(pricing, r) == UncachedCost(pricing, r) - Value(pricing, r).cost
  {
    var p := RatesOf(pricing, r.model);
    var i, c, d := r.input as real, r.cacheCreation as real, r.cacheRead as real;
    assert (r.input + r.cacheCreation + r.cacheRead) as real == i + c + d;
    assert (i + c + d) * p.input == i * p.input + c * p.input + d * p.input;
    assert d * (p.input - p.cacheRead) == d * p.input - d * p.cacheRead;
    assert c * (p.input - p.cacheCreation) == c * p.input - c * p.cacheCreation;
  }

  /** Cache savings are the difference to an uncached run, over whatever mix of models. */
  lemma {:induction false} SavingsAreTheDifference(rows: seq<Row>, pricing: Pricing)
    ensures Savings(rows, pricing) == TotalUncached(rows, pricing) - Sum(rows, pricing, All).cost
  {
    if rows != [] {
      SavingsAreTheDifference(rows[..|rows| - 1], pricing);
      SavingsOfRow(pricing, rows[|rows| - 1]);
    }
  }
}
