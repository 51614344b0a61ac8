/**
 * Where the time of a session goes (internal/db/timing.go): turns split between their main category
 * and their sub-agents.
 */
module Timing {
  import opened Common
  import opened Ordering

  datatype TurnRow = TurnRow(messageID: int, ordinal: int, timestamp: string, hasToolUse: bool, durationMs: Option<int>)

  datatype CallRow = CallRow(
    messageID: int, toolUseID: string, toolName: string, category: string, subagent: Option<string>, durationMs: Option<int>)

  datatype CallTiming = CallTiming(
    toolUseID: string, toolName: string, category: string, subagent: Option<string>, durationMs: Option<int>, isParallel: bool)

  datatype TurnTiming = TurnTiming(
    messageID: int, ordinal: int, startedAt: string, durationMs: Option<int>, primaryCategory: string, calls: seq<CallTiming>)

  datatype CategoryTotal = CategoryTotal(category: string, durationMs: int, callCount: int)

  datatype SessionTiming = SessionTiming(
    toolDurationMs: int, turnCount: nat, toolCallCount: nat, subagentCount: nat, slowestCall: Option<CallTiming>,
    byCategory: seq<CategoryTotal>, turns: seq<TurnTiming>)

  function Max(a: int, b: int): int {
    if a >= b then a else b
  }

  // ----------------------------------------------------------------- attribution

  predicate IsSubagent(c: CallTiming) {
    c.subagent.Some? && c.durationMs.Some?
  }

  /** Durations of the timed sub-agents, in call order. */
  function SubTotals(calls: seq<CallTiming>): seq<int> {
    if calls == [] then []
    else
      var n := |calls| - 1;
      SubTotals(calls[..n]) + if IsSubagent(calls[n]) then [calls[n].durationMs.value] else []
  }

  function NonSub(calls: seq<CallTiming>): seq<CallTiming> {
    if calls == [] then []
    else
      var n := |calls| - 1;
      NonSub(calls[..n]) + if IsSubagent(calls[n]) then [] else [calls[n]]
  }

  /** The longest sub-agent, or nothing. */
  function SubUnion(ds: seq<int>): (m: int)
    ensures m >= 0
  {
    if ds == [] then 0 else Max(SubUnion(ds[..|ds| - 1]), ds[|ds| - 1])
  }

  function CountOf(calls: seq<CallTiming>, category: string): nat {
    if calls == [] then 0
    else CountOf(calls[..|calls| - 1], category) + if calls[|calls| - 1].category == category then 1 else 0
  }

  predicate Majority(calls: seq<CallTiming>, category: string) {
    CountOf(calls, category) * 2 > |calls|
  }

  lemma {:induction false} TwoCountsFit(calls: seq<CallTiming>, a: string, b: string)
    requires a != b
    ensures CountOf(calls, a) + CountOf(calls, b) <= |calls|
  {
    if calls != [] {
      TwoCountsFit(calls[..|calls| - 1], a, b);
    }
  }

  /** There is at most one majority, so it does not matter in which order the categories are looked at. */
  lemma MajorityIsUnique(calls: seq<CallTiming>, a: string, b: string)
    requires Majority(calls, a) && Majority(calls, b)
    ensures a == b
  {
    if a != b {
      TwoCountsFit(calls, a, b);
    }
  }

  ghost predicate IsPrimary(calls: seq<CallTiming>, primary: string) {
    Majority(calls, primary) || (primary == "Mixed" && forall c :: !Majority(calls, c))
  }

  datatype Attribution = Attribution(primaryCategory: string, remainderMs: int, subagentDurations: seq<int>)

  /** What a turn is attributed to. */
  ghost predicate Attributes(d: Option<int>, calls: seq<CallTiming>, a: Attribution) {
    if d.None? then a == Attribution("Mixed", 0, [])
    else
      var subs := SubTotals(calls);
      var union := SubUnion(subs);
      && a.subagentDurations == subs
      && a.remainderMs == Max(d.value - union, 0)
      && (if union > 0 && union >= a.remainderMs then a.primaryCategory == "Task" else IsPrimary(NonSub(calls), a.primaryCategory))
  }

  lemma AttributionIsUnique(d: Option<int>, calls: seq<CallTiming>, a: Attribution, b: Attribution)
    requires Attributes(d, calls, a) && Attributes(d, calls, b)
    ensures a == b
  {
    if d.Some? && a.primaryCategory != b.primaryCategory {
      var rest := NonSub(calls);
      assert IsPrimary(rest, a.primaryCategory) && IsPrimary(rest, b.primaryCategory);
      if Majority(rest, a.primaryCategory) && Majority(rest, b.primaryCategory) {
        MajorityIsUnique(rest, a.primaryCategory, b.primaryCategory);
      }
    }
  }

  ghost predicate CountsBy(counts: map<string, nat>, calls: seq<CallTiming>) {
    && (forall c | c in counts :: counts[c] == CountOf(calls, c))
    && (forall c :: c !in counts ==> CountOf(calls, c) == 0)
  }

  method CountCategories(calls: seq<CallTiming>) returns (counts: map<string, nat>)
    ensures CountsBy(counts, calls)
  {
    counts := map[];
    for i := 0 to |calls|
      invariant CountsBy(counts, calls[..i])
    {
      assert calls[..i + 1][..i] == calls[..i];
      var cat := calls[i].category;
      counts := counts[cat := (if cat in counts then counts[cat] else 0) + 1];
    }
    assert calls[..|calls|] == calls;
  }

  /** The map is walked in any order, and the walk stops at the first majority. */
  method PrimaryOf(calls: seq<CallTiming>) returns (primary: string)
    ensures IsPrimary(calls, primary)
  {
    var counts := CountCategories(calls);
    var todo := counts.Keys;
    while todo != {}
      invariant todo <= counts.Keys
      invariant forall c | c in counts && c !in todo :: !Majority(calls, c)
    {
      var cat :| cat in todo;
      if counts[cat] * 2 > |calls| {
        return cat;
      }
      todo := todo - {cat};
    }
    primary := "Mixed";
  }

  method AttributeTurn(d: Option<int>, calls: seq<CallTiming>) returns (a: Attribution)
    ensures Attributes(d, calls, a)
  {
    if d.None? {
      return Attribution("Mixed", 0, []);
    }
    var subTotals: seq<int> := [];
    var nonSub: seq<CallTiming> := [];
    for i := 0 to |calls|
      invariant subTotals == SubTotals(calls[..i]) && nonSub == NonSub(calls[..i])
    {
      assert calls[..i + 1][..i] == calls[..i];
      if calls[i].subagent.Some? && calls[i].durationMs.Some? {
        subTotals := subTotals + [calls[i].durationMs.value];
      } else {
        nonSub := nonSub + [calls[i]];
      }
    }
    assert calls[..|calls|] == calls;
    var subUnion := 0;
    for i := 0 to |subTotals|
      invariant subUnion == SubUnion(subTotals[..i])
    {
      assert subTotals[..i + 1][..i] == subTotals[..i];
      if subTotals[i] > subUnion {
        subUnion := subTotals[i];
      }
    }
    assert subTotals[..|subTotals|] == subTotals;
    var remainder := Max(d.value - subUnion, 0);
    if subUnion > 0 && subUnion >= remainder {
      return Attribution("Task", remainder, subTotals);
    }
    if |nonSub| == 0 {
      return Attribution("Mixed", remainder, subTotals);
    }
    var primary := PrimaryOf(nonSub);
    a := Attribution(primary, remainder, subTotals);
  }

  // --------------------------------------------------------------------- charges

  datatype Charge = Charge(category: string, ms: int, calls: int)

  /** What a turn puts into the category totals. */
  function Charges(a: Attribution, calls: nat): seq<Charge> {
    [Charge(a.primaryCategory, a.remainderMs, calls)]
    + seq(|a.subagentDurations|, i requires 0 <= i < |a.subagentDurations| => Charge("Task", a.subagentDurations[i], 1))
  }

  /** Only positive durations count. */
  function SumIn(charges: seq<Charge>, categories: set<string>): int {
    if charges == [] then 0
    else
      var c := charges[|charges| - 1];
      SumIn(charges[..|charges| - 1], categories) + if c.ms > 0 && c.category in categories then c.ms else 0
  }

  function CallsIn(charges: seq<Charge>, category: string): int {
    if charges == [] then 0
    else
      var c := charges[|charges| - 1];
      CallsIn(charges[..|charges| - 1], category) + if c.ms > 0 && c.category == category then c.calls else 0
  }

  function Used(charges: seq<Charge>): set<string> {
    set c | c in charges && c.ms > 0 :: c.category
  }

  ghost predicate Totals(m: map<string, CategoryTotal>, charges: seq<Charge>) {
    && m.Keys == Used(charges)
    && forall k | k in m :: m[k] == CategoryTotal(k, SumIn(charges, {k}), CallsIn(charges, k))
  }

  function Bucketed(m: map<string, CategoryTotal>, cat: string, dur: int, callCount: int): map<string, CategoryTotal> {
    if dur <= 0 then m
    else
      var t := if cat in m then m[cat] else CategoryTotal(cat, 0, 0);
      m[cat := t.(durationMs := t.durationMs + dur, callCount := t.callCount + callCount)]
  }

  lemma {:induction false} UnusedIsZero(charges: seq<Charge>, k: string)
    requires k !in Used(charges)
    ensures SumIn(charges, {k}) == 0 && CallsIn(charges, k) == 0
  {
    if charges != [] {
      var n := |charges| - 1;
      assert charges[n] in charges;
      assert Used(charges[..n]) <= Used(charges);
      UnusedIsZero(charges[..n], k);
    }
  }

  lemma BucketStep(m: map<string, CategoryTotal>, charges: seq<Charge>, c: Charge)
    requires Totals(m, charges)
    ensures Totals(Bucketed(m, c.category, c.ms, c.calls), charges + [c])
  {
    var next := Bucketed(m, c.category, c.ms, c.calls);
    assert Used(charges + [c]) == Used(charges) + if c.ms > 0 then {c.category} else {};
    assert (charges + [c])[..|charges|] == charges;
    if c.category !in m {
      UnusedIsZero(charges, c.category);
    }
  }

  lemma PrefixStep<T>(before: seq<T>, own: seq<T>, k: nat)
    requires k < |own|
    ensures before + own[..k] + [own[k]] == before + own[..k + 1]
  {
  }

  lemma PrefixEnds<T>(before: seq<T>, own: seq<T>)
    ensures before + own[..0] == before && own[..|own|] == own
  {
  }

  /** The charges of one turn go into the totals: the main category first, then every sub-agent. */
  method BucketTurn(m: map<string, CategoryTotal>, ghost charges: seq<Charge>, a: Attribution, calls: nat)
    returns (out: map<string, CategoryTotal>)
    requires Totals(m, charges)
    ensures Totals(out, charges + Charges(a, calls))
  {
    ghost var own := Charges(a, calls);
    out := Bucketed(m, a.primaryCategory, a.remainderMs, calls);
    BucketStep(m, charges, own[0]);
    assert charges + [own[0]] == charges + own[..1];
    for i := 0 to |a.subagentDurations|
      invariant Totals(out, charges + own[..i + 1])
    {
      BucketStep(out, charges + own[..i + 1], own[i + 1]);
      PrefixStep(charges, own, i + 1);
      out := Bucketed(out, "Task", a.subagentDurations[i], 1);
    }
    assert own[..|own|] == own;
  }

  // ---------------------------------------------------------- time is never lost

  function PositiveSum(ds: seq<int>): nat {
    if ds == [] then 0 else PositiveSum(ds[..|ds| - 1]) + Max(ds[|ds| - 1], 0)
  }

  /** What a turn of duration d with these sub-agents contributes to all categories together. */
  function Contribution(d: int, subs: seq<int>): int {
    Max(d - SubUnion(subs), 0) + PositiveSum(subs)
  }

  ghost predicate AtMostOnePositive(ds: seq<int>) {
    forall i, j | 0 <= i < j < |ds| :: ds[i] <= 0 || ds[j] <= 0
  }

  lemma {:induction false} UnionIsLongest(ds: seq<int>)
    ensures forall i | 0 <= i < |ds| :: ds[i] <= SubUnion(ds)
    ensures SubUnion(ds) == 0 || SubUnion(ds) in ds
    ensures PositiveSum(ds) >= SubUnion(ds)
  {
    if ds != [] {
      var n := |ds| - 1;
      UnionIsLongest(ds[..n]);
      if SubUnion(ds[..n]) in ds[..n] {
        assert ds == ds[..n] + [ds[n]];
      }
    }
  }

  lemma {:induction false} SumIsLongestIff(ds: seq<int>)
    ensures PositiveSum(ds) == SubUnion(ds) <==> AtMostOnePositive(ds)
  {
    if ds != [] {
      var n := |ds| - 1;
      SumIsLongestIff(ds[..n]);
      UnionIsLongest(ds[..n]);
      if ds[n] > 0 && AtMostOnePositive(ds) {
        assert SubUnion(ds[..n]) == 0;
      }
      if ds[n] > 0 && SubUnion(ds[..n]) > 0 {
        var i :| 0 <= i < n && ds[..n][i] == SubUnion(ds[..n]);
        assert ds[i] > 0 && ds[n] > 0;
      }
      if !AtMostOnePositive(ds[..n]) {
        var i, j :| 0 <= i < j < n && ds[..n][i] > 0 && ds[..n][j] > 0;
        assert ds[i] > 0 && ds[j] > 0;
      }
    }
  }

  /** A turn's time is conserved exactly when it is not negative and at most one sub-agent ran, no longer than it. */
  ghost predicate Conserved(d: int, subs: seq<int>) {
    d >= 0 && AtMostOnePositive(subs) && forall i | 0 <= i < |subs| :: subs[i] <= d
  }

  lemma ContributionIff(d: int, subs: seq<int>)
    ensures Contribution(d, subs) >= d
    ensures Contribution(d, subs) == d <==> Conserved(d, subs)
  {
    UnionIsLongest(subs);
    SumIsLongestIff(subs);
    if Conserved(d, subs) && SubUnion(subs) in subs {
      var i :| 0 <= i < |subs| && subs[i] == SubUnion(subs);
    }
  }

  lemma {:induction false} SumInAppends(a: seq<Charge>, b: seq<Charge>, categories: set<string>)
    ensures SumIn(a + b, categories) == SumIn(a, categories) + SumIn(b, categories)
  {
    if b == [] {
      assert a + b == a;
    } else {
      var n := |b| - 1;
      assert (a + b)[..|a| + n] == a + b[..n];
      SumInAppends(a, b[..n], categories);
    }
  }

  function SubCharges(ds: seq<int>): seq<Charge> {
    seq(|ds|, i requires 0 <= i < |ds| => Charge("Task", ds[i], 1))
  }

  lemma {:induction false} SubChargesSum(ds: seq<int>, categories: set<string>)
    requires "Task" in categories || PositiveSum(ds) == 0
    ensures SumIn(SubCharges(ds), categories) == PositiveSum(ds)
  {
    if ds != [] {
      var n := |ds| - 1;
      assert SubCharges(ds)[..n] == SubCharges(ds[..n]);
      SubChargesSum(ds[..n], categories);
    }
  }

  lemma {:induction false} PositiveChargeIsUsed(ds: seq<int>)
    ensures PositiveSum(ds) > 0 ==> "Task" in Used(SubCharges(ds))
  {
    if ds != [] {
      var n := |ds| - 1;
      assert SubCharges(ds) == SubCharges(ds[..n]) + [Charge("Task", ds[n], 1)];
      PositiveChargeIsUsed(ds[..n]);
    }
  }

  /** The charges of a turn, over any categories that include its own, add up to its contribution. */
  lemma ChargesSum(d: Option<int>, calls: seq<CallTiming>, a: Attribution, categories: set<string>)
    requires Attributes(d, calls, a) && Used(Charges(a, |calls|)) <= categories
    ensures SumIn(Charges(a, |calls|), categories) == if d.None? then 0 else Contribution(d.value, SubTotals(calls))
  {
    var own := Charges(a, |calls|);
    var first, rest := Charge(a.primaryCategory, a.remainderMs, |calls|), SubCharges(a.subagentDurations);
    assert own == [first] + rest;
    SumInAppends([first], rest, categories);
    assert SumIn([first], categories) == Max(a.remainderMs, 0) by {
      assert [first][..0] == [];
      assert first.ms > 0 ==> first.category in Used(own);
    }
    assert Used(rest) <= Used(own);
    PositiveChargeIsUsed(a.subagentDurations);
    SubChargesSum(a.subagentDurations, categories);
  }

  // ---------------------------------------------------------------------- a session

  /** The calls of one message, in row order. */
  function CallsOf(calls: seq<CallRow>, messageID: int): seq<CallTiming> {
    if calls == [] then []
    else
      var n := |calls| - 1;
      CallsOf(calls[..n], messageID) + if calls[n].messageID == messageID then [TimingOf(calls[n])] else []
  }

  function TimingOf(r: CallRow): CallTiming {
    CallTiming(r.toolUseID, r.toolName, r.category, r.subagent, r.durationMs, false)
  }

  /** A lone call that is no sub-agent takes the duration of its turn. */
  function Shown(d: Option<int>, calls: seq<CallTiming>): seq<CallTiming> {
    seq(|calls|, i requires 0 <= i < |calls| =>
      calls[i].(isParallel := |calls| > 1,
        durationMs := if |calls| <= 1 && calls[i].subagent.None? && calls[i].durationMs.None? then d else calls[i].durationMs))
  }

  ghost predicate Groups(m: map<int, seq<CallTiming>>, calls: seq<CallRow>) {
    && (forall id | id in m :: m[id] == CallsOf(calls, id))
    && (forall id :: id !in m ==> CallsOf(calls, id) == [])
  }

  method GroupCalls(calls: seq<CallRow>) returns (m: map<int, seq<CallTiming>>)
    ensures Groups(m, calls)
  {
    m := map[];
    for i := 0 to |calls|
      invariant Groups(m, calls[..i])
    {
      var r := calls[i];
      assert calls[..i + 1][..i] == calls[..i];
      m := m[r.messageID := (if r.messageID in m then m[r.messageID] else []) + [TimingOf(r)]];
    }
    assert calls[..|calls|] == calls;
  }

  /** A maximum over the timed calls, and the first one. */
  ghost predicate IsSlowest(slowest: Option<CallTiming>, calls: seq<CallTiming>) {
    && (slowest.None? <==> forall c | c in calls :: c.durationMs.None?)
    && (slowest.Some? ==> exists k | 0 <= k < |calls| :: IsFirstSlowest(calls, k) && slowest.value == calls[k])
  }

  ghost predicate IsFirstSlowest(calls: seq<CallTiming>, k: nat)
    requires k < |calls|
  {
    && calls[k].durationMs.Some?
    && (forall j | 0 <= j < |calls| && calls[j].durationMs.Some? :: calls[j].durationMs.value <= calls[k].durationMs.value)
    && (forall j | 0 <= j < k && calls[j].durationMs.Some? :: calls[j].durationMs.value < calls[k].durationMs.value)
  }

  function Slower(slowest: Option<CallTiming>, c: CallTiming): Option<CallTiming> {
    if c.durationMs.Some? && (slowest.None? || slowest.value.durationMs.None? || c.durationMs.value > slowest.value.durationMs.value)
    then Some(c) else slowest
  }

  lemma SlowestStep(slowest: Option<CallTiming>, calls: seq<CallTiming>, c: CallTiming)
    requires IsSlowest(slowest, calls)
    ensures IsSlowest(Slower(slowest, c), calls + [c])
  {
    var all := calls + [c];
    assert c in all;
    if slowest.Some? {
      var k :| 0 <= k < |calls| && IsFirstSlowest(calls, k) && slowest.value == calls[k];
      if Slower(slowest, c) == slowest {
        assert IsFirstSlowest(all, k) && all[k] == slowest.value;
        assert all[k] in all;
      } else {
        assert IsFirstSlowest(all, |calls|);
      }
    } else if c.durationMs.Some? {
      forall j | 0 <= j < |calls|
        ensures all[j].durationMs.None?
      {
        assert all[j] in calls;
      }
      assert IsFirstSlowest(all, |calls|);
    }
  }

  method SlowestOf(slowest: Option<CallTiming>, ghost before: seq<CallTiming>, calls: seq<CallTiming>) returns (out: Option<CallTiming>)
    requires IsSlowest(slowest, before)
    ensures IsSlowest(out, before + calls)
  {
    out := slowest;
    PrefixEnds(before, calls);
    for i := 0 to |calls|
      invariant IsSlowest(out, before + calls[..i])
    {
      SlowestStep(out, before + calls[..i], calls[i]);
      PrefixStep(before, calls, i);
      out := Slower(out, calls[i]);
    }
  }

  function ToolTurns(turns: seq<TurnRow>): seq<TurnRow> {
    if turns == [] then []
    else
      var n := |turns| - 1;
      ToolTurns(turns[..n]) + if turns[n].hasToolUse then [turns[n]] else []
  }

  ghost function CallsShown(turns: seq<TurnTiming>): seq<CallTiming> {
    if turns == [] then [] else CallsShown(turns[..|turns| - 1]) + turns[|turns| - 1].calls
  }

  ghost function ToolMs(turns: seq<TurnTiming>): int {
    if turns == [] then 0
    else ToolMs(turns[..|turns| - 1]) + (var d := turns[|turns| - 1].durationMs; if d.Some? then d.value else 0)
  }

  /** The charges of all turns; each turn's attribution is determined by its duration and calls. */
  ghost predicate ChargesOf(turns: seq<TurnTiming>, charges: seq<Charge>) {
    if turns == [] then charges == []
    else
      var t := turns[|turns| - 1];
      exists before, a :: ChargesOf(turns[..|turns| - 1], before) && TurnCharges(t, before, a, charges)
  }

  ghost predicate TurnCharges(t: TurnTiming, before: seq<Charge>, a: Attribution, charges: seq<Charge>) {
    Attributes(t.durationMs, t.calls, a) && a.primaryCategory == t.primaryCategory && charges == before + Charges(a, |t.calls|)
  }

  lemma ChargesStep(turns: seq<TurnTiming>, t: TurnTiming, before: seq<Charge>, a: Attribution)
    requires ChargesOf(turns, before) && Attributes(t.durationMs, t.calls, a) && a.primaryCategory == t.primaryCategory
    ensures ChargesOf(turns + [t], before + Charges(a, |t.calls|))
  {
    var all, charges := turns + [t], before + Charges(a, |t.calls|);
    assert all[..|all| - 1] == turns;
    assert ChargesOf(all[..|all| - 1], before) && TurnCharges(all[|all| - 1], before, a, charges);
  }

  ghost predicate TurnOK(t: TurnTiming, row: TurnRow, calls: seq<CallRow>) {
    && t.messageID == row.messageID && t.ordinal == row.ordinal && t.startedAt == row.timestamp && t.durationMs == row.durationMs
    && t.calls == Shown(row.durationMs, CallsOf(calls, row.messageID))
  }

  /** The turns shown are those with tool use, each with its own calls. */
  ghost predicate TurnsOK(turns: seq<TurnTiming>, rows: seq<TurnRow>, calls: seq<CallRow>) {
    var tools := ToolTurns(rows);
    |turns| == |tools| && forall i | 0 <= i < |turns| :: TurnOK(turns[i], tools[i], calls)
  }

  function Subagents(calls: seq<CallTiming>): nat {
    if calls == [] then 0
    else Subagents(calls[..|calls| - 1]) + if calls[|calls| - 1].subagent.Some? then 1 else 0
  }

  lemma {:induction false} SubagentsAppend(a: seq<CallTiming>, b: seq<CallTiming>)
    ensures Subagents(a + b) == Subagents(a) + Subagents(b)
  {
    if b == [] {
      assert a + b == a;
    } else {
      var n := |b| - 1;
      assert (a + b)[..|a| + n] == a + b[..n];
      SubagentsAppend(a, b[..n]);
    }
  }

  /** Message ids are the primary key of the message table. */
  ghost predicate DistinctMessages(turns: seq<TurnRow>) {
    forall i, j | 0 <= i < j < |turns| :: turns[i].messageID != turns[j].messageID
  }

  /** The counters and the slowest call are those of the turns shown. */
  ghost predicate Shows(out: SessionTiming, rows: seq<TurnRow>, calls: seq<CallRow>) {
    && TurnsOK(out.turns, rows, calls)
    && out.toolDurationMs == ToolMs(out.turns)
    && out.turnCount == |out.turns|
    && out.toolCallCount == |CallsShown(out.turns)|
    && out.subagentCount == Subagents(CallsShown(out.turns))
    && IsSlowest(out.slowestCall, CallsShown(out.turns))
  }

  /** The running state after some of the rows. */
  ghost predicate Assembled(
    out: SessionTiming, m: map<string, CategoryTotal>, charges: seq<Charge>, rows: seq<TurnRow>, calls: seq<CallRow>)
  {
    Shows(out, rows, calls) && ChargesOf(out.turns, charges) && Totals(m, charges)
  }

  method AssembleTiming(turns: seq<TurnRow>, calls: seq<CallRow>) returns (out: SessionTiming, ghost charges: seq<Charge>)
    requires DistinctMessages(turns)
    ensures Shows(out, turns, calls)
    ensures ChargesOf(out.turns, charges) && ListsTotals(out.byCategory, charges)
  {
    var callsByMsg := GroupCalls(calls);
    var m: map<string, CategoryTotal> := map[];
    out := SessionTiming(0, 0, 0, 0, None, [], []);
    charges := [];
    for i := 0 to |turns|
      invariant Assembled(out, m, charges, turns[..i], calls)
    {
      assert turns[..i + 1][..i] == turns[..i];
      if !turns[i].hasToolUse {
        continue;
      }
      out, m, charges := AddTurn(out, m, charges, turns[..i], turns[i], callsByMsg, calls);
      assert turns[..i] + [turns[i]] == turns[..i + 1];
    }
    assert turns[..|turns|] == turns;
    var byCategory := SortedTotals(m, charges);
    out := out.(byCategory := byCategory);
  }

  method AddTurn(
    was: SessionTiming, m: map<string, CategoryTotal>, ghost charges: seq<Charge>, ghost rows: seq<TurnRow>, t: TurnRow,
    callsByMsg: map<int, seq<CallTiming>>, ghost calls: seq<CallRow>)
    returns (out: SessionTiming, m': map<string, CategoryTotal>, ghost charges': seq<Charge>)
    requires Assembled(was, m, charges, rows, calls) && Groups(callsByMsg, calls) && t.hasToolUse
    ensures Assembled(out, m', charges', rows + [t], calls)
  {
    var own := if t.messageID in callsByMsg then callsByMsg[t.messageID] else [];
    var turnCalls := Shown(t.durationMs, own);
    var slowest := SlowestOf(was.slowestCall, CallsShown(was.turns), turnCalls);
    var a := AttributeTurn(t.durationMs, turnCalls);
    m' := BucketTurn(m, charges, a, |turnCalls|);
    charges' := charges + Charges(a, |turnCalls|);
    var timing := TurnTiming(t.messageID, t.ordinal, t.timestamp, t.durationMs, a.primaryCategory, turnCalls);
    var n := CountSubagents(turnCalls);
    out := WithTurn(was, timing, slowest, n);
    ChargesStep(was.turns, timing, charges, a);
    WithTurnStep(was, timing, slowest, n, rows, t, calls);
  }

  function WithTurn(was: SessionTiming, t: TurnTiming, slowest: Option<CallTiming>, subagents: nat): SessionTiming {
    SessionTiming(
      was.toolDurationMs + (if t.durationMs.Some? then t.durationMs.value else 0), was.turnCount + 1,
      was.toolCallCount + |t.calls|, was.subagentCount + subagents, slowest, was.byCategory, was.turns + [t])
  }

  lemma WithTurnStep(was: SessionTiming, t: TurnTiming, slowest: Option<CallTiming>, n: nat, rows: seq<TurnRow>, row: TurnRow, calls: seq<CallRow>)
    requires Shows(was, rows, calls) && TurnOK(t, row, calls) && row.hasToolUse && n == Subagents(t.calls)
    requires IsSlowest(slowest, CallsShown(was.turns) + t.calls)
    ensures Shows(WithTurn(was, t, slowest, n), rows + [row], calls)
  {
    TurnStep(was.turns, rows, calls, row, t);
    SubagentsAppend(CallsShown(was.turns), t.calls);
    TurnTotals(was.turns, t);
  }

  lemma TurnTotals(turns: seq<TurnTiming>, t: TurnTiming)
    ensures CallsShown(turns + [t]) == CallsShown(turns) + t.calls
    ensures ToolMs(turns + [t]) == ToolMs(turns) + if t.durationMs.Some? then t.durationMs.value else 0
  {
    assert (turns + [t])[..|turns|] == turns;
  }

  method CountSubagents(calls: seq<CallTiming>) returns (n: nat)
    ensures n == Subagents(calls)
  {
    n := 0;
    for i := 0 to |calls|
      invariant n == Subagents(calls[..i])
    {
      assert calls[..i + 1][..i] == calls[..i];
      if calls[i].subagent.Some? {
        n := n + 1;
      }
    }
    assert calls[..|calls|] == calls;
  }

  lemma TurnStep(turns: seq<TurnTiming>, rows: seq<TurnRow>, calls: seq<CallRow>, row: TurnRow, t: TurnTiming)
    requires TurnsOK(turns, rows, calls) && row.hasToolUse && TurnOK(t, row, calls)
    ensures TurnsOK(turns + [t], rows + [row], calls)
  {
    assert (rows + [row])[..|rows|] == rows;
  }

  /** The totals as a list: one line for each category that got time, longest first. */
  ghost predicate ListsTotals(list: seq<CategoryTotal>, charges: seq<Charge>) {
    && (forall i, j | 0 <= i < j < |list| :: list[i].durationMs >= list[j].durationMs)
    && ListsSome(list, charges, Used(charges))
  }

  ghost predicate ListsSome(list: seq<CategoryTotal>, charges: seq<Charge>, categories: set<string>) {
    && NoDuplicates(list)
    && (forall t :: t in list <==> t.category in categories && t == CategoryTotal(t.category, SumIn(charges, {t.category}), CallsIn(charges, t.category)))
  }

  predicate LongerFirst(a: CategoryTotal, b: CategoryTotal) {
    a.durationMs >= b.durationMs
  }

  method SortedTotals(m: map<string, CategoryTotal>, ghost charges: seq<Charge>) returns (list: seq<CategoryTotal>)
    requires Totals(m, charges)
    ensures ListsTotals(list, charges)
  {
    var unsorted: seq<CategoryTotal> := [];
    var todo := m.Keys;
    while todo != {}
      invariant todo <= m.Keys
      invariant ListsSome(unsorted, charges, m.Keys - todo)
    {
      var k :| k in todo;
      assert m[k] !in unsorted;
      unsorted := unsorted + [m[k]];
      todo := todo - {k};
    }
    assert m.Keys - todo == Used(charges);
    list := Sort(unsorted, LongerFirst);
    assert TotalOrder(LongerFirst);
    SortSorts(unsorted, LongerFirst);
    PermutationIsDistinct(unsorted, list);
    forall i, j | 0 <= i < j < |list|
      ensures list[i].durationMs >= list[j].durationMs
    {
      assert LongerFirst(list[i], list[j]);
    }
  }

  // ------------------------------------------------------------------ main results

  ghost function ListTotal(list: seq<CategoryTotal>): int {
    if list == [] then 0 else ListTotal(list[..|list| - 1]) + list[|list| - 1].durationMs
  }

  lemma {:induction false} SumInSplits(charges: seq<Charge>, a: set<string>, k: string)
    requires k !in a
    ensures SumIn(charges, a + {k}) == SumIn(charges, a) + SumIn(charges, {k})
  {
    if charges != [] {
      SumInSplits(charges[..|charges| - 1], a, k);
    }
  }

  lemma {:induction false} SumInNothing(charges: seq<Charge>)
    ensures SumIn(charges, {}) == 0
  {
    if charges != [] {
      SumInNothing(charges[..|charges| - 1]);
    }
  }

  function Categories(list: seq<CategoryTotal>): set<string> {
    set t | t in list :: t.category
  }

  lemma {:induction false} ListAddsUp(list: seq<CategoryTotal>, charges: seq<Charge>)
    requires forall t | t in list :: t.durationMs == SumIn(charges, {t.category})
    requires forall i, j | 0 <= i < j < |list| :: list[i].category != list[j].category
    ensures ListTotal(list) == SumIn(charges, Categories(list))
  {
    if list == [] {
      assert Categories(list) == {};
      SumInNothing(charges);
    } else {
      var n := |list| - 1;
      ListAddsUp(list[..n], charges);
      assert list == list[..n] + [list[n]];
      assert Categories(list) == Categories(list[..n]) + {list[n].category};
      assert list[n] in list;
      SumInSplits(charges, Categories(list[..n]), list[n].category);
    }
  }

  ghost function Contributions(turns: seq<TurnTiming>): int {
    if turns == [] then 0
    else
      var t := turns[|turns| - 1];
      Contributions(turns[..|turns| - 1]) + if t.durationMs.None? then 0 else Contribution(t.durationMs.value, SubTotals(t.calls))
  }

  lemma {:induction false} ChargesAreContributions(turns: seq<TurnTiming>, charges: seq<Charge>, categories: set<string>)
    requires ChargesOf(turns, charges) && Used(charges) <= categories
    ensures SumIn(charges, categories) == Contributions(turns)
  {
    if turns != [] {
      var t := turns[|turns| - 1];
      var before, a :| ChargesOf(turns[..|turns| - 1], before) && TurnCharges(t, before, a, charges);
      assert Used(charges) == Used(before) + Used(Charges(a, |t.calls|));
      ChargesAreContributions(turns[..|turns| - 1], before, categories);
      SumInAppends(before, Charges(a, |t.calls|), categories);
      ChargesSum(t.durationMs, t.calls, a, categories);
    }
  }

  lemma CategoriesAddUp(list: seq<CategoryTotal>, turns: seq<TurnTiming>, charges: seq<Charge>)
    requires ChargesOf(turns, charges) && ListsTotals(list, charges)
    ensures ListTotal(list) == Contributions(turns)
  {
    forall i, j | 0 <= i < j < |list|
      ensures list[i].category != list[j].category
    {
      assert list[i] in list && list[j] in list;
    }
    ListAddsUp(list, charges);
    forall k | k in Used(charges)
      ensures k in Categories(list)
    {
      assert CategoryTotal(k, SumIn(charges, {k}), CallsIn(charges, k)) in list;
    }
    ChargesAreContributions(turns, charges, Categories(list));
  }

  /** No time is lost: the categories together hold at least the time of all turns ... */
  lemma CategoriesHoldAllTime(list: seq<CategoryTotal>, turns: seq<TurnTiming>, charges: seq<Charge>)
    requires ChargesOf(turns, charges) && ListsTotals(list, charges)
    ensures ListTotal(list) >= ToolMs(turns)
    ensures ListTotal(list) == ToolMs(turns) <==> forall t | t in turns && t.durationMs.Some? :: Conserved(t.durationMs.value, SubTotals(t.calls))
  {
    CategoriesAddUp(list, turns, charges);
    ContributionsIff(turns);
  }

  /** ... and exactly that much when no turn has overlapping or overlong sub-agents. */
  lemma {:induction false} ContributionsIff(turns: seq<TurnTiming>)
    ensures Contributions(turns) >= ToolMs(turns)
    ensures Contributions(turns) == ToolMs(turns) <==> forall t | t in turns && t.durationMs.Some? :: Conserved(t.durationMs.value, SubTotals(t.calls))
  {
    if turns != [] {
      var n := |turns| - 1;
      ContributionsIff(turns[..n]);
      assert turns == turns[..n] + [turns[n]];
      if turns[n].durationMs.Some? {
        ContributionIff(turns[n].durationMs.value, SubTotals(turns[n].calls));
      }
    }
  }

  /** A turn that overlaps its sub-agents: 100 ms with two sub-agents of 60 ms are charged as 160. */
  lemma OverlappingSubagentsCountTwice(first: CallTiming, second: CallTiming, a: Attribution)
    requires IsSubagent(first) && IsSubagent(second) && first.durationMs == second.durationMs == Some(60)
    requires Attributes(Some(100), [first, second], a)
    ensures a == Attribution("Task", 40, [60, 60])
    ensures SumIn(Charges(a, 2), Used(Charges(a, 2))) == 160 && !Conserved(100, a.subagentDurations)
  {
    var calls := [first, second];
    assert calls[..1] == [first] && calls[..1][..0] == [];
    assert SubTotals(calls[..1]) == [60] && SubTotals(calls) == [60, 60];
    assert [60, 60][..1] == [60] && [60][..0] == [];
    assert SubUnion([60]) == 60 && SubUnion([60, 60]) == 60;
    assert PositiveSum([60]) == 60 && PositiveSum([60, 60]) == 120;
    assert [60, 60][0] > 0 && [60, 60][1] > 0;
    ChargesSum(Some(100), calls, a, Used(Charges(a, 2)));
  }
}
