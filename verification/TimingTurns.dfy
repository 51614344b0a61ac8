/** What the timing of a session shows, in terms of the rows it is read from (internal/db/timing.go). */
module TimingTurns {
  import opened Common
  import opened Timing

  // ----------------------------------------------------------------- attribution

  /** The call ran a sub-agent and its time is known. */
  predicate Timed(c: CallTiming) {
    c.subagent.Some? && c.durationMs.Some?
  }

  lemma {:induction false} SubTotalsAre(calls: seq<CallTiming>)
    ensures SubTotals(calls) == Filtered(calls, (c: CallTiming) => Timed(c), (c: CallTiming) => if Timed(c) then c.durationMs.value else 0)
    ensures NonSub(calls) == Filtered(calls, (c: CallTiming) => !Timed(c), (c: CallTiming) => c)
  {
    if calls != [] {
      SubTotalsAre(calls[..|calls| - 1]);
    }
  }

  /** The longest timed sub-agent among the calls, or nothing. */
  ghost predicate IsLongest(calls: seq<CallTiming>, longest: int) {
    && longest >= 0
    && (forall c | c in calls && Timed(c) :: c.durationMs.value <= longest)
    && (longest > 0 ==> exists c | c in calls :: Timed(c) && c.durationMs.value == longest)
  }

  lemma {:induction false} TimedInTotals(calls: seq<CallTiming>, d: int)
    ensures d in SubTotals(calls) <==> exists c :: c in calls && Timed(c) && c.durationMs.value == d
  {
    if calls != [] {
      var n := |calls| - 1;
      TimedInTotals(calls[..n], d);
      assert calls == calls[..n] + [calls[n]];
      if c :| c in calls && Timed(c) && c.durationMs.value == d {
        assert c == calls[n] || c in calls[..n];
      }
      if d in SubTotals(calls[..n]) {
        var c :| c in calls[..n] && Timed(c) && c.durationMs.value == d;
        assert c in calls;
      } else if Timed(calls[n]) && calls[n].durationMs.value == d {
        assert calls[n] in calls;
      }
    }
  }

  lemma UnionIsTheLongest(calls: seq<CallTiming>)
    ensures IsLongest(calls, SubUnion(SubTotals(calls)))
  {
    var ds := SubTotals(calls);
    UnionIsLongest(ds);
    forall c | c in calls && Timed(c)
      ensures c.durationMs.value <= SubUnion(ds)
    {
      TimedInTotals(calls, c.durationMs.value);
      var i :| 0 <= i < |ds| && ds[i] == c.durationMs.value;
    }
    if SubUnion(ds) > 0 {
      TimedInTotals(calls, SubUnion(ds));
    }
  }

  /** How many of the calls that are no timed sub-agents are of the category. */
  ghost function Plain(calls: seq<CallTiming>, category: string): int {
    Total(calls, (c: CallTiming) => if !Timed(c) && c.category == category then 1 else 0)
  }

  ghost function AllPlain(calls: seq<CallTiming>): int {
    Total(calls, (c: CallTiming) => if !Timed(c) then 1 else 0)
  }

  lemma CountSnoc(calls: seq<CallTiming>, c: CallTiming, category: string)
    ensures CountOf(calls + [c], category) == CountOf(calls, category) + if c.category == category then 1 else 0
  {
    assert (calls + [c])[..|calls|] == calls;
  }

  lemma NonSubStep(calls: seq<CallTiming>)
    requires calls != []
    ensures var n := |calls| - 1;
      NonSub(calls) == if Timed(calls[n]) then NonSub(calls[..n]) else NonSub(calls[..n]) + [calls[n]]
  {
  }

  lemma {:induction false} PlainIsCounted(calls: seq<CallTiming>, category: string)
    ensures CountOf(NonSub(calls), category) == Plain(calls, category)
  {
    if calls != [] {
      var n := |calls| - 1;
      PlainIsCounted(calls[..n], category);
      CountSnoc(NonSub(calls[..n]), calls[n], category);
      NonSubStep(calls);
    }
  }

  lemma {:induction false} AllPlainAreCounted(calls: seq<CallTiming>)
    ensures |NonSub(calls)| == AllPlain(calls)
  {
    if calls != [] {
      AllPlainAreCounted(calls[..|calls| - 1]);
    }
  }

  /**
   * A turn is put down to its sub-agents when the longest of them took at least as long as what is left of the turn,
   * else to the category of more than half of its other calls, and to none when there is no such category.
   */
  lemma AttributionIs(d: int, calls: seq<CallTiming>, a: Attribution, longest: int)
    requires Attributes(Some(d), calls, a) && IsLongest(calls, longest)
    ensures a.remainderMs == if d > longest then d - longest else 0
    ensures longest > 0 && longest >= d - longest ==> a.primaryCategory == "Task"
    ensures longest == 0 || longest < d - longest ==>
      || 2 * Plain(calls, a.primaryCategory) > AllPlain(calls)
      || (a.primaryCategory == "Mixed" && forall c :: 2 * Plain(calls, c) <= AllPlain(calls))
    ensures a.subagentDurations == Filtered(calls, (c: CallTiming) => Timed(c), (c: CallTiming) => if Timed(c) then c.durationMs.value else 0)
  {
    UnionIsTheLongest(calls);
    var u := SubUnion(SubTotals(calls));
    assert u == longest;
    SubTotalsAre(calls);
    AllPlainAreCounted(calls);
    forall c
      ensures Majority(NonSub(calls), c) <==> 2 * Plain(calls, c) > AllPlain(calls)
    {
      PlainIsCounted(calls, c);
    }
  }

  // --------------------------------------------------------------------- categories

  ghost function TimedMs(calls: seq<CallTiming>): int {
    Total(calls, (c: CallTiming) => if Timed(c) && c.durationMs.value > 0 then c.durationMs.value else 0)
  }

  ghost function TimedCalls(calls: seq<CallTiming>): int {
    Total(calls, (c: CallTiming) => if Timed(c) && c.durationMs.value > 0 then 1 else 0)
  }

  ghost function Longest(calls: seq<CallTiming>): int {
    if calls == [] then 0
    else
      var before, c := Longest(calls[..|calls| - 1]), calls[|calls| - 1];
      if Timed(c) && c.durationMs.value > before then c.durationMs.value else before
  }

  lemma {:induction false} LongestIs(calls: seq<CallTiming>)
    ensures IsLongest(calls, Longest(calls))
  {
    if calls != [] {
      var n := |calls| - 1;
      LongestIs(calls[..n]);
      assert calls == calls[..n] + [calls[n]];
    }
  }

  /** The time of a turn that is not its longest sub-agent's. */
  ghost function Remainder(t: TurnTiming): int {
    if t.durationMs.Some? && t.durationMs.value > Longest(t.calls) then t.durationMs.value - Longest(t.calls) else 0
  }

  /** What a turn adds to the time of a category: its remainder to its own, and every timed sub-agent to "Task". */
  ghost function TurnMs(t: TurnTiming, category: string): int {
    (if t.primaryCategory == category && Remainder(t) > 0 then Remainder(t) else 0)
    + if category == "Task" && t.durationMs.Some? then TimedMs(t.calls) else 0
  }

  /** And to its calls: all of its calls with the remainder, and one for every sub-agent that took time. */
  ghost function TurnCalls(t: TurnTiming, category: string): int {
    (if t.primaryCategory == category && Remainder(t) > 0 then |t.calls| else 0)
    + if category == "Task" && t.durationMs.Some? then TimedCalls(t.calls) else 0
  }

  lemma {:induction false} CallsInAppends(a: seq<Charge>, b: seq<Charge>, category: string)
    ensures CallsIn(a + b, category) == CallsIn(a, category) + CallsIn(b, category)
  {
    if b == [] {
      assert a + b == a;
    } else {
      var n := |b| - 1;
      assert (a + b)[..|a| + n] == a + b[..n];
      CallsInAppends(a, b[..n], category);
    }
  }

  lemma ChargeSnoc(charges: seq<Charge>, ms: int, category: string)
    ensures SumIn(charges + [Charge("Task", ms, 1)], {category})
         == SumIn(charges, {category}) + if ms > 0 && category == "Task" then ms else 0
    ensures CallsIn(charges + [Charge("Task", ms, 1)], category)
         == CallsIn(charges, category) + if ms > 0 && category == "Task" then 1 else 0
  {
    assert (charges + [Charge("Task", ms, 1)])[..|charges|] == charges;
  }

  lemma {:induction false} SubChargesAre(calls: seq<CallTiming>, category: string)
    ensures SumIn(SubCharges(SubTotals(calls)), {category}) == if category == "Task" then TimedMs(calls) else 0
    ensures CallsIn(SubCharges(SubTotals(calls)), category) == if category == "Task" then TimedCalls(calls) else 0
  {
    if calls != [] {
      var n := |calls| - 1;
      SubChargesAre(calls[..n], category);
      assert Timed(calls[n]) ==>
        SubCharges(SubTotals(calls)) == SubCharges(SubTotals(calls[..n])) + [Charge("Task", calls[n].durationMs.value, 1)];
      if Timed(calls[n]) {
        ChargeSnoc(SubCharges(SubTotals(calls[..n])), calls[n].durationMs.value, category);
      } else {
        assert SubTotals(calls) == SubTotals(calls[..n]);
      }
    }
  }

  /** The charges of one turn, category by category. */
  lemma ChargesAre(t: TurnTiming, a: Attribution, category: string)
    requires Attributes(t.durationMs, t.calls, a) && a.primaryCategory == t.primaryCategory
    ensures SumIn(Charges(a, |t.calls|), {category}) == TurnMs(t, category)
    ensures CallsIn(Charges(a, |t.calls|), category) == TurnCalls(t, category)
  {
    var first, rest := Charge(a.primaryCategory, a.remainderMs, |t.calls|), SubCharges(a.subagentDurations);
    assert Charges(a, |t.calls|) == [first] + rest;
    SumInAppends([first], rest, {category});
    CallsInAppends([first], rest, category);
    assert [first][..0] == [];
    if t.durationMs.Some? {
      SubChargesAre(t.calls, category);
      LongestIs(t.calls);
      AttributionIs(t.durationMs.value, t.calls, a, Longest(t.calls));
    }
  }

  /** A category's line adds up what the turns add to its time and to its calls. */
  lemma {:induction false} CategorySums(turns: seq<TurnTiming>, charges: seq<Charge>, category: string)
    requires ChargesOf(turns, charges)
    ensures SumIn(charges, {category}) == Total(turns, (t: TurnTiming) => TurnMs(t, category))
    ensures CallsIn(charges, category) == Total(turns, (t: TurnTiming) => TurnCalls(t, category))
  {
    if turns != [] {
      var t := turns[|turns| - 1];
      var before, a :| ChargesOf(turns[..|turns| - 1], before) && TurnCharges(t, before, a, charges);
      CategorySums(turns[..|turns| - 1], before, category);
      SumInAppends(before, Charges(a, |t.calls|), {category});
      CallsInAppends(before, Charges(a, |t.calls|), category);
      ChargesAre(t, a, category);
    }
  }

  /** The lines shown are those of the categories with time, and each holds what the turns add. */
  lemma LinesAre(list: seq<CategoryTotal>, turns: seq<TurnTiming>, charges: seq<Charge>, line: CategoryTotal)
    requires ChargesOf(turns, charges) && ListsTotals(list, charges) && line in list
    ensures line.durationMs == Total(turns, (t: TurnTiming) => TurnMs(t, line.category))
    ensures line.callCount == Total(turns, (t: TurnTiming) => TurnCalls(t, line.category))
  {
    CategorySums(turns, charges, line.category);
  }

  // ---------------------------------------------------------------------- a session

  /** The calls of a message: its rows in order, marked as parallel when there are several; a lone one takes the turn's time. */
  ghost function OwnCalls(calls: seq<CallRow>, messageID: int): seq<CallRow> {
    Filtered(calls, (r: CallRow) => r.messageID == messageID, (r: CallRow) => r)
  }

  lemma {:induction false} CallsAreOwn(calls: seq<CallRow>, messageID: int)
    ensures var own, shown := OwnCalls(calls, messageID), CallsOf(calls, messageID);
      |shown| == |own| && forall i | 0 <= i < |own| ::
        shown[i] == CallTiming(own[i].toolUseID, own[i].toolName, own[i].category, own[i].subagent, own[i].durationMs, false)
  {
    if calls != [] {
      CallsAreOwn(calls[..|calls| - 1], messageID);
    }
  }

  ghost predicate ShowsTurn(t: TurnTiming, row: TurnRow, calls: seq<CallRow>) {
    var own := OwnCalls(calls, row.messageID);
    && t.messageID == row.messageID && t.ordinal == row.ordinal && t.startedAt == row.timestamp && t.durationMs == row.durationMs
    && |t.calls| == |own|
    && forall i | 0 <= i < |own| :: ShowsCall(t.calls[i], own[i], |own| > 1, row.durationMs)
  }

  predicate ShowsCall(c: CallTiming, r: CallRow, parallel: bool, turnMs: Option<int>) {
    && c.toolUseID == r.toolUseID && c.toolName == r.toolName && c.category == r.category && c.subagent == r.subagent
    && c.isParallel == parallel
    && c.durationMs == if r.durationMs == None && r.subagent == None && !parallel then turnMs else r.durationMs
  }

  /** The turns shown are the rows with tool use, in order, and each shows its own calls. */
  lemma TurnsAreShown(out: SessionTiming, rows: seq<TurnRow>, calls: seq<CallRow>)
    requires Shows(out, rows, calls)
    ensures var tools := Filtered(rows, (r: TurnRow) => r.hasToolUse, (r: TurnRow) => r);
      && |out.turns| == |tools| && out.turnCount == |tools|
      && forall i | 0 <= i < |tools| :: ShowsTurn(out.turns[i], tools[i], calls)
  {
    ToolTurnsAre(rows);
    var tools := ToolTurns(rows);
    forall i | 0 <= i < |tools|
      ensures ShowsTurn(out.turns[i], tools[i], calls)
    {
      assert TurnOK(out.turns[i], tools[i], calls);
      CallsAreOwn(calls, tools[i].messageID);
    }
  }

  lemma {:induction false} ToolTurnsAre(rows: seq<TurnRow>)
    ensures ToolTurns(rows) == Filtered(rows, (r: TurnRow) => r.hasToolUse, (r: TurnRow) => r)
  {
    if rows != [] {
      ToolTurnsAre(rows[..|rows| - 1]);
    }
  }

  lemma {:induction false} ShownAdds(turns: seq<TurnTiming>)
    ensures |CallsShown(turns)| == Total(turns, (t: TurnTiming) => |t.calls|)
    ensures Subagents(CallsShown(turns)) == Total(turns, (t: TurnTiming) => Total(t.calls, (c: CallTiming) => if c.subagent.Some? then 1 else 0))
    ensures ToolMs(turns) == Total(turns, (t: TurnTiming) => if t.durationMs.Some? then t.durationMs.value else 0)
  {
    if turns != [] {
      var n := |turns| - 1;
      ShownAdds(turns[..n]);
      SubagentsAppend(CallsShown(turns[..n]), turns[n].calls);
      SubagentsAre(turns[n].calls);
    }
  }

  lemma {:induction false} SubagentsAre(calls: seq<CallTiming>)
    ensures Subagents(calls) == Total(calls, (c: CallTiming) => if c.subagent.Some? then 1 else 0)
  {
    if calls != [] {
      SubagentsAre(calls[..|calls| - 1]);
    }
  }

  /** The counters add up over the turns shown. */
  lemma CountersAre(out: SessionTiming, rows: seq<TurnRow>, calls: seq<CallRow>)
    requires Shows(out, rows, calls)
    ensures out.toolCallCount == Total(out.turns, (t: TurnTiming) => |t.calls|)
    ensures out.subagentCount == Total(out.turns, (t: TurnTiming) => Total(t.calls, (c: CallTiming) => if c.subagent.Some? then 1 else 0))
    ensures out.toolDurationMs == Total(out.turns, (t: TurnTiming) => if t.durationMs.Some? then t.durationMs.value else 0)
  {
    ShownAdds(out.turns);
  }

  lemma {:induction false} CallIsShown(turns: seq<TurnTiming>, c: CallTiming)
    ensures c in CallsShown(turns) <==> exists t :: t in turns && c in t.calls
  {
    if turns != [] {
      var n := |turns| - 1;
      CallIsShown(turns[..n], c);
      assert turns == turns[..n] + [turns[n]];
      if t :| t in turns && c in t.calls {
        assert t == turns[n] || t in turns[..n];
      }
      if c in turns[n].calls {
        assert turns[n] in turns;
      }
    }
  }

  /** The slowest call is one of the calls shown, and none took longer; there is one unless no time is known. */
  lemma SlowestIs(out: SessionTiming, rows: seq<TurnRow>, calls: seq<CallRow>, t: TurnTiming, c: CallTiming)
    requires Shows(out, rows, calls) && t in out.turns && c in t.calls && c.durationMs.Some?
    ensures out.slowestCall.Some? && out.slowestCall.value.durationMs.Some?
    ensures c.durationMs.value <= out.slowestCall.value.durationMs.value
    ensures exists u :: u in out.turns && out.slowestCall.value in u.calls
  {
    var shown := CallsShown(out.turns);
    CallIsShown(out.turns, c);
    var k :| 0 <= k < |shown| && IsFirstSlowest(shown, k) && out.slowestCall.value == shown[k];
    CallIsShown(out.turns, shown[k]);
  }
}
