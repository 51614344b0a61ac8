/** What a run of snapshots folds to, and where one run ends and the next begins (internal/parser/claude.go). */
module ClaudeEndings {
  // Until a snapshot ends the turn, later ones overlay what is there; from then on they can only add.

  import opened Common
  import opened ClaudeChunks

  /** The merged blocks of a run. */
  ghost function Shown(run: seq<Entry>): seq<Block>
    requires run != []
  {
    if MergedRun(run).content.Blocks? then MergedRun(run).content.blocks else []
  }

  predicate EndsTurn(e: Entry) {
    e.content.Blocks? && e.stopReason == "end_turn"
  }

  ghost predicate NoneEnds(run: seq<Entry>) {
    forall k | 0 <= k < |run| :: !EndsTurn(run[k])
  }

  /** The same block, or for tool calls one with the same id. */
  predicate Equivalent(b: Block, c: Block) {
    b == c || (b.ToolUse? && b.id != "" && c.ToolUse? && c.id == b.id)
  }

  ghost predicate Holds(blocks: seq<Block>, b: Block) {
    exists j | 0 <= j < |blocks| :: Equivalent(b, blocks[j])
  }

  // ------------------------------------------------------------- the fold, in these terms

  lemma AppendKeepsSome(merged: seq<Block>, snapshot: seq<Block>)
    requires snapshot != []
    ensures AppendNew(merged, snapshot) != []
  {
    var b := snapshot[|snapshot| - 1];
    var before := AppendNew(merged, snapshot[..|snapshot| - 1]);
    if Exists(b, before) {
      var j :| 0 <= j < |before| && SameBlock(b, before[j]);
    }
  }

  lemma FoldIsShown(run: seq<Entry>)
    requires run != []
    ensures Fold(run).merged == Shown(run)
  {
    var e := run[|run| - 1];
    var s := Fold(run[..|run| - 1]);
    if e.content.Blocks? && e.content.blocks != [] {
      AppendKeepsSome(s.merged, e.content.blocks);
    }
  }

  lemma {:induction false} EndedIff(run: seq<Entry>)
    ensures Fold(run).ended <==> !NoneEnds(run)
  {
    if run != [] {
      var n := |run| - 1;
      EndedIff(run[..n]);
      assert run == run[..n] + [run[n]];
      assert forall k | 0 <= k < n :: run[..n][k] == run[k];
      if !NoneEnds(run) && !EndsTurn(run[n]) {
        var k :| 0 <= k < |run| && EndsTurn(run[k]);
        assert EndsTurn(run[..n][k]);
      }
    }
  }

  lemma HoldsIff(b: Block, blocks: seq<Block>)
    ensures Exists(b, blocks) <==> Holds(blocks, b)
  {
    forall j | 0 <= j < |blocks|
      ensures SameBlock(b, blocks[j]) <==> Equivalent(b, blocks[j])
    {
    }
  }

  /** What is appended: the blocks that have no equivalent before them, in order. */
  ghost predicate Appends(before: seq<Block>, snapshot: seq<Block>, after: seq<Block>) {
    && before <= after
    && (forall b | b in snapshot :: Holds(after, b))
    && (forall i | |before| <= i < |after| :: after[i] in snapshot && !Holds(after[..i], after[i]))
  }

  lemma HoldsMore(blocks: seq<Block>, b: Block, c: Block)
    requires Holds(blocks, b)
    ensures Holds(blocks + [c], b)
  {
    var j :| 0 <= j < |blocks| && Equivalent(b, blocks[j]);
    assert Equivalent(b, (blocks + [c])[j]);
  }

  lemma HoldsItself(blocks: seq<Block>, b: Block)
    ensures Holds(blocks + [b], b)
  {
    assert Equivalent(b, (blocks + [b])[|blocks|]);
  }

  lemma {:induction false} NewIsAppended(merged: seq<Block>, snapshot: seq<Block>)
    ensures Appends(merged, snapshot, AppendNew(merged, snapshot))
  {
    if snapshot != [] {
      var n := |snapshot| - 1;
      var b, before := snapshot[n], AppendNew(merged, snapshot[..n]);
      NewIsAppended(merged, snapshot[..n]);
      HoldsIff(b, before);
      assert snapshot == snapshot[..n] + [b];
      if !Exists(b, before) {
        AppendsOne(merged, snapshot[..n], before, b);
      }
    }
  }

  lemma AppendsOne(merged: seq<Block>, snapshot: seq<Block>, before: seq<Block>, b: Block)
    requires Appends(merged, snapshot, before) && !Holds(before, b)
    ensures Appends(merged, snapshot + [b], before + [b])
  {
    var after := before + [b];
    forall x | x in snapshot + [b]
      ensures Holds(after, x)
    {
      if x in snapshot {
        HoldsMore(before, x, b);
      } else {
        HoldsItself(before, b);
      }
    }
    forall i | |merged| <= i < |after|
      ensures after[i] in snapshot + [b] && !Holds(after[..i], after[i])
    {
      assert after[..i] == before[..i];
      assert i == |before| ==> before[..i] == before;
    }
  }

  // ---------------------------------------------------------------------- main results

  /** Everything but the content is that of the last snapshot. */
  lemma RestIsTheLasts(run: seq<Entry>)
    requires run != []
    ensures MergedRun(run) == run[|run| - 1].(content := MergedRun(run).content)
    ensures Shown(run) == [] ==> MergedRun(run) == run[|run| - 1]
  {
    FoldIsShown(run);
  }

  /** A snapshot whose content is no list of blocks changes nothing. */
  lemma OpaqueAddsNothing(run: seq<Entry>, e: Entry)
    requires run != [] && e.content.Opaque?
    ensures Shown(run + [e]) == Shown(run)
  {
    FoldIsShown(run);
    FoldIsShown(run + [e]);
    assert (run + [e])[..|run|] == run;
  }

  /** After the end of the turn a snapshot only adds what has no equivalent yet. */
  lemma EndedTurnAppends(run: seq<Entry>, e: Entry)
    requires run != [] && e.content.Blocks? && !NoneEnds(run)
    ensures Appends(Shown(run), e.content.blocks, Shown(run + [e]))
  {
    FoldIsShown(run);
    FoldIsShown(run + [e]);
    EndedIff(run);
    assert (run + [e])[..|run|] == run;
    NewIsAppended(Shown(run), e.content.blocks);
  }

  /** So what was merged by then stays, block for block, whatever follows. */
  lemma {:induction false} EndedTurnStays(run: seq<Entry>, k: nat, n: nat)
    requires k < n <= |run| && EndsTurn(run[k])
    ensures Shown(run[..k + 1]) <= Shown(run[..n])
    decreases n
  {
    if k + 1 < n {
      EndedTurnStays(run, k, n - 1);
      assert run[..n] == run[..n - 1] + [run[n - 1]];
      assert EndsTurn(run[..n - 1][k]);
      if run[n - 1].content.Blocks? {
        EndedTurnAppends(run[..n - 1], run[n - 1]);
      } else {
        OpaqueAddsNothing(run[..n - 1], run[n - 1]);
      }
    }
  }

  /** And every block of a later snapshot is there: itself, or for a tool call one with its id. */
  lemma {:induction false} LaterBlocksAreKept(run: seq<Entry>, k: nat, j: nat, n: nat, b: Block)
    requires k < j < n <= |run| && EndsTurn(run[k]) && run[j].content.Blocks? && b in run[j].content.blocks
    ensures Holds(Shown(run[..n]), b)
    decreases n
  {
    assert run[..n] == run[..n - 1] + [run[n - 1]];
    assert EndsTurn(run[..n - 1][k]);
    if j == n - 1 {
      EndedTurnAppends(run[..n - 1], run[n - 1]);
    } else {
      LaterBlocksAreKept(run, k, j, n - 1, b);
      if run[n - 1].content.Blocks? {
        EndedTurnAppends(run[..n - 1], run[n - 1]);
        HoldsLonger(Shown(run[..n - 1]), Shown(run[..n]), b);
      } else {
        OpaqueAddsNothing(run[..n - 1], run[n - 1]);
      }
    }
  }

  lemma HoldsLonger(a: seq<Block>, b: seq<Block>, x: Block)
    requires Holds(a, x) && a <= b
    ensures Holds(b, x)
  {
    var j :| 0 <= j < |a| && Equivalent(x, a[j]);
    assert Equivalent(x, b[j]);
  }

  /** The two blocks at one place can be snapshots of one block. */
  predicate Continues(was: Block, now: Block) {
    match (was, now)
    case (Text(s, _), Text(t, _)) => s <= t || t <= s
    case (ToolUse(i, _), ToolUse(j, _)) => if i == "" || j == "" then was == now else i == j
    case _ => was == now
  }

  /** The later one of the two, unless it is a shorter text. */
  function Latest(was: Block, now: Block): Block {
    if was.Text? && now.Text? && |now.text| < |was.text| then was else now
  }

  ghost predicate Continued(was: seq<Block>, now: seq<Block>) {
    forall i | 0 <= i < |was| && i < |now| :: Continues(was[i], now[i])
  }

  /** Place by place the latest block, and what only one of the two has. */
  ghost predicate Overlays(was: seq<Block>, now: seq<Block>, out: seq<Block>) {
    && |out| == (if |was| < |now| then |now| else |was|)
    && forall i | 0 <= i < |out| ::
      out[i] == if i >= |now| then was[i] else if i >= |was| then now[i] else Latest(was[i], now[i])
  }

  lemma AlignIsContinues(a: Block, b: Block)
    ensures Align(a, b) <==> Continues(a, b)
    ensures Align(a, b) ==> PickLatest(a, b) == Latest(a, b)
  {
  }

  /** As long as no snapshot has ended the turn, one that continues the others overlays them, and any other one adds to them. */
  lemma OpenTurnOverlays(run: seq<Entry>, e: Entry)
    requires run != [] && e.content.Blocks? && NoneEnds(run)
    ensures Continued(Shown(run), e.content.blocks) ==> Overlays(Shown(run), e.content.blocks, Shown(run + [e]))
    ensures !Continued(Shown(run), e.content.blocks) ==> Appends(Shown(run), e.content.blocks, Shown(run + [e]))
  {
    FoldIsShown(run);
    FoldIsShown(run + [e]);
    EndedIff(run);
    assert (run + [e])[..|run|] == run;
    var was, now := Shown(run), e.content.blocks;
    forall i | 0 <= i < |was| && i < |now|
      ensures Align(was[i], now[i]) <==> Continues(was[i], now[i])
      ensures Align(was[i], now[i]) ==> PickLatest(was[i], now[i]) == Latest(was[i], now[i])
    {
      AlignIsContinues(was[i], now[i]);
    }
    NewIsAppended(was, now);
  }

  // ----------------------------------------------------------------- where runs begin

  /** Both are snapshots of one assistant message. */
  predicate OneMessage(a: Entry, b: Entry) {
    a.assistant && b.assistant && a.messageID != "" && a.messageID == b.messageID
  }

  lemma OneMessageIff(a: Entry, b: Entry)
    ensures SameMessage(a, b) <==> OneMessage(a, b)
  {
  }

  /** How many of the entries i, i + 1, ... do not carry on the message before them; the first counts in any case. */
  ghost function Beginnings(es: seq<Entry>, i: nat): nat
    requires i <= |es|
    decreases |es| - i
  {
    if i == |es| then 0
    else (if i > 0 && OneMessage(es[i - 1], es[i]) then 0 else 1) + Beginnings(es, i + 1)
  }

  lemma {:induction false} RunsAreBeginnings(es: seq<Entry>, i: nat)
    requires i < |es|
    ensures Runs(es, i) == 1 + Beginnings(es, i + 1)
    decreases |es| - i
  {
    if i + 1 < |es| {
      OneMessageIff(es[i], es[i + 1]);
      RunsAreBeginnings(es, i + 1);
      if SameMessage(es[i], es[i + 1]) {
        assert RunEnd(es, i) == RunEnd(es, i + 1);
      } else {
        assert RunEnd(es, i) == i + 1;
      }
    }
  }

  /** The merged file has one entry for every message. */
  lemma OneEntryPerMessage(es: seq<Entry>)
    ensures |MergedChunks(es)| == Beginnings(es, 0)
  {
    OneEntryPerRun(es, 0);
    if es != [] {
      RunsAreBeginnings(es, 0);
    }
  }

  lemma {:induction false} RunToTheEnd(es: seq<Entry>, i: nat)
    requires i < |es| && forall k | i < k < |es| :: OneMessage(es[k - 1], es[k])
    ensures RunEnd(es, i) == |es|
    decreases |es| - i
  {
    if i + 1 < |es| {
      OneMessageIff(es[i], es[i + 1]);
      RunToTheEnd(es, i + 1);
    }
  }

  /** Snapshots of one message become the one entry that they fold to; a lone entry stays as it is. */
  lemma OneMessageIsOneEntry(es: seq<Entry>)
    requires es != [] && forall k | 0 < k < |es| :: OneMessage(es[k - 1], es[k])
    ensures MergedChunks(es) == [if |es| == 1 then es[0] else MergedRun(es)]
  {
    RunToTheEnd(es, 0);
    assert es[0..|es|] == es;
    MergedHead(es, 0);
  }
}
