/** Folding streaming snapshots into one entry (internal/parser/claude.go). */
module ClaudeChunks {
  // mergeClaudeAssistantMessageChunks and its helpers.  A content block is taken as parsed: the fields the
  // merge looks at, and the rest of its raw JSON as an opaque string.  Two blocks have the same raw JSON
  // exactly when they are equal.

  import opened Common

  datatype Block =
    | Text(text: string, raw: string)
    | ToolUse(id: string, raw: string)
    | Other(kind: string, raw: string)

  /** Content is either an array of blocks or something else, which the merge skips. */
  datatype Content = Blocks(blocks: seq<Block>) | Opaque(raw: string)

  /** meta stands for everything else the last snapshot of a run owns: timestamp, usage, flags. */
  datatype Entry = Entry(
    uuid: string, parentUuid: string,
    assistant: bool, messageID: string, stopReason: string, content: Content, meta: string)

  // -------------------------------------------------------------- one snapshot

  predicate Align(a: Block, b: Block) {
    match (a, b)
    case (Text(s, _), Text(t, _)) => s == t || s <= t || t <= s
    case (ToolUse(i, _), ToolUse(j, _)) => if i != "" && j != "" then i == j else a == b
    case (_, _) => a == b
  }

  function PickLatest(existing: Block, candidate: Block): Block {
    match (existing, candidate)
    case (Text(s, _), Text(t, _)) => if |t| >= |s| then candidate else existing
    case (ToolUse(_, _), ToolUse(_, _)) => candidate
    case (Other(k, _), Other(l, _)) => if k == l then existing else candidate
    case (_, _) => candidate
  }

  predicate SameBlock(target: Block, b: Block) {
    if target.ToolUse? && target.id != "" then b.ToolUse? && b.id == target.id else b == target
  }

  ghost predicate Exists(target: Block, blocks: seq<Block>) {
    exists j | 0 <= j < |blocks| :: SameBlock(target, blocks[j])
  }

  ghost predicate Cumulative(merged: seq<Block>, snapshot: seq<Block>) {
    forall i | 0 <= i < |merged| && i < |snapshot| :: Align(merged[i], snapshot[i])
  }

  /** Position by position, the snapshot updates what is there and extends it. */
  ghost function Overlay(merged: seq<Block>, snapshot: seq<Block>): (out: seq<Block>)
    ensures |out| == if |merged| >= |snapshot| then |merged| else |snapshot|
  {
    seq(if |merged| >= |snapshot| then |merged| else |snapshot|, i requires 0 <= i =>
      if i < |merged| && i < |snapshot| then PickLatest(merged[i], snapshot[i])
      else if i < |merged| then merged[i]
      else if i < |snapshot| then snapshot[i]
      else Other("", ""))
  }

  /** The blocks of the snapshot that are not there yet, appended one after the other. */
  ghost function AppendNew(merged: seq<Block>, snapshot: seq<Block>): seq<Block> {
    if snapshot == [] then merged
    else
      var before := AppendNew(merged, snapshot[..|snapshot| - 1]);
      var b := snapshot[|snapshot| - 1];
      if Exists(b, before) then before else before + [b]
  }

  ghost function MergedSnapshot(merged: seq<Block>, snapshot: seq<Block>, runEnded: bool): seq<Block> {
    if !runEnded && Cumulative(merged, snapshot) then Overlay(merged, snapshot) else AppendNew(merged, snapshot)
  }

  method SnapshotIsCumulative(merged: seq<Block>, snapshot: seq<Block>) returns (b: bool)
    ensures b <==> Cumulative(merged, snapshot)
  {
    if |merged| == 0 || |snapshot| == 0 {
      return true;
    }
    var n := if |snapshot| < |merged| then |snapshot| else |merged|;
    for i := 0 to n
      invariant forall j | 0 <= j < i :: Align(merged[j], snapshot[j])
    {
      if !Align(merged[i], snapshot[i]) {
        return false;
      }
    }
    b := true;
  }

  method BlockExistsIn(target: Block, blocks: seq<Block>) returns (found: bool)
    ensures found <==> Exists(target, blocks)
  {
    for i := 0 to |blocks|
      invariant forall j | 0 <= j < i :: !SameBlock(target, blocks[j])
    {
      if SameBlock(target, blocks[i]) {
        return true;
      }
    }
    found := false;
  }

  method MergeSnapshot(earlier: seq<Block>, snapshot: seq<Block>, runEnded: bool) returns (merged: seq<Block>)
    ensures merged == MergedSnapshot(earlier, snapshot, runEnded)
  {
    merged := earlier;
    var cumulative := SnapshotIsCumulative(merged, snapshot);
    if !runEnded && cumulative {
      for i := 0 to |snapshot|
        invariant |merged| == if i <= |earlier| then |earlier| else i
        invariant forall j | 0 <= j < |merged| ::
          merged[j] == if j < i then Overlay(earlier, snapshot)[j] else earlier[j]
      {
        if i < |merged| {
          merged := merged[i := PickLatest(merged[i], snapshot[i])];
        } else {
          merged := merged + [snapshot[i]];
        }
      }
      assert merged == Overlay(earlier, snapshot);
      return;
    }
    for i := 0 to |snapshot|
      invariant merged == AppendNew(earlier, snapshot[..i])
    {
      assert snapshot[..i + 1][..i] == snapshot[..i];
      var present := BlockExistsIn(snapshot[i], merged);
      if !present {
        merged := merged + [snapshot[i]];
      }
    }
    assert snapshot[..|snapshot|] == snapshot;
  }

  // ------------------------------------------------------------------ one run

  /** What has been merged so far, and whether the message has already ended. */
  datatype RunState = RunState(merged: seq<Block>, ended: bool)

  ghost function Fold(run: seq<Entry>): RunState {
    if run == [] then RunState([], false)
    else
      var s := Fold(run[..|run| - 1]);
      var e := run[|run| - 1];
      if e.content.Blocks? then
        RunState(MergedSnapshot(s.merged, e.content.blocks, s.ended), s.ended || e.stopReason == "end_turn")
      else s
  }

  /** The last entry of the run with the merged content, if there is any. */
  ghost function MergedRun(run: seq<Entry>): Entry
    requires run != []
  {
    var base := run[|run| - 1];
    if Fold(run).merged == [] then base else base.(content := Blocks(Fold(run).merged))
  }

  method MergeRun(run: seq<Entry>) returns (base: Entry)
    requires run != []
    ensures base == MergedRun(run)
  {
    base := run[|run| - 1];
    var merged: seq<Block> := [];
    var runEnded := false;
    for i := 0 to |run|
      invariant RunState(merged, runEnded) == Fold(run[..i])
    {
      assert run[..i + 1][..i] == run[..i];
      var e := run[i];
      if e.content.Blocks? {
        merged := MergeSnapshot(merged, e.content.blocks, runEnded);
        if e.stopReason == "end_turn" {
          runEnded := true;
        }
      }
    }
    assert run[..|run|] == run;
    if |merged| > 0 {
      base := base.(content := Blocks(merged));
    }
  }

  // ------------------------------------------------------------ nothing is lost

  /** c carries at least what b carried: longer text, a later state of the same tool call, or b itself. */
  ghost predicate Supersedes(c: Block, b: Block) {
    match b
    case Text(s, _) => c.Text? && s <= c.text
    case ToolUse(i, _) => if i == "" then c == b else c.ToolUse? && c.id == i
    case Other(_, _) => c == b
  }

  /** Position by position, later supersedes earlier, so blocks also keep their first-seen order. */
  ghost predicate Grows(earlier: seq<Block>, later: seq<Block>) {
    && |earlier| <= |later|
    && forall i | 0 <= i < |earlier| :: Supersedes(later[i], earlier[i])
  }

  ghost predicate Kept(b: Block, blocks: seq<Block>) {
    exists c | c in blocks :: Supersedes(c, b)
  }

  lemma KeptByGrowth(x: Block, a: seq<Block>, b: seq<Block>)
    requires Kept(x, a) && Grows(a, b)
    ensures Kept(x, b)
  {
    var c :| c in a && Supersedes(c, x);
    var i :| 0 <= i < |a| && a[i] == c;
    assert Supersedes(b[i], a[i]) && b[i] in b;
  }

  lemma {:induction false} AppendNewKeeps(merged: seq<Block>, snapshot: seq<Block>)
    ensures merged <= AppendNew(merged, snapshot)
    ensures forall b | b in snapshot :: Kept(b, AppendNew(merged, snapshot))
    ensures forall b | b in AppendNew(merged, snapshot) :: b in merged || b in snapshot
  {
    if snapshot != [] {
      var n := |snapshot| - 1;
      var before := AppendNew(merged, snapshot[..n]);
      var out := AppendNew(merged, snapshot);
      AppendNewKeeps(merged, snapshot[..n]);
      assert before <= out;
      forall b | b in snapshot
        ensures Kept(b, out)
      {
        if b == snapshot[n] {
          if Exists(b, before) {
            var j :| 0 <= j < |before| && SameBlock(b, before[j]);
            assert before[j] in out && Supersedes(before[j], b);
          } else {
            assert b in out && Supersedes(b, b);
          }
        } else {
          assert b in snapshot[..n];
          var c :| c in before && Supersedes(c, b);
          assert c in out;
        }
      }
    }
  }

  lemma OverlayKeeps(merged: seq<Block>, snapshot: seq<Block>)
    requires Cumulative(merged, snapshot)
    ensures Grows(merged, Overlay(merged, snapshot)) && Grows(snapshot, Overlay(merged, snapshot))
    ensures forall b | b in Overlay(merged, snapshot) :: b in merged || b in snapshot
  {
    var out := Overlay(merged, snapshot);
    forall i | 0 <= i < |out|
      ensures i < |merged| ==> Supersedes(out[i], merged[i])
      ensures i < |snapshot| ==> Supersedes(out[i], snapshot[i])
      ensures (i < |merged| && out[i] == merged[i]) || (i < |snapshot| && out[i] == snapshot[i])
    {
      if i < |merged| && i < |snapshot| {
        assert Align(merged[i], snapshot[i]);
      }
    }
  }

  lemma SnapshotKeeps(merged: seq<Block>, snapshot: seq<Block>, runEnded: bool)
    ensures var out := MergedSnapshot(merged, snapshot, runEnded);
      && Grows(merged, out)
      && (forall b | b in snapshot :: Kept(b, out))
      && (forall b | b in out :: b in merged || b in snapshot)
  {
    var out := MergedSnapshot(merged, snapshot, runEnded);
    if !runEnded && Cumulative(merged, snapshot) {
      OverlayKeeps(merged, snapshot);
      forall b | b in snapshot
        ensures Kept(b, out)
      {
        var i :| 0 <= i < |snapshot| && snapshot[i] == b;
        assert out[i] in out && Supersedes(out[i], snapshot[i]);
      }
    } else {
      AppendNewKeeps(merged, snapshot);
    }
  }

  /** b is a block of some snapshot of the run. */
  ghost predicate Seen(run: seq<Entry>, b: Block) {
    exists i | 0 <= i < |run| && run[i].content.Blocks? :: b in run[i].content.blocks
  }

  lemma SeenSplits(run: seq<Entry>, b: Block)
    requires run != []
    ensures Seen(run, b) <==>
      Seen(run[..|run| - 1], b) || (run[|run| - 1].content.Blocks? && b in run[|run| - 1].content.blocks)
  {
    if Seen(run[..|run| - 1], b) {
      var i :| 0 <= i < |run| - 1 && run[i].content.Blocks? && b in run[..|run| - 1][i].content.blocks;
      assert b in run[i].content.blocks;
    }
  }

  /** Folding a run keeps every block ever seen, and makes none up. */
  lemma {:induction false} RunKeepsEverything(run: seq<Entry>)
    ensures forall b | Seen(run, b) :: Kept(b, Fold(run).merged)
    ensures forall b | b in Fold(run).merged :: Seen(run, b)
  {
    if run != [] {
      var n := |run| - 1;
      var s, e := Fold(run[..n]), run[n];
      RunKeepsEverything(run[..n]);
      if e.content.Blocks? {
        SnapshotKeeps(s.merged, e.content.blocks, s.ended);
      }
      forall b | Seen(run, b)
        ensures Kept(b, Fold(run).merged)
      {
        SeenSplits(run, b);
        if Seen(run[..n], b) && e.content.Blocks? {
          KeptByGrowth(b, s.merged, Fold(run).merged);
        }
      }
      forall b | b in Fold(run).merged
        ensures Seen(run, b)
      {
        SeenSplits(run, b);
      }
    }
  }

  /** The tool calls of the merged content are exactly the tool calls of all snapshots. */
  lemma ToolCallsAreTheUnion(run: seq<Entry>, id: string)
    ensures (exists b | b in Fold(run).merged :: b.ToolUse? && b.id == id)
       <==> (exists b | Seen(run, b) :: b.ToolUse? && b.id == id)
  {
    RunKeepsEverything(run);
    if b :| Seen(run, b) && b.ToolUse? && b.id == id {
      var c :| c in Fold(run).merged && Supersedes(c, b);
    }
  }

  /** Every text ever seen is a prefix of a text of the merged content. */
  lemma TextsSurvive(run: seq<Entry>, b: Block)
    requires Seen(run, b) && b.Text?
    ensures exists c | c in Fold(run).merged :: c.Text? && b.text <= c.text
  {
    RunKeepsEverything(run);
    var c :| c in Fold(run).merged && Supersedes(c, b);
  }

  ghost predicate UniqueToolCalls(blocks: seq<Block>) {
    forall i, j | 0 <= i < j < |blocks| && blocks[i].ToolUse? && blocks[j].ToolUse? && blocks[i].id != "" ::
      blocks[i].id != blocks[j].id
  }

  lemma {:induction false} AppendNewUnique(merged: seq<Block>, snapshot: seq<Block>)
    requires UniqueToolCalls(merged)
    ensures UniqueToolCalls(AppendNew(merged, snapshot))
  {
    if snapshot != [] {
      var n := |snapshot| - 1;
      AppendNewUnique(merged, snapshot[..n]);
      var before, b := AppendNew(merged, snapshot[..n]), snapshot[n];
      if !Exists(b, before) {
        forall i | 0 <= i < |before| && before[i].ToolUse? && b.ToolUse? && before[i].id != ""
          ensures before[i].id != b.id
        {
          assert !SameBlock(b, before[i]);
        }
      }
    }
  }

  lemma OverlayUnique(merged: seq<Block>, snapshot: seq<Block>)
    requires UniqueToolCalls(merged) && UniqueToolCalls(snapshot) && Cumulative(merged, snapshot)
    ensures UniqueToolCalls(Overlay(merged, snapshot))
  {
    var out := Overlay(merged, snapshot);
    forall i | 0 <= i < |out|
      ensures i < |merged| ==> (out[i].ToolUse? <==> merged[i].ToolUse?) && (out[i].ToolUse? ==> out[i].id == merged[i].id)
      ensures i < |snapshot| ==> (out[i].ToolUse? <==> snapshot[i].ToolUse?) && (out[i].ToolUse? ==> out[i].id == snapshot[i].id)
    {
      if i < |merged| && i < |snapshot| {
        assert Align(merged[i], snapshot[i]);
      }
    }
  }

  /** If no snapshot repeats a tool call, neither does the merged content. */
  lemma {:induction false} ToolCallsStayUnique(run: seq<Entry>)
    requires forall i | 0 <= i < |run| && run[i].content.Blocks? :: UniqueToolCalls(run[i].content.blocks)
    ensures UniqueToolCalls(Fold(run).merged)
  {
    if run != [] {
      var n := |run| - 1;
      var s, e := Fold(run[..n]), run[n];
      assert forall i | 0 <= i < n && run[..n][i].content.Blocks? :: UniqueToolCalls(run[i].content.blocks);
      ToolCallsStayUnique(run[..n]);
      if e.content.Blocks? {
        if !s.ended && Cumulative(s.merged, e.content.blocks) {
          OverlayUnique(s.merged, e.content.blocks);
        } else {
          AppendNewUnique(s.merged, e.content.blocks);
        }
      }
    }
  }

  // ------------------------------------------------------- cumulative snapshots

  /** Each snapshot repeats the one before it, position by position, possibly further along. */
  ghost predicate GrowingChain(run: seq<Entry>) {
    && (forall i | 0 <= i < |run| :: run[i].content.Blocks?)
    && (forall i | 0 <= i < |run| - 1 ::
          run[i].stopReason != "end_turn" && Grows(run[i].content.blocks, run[i + 1].content.blocks))
  }

  lemma GrownSnapshotWins(earlier: seq<Block>, later: seq<Block>)
    requires Grows(earlier, later)
    ensures Cumulative(earlier, later) && Overlay(earlier, later) == later
  {
    forall i | 0 <= i < |earlier|
      ensures Align(earlier[i], later[i]) && PickLatest(earlier[i], later[i]) == later[i]
    {
      assert Supersedes(later[i], earlier[i]);
    }
  }

  /** Streaming that only ever grows folds to exactly its last snapshot. */
  lemma {:induction false} GrowingChainFoldsToLast(run: seq<Entry>)
    requires run != [] && GrowingChain(run)
    ensures MergedRun(run) == run[|run| - 1]
    ensures Fold(run).merged == run[|run| - 1].content.blocks
  {
    var n := |run| - 1;
    if n > 0 {
      var before := run[..n];
      assert GrowingChain(before);
      GrowingChainFoldsToLast(before);
      NoEarlierEnd(before);
      GrownSnapshotWins(run[n - 1].content.blocks, run[n].content.blocks);
    } else {
      assert Fold(run[..0]) == RunState([], false);
      GrownSnapshotWins([], run[0].content.blocks);
    }
  }

  lemma {:induction false} NoEarlierEnd(run: seq<Entry>)
    requires forall i | 0 <= i < |run| :: run[i].stopReason != "end_turn"
    ensures !Fold(run).ended
  {
    if run != [] {
      NoEarlierEnd(run[..|run| - 1]);
    }
  }

  // -------------------------------------------------------------- the whole pass

  function ChunkID(e: Entry): string { if e.assistant then e.messageID else "" }

  /** Neighbours that belong to the same provider message. */
  ghost predicate SameMessage(a: Entry, b: Entry) {
    ChunkID(a) != "" && ChunkID(a) == ChunkID(b)
  }

  /** Where the run that starts at i ends. */
  ghost function RunEnd(es: seq<Entry>, i: nat): (j: nat)
    requires i < |es|
    ensures i < j <= |es|
    decreases |es| - i
  {
    if i + 1 < |es| && SameMessage(es[i], es[i + 1]) then RunEnd(es, i + 1) else i + 1
  }

  lemma {:induction false} RunIsOneMessage(es: seq<Entry>, i: nat)
    requires i < |es|
    ensures ChunkID(es[RunEnd(es, i) - 1]) == ChunkID(es[i])
    ensures RunEnd(es, i) < |es| ==> !SameMessage(es[RunEnd(es, i) - 1], es[RunEnd(es, i)])
    decreases |es| - i
  {
    if i + 1 < |es| && SameMessage(es[i], es[i + 1]) {
      RunIsOneMessage(es, i + 1);
    }
  }

  ghost function MergedSlice(run: seq<Entry>): Entry
    requires run != []
  {
    if |run| == 1 then run[0] else MergedRun(run)
  }

  ghost function MergedFrom(es: seq<Entry>, i: nat): seq<Entry>
    requires i <= |es|
    decreases |es| - i
  {
    if i == |es| then []
    else
      var j := RunEnd(es, i);
      [MergedSlice(es[i..j])] + MergedFrom(es, j)
  }

  ghost function MergedChunks(es: seq<Entry>): seq<Entry> { MergedFrom(es, 0) }

  /** The inner scan: how far the entries carry on with the message id of es[i]. */
  method ScanRun(es: seq<Entry>, i: nat) returns (j: nat)
    requires i < |es|
    ensures j == RunEnd(es, i)
  {
    var mid := ChunkID(es[i]);
    j := i + 1;
    if mid == "" {
      return;
    }
    while j < |es| && es[j].assistant && es[j].messageID == mid
      invariant i < j <= |es|
      invariant ChunkID(es[j - 1]) == mid
      invariant RunEnd(es, i) == RunEnd(es, j - 1)
    {
      j := j + 1;
    }
  }

  lemma MergedStep(es: seq<Entry>, i: nat, result: seq<Entry>)
    requires i < |es|
    ensures var j := RunEnd(es, i);
      result + MergedFrom(es, i)
      == result + [MergedSlice(es[i..j])] + MergedFrom(es, j)
  {
  }

  method MergeChunks(es: seq<Entry>) returns (result: seq<Entry>)
    ensures result == MergedChunks(es)
  {
    if |es| <= 1 {
      if |es| == 1 {
        assert MergedFrom(es, 1) == [];
      }
      return es;
    }
    result := [];
    var i := 0;
    while i < |es|
      invariant 0 <= i <= |es|
      invariant result + MergedFrom(es, i) == MergedChunks(es)
    {
      var j := ScanRun(es, i);
      MergedStep(es, i, result);
      if j == i + 1 {
        result := result + [es[i]];
      } else {
        var merged := MergeRun(es[i..j]);
        result := result + [merged];
      }
      i := j;
    }
  }

  ghost predicate NoRuns(es: seq<Entry>) {
    forall i | 0 <= i < |es| - 1 :: !SameMessage(es[i], es[i + 1])
  }

  /** Without neighbours of one message the pass changes nothing. */
  lemma {:induction false} NoRunsNoChange(es: seq<Entry>, i: nat)
    requires NoRuns(es) && i <= |es|
    ensures MergedFrom(es, i) == es[i..]
    decreases |es| - i
  {
    if i < |es| {
      assert RunEnd(es, i) == i + 1;
      NoRunsNoChange(es, i + 1);
    }
  }

  lemma RunKeepsID(es: seq<Entry>, i: nat)
    requires i < |es|
    ensures var j := RunEnd(es, i);
      && MergedFrom(es, i) != []
      && ChunkID(MergedFrom(es, i)[0]) == ChunkID(es[i]) == ChunkID(es[j - 1])
  {
    RunIsOneMessage(es, i);
    var run := es[i..RunEnd(es, i)];
    assert run[|run| - 1] == es[RunEnd(es, i) - 1];
  }

  lemma {:induction false} MergedHasNoRuns(es: seq<Entry>, i: nat)
    requires i <= |es|
    ensures NoRuns(MergedFrom(es, i))
    decreases |es| - i
  {
    if i < |es| {
      var j := RunEnd(es, i);
      MergedHasNoRuns(es, j);
      RunKeepsID(es, i);
      RunIsOneMessage(es, i);
      if j < |es| {
        RunKeepsID(es, j);
      }
    }
  }

  /** Merging twice is merging once. */
  lemma MergeIsIdempotent(es: seq<Entry>)
    ensures MergedChunks(MergedChunks(es)) == MergedChunks(es)
  {
    MergedHasNoRuns(es, 0);
    NoRunsNoChange(MergedChunks(es), 0);
  }

  // --------------------------------------------------------- splitting the file

  lemma {:induction false} RunEndShifts(a: seq<Entry>, b: seq<Entry>, i: nat)
    requires i < |b|
    ensures RunEnd(a + b, |a| + i) == |a| + RunEnd(b, i)
    decreases |b| - i
  {
    var ab := a + b;
    assert ab[|a| + i] == b[i];
    if i + 1 < |b| {
      assert ab[|a| + (i + 1)] == b[i + 1];
      if SameMessage(b[i], b[i + 1]) {
        RunEndShifts(a, b, i + 1);
      }
    }
  }

  lemma MergeShifts(a: seq<Entry>, b: seq<Entry>, i: nat)
    requires i <= |b|
    ensures MergedFrom(a + b, |a| + i) == MergedFrom(b, i)
  {
    forall k | 0 <= k < |b|
      ensures RunsAlike(a + b, |a|, b, k)
    {
      RunEndShifts(a, b, k);
      SliceShifts(a, b, k, RunEnd(b, k));
    }
    SuffixMerges(a + b, |a|, b, i);
  }

  /** The same run, n entries further on. */
  ghost predicate RunsAlike(whole: seq<Entry>, n: nat, b: seq<Entry>, i: nat)
    requires |whole| == n + |b| && i < |b|
  {
    RunEnd(whole, n + i) == n + RunEnd(b, i) && whole[n + i..n + RunEnd(b, i)] == b[i..RunEnd(b, i)]
  }

  ghost predicate MergeAlike(x: seq<Entry>, i: int, y: seq<Entry>, k: int) {
    0 <= i <= |x| && 0 <= k <= |y| && MergedFrom(x, i) == MergedFrom(y, k)
  }

  lemma {:induction false} SuffixMerges(whole: seq<Entry>, n: nat, b: seq<Entry>, i: nat)
    requires |whole| == n + |b| && i <= |b| && forall k | 0 <= k < |b| :: RunsAlike(whole, n, b, k)
    ensures MergeAlike(whole, n + i, b, i)
    decreases |b| - i
  {
    if i < |b| {
      SuffixMerges(whole, n, b, RunEnd(b, i));
      assert RunsAlike(whole, n, b, i);
      SameRunsMergeAlike(whole, n + i, n + RunEnd(b, i), b, i, RunEnd(b, i));
    } else {
      EndsMergeAlike(whole, b);
    }
  }

  lemma EndsMergeAlike(x: seq<Entry>, y: seq<Entry>)
    ensures MergeAlike(x, |x|, y, |y|)
  {
  }

  lemma SameRunsMergeAlike(x: seq<Entry>, i: nat, j: nat, y: seq<Entry>, k: nat, l: nat)
    requires i < |x| && k < |y| && j == RunEnd(x, i) && l == RunEnd(y, k) && x[i..j] == y[k..l]
    requires MergeAlike(x, j, y, l)
    ensures MergeAlike(x, i, y, k)
  {
    MergedHead(x, i);
    MergedHead(y, k);
  }

  lemma SliceShifts(a: seq<Entry>, b: seq<Entry>, i: nat, j: nat)
    requires i <= j <= |b|
    ensures (a + b)[|a| + i..|a| + j] == b[i..j]
  {
  }

  lemma SliceInFront(a: seq<Entry>, b: seq<Entry>, i: nat, j: nat)
    requires i <= j <= |a|
    ensures (a + b)[i..j] == a[i..j]
  {
  }

  lemma MergedHead(es: seq<Entry>, i: nat)
    requires i < |es|
    ensures MergedFrom(es, i) == [MergedSlice(es[i..RunEnd(es, i)])] + MergedFrom(es, RunEnd(es, i))
  {
  }

  /** The boundary between a and b falls inside a run. */
  ghost predicate CutsRun(a: seq<Entry>, b: seq<Entry>) {
    a != [] && b != [] && SameMessage(a[|a| - 1], b[0])
  }

  lemma {:induction false} RunEndInFront(a: seq<Entry>, b: seq<Entry>, i: nat)
    requires i < |a|
    ensures RunEnd(a, i) < |a| || !CutsRun(a, b) ==> RunEnd(a + b, i) == RunEnd(a, i)
    ensures RunEnd(a, i) == |a| && CutsRun(a, b) ==> RunEnd(a + b, i) == |a| + RunEnd(b, 0)
    decreases |a| - i
  {
    var ab := a + b;
    assert ab[i] == a[i];
    if i + 1 < |a| {
      assert ab[i + 1] == a[i + 1];
      if SameMessage(a[i], a[i + 1]) {
        RunEndInFront(a, b, i + 1);
      }
    } else if b != [] {
      assert ab[i + 1] == b[0];
      if SameMessage(a[i], b[0]) {
        RunEndShifts(a, b, 0);
      }
    }
  }

  lemma {:induction false} MergeSplitsFrom(a: seq<Entry>, b: seq<Entry>, i: nat)
    requires i <= |a| && !CutsRun(a, b)
    ensures MergedFrom(a + b, i) == MergedFrom(a, i) + MergedChunks(b)
    decreases |a| - i
  {
    if i == |a| {
      MergeShifts(a, b, 0);
    } else {
      RunEndInFront(a, b, i);
      var ab, j := a + b, RunEnd(a, i);
      MergeSplitsFrom(a, b, j);
      MergedHead(a, i);
      MergedHead(ab, i);
      var head := [MergedSlice(a[i..j])];
      SliceInFront(a, b, i, j);
      ConcatIsAssociative(head, MergedFrom(a, j), MergedChunks(b));
    }
  }

  /** How many runs there are from i on. */
  ghost function Runs(es: seq<Entry>, i: nat): nat
    requires i <= |es|
    decreases |es| - i
  {
    if i == |es| then 0 else 1 + Runs(es, RunEnd(es, i))
  }

  lemma {:induction false} OneEntryPerRun(es: seq<Entry>, i: nat)
    requires i <= |es|
    ensures |MergedFrom(es, i)| == Runs(es, i)
    decreases |es| - i
  {
    if i < |es| {
      OneEntryPerRun(es, RunEnd(es, i));
    }
  }

  lemma {:induction false} RunsShift(a: seq<Entry>, b: seq<Entry>, i: nat)
    requires i <= |b|
    ensures Runs(a + b, |a| + i) == Runs(b, i)
    decreases |b| - i
  {
    if i < |b| {
      RunEndShifts(a, b, i);
      RunsShift(a, b, RunEnd(b, i));
    }
  }

  lemma {:induction false} CutMergesOneFewer(a: seq<Entry>, b: seq<Entry>, i: nat)
    requires i < |a| && CutsRun(a, b)
    ensures Runs(a + b, i) == Runs(a, i) + Runs(b, 0) - 1
    decreases |a| - i
  {
    RunEndInFront(a, b, i);
    if RunEnd(a, i) == |a| {
      RunsShift(a, b, RunEnd(b, 0));
    } else {
      CutMergesOneFewer(a, b, RunEnd(a, i));
    }
  }

  /** Merging a file piecewise is merging it whole exactly when the pieces do not cut a run. */
  lemma MergeSplitsIff(a: seq<Entry>, b: seq<Entry>)
    ensures MergedChunks(a + b) == MergedChunks(a) + MergedChunks(b) <==> !CutsRun(a, b)
  {
    if CutsRun(a, b) {
      CutMergesOneFewer(a, b, 0);
      OneEntryPerRun(a + b, 0);
      OneEntryPerRun(a, 0);
      OneEntryPerRun(b, 0);
    } else {
      MergeSplitsFrom(a, b, 0);
    }
  }
}
