/** Incremental against full parsing of a transcript (internal/parser/claude.go). */
module ClaudeIncremental {
  // extractMessages, extractMessagesFrom, mergeQueuedCommands, hasDAGFork, needsClaudeFullParse and
  // ParseClaudeSessionFrom.  Reading one JSON line is a parameter: `read` gives the fields of an entry.

  import opened Common
  import Chunks = ClaudeChunks
  import Dag = ClaudeDag
  import Growth = ClaudeGrowth

  /** The zero time is None. */
  type Time = Option<int>

  /** What the JSON reader and the text helpers make of one user or assistant line. */
  datatype Line = Line(
    uuid: string, parentUuid: string, user: bool, timestamp: Time, isSidechain: bool,
    compactSummary: Option<string>, isMeta: bool,
    text: string, command: Option<string>, commandEnvelope: bool,
    thinkingText: string, toolCalls: seq<string>, toolResults: seq<string>,
    agentID: string, usage: string)

  datatype Message = Message(
    ordinal: nat, user: bool, content: string, thinkingText: string, timestamp: Time, isSystem: bool,
    toolCalls: seq<string>, toolResults: seq<string>,
    sourceType: string, sourceSubtype: string, sourceUUID: string, sourceParentUUID: string,
    isSidechain: bool, isCompactBoundary: bool, usage: string)

  datatype QueuedCommand = QueuedCommand(prompt: string, timestamp: Time)

  // ------------------------------------------------------------- text classes

  predicate IsSpace(c: char) {
    var n := c as int;
    9 <= n <= 13 || n == 0x20 || n == 0x85 || n == 0xA0 || n == 0x1680 || 0x2000 <= n <= 0x200A
    || n == 0x2028 || n == 0x2029 || n == 0x202F || n == 0x205F || n == 0x3000
  }

  predicate IsByteOrderMark(c: char) { c as int == 0xFEFF }

  predicate Blank(s: string) {
    forall i | 0 <= i < |s| :: IsSpace(s[i])
  }

  function TrimLeft(s: string): string {
    if s != [] && (IsSpace(s[0]) || IsByteOrderMark(s[0])) then TrimLeft(s[1..]) else s
  }

  /** The system subtype of a user text, or "" for an ordinary one. */
  function SystemSubtype(text: string): string {
    var t := TrimLeft(text);
    if "This session is being continued" <= t then "continuation"
    else if "<local-command-caveat>" <= t then "resume"
    else if "[Request interrupted" <= t then "interrupted"
    else if "<task-notification>" <= t then "task_notification"
    else if "Stop hook feedback:" <= t then "stop_hook"
    else ""
  }

  predicate SystemNoise(text: string) {
    var t := TrimLeft(text);
    "This session is being continued" <= t || "[Request interrupted" <= t || "<task-notification>" <= t
    || "<local-command-" <= t || "Stop hook feedback:" <= t
  }

  // --------------------------------------------------------------- extraction

  /** The message a line gives rise to, if it is not skipped. */
  function MessageOf(e: Line, ordinal: nat): Option<Message> {
    if e.compactSummary.Some? then
      Some(Message(ordinal, false, e.compactSummary.value, "", e.timestamp, true, [], [],
                   "system", "compact_boundary", e.uuid, e.parentUuid, e.isSidechain, true, ""))
    else if e.user && e.isMeta then None
    else if e.user && e.command.None? && e.commandEnvelope then None
    else
      var text := if e.user && e.command.Some? then e.command.value else e.text;
      if Blank(text) && e.toolResults == [] then None
      else if e.user && SystemSubtype(text) != "" then
        Some(Message(ordinal, true, text, "", e.timestamp, true, [], [],
                     "system", SystemSubtype(text), e.uuid, e.parentUuid, e.isSidechain, false, ""))
      else if e.user && SystemNoise(text) then None
      else
        Some(Message(ordinal, e.user, text, e.thinkingText, e.timestamp, false, e.toolCalls, e.toolResults,
                     if e.user then "user" else "assistant", "", e.uuid, e.parentUuid, e.isSidechain, false,
                     if e.user then "" else e.usage))
  }

  /** What the first n items give one after the other, each told how much there is before it. */
  ghost function Gathered<L, M>(items: seq<L>, n: nat, give: (L, nat) -> seq<M>, start: nat): seq<M>
    requires n <= |items|
  {
    if n == 0 then []
    else
      var before := Gathered(items, n - 1, give, start);
      before + give(items[n - 1], start + |before|)
  }

  ghost function Extracted(lines: seq<Line>, start: nat): seq<Message> {
    Gathered(lines, |lines|, Emitted, start)
  }

  /** What one line adds: a message, or nothing. */
  function Emitted(line: Line, ordinal: nat): seq<Message> {
    match MessageOf(line, ordinal) case Some(m) => [m] case None => []
  }

  /** t is the first time among the first n lines. */
  ghost predicate FirstTime(lines: seq<Line>, n: nat, t: Time)
    requires n <= |lines|
  {
    if t.None? then forall i | 0 <= i < n :: lines[i].timestamp.None?
    else exists i | 0 <= i < n :: lines[i].timestamp == t && forall j | 0 <= j < i :: lines[j].timestamp.None?
  }

  /** t is the last time among the first n lines. */
  ghost predicate LastTime(lines: seq<Line>, n: nat, t: Time)
    requires n <= |lines|
  {
    if t.None? then forall i | 0 <= i < n :: lines[i].timestamp.None?
    else exists i | 0 <= i < n :: lines[i].timestamp == t && forall j | i < j < n :: lines[j].timestamp.None?
  }

  lemma TimesStep(lines: seq<Line>, k: nat, first: Time, last: Time)
    requires k < |lines| && FirstTime(lines, k, first) && LastTime(lines, k, last)
    ensures FirstTime(lines, k + 1, if first.None? then lines[k].timestamp else first)
    ensures LastTime(lines, k + 1, if lines[k].timestamp.Some? then lines[k].timestamp else last)
  {
    var t := if first.None? then lines[k].timestamp else first;
    if t.Some? {
      var i := if first.None? then k else FirstIndex(lines, k, first);
      assert lines[i].timestamp == t && forall j | 0 <= j < i :: lines[j].timestamp.None?;
    }
  }

  ghost function FirstIndex(lines: seq<Line>, n: nat, t: Time): (i: nat)
    requires n <= |lines| && t.Some? && FirstTime(lines, n, t)
    ensures i < n && lines[i].timestamp == t && forall j | 0 <= j < i :: lines[j].timestamp.None?
  {
    var i :| 0 <= i < n && lines[i].timestamp == t && forall j | 0 <= j < i :: lines[j].timestamp.None?;
    i
  }

  method ExtractMessagesFrom(lines: seq<Line>, startOrdinal: nat)
    returns (messages: seq<Message>, startedAt: Time, endedAt: Time)
    ensures messages == Extracted(lines, startOrdinal)
    ensures FirstTime(lines, |lines|, startedAt)
    ensures LastTime(lines, |lines|, endedAt)
  {
    messages, startedAt, endedAt := [], None, None;
    var ordinal := startOrdinal;
    for k := 0 to |lines|
      invariant messages == Gathered(lines, k, Emitted, startOrdinal) && ordinal == startOrdinal + |messages|
      invariant FirstTime(lines, k, startedAt)
      invariant LastTime(lines, k, endedAt)
    {
      TimesStep(lines, k, startedAt, endedAt);
      var e := lines[k];
      if e.timestamp.Some? {
        if startedAt.None? {
          startedAt := e.timestamp;
        }
        endedAt := e.timestamp;
      }
      match MessageOf(e, ordinal) {
        case Some(m) =>
          messages := messages + [m];
          ordinal := ordinal + 1;
        case None =>
      }
    }
    assert lines[..|lines|] == lines;
  }

  lemma {:induction false} GatheredInFront<L, M>(a: seq<L>, b: seq<L>, n: nat, give: (L, nat) -> seq<M>, start: nat)
    requires n <= |a|
    ensures Gathered(a + b, n, give, start) == Gathered(a, n, give, start)
  {
    if n > 0 {
      GatheredInFront(a, b, n - 1, give, start);
    }
  }

  lemma {:induction false} GatheredSplits<L, M>(a: seq<L>, b: seq<L>, n: nat, give: (L, nat) -> seq<M>, start: nat)
    requires n <= |b|
    ensures var x := Gathered(a, |a|, give, start);
      Gathered(a + b, |a| + n, give, start) == x + Gathered(b, n, give, start + |x|)
  {
    if n == 0 {
      GatheredInFront(a, b, |a|, give, start);
    } else {
      GatheredSplits(a, b, n - 1, give, start);
      var x := Gathered(a, |a|, give, start);
      var y := Gathered(b, n - 1, give, start + |x|);
      assert (a + b)[|a| + n - 1] == b[n - 1];
      ConcatIsAssociative(x, y, give(b[n - 1], start + |x| + |y|));
    }
  }

  /** Extraction of a longer file goes on where the shorter one stopped. */
  lemma ExtractSplits(a: seq<Line>, b: seq<Line>, start: nat)
    ensures Extracted(a + b, start) == Extracted(a, start) + Extracted(b, start + |Extracted(a, start)|)
  {
    GatheredSplits(a, b, |b|, Emitted, start);
  }

  ghost predicate NumberedFrom(ms: seq<Message>, start: nat) {
    forall k | 0 <= k < |ms| :: ms[k].ordinal == start + k
  }

  lemma {:induction false} ExtractNumbers(lines: seq<Line>, n: nat, start: nat)
    requires n <= |lines|
    ensures NumberedFrom(Gathered(lines, n, Emitted, start), start)
  {
    if n > 0 {
      ExtractNumbers(lines, n - 1, start);
    }
  }

  // ----------------------------------------------------------- queued commands

  predicate QueuedBefore(q: QueuedCommand, m: Message) {
    q.timestamp.Some? && m.timestamp.Some? && q.timestamp.value < m.timestamp.value
  }

  function QueuedMessage(q: QueuedCommand): Message {
    Message(0, true, q.prompt, "", q.timestamp, false, [], [], "user", "queued_command", "", "", false, false, "")
  }

  /** Where a place of the merged stream was filled from. */
  datatype Slot = FromMessages(i: nat) | FromQueue(j: nat)

  /** Whether the next place goes to a command. */
  predicate CommandNext(ms: seq<Message>, qs: seq<QueuedCommand>, i: nat, j: nat)
    requires i <= |ms| && j <= |qs|
  {
    j < |qs| && (i == |ms| || QueuedBefore(qs[j], ms[i]))
  }

  /** The order of the merge, from message i and command j on. */
  ghost function Slots(ms: seq<Message>, qs: seq<QueuedCommand>, i: nat, j: nat): seq<Slot>
    requires i <= |ms| && j <= |qs|
    decreases |ms| - i + |qs| - j
  {
    if i == |ms| && j == |qs| then []
    else if j < |qs| && (i == |ms| || QueuedBefore(qs[j], ms[i])) then [FromQueue(j)] + Slots(ms, qs, i, j + 1)
    else [FromMessages(i)] + Slots(ms, qs, i + 1, j)
  }

  ghost predicate SlotIn(slot: Slot, m: nat, q: nat) {
    match slot case FromMessages(i) => i < m case FromQueue(j) => j < q
  }

  ghost predicate AllIn(slots: seq<Slot>, m: nat, q: nat) {
    forall k | 0 <= k < |slots| :: SlotIn(slots[k], m, q)
  }

  lemma AllInCons(slot: Slot, rest: seq<Slot>, m: nat, q: nat)
    requires SlotIn(slot, m, q) && AllIn(rest, m, q)
    ensures AllIn([slot] + rest, m, q)
  {
  }

  lemma {:induction false} SlotsInRange(ms: seq<Message>, qs: seq<QueuedCommand>, i: nat, j: nat)
    requires i <= |ms| && j <= |qs|
    ensures AllIn(Slots(ms, qs, i, j), |ms|, |qs|)
    ensures |Slots(ms, qs, i, j)| == |ms| - i + |qs| - j
    decreases |ms| - i + |qs| - j
  {
    if CommandNext(ms, qs, i, j) {
      SlotsInRange(ms, qs, i, j + 1);
      AllInCons(FromQueue(j), Slots(ms, qs, i, j + 1), |ms|, |qs|);
    } else if i < |ms| {
      SlotsInRange(ms, qs, i + 1, j);
      AllInCons(FromMessages(i), Slots(ms, qs, i + 1, j), |ms|, |qs|);
    }
  }

  ghost function Fill(slot: Slot, ms: seq<Message>, qs: seq<QueuedCommand>): Message
    requires SlotIn(slot, |ms|, |qs|)
  {
    match slot case FromMessages(i) => ms[i] case FromQueue(j) => QueuedMessage(qs[j])
  }

  ghost predicate FilledBy(out: seq<Message>, slots: seq<Slot>, ms: seq<Message>, qs: seq<QueuedCommand>) {
    && |out| == |slots|
    && forall k | 0 <= k < |out| :: SlotIn(slots[k], |ms|, |qs|) && out[k] == Fill(slots[k], ms, qs)
  }

  /** The merged stream, renumbered from start. */
  ghost function Spliced(ms: seq<Message>, qs: seq<QueuedCommand>, start: nat): (out: seq<Message>)
    ensures |out| == |ms| + |qs|
  {
    SlotsInRange(ms, qs, 0, 0);
    var slots := Slots(ms, qs, 0, 0);
    seq(|slots|, k requires 0 <= k < |slots| => Fill(slots[k], ms, qs).(ordinal := start + k))
  }

  /** A merge under way: the places filled so far, and those to come. */
  ghost predicate Merging(out: seq<Message>, slots: seq<Slot>, ms: seq<Message>, qs: seq<QueuedCommand>, i: nat, j: nat)
    requires i <= |ms| && j <= |qs|
  {
    slots + Slots(ms, qs, i, j) == Slots(ms, qs, 0, 0) && FilledBy(out, slots, ms, qs)
  }

  lemma MergingStep(out: seq<Message>, slots: seq<Slot>, ms: seq<Message>, qs: seq<QueuedCommand>, i: nat, j: nat)
    requires i <= |ms| && j <= |qs| && (i < |ms| || j < |qs|) && Merging(out, slots, ms, qs, i, j)
    ensures CommandNext(ms, qs, i, j) ==> Merging(out + [QueuedMessage(qs[j])], slots + [FromQueue(j)], ms, qs, i, j + 1)
    ensures !CommandNext(ms, qs, i, j) ==> Merging(out + [ms[i]], slots + [FromMessages(i)], ms, qs, i + 1, j)
  {
    SlotsStep(ms, qs, i, j, slots);
    if CommandNext(ms, qs, i, j) {
      FilledStep(out, slots, ms, qs, FromQueue(j));
    } else {
      FilledStep(out, slots, ms, qs, FromMessages(i));
    }
  }

  lemma MergingEnds(out: seq<Message>, slots: seq<Slot>, ms: seq<Message>, qs: seq<QueuedCommand>)
    requires Merging(out, slots, ms, qs, |ms|, |qs|)
    ensures FilledBy(out, Slots(ms, qs, 0, 0), ms, qs)
  {
    assert slots + [] == slots;
  }

  /** The two-pointer merge, before the ordinals are rewritten. */
  method MergeStreams(messages: seq<Message>, queued: seq<QueuedCommand>) returns (out: seq<Message>)
    ensures FilledBy(out, Slots(messages, queued, 0, 0), messages, queued)
  {
    out := [];
    var i, j := 0, 0;
    ghost var slots: seq<Slot> := [];
    while i < |messages| && j < |queued|
      invariant 0 <= i <= |messages| && 0 <= j <= |queued|
      invariant Merging(out, slots, messages, queued, i, j)
    {
      MergingStep(out, slots, messages, queued, i, j);
      if QueuedBefore(queued[j], messages[i]) {
        out, slots := out + [QueuedMessage(queued[j])], slots + [FromQueue(j)];
        j := j + 1;
      } else {
        out, slots := out + [messages[i]], slots + [FromMessages(i)];
        i := i + 1;
      }
    }
    while i < |messages|
      invariant 0 <= i <= |messages| && 0 <= j <= |queued| && (i == |messages| || j == |queued|)
      invariant Merging(out, slots, messages, queued, i, j)
    {
      MergingStep(out, slots, messages, queued, i, j);
      out, slots := out + [messages[i]], slots + [FromMessages(i)];
      i := i + 1;
    }
    while j < |queued|
      invariant i == |messages| && 0 <= j <= |queued|
      invariant Merging(out, slots, messages, queued, i, j)
    {
      MergingStep(out, slots, messages, queued, i, j);
      out, slots := out + [QueuedMessage(queued[j])], slots + [FromQueue(j)];
      j := j + 1;
    }
    MergingEnds(out, slots, messages, queued);
  }

  lemma FilledStep(out: seq<Message>, slots: seq<Slot>, ms: seq<Message>, qs: seq<QueuedCommand>, slot: Slot)
    requires FilledBy(out, slots, ms, qs) && SlotIn(slot, |ms|, |qs|)
    ensures FilledBy(out + [Fill(slot, ms, qs)], slots + [slot], ms, qs)
  {
  }

  lemma SlotsStep(ms: seq<Message>, qs: seq<QueuedCommand>, i: nat, j: nat, done: seq<Slot>)
    requires i <= |ms| && j <= |qs| && (i < |ms| || j < |qs|)
    ensures CommandNext(ms, qs, i, j) ==>
      done + Slots(ms, qs, i, j) == done + [FromQueue(j)] + Slots(ms, qs, i, j + 1)
    ensures !CommandNext(ms, qs, i, j) ==>
      done + Slots(ms, qs, i, j) == done + [FromMessages(i)] + Slots(ms, qs, i + 1, j)
  {
    if CommandNext(ms, qs, i, j) {
      ConcatIsAssociative(done, [FromQueue(j)], Slots(ms, qs, i, j + 1));
    } else {
      ConcatIsAssociative(done, [FromMessages(i)], Slots(ms, qs, i + 1, j));
    }
  }

  method MergeQueuedCommands(messages: seq<Message>, queued: seq<QueuedCommand>, startOrdinal: nat)
    returns (out: seq<Message>)
    ensures out == Spliced(messages, queued, startOrdinal)
  {
    SlotsInRange(messages, queued, 0, 0);
    var merged := MergeStreams(messages, queued);
    out := merged;
    for k := 0 to |out|
      invariant |out| == |merged|
      invariant forall n | 0 <= n < |out| ::
        out[n] == if n < k then merged[n].(ordinal := startOrdinal + n) else merged[n]
    {
      out := out[k := out[k].(ordinal := startOrdinal + k)];
    }
  }

  function Shift(slot: Slot, m: nat, q: nat): Slot {
    match slot case FromMessages(i) => FromMessages(m + i) case FromQueue(j) => FromQueue(q + j)
  }

  ghost function Shifted(slots: seq<Slot>, m: nat, q: nat): seq<Slot> {
    seq(|slots|, k requires 0 <= k < |slots| => Shift(slots[k], m, q))
  }

  /**
   * From message i and command j on, the merge of the first part uses itself up before it touches
   * the second: no left-over message is overtaken by the next command, and every left-over command
   * goes before the next message.
   */
  ghost predicate CleanFrom(m1: seq<Message>, q1: seq<QueuedCommand>, m2: seq<Message>, q2: seq<QueuedCommand>, i: nat, j: nat)
    requires i <= |m1| && j <= |q1|
    decreases |m1| - i + |q1| - j
  {
    if i < |m1| && j < |q1| then
      if QueuedBefore(q1[j], m1[i]) then CleanFrom(m1, q1, m2, q2, i, j + 1) else CleanFrom(m1, q1, m2, q2, i + 1, j)
    else
      && (q2 != [] ==> forall k | i <= k < |m1| :: !QueuedBefore(q2[0], m1[k]))
      && (m2 != [] ==> forall k | j <= k < |q1| :: QueuedBefore(q1[k], m2[0]))
  }

  lemma {:induction false} SlotsShift(m1: seq<Message>, q1: seq<QueuedCommand>, m2: seq<Message>, q2: seq<QueuedCommand>, i: nat, j: nat)
    requires i <= |m2| && j <= |q2|
    ensures Slots(m1 + m2, q1 + q2, |m1| + i, |q1| + j) == Shifted(Slots(m2, q2, i, j), |m1|, |q1|)
    decreases |m2| - i + |q2| - j
  {
    if i == |m2| && j == |q2| {
    } else if j < |q2| && (i == |m2| || QueuedBefore(q2[j], m2[i])) {
      SlotsShift(m1, q1, m2, q2, i, j + 1);
    } else {
      SlotsShift(m1, q1, m2, q2, i + 1, j);
    }
  }

  lemma CleanStep(m1: seq<Message>, q1: seq<QueuedCommand>, m2: seq<Message>, q2: seq<QueuedCommand>, i: nat, j: nat)
    requires i <= |m1| && j <= |q1| && (i < |m1| || j < |q1|)
    ensures var same := CommandNext(m1, q1, i, j) == CommandNext(m1 + m2, q1 + q2, i, j);
      CleanFrom(m1, q1, m2, q2, i, j) <==>
        same && if CommandNext(m1, q1, i, j) then CleanFrom(m1, q1, m2, q2, i, j + 1) else CleanFrom(m1, q1, m2, q2, i + 1, j)
  {
  }

  /** Merging piecewise takes the same places in the same order exactly when the first piece is used up cleanly. */
  lemma {:induction false} SlotsSplitIff(m1: seq<Message>, q1: seq<QueuedCommand>, m2: seq<Message>, q2: seq<QueuedCommand>, i: nat, j: nat)
    requires i <= |m1| && j <= |q1|
    ensures Slots(m1 + m2, q1 + q2, i, j) == Slots(m1, q1, i, j) + Shifted(Slots(m2, q2, 0, 0), |m1|, |q1|)
       <==> CleanFrom(m1, q1, m2, q2, i, j)
    decreases |m1| - i + |q1| - j
  {
    var m, q := m1 + m2, q1 + q2;
    var tail := Shifted(Slots(m2, q2, 0, 0), |m1|, |q1|);
    if i == |m1| && j == |q1| {
      SlotsShift(m1, q1, m2, q2, 0, 0);
      assert [] + tail == tail;
    } else {
      CleanStep(m1, q1, m2, q2, i, j);
      var command := CommandNext(m1, q1, i, j);
      var i', j' := if command then i else i + 1, if command then j + 1 else j;
      SlotsSplitIff(m1, q1, m2, q2, i', j');
      var x := if command then FromQueue(j) else FromMessages(i);
      var y := if CommandNext(m, q, i, j) then FromQueue(j) else FromMessages(i);
      var rest := Slots(m1, q1, i', j');
      assert Slots(m1, q1, i, j) == [x] + rest;
      ConcatIsAssociative([x], rest, tail);
      if x == y {
        assert Slots(m, q, i, j) == [x] + Slots(m, q, i', j');
        SameHead(x, Slots(m, q, i', j'), rest + tail);
      } else {
        assert Slots(m, q, i, j)[0] == y && ([x] + (rest + tail))[0] == x;
      }
    }
  }

  lemma SameHead(x: Slot, a: seq<Slot>, b: seq<Slot>)
    ensures [x] + a == [x] + b <==> a == b
  {
    if [x] + a == [x] + b {
      assert ([x] + a)[1..] == ([x] + b)[1..];
    }
  }

  // ------------------------------------------------------------------- guards

  type Reader = Chunks.Entry -> Line

  /** The line of an entry; uuids and the role were read before chunks were merged. */
  function LineOf(e: Chunks.Entry, read: Reader): Line {
    read(e).(uuid := e.uuid, parentUuid := e.parentUuid, user := !e.assistant)
  }

  ghost function LinesOf(es: seq<Chunks.Entry>, read: Reader): seq<Line> {
    seq(|es|, i requires 0 <= i < |es| => LineOf(es[i], read))
  }

  predicate LinksSubagent(e: Chunks.Entry, read: Reader) {
    !e.assistant && read(e).agentID != ""
  }

  method NeedsFullParse(es: seq<Chunks.Entry>, read: Reader) returns (needed: bool)
    ensures needed <==> (exists i | 0 <= i < |es| :: LinksSubagent(es[i], read)) || !Chunks.NoRuns(es)
  {
    var prevAssistantMID := "";
    for i := 0 to |es|
      invariant prevAssistantMID == if i == 0 then "" else Chunks.ChunkID(es[i - 1])
      invariant forall k | 0 <= k < i :: !LinksSubagent(es[k], read)
      invariant forall k | 0 <= k < i - 1 :: !Chunks.SameMessage(es[k], es[k + 1])
    {
      var e := es[i];
      if LinksSubagent(e, read) {
        return true;
      }
      if e.assistant {
        var mid := e.messageID;
        if mid != "" && mid == prevAssistantMID {
          assert Chunks.SameMessage(es[i - 1], es[(i - 1) + 1]);
          return true;
        }
        prevAssistantMID := mid;
      } else {
        prevAssistantMID := "";
      }
    }
    needed := false;
  }

  /** The uuid that the walk over the appended entries remembers after the first n. */
  ghost function LastUuid(es: seq<Chunks.Entry>, n: nat): string
    requires n <= |es|
  {
    if n == 0 then "" else if es[n - 1].uuid != "" then es[n - 1].uuid else LastUuid(es, n - 1)
  }

  ghost predicate BreaksChain(es: seq<Chunks.Entry>, i: nat)
    requires i < |es|
  {
    es[i].uuid != "" && LastUuid(es, i) != "" && es[i].parentUuid != LastUuid(es, i)
  }

  method HasDagFork(es: seq<Chunks.Entry>) returns (fork: bool)
    ensures fork <==> exists i | 0 <= i < |es| :: BreaksChain(es, i)
  {
    var lastUUID := "";
    for i := 0 to |es|
      invariant lastUUID == LastUuid(es, i)
      invariant forall k | 0 <= k < i :: !BreaksChain(es, k)
    {
      var e := es[i];
      if e.uuid == "" {
        continue;
      }
      if lastUUID != "" && e.parentUuid != lastUUID {
        assert BreaksChain(es, i);
        return true;
      }
      lastUUID := e.uuid;
    }
    fork := false;
  }

  // ----------------------------------------------------- the incremental parse

  /** The entries of a file in order, and its queued commands in order. */
  datatype Transcript = Transcript(entries: seq<Chunks.Entry>, queued: seq<QueuedCommand>)

  datatype Parsed = Parsed(messages: seq<Message>) | DagDetected | NeedsFull

  ghost function TailMessages(t: Transcript, read: Reader, start: nat): seq<Message> {
    Spliced(Extracted(LinesOf(t.entries, read), start), t.queued, start)
  }

  ghost predicate Accepted(es: seq<Chunks.Entry>, read: Reader) {
    && (forall i | 0 <= i < |es| :: !BreaksChain(es, i))
    && (forall i | 0 <= i < |es| :: !LinksSubagent(es[i], read))
    && Chunks.NoRuns(es)
  }

  lemma SplicingNothing(ms: seq<Message>, start: nat)
    requires NumberedFrom(ms, start)
    ensures Spliced(ms, [], start) == ms
  {
    OnlyMessages(ms, 0);
    SlotsInRange(ms, [], 0, 0);
  }

  lemma {:induction false} OnlyMessages(ms: seq<Message>, i: nat)
    requires i <= |ms|
    ensures |Slots(ms, [], i, 0)| == |ms| - i
    ensures forall k | 0 <= k < |ms| - i :: Slots(ms, [], i, 0)[k] == FromMessages(i + k)
    decreases |ms| - i
  {
    if i < |ms| {
      OnlyMessages(ms, i + 1);
    }
  }

  method ParseFrom(t: Transcript, read: Reader, startOrdinal: nat) returns (out: Parsed)
    ensures out.Parsed? <==> Accepted(t.entries, read)
    ensures out.Parsed? ==> out.messages == TailMessages(t, read, startOrdinal)
    ensures out.DagDetected? <==> exists i | 0 <= i < |t.entries| :: BreaksChain(t.entries, i)
  {
    if |t.entries| == 0 && |t.queued| == 0 {
      SplicingNothing([], startOrdinal);
      assert LinesOf(t.entries, read) == [] && t.queued == [];
      return Parsed([]);
    }
    var fork := HasDagFork(t.entries);
    if fork {
      return DagDetected;
    }
    var full := NeedsFullParse(t.entries, read);
    if full {
      return NeedsFull;
    }
    var lines := seq(|t.entries|, i requires 0 <= i < |t.entries| => LineOf(t.entries[i], read));
    assert lines == LinesOf(t.entries, read);
    var msgs, _, _ := ExtractMessagesFrom(lines, startOrdinal);
    if |t.queued| > 0 {
      msgs := MergeQueuedCommands(msgs, t.queued, startOrdinal);
    } else {
      ExtractNumbers(lines, |lines|, startOrdinal);
      SplicingNothing(msgs, startOrdinal);
      assert t.queued == [];
    }
    out := Parsed(msgs);
  }

  // ------------------------------------------------------------ the full parse

  function ToDag(e: Chunks.Entry): Dag.Entry {
    Dag.Entry(e.uuid, e.parentUuid, if e.assistant then Dag.Assistant else Dag.User)
  }

  ghost function DagOf(es: seq<Chunks.Entry>): seq<Dag.Entry> {
    seq(|es|, i requires 0 <= i < |es| => ToDag(es[i]))
  }

  ghost predicate AllHaveUuid(es: seq<Chunks.Entry>) {
    es != [] && forall i | 0 <= i < |es| :: es[i].uuid != ""
  }

  ghost predicate DistinctEntries(es: seq<Chunks.Entry>) {
    forall i, j | 0 <= i < j < |es| :: es[i].uuid != "" ==> es[i].uuid != es[j].uuid
  }

  /** The merged entries that end up in the main session: a branch of the walk, or all of them. */
  ghost function MainEntries(es: seq<Chunks.Entry>): seq<Chunks.Entry>
    requires DistinctEntries(es)
  {
    var merged := Chunks.MergedChunks(es);
    var dag := DagOf(merged);
    if AllHaveUuid(es) && Dag.Connected(dag) then
      MergedStaysDistinct(es);
      Pick(merged, Dag.MainWalk(dag, "").path)
    else merged
  }

  ghost function Pick(es: seq<Chunks.Entry>, path: seq<nat>): seq<Chunks.Entry> {
    seq(|path|, k requires 0 <= k < |path| => if path[k] < |es| then es[path[k]] else Chunks.Entry("", "", false, "", "", Chunks.Opaque(""), ""))
  }

  ghost function FullMessages(t: Transcript, read: Reader): seq<Message>
    requires DistinctEntries(t.entries)
  {
    Spliced(Extracted(LinesOf(MainEntries(t.entries), read), 0), t.queued, 0)
  }

  /** u is the uuid of an entry, from i on, that ends its run. */
  ghost predicate EndsRun(es: seq<Chunks.Entry>, i: nat, u: string) {
    exists n | i <= n < |es| :: es[n].uuid == u && (n + 1 < |es| ==> !Chunks.SameMessage(es[n], es[n + 1]))
  }

  /** The merged entries carry distinct uuids, each of an entry, from i on, that ends its run. */
  ghost predicate KeepsRunEnds(es: seq<Chunks.Entry>, i: nat, merged: seq<Chunks.Entry>) {
    && (forall k | 0 <= k < |merged| :: EndsRun(es, i, merged[k].uuid))
    && (forall j, k | 0 <= j < k < |merged| :: merged[j].uuid != merged[k].uuid)
  }

  /** Every merged entry keeps the uuid of the last entry of its run. */
  lemma {:induction false} MergedUuids(es: seq<Chunks.Entry>, i: nat)
    requires i <= |es| && AllHaveUuid(es) && DistinctEntries(es)
    ensures KeepsRunEnds(es, i, Chunks.MergedFrom(es, i))
    decreases |es| - i
  {
    if i < |es| {
      var j := Chunks.RunEnd(es, i);
      MergedUuids(es, j);
      Chunks.RunIsOneMessage(es, i);
      Chunks.MergedHead(es, i);
      SliceKeepsLastUuid(es[i..j]);
      RunEndsCons(es, i, j, Chunks.MergedSlice(es[i..j]), Chunks.MergedFrom(es, j));
    }
  }

  lemma SliceKeepsLastUuid(run: seq<Chunks.Entry>)
    requires run != []
    ensures Chunks.MergedSlice(run).uuid == run[|run| - 1].uuid
  {
  }

  lemma RunEndsCons(es: seq<Chunks.Entry>, i: nat, j: nat, head: Chunks.Entry, rest: seq<Chunks.Entry>)
    requires i < j <= |es| && AllHaveUuid(es) && DistinctEntries(es) && KeepsRunEnds(es, j, rest)
    requires head.uuid == es[j - 1].uuid && (j < |es| ==> !Chunks.SameMessage(es[j - 1], es[j]))
    ensures KeepsRunEnds(es, i, [head] + rest)
  {
    assert EndsRun(es, i, head.uuid);
    forall k | 0 <= k < |rest|
      ensures EndsRun(es, i, rest[k].uuid) && rest[k].uuid != head.uuid
    {
      assert EndsRun(es, j, rest[k].uuid);
      var n :| j <= n < |es| && es[n].uuid == rest[k].uuid && (n + 1 < |es| ==> !Chunks.SameMessage(es[n], es[n + 1]));
      assert es[j - 1].uuid != es[n].uuid;
    }
  }

  lemma MergedStaysDistinct(es: seq<Chunks.Entry>)
    requires AllHaveUuid(es) && DistinctEntries(es)
    ensures Dag.DistinctUuids(DagOf(Chunks.MergedChunks(es)))
  {
    MergedUuids(es, 0);
    var merged := Chunks.MergedChunks(es);
    assert KeepsRunEnds(es, 0, merged);
    var dag := DagOf(merged);
    forall i | 0 <= i < |dag|
      ensures dag[i].uuid == merged[i].uuid != ""
    {
      assert EndsRun(es, 0, merged[i].uuid);
    }
  }

  /** Every entry continues the one right before it. */
  ghost predicate ChainFile(es: seq<Chunks.Entry>) {
    && AllHaveUuid(es) && DistinctEntries(es) && es[0].parentUuid == ""
    && forall i | 0 < i < |es| :: es[i].parentUuid == es[i - 1].uuid
  }

  /** The k-th merged entry names as its parent the entry n, which went up in a run together with n + 1. */
  ghost predicate Orphans(es: seq<Chunks.Entry>, merged: seq<Chunks.Entry>, k: int, n: int) {
    && 0 <= k < |merged| && 0 <= n && n + 1 < |es|
    && Chunks.SameMessage(es[n], es[n + 1])
    && merged[k].parentUuid == es[n + 1].parentUuid
  }

  ghost predicate HasOrphan(es: seq<Chunks.Entry>, merged: seq<Chunks.Entry>) {
    exists k, n :: Orphans(es, merged, k, n)
  }

  lemma OrphanBehind(es: seq<Chunks.Entry>, i: nat)
    requires i < |es| && HasOrphan(es, Chunks.MergedFrom(es, Chunks.RunEnd(es, i)))
    ensures HasOrphan(es, Chunks.MergedFrom(es, i))
  {
    var k, n :| Orphans(es, Chunks.MergedFrom(es, Chunks.RunEnd(es, i)), k, n);
    Chunks.MergedHead(es, i);
    assert Orphans(es, Chunks.MergedFrom(es, i), k + 1, n);
  }

  lemma OrphanInFront(es: seq<Chunks.Entry>, i: nat)
    requires i < |es| && Chunks.RunEnd(es, i) > i + 1
    ensures HasOrphan(es, Chunks.MergedFrom(es, i))
  {
    LastOfRun(es, i);
    Chunks.MergedHead(es, i);
    assert Orphans(es, Chunks.MergedFrom(es, i), 0, Chunks.RunEnd(es, i) - 2);
  }

  /** A run inside leaves a merged entry whose parent is the vanished entry before its last. */
  lemma {:induction false} RunLeavesOrphan(es: seq<Chunks.Entry>, i: nat, p: nat)
    requires i <= p && p + 1 < |es| && Chunks.SameMessage(es[p], es[p + 1])
    ensures HasOrphan(es, Chunks.MergedFrom(es, i))
    decreases |es| - i
  {
    if Chunks.RunEnd(es, i) > i + 1 {
      OrphanInFront(es, i);
    } else {
      Chunks.RunIsOneMessage(es, i);
      RunLeavesOrphan(es, i + 1, p);
      OrphanBehind(es, i);
    }
  }

  lemma {:induction false} LastOfRun(es: seq<Chunks.Entry>, i: nat)
    requires i < |es| && Chunks.RunEnd(es, i) > i + 1
    ensures Chunks.SameMessage(es[Chunks.RunEnd(es, i) - 2], es[Chunks.RunEnd(es, i) - 1])
    decreases |es| - i
  {
    if Chunks.RunEnd(es, i + 1) > i + 2 {
      LastOfRun(es, i + 1);
    }
  }

  lemma RunDisconnects(es: seq<Chunks.Entry>)
    requires AllHaveUuid(es) && DistinctEntries(es) && !Chunks.NoRuns(es)
    requires forall i | 0 < i < |es| :: es[i].parentUuid == es[i - 1].uuid
    ensures !Dag.Connected(DagOf(Chunks.MergedChunks(es)))
  {
    var p :| 0 <= p < |es| - 1 && Chunks.SameMessage(es[p], es[p + 1]);
    RunLeavesOrphan(es, 0, p);
    var merged := Chunks.MergedChunks(es);
    var k, n :| Orphans(es, merged, k, n);
    OrphanHasNoParent(es, k, n);
    assert DagOf(merged)[k].parentUuid == es[n].uuid != "";
  }

  lemma OrphanHasNoParent(es: seq<Chunks.Entry>, k: nat, n: nat)
    requires AllHaveUuid(es) && DistinctEntries(es)
    requires forall i | 0 < i < |es| :: es[i].parentUuid == es[i - 1].uuid
    requires Orphans(es, Chunks.MergedChunks(es), k, n)
    ensures forall j :: !Dag.Names(DagOf(Chunks.MergedChunks(es)), j, k)
  {
    var merged := Chunks.MergedChunks(es);
    MergedUuids(es, 0);
    assert KeepsRunEnds(es, 0, merged);
    assert merged[k].parentUuid == es[n].uuid;
    forall j | 0 <= j < |merged|
      ensures merged[j].uuid != es[n].uuid
    {
      assert EndsRun(es, 0, merged[j].uuid);
      var m :| 0 <= m < |es| && merged[j].uuid == es[m].uuid && (m + 1 < |es| ==> !Chunks.SameMessage(es[m], es[m + 1]));
      assert m != n;
    }
  }

  /** The full parse of a chain keeps every merged entry, in order. */
  lemma ChainKeepsEverything(es: seq<Chunks.Entry>)
    requires ChainFile(es)
    ensures MainEntries(es) == Chunks.MergedChunks(es)
  {
    var merged := Chunks.MergedChunks(es);
    var dag := DagOf(merged);
    if Chunks.NoRuns(es) {
      Chunks.NoRunsNoChange(es, 0);
      MergedStaysDistinct(es);
      Dag.ChainWalksStraight(dag, "");
      assert Pick(merged, Dag.AllIndices(dag)) == merged;
    } else {
      RunDisconnects(es);
    }
  }

  // ------------------------------------------------- appending, entry by entry

  /** The full parse walks the forest of merged entries; otherwise it is linear. */
  ghost predicate IsDag(es: seq<Chunks.Entry>) {
    AllHaveUuid(es) && Dag.Connected(DagOf(Chunks.MergedChunks(es)))
  }

  ghost predicate Unbroken(es: seq<Chunks.Entry>) {
    forall i | 0 <= i < |es| :: !BreaksChain(es, i)
  }

  /**
   * When the main session of a + b is the main session of a and then b.  Two linear parses always agree;
   * between two walks the tail has to continue the last entry of the main branch; and where one is linear
   * and the other a walk, the walked file has to be a chain.
   */
  ghost predicate MainGoesOn(a: seq<Chunks.Entry>, b: seq<Chunks.Entry>)
    requires DistinctEntries(a)
  {
    var merged := Chunks.MergedChunks(a);
    if !IsDag(a) then IsDag(a + b) ==> Dag.Chain(DagOf(merged + b))
    else if !IsDag(a + b) then Dag.Chain(DagOf(merged))
    else b == [] || (MainEntries(a) != [] && b[0].parentUuid == MainEntries(a)[|MainEntries(a)| - 1].uuid)
  }

  lemma MergedGoesOn(a: seq<Chunks.Entry>, b: seq<Chunks.Entry>)
    requires Chunks.NoRuns(b) && !Chunks.CutsRun(a, b)
    ensures Chunks.MergedChunks(a + b) == Chunks.MergedChunks(a) + b
    ensures DagOf(Chunks.MergedChunks(a) + b) == DagOf(Chunks.MergedChunks(a)) + DagOf(b)
  {
    Chunks.MergeSplitsIff(a, b);
    Chunks.NoRunsNoChange(b, 0);
  }

  lemma FrontIsDistinct(a: seq<Chunks.Entry>, b: seq<Chunks.Entry>)
    requires DistinctEntries(a + b)
    ensures DistinctEntries(a) && (AllHaveUuid(a + b) && a != [] ==> AllHaveUuid(a))
  {
    var ab := a + b;
    assert forall i | 0 <= i < |a| :: a[i] == ab[i];
  }

  /** A walk keeps every entry in order exactly when the file is a chain. */
  lemma WalkKeepsAllIff(es: seq<Chunks.Entry>)
    requires Dag.DistinctUuids(DagOf(es)) && Dag.Connected(DagOf(es))
    ensures Pick(es, Dag.MainWalk(DagOf(es), "").path) == es <==> Dag.Chain(DagOf(es))
  {
    var dag := DagOf(es);
    var path := Dag.MainWalk(dag, "").path;
    PickAll(es);
    if Dag.Chain(dag) {
      Dag.ChainWalksStraight(dag, "");
    }
    if Pick(es, path) == es {
      MainIsInside(dag);
      PickIsInjective(es, path, Dag.AllIndices(dag));
      StraightIsChain(dag);
    }
  }

  lemma PickAll(es: seq<Chunks.Entry>)
    ensures Pick(es, Dag.AllIndices(DagOf(es))) == es
  {
  }

  /** Picks of entries with distinct uuids are equal only for equal paths. */
  lemma PickIsInjective(es: seq<Chunks.Entry>, p: seq<nat>, q: seq<nat>)
    requires Dag.DistinctUuids(DagOf(es)) && Pick(es, p) == Pick(es, q)
    requires (forall k | 0 <= k < |p| :: p[k] < |es|) && forall k | 0 <= k < |q| :: q[k] < |es|
    ensures p == q
  {
    assert |p| == |Pick(es, p)| == |q|;
    forall k | 0 <= k < |p|
      ensures p[k] == q[k]
    {
      assert Pick(es, p)[k] == Pick(es, q)[k];
      assert DagOf(es)[p[k]].uuid == DagOf(es)[q[k]].uuid;
    }
  }

  lemma StraightIsChain(dag: seq<Dag.Entry>)
    requires Dag.DistinctUuids(dag) && Dag.Connected(dag) && Dag.MainWalk(dag, "").path == Dag.AllIndices(dag)
    ensures Dag.Chain(dag)
  {
    Dag.RootIsRooted(dag);
    Dag.WalkShape(dag, "", Dag.Root(dag), "");
    var path := Dag.AllIndices(dag);
    assert path[0] == Dag.Root(dag) == 0;
    forall i | 0 < i < |dag|
      ensures dag[i].parentUuid == dag[i - 1].uuid
    {
      assert path[i - 1 + 1] == Dag.NextOnBranch(dag, path[i - 1]);
      assert i in Dag.Kids(dag, i - 1);
    }
  }

  lemma TailIsLinked(a: seq<Chunks.Entry>, b: seq<Chunks.Entry>)
    requires AllHaveUuid(a + b) && Unbroken(b)
    ensures Growth.Linked(DagOf(b))
  {
    forall i | 0 <= i < |b|
      ensures b[i].uuid != ""
    {
      assert (a + b)[|a| + i] == b[i];
    }
    forall i | 0 < i < |b|
      ensures b[i].parentUuid == b[i - 1].uuid
    {
      LastUuidIsPrevious(b, i);
      assert !BreaksChain(b, i);
    }
  }

  /** Between two walks: the tail continues the last entry of the main branch. */
  lemma WalkGoesOnIff(m: seq<Chunks.Entry>, b: seq<Chunks.Entry>)
    requires b != [] && Growth.Linked(DagOf(b))
    requires Dag.DistinctUuids(DagOf(m)) && Dag.Connected(DagOf(m))
    requires Dag.DistinctUuids(DagOf(m + b)) && Dag.Connected(DagOf(m + b))
    ensures var main := Pick(m, Dag.MainWalk(DagOf(m), "").path);
      && main != []
      && (Pick(m + b, Dag.MainWalk(DagOf(m + b), "").path) == main + b <==> b[0].parentUuid == main[|main| - 1].uuid)
  {
    assert DagOf(m + b) == DagOf(m) + DagOf(b);
    PickGrowsIff(m, b);
    PathGrowsIff(m, b);
  }

  lemma PickGrowsIff(m: seq<Chunks.Entry>, b: seq<Chunks.Entry>)
    requires Dag.DistinctUuids(DagOf(m)) && Dag.Connected(DagOf(m))
    requires Dag.DistinctUuids(DagOf(m + b)) && Dag.Connected(DagOf(m + b))
    ensures var path, longer := Dag.MainWalk(DagOf(m), "").path, Dag.MainWalk(DagOf(m + b), "").path;
      Pick(m + b, longer) == Pick(m, path) + b <==> longer == path + Growth.UpTo(|m|, |m + b|)
  {
    MainIsInside(DagOf(m));
    MainIsInside(DagOf(m + b));
    LongerPickIff(m, b, Dag.MainWalk(DagOf(m), "").path, Dag.MainWalk(DagOf(m + b), "").path);
  }

  lemma PathGrowsIff(m: seq<Chunks.Entry>, b: seq<Chunks.Entry>)
    requires b != [] && Growth.Linked(DagOf(b))
    requires Dag.DistinctUuids(DagOf(m)) && Dag.Connected(DagOf(m))
    requires Dag.DistinctUuids(DagOf(m) + DagOf(b)) && Dag.Connected(DagOf(m) + DagOf(b))
    ensures var path, longer := Dag.MainWalk(DagOf(m), "").path, Dag.MainWalk(DagOf(m) + DagOf(b), "").path;
      && Pick(m, path) != []
      && ((longer == path + Growth.UpTo(|m|, |m + b|)) <==> b[0].parentUuid == Pick(m, path)[|Pick(m, path)| - 1].uuid)
  {
    Growth.MainGrowsIff(DagOf(m), DagOf(b), "");
    LastPicked(m);
  }

  lemma LastPicked(m: seq<Chunks.Entry>)
    requires Dag.DistinctUuids(DagOf(m)) && Dag.Connected(DagOf(m))
    ensures var main := Pick(m, Dag.MainWalk(DagOf(m), "").path);
      main != [] && main[|main| - 1].uuid == DagOf(m)[Growth.MainLeaf(DagOf(m), "")].uuid
  {
    var path := Dag.MainWalk(DagOf(m), "").path;
    MainIsInside(DagOf(m));
    Growth.MainLeafIsLast(DagOf(m), "");
    LastOfPick(m, path);
  }

  lemma LastOfPick(m: seq<Chunks.Entry>, path: seq<nat>)
    requires path != [] && path[|path| - 1] < |m|
    ensures var picked := Pick(m, path);
      picked != [] && picked[|picked| - 1].uuid == DagOf(m)[path[|path| - 1]].uuid
  {
  }

  lemma LongerPickIff(m: seq<Chunks.Entry>, b: seq<Chunks.Entry>, path: seq<nat>, longer: seq<nat>)
    requires Dag.DistinctUuids(DagOf(m + b))
    requires (forall k | 0 <= k < |path| :: path[k] < |m|) && forall k | 0 <= k < |longer| :: longer[k] < |m + b|
    ensures Pick(m + b, longer) == Pick(m, path) + b <==> longer == path + Growth.UpTo(|m|, |m + b|)
  {
    PickGrows(m, b, path);
    if Pick(m + b, longer) == Pick(m, path) + b {
      PickIsInjective(m + b, longer, path + Growth.UpTo(|m|, |m + b|));
    }
  }

  lemma MainIsInside(dag: seq<Dag.Entry>)
    requires Dag.DistinctUuids(dag) && Dag.Connected(dag)
    ensures var path := Dag.MainWalk(dag, "").path;
      path != [] && forall k | 0 <= k < |path| :: path[k] < |dag|
  {
    Dag.RootIsRooted(dag);
    Dag.WalkShape(dag, "", Dag.Root(dag), "");
  }

  lemma PickGrows(m: seq<Chunks.Entry>, b: seq<Chunks.Entry>, path: seq<nat>)
    requires forall k | 0 <= k < |path| :: path[k] < |m|
    ensures Pick(m + b, path + Growth.UpTo(|m|, |m + b|)) == Pick(m, path) + b
    ensures forall k | 0 <= k < |path + Growth.UpTo(|m|, |m + b|)| :: (path + Growth.UpTo(|m|, |m + b|))[k] < |m + b|
  {
  }

  /** A tail that the incremental parser may accept. */
  ghost predicate Appendable(a: seq<Chunks.Entry>, b: seq<Chunks.Entry>) {
    DistinctEntries(a + b) && DistinctEntries(a) && Unbroken(b) && Chunks.NoRuns(b) && !Chunks.CutsRun(a, b)
  }

  lemma LinearThenLinear(a: seq<Chunks.Entry>, b: seq<Chunks.Entry>)
    requires Appendable(a, b) && !IsDag(a) && !IsDag(a + b)
    ensures MainEntries(a + b) == MainEntries(a) + b
  {
    MergedGoesOn(a, b);
  }

  lemma LinearThenWalk(a: seq<Chunks.Entry>, b: seq<Chunks.Entry>)
    requires Appendable(a, b) && !IsDag(a) && IsDag(a + b)
    ensures MainEntries(a + b) == MainEntries(a) + b <==> Dag.Chain(DagOf(Chunks.MergedChunks(a) + b))
  {
    MergedGoesOn(a, b);
    MergedStaysDistinct(a + b);
    WalkKeepsAllIff(Chunks.MergedChunks(a) + b);
  }

  lemma WalkThenLinear(a: seq<Chunks.Entry>, b: seq<Chunks.Entry>)
    requires Appendable(a, b) && IsDag(a) && !IsDag(a + b)
    ensures MainEntries(a + b) == MainEntries(a) + b <==> Dag.Chain(DagOf(Chunks.MergedChunks(a)))
  {
    MergedGoesOn(a, b);
    MergedStaysDistinct(a);
    WalkKeepsAllIff(Chunks.MergedChunks(a));
    SameFront(Chunks.MergedChunks(a), MainEntries(a), b);
  }

  lemma WalkThenWalk(a: seq<Chunks.Entry>, b: seq<Chunks.Entry>)
    requires Appendable(a, b) && IsDag(a) && IsDag(a + b) && b != []
    ensures MainEntries(a) != []
    ensures MainEntries(a + b) == MainEntries(a) + b <==> b[0].parentUuid == MainEntries(a)[|MainEntries(a)| - 1].uuid
  {
    MergedGoesOn(a, b);
    MergedStaysDistinct(a);
    MergedStaysDistinct(a + b);
    TailIsLinked(a, b);
    WalkGoesOnIff(Chunks.MergedChunks(a), b);
  }

  /** What is kept when b is appended to a, for files of every shape. */
  lemma MainGoesOnIff(a: seq<Chunks.Entry>, b: seq<Chunks.Entry>)
    requires DistinctEntries(a + b) && Unbroken(b) && Chunks.NoRuns(b) && !Chunks.CutsRun(a, b)
    ensures DistinctEntries(a)
    ensures MainEntries(a + b) == MainEntries(a) + b <==> MainGoesOn(a, b)
  {
    FrontIsDistinct(a, b);
    if b == [] {
      assert a + b == a;
      MainOfItself(a);
    } else if !IsDag(a) && !IsDag(a + b) {
      LinearThenLinear(a, b);
    } else if !IsDag(a) {
      LinearThenWalk(a, b);
    } else if !IsDag(a + b) {
      WalkThenLinear(a, b);
    } else {
      WalkThenWalk(a, b);
    }
  }

  lemma MainOfItself(a: seq<Chunks.Entry>)
    requires DistinctEntries(a)
    ensures MainEntries(a) == MainEntries(a) + [] && MainGoesOn(a, [])
  {
    assert a + [] == a;
  }

  lemma SameFront<T>(x: seq<T>, y: seq<T>, z: seq<T>)
    ensures x + z == y + z ==> x == y
  {
    if x + z == y + z {
      assert |x| == |y|;
      assert x == (x + z)[..|x|] && y == (y + z)[..|y|];
    }
  }

  // ------------------------------------------------------------ the agreement

  /** Equal up to the ordinals, which every merge rewrites. */
  ghost predicate SameBodies(a: seq<Message>, b: seq<Message>) {
    |a| == |b| && forall k | 0 <= k < |a| :: a[k].(ordinal := 0) == b[k].(ordinal := 0)
  }

  /** What a line gives does not depend on its number, up to the number. */
  ghost predicate KeepsBodies(give: (Line, nat) -> seq<Message>) {
    forall line, i, j :: SameBodies(give(line, i), give(line, j))
  }

  lemma EmittedKeepsBodies()
    ensures KeepsBodies(Emitted)
  {
    forall line, m, n
      ensures SameBodies(Emitted(line, m), Emitted(line, n))
    {
      BodyIgnoresOrdinal(line, m, n);
    }
  }

  lemma ExtractSameBodies(lines: seq<Line>, s: nat, t: nat)
    ensures SameBodies(Extracted(lines, s), Extracted(lines, t))
  {
    EmittedKeepsBodies();
    GatheredSameBodies(lines, |lines|, Emitted, s, t);
  }

  lemma {:induction false} GatheredSameBodies(lines: seq<Line>, n: nat, give: (Line, nat) -> seq<Message>, s: nat, t: nat)
    requires n <= |lines| && KeepsBodies(give)
    ensures SameBodies(Gathered(lines, n, give, s), Gathered(lines, n, give, t))
  {
    if n > 0 {
      GatheredSameBodies(lines, n - 1, give, s, t);
      var a, b := Gathered(lines, n - 1, give, s), Gathered(lines, n - 1, give, t);
      SameBodiesAppend(a, b, give(lines[n - 1], s + |a|), give(lines[n - 1], t + |b|));
    }
  }

  lemma SameBodiesAppend(a: seq<Message>, b: seq<Message>, c: seq<Message>, d: seq<Message>)
    requires SameBodies(a, b) && SameBodies(c, d)
    ensures SameBodies(a + c, b + d)
  {
  }

  lemma BodyIgnoresOrdinal(e: Line, s: nat, t: nat)
    ensures SameBodies(Emitted(e, s), Emitted(e, t))
  {
  }

  lemma {:induction false} SlotsIgnoreOrdinals(a: seq<Message>, b: seq<Message>, qs: seq<QueuedCommand>, i: nat, j: nat)
    requires SameBodies(a, b) && i <= |a| && j <= |qs|
    ensures Slots(a, qs, i, j) == Slots(b, qs, i, j)
    decreases |a| - i + |qs| - j
  {
    if i < |a| {
      assert a[i].(ordinal := 0).timestamp == b[i].(ordinal := 0).timestamp;
    }
    if i == |a| && j == |qs| {
    } else if j < |qs| && (i == |a| || QueuedBefore(qs[j], a[i])) {
      SlotsIgnoreOrdinals(a, b, qs, i, j + 1);
    } else {
      SlotsIgnoreOrdinals(a, b, qs, i + 1, j);
    }
  }

  lemma SpliceIgnoresOrdinals(a: seq<Message>, b: seq<Message>, qs: seq<QueuedCommand>, start: nat)
    requires SameBodies(a, b)
    ensures Spliced(a, qs, start) == Spliced(b, qs, start)
  {
    SlotsIgnoreOrdinals(a, b, qs, 0, 0);
    SlotsInRange(a, qs, 0, 0);
    var slots := Slots(a, qs, 0, 0);
    forall k | 0 <= k < |slots|
      ensures Spliced(a, qs, start)[k] == Spliced(b, qs, start)[k]
    {
      match slots[k] {
        case FromMessages(i) => assert a[i].(ordinal := 0).(ordinal := start + k) == b[i].(ordinal := 0).(ordinal := start + k);
        case FromQueue(j) =>
      }
    }
  }

  /** A clean merge splits: the second part starts where the first one stopped. */
  lemma SpliceSplits(m1: seq<Message>, q1: seq<QueuedCommand>, m2: seq<Message>, q2: seq<QueuedCommand>)
    requires CleanFrom(m1, q1, m2, q2, 0, 0)
    ensures Spliced(m1 + m2, q1 + q2, 0) == Spliced(m1, q1, 0) + Spliced(m2, q2, |m1| + |q1|)
  {
    SlotsSplitIff(m1, q1, m2, q2, 0, 0);
    var whole, parts := Spliced(m1 + m2, q1 + q2, 0), Spliced(m1, q1, 0) + Spliced(m2, q2, |m1| + |q1|);
    forall k | 0 <= k < |whole|
      ensures whole[k] == parts[k]
    {
      SplitPlace(m1, q1, m2, q2, k);
    }
  }

  lemma SplitPlace(m1: seq<Message>, q1: seq<QueuedCommand>, m2: seq<Message>, q2: seq<QueuedCommand>, k: nat)
    requires k < |m1| + |q1| + |m2| + |q2|
    requires Slots(m1 + m2, q1 + q2, 0, 0) == Slots(m1, q1, 0, 0) + Shifted(Slots(m2, q2, 0, 0), |m1|, |q1|)
    ensures Spliced(m1 + m2, q1 + q2, 0)[k] == (Spliced(m1, q1, 0) + Spliced(m2, q2, |m1| + |q1|))[k]
  {
    SplicedPlace(m1 + m2, q1 + q2, 0, k);
    SplicedPlace(m1, q1, 0, k);
    if k < |m1| + |q1| {
      FillInFront(Slots(m1, q1, 0, 0)[k], m1, q1, m2, q2);
    } else {
      SplicedPlace(m2, q2, |m1| + |q1|, k - |m1| - |q1|);
      FillBehind(Slots(m2, q2, 0, 0)[k - |m1| - |q1|], m1, q1, m2, q2);
    }
  }

  lemma SplicedPlace(ms: seq<Message>, qs: seq<QueuedCommand>, start: nat, k: nat)
    ensures |Slots(ms, qs, 0, 0)| == |ms| + |qs|
    ensures k < |ms| + |qs| ==>
      var slot := Slots(ms, qs, 0, 0)[k];
      SlotIn(slot, |ms|, |qs|) && Spliced(ms, qs, start)[k] == Fill(slot, ms, qs).(ordinal := start + k)
  {
    SlotsInRange(ms, qs, 0, 0);
  }

  lemma FillInFront(slot: Slot, m1: seq<Message>, q1: seq<QueuedCommand>, m2: seq<Message>, q2: seq<QueuedCommand>)
    requires SlotIn(slot, |m1|, |q1|)
    ensures Fill(slot, m1 + m2, q1 + q2) == Fill(slot, m1, q1)
  {
  }

  lemma FillBehind(slot: Slot, m1: seq<Message>, q1: seq<QueuedCommand>, m2: seq<Message>, q2: seq<QueuedCommand>)
    requires SlotIn(slot, |m2|, |q2|)
    ensures SlotIn(Shift(slot, |m1|, |q1|), |m1 + m2|, |q1 + q2|)
    ensures Fill(Shift(slot, |m1|, |q1|), m1 + m2, q1 + q2) == Fill(slot, m2, q2)
  {
  }

  lemma LinesSplit(a: seq<Chunks.Entry>, b: seq<Chunks.Entry>, read: Reader)
    ensures LinesOf(a + b, read) == LinesOf(a, read) + LinesOf(b, read)
  {
  }

  /** The queued commands of the tail merge cleanly behind the main session of a. */
  ghost predicate Clean(a: Transcript, b: Transcript, read: Reader)
    requires DistinctEntries(a.entries)
  {
    CleanFrom(
      Extracted(LinesOf(MainEntries(a.entries), read), 0), a.queued,
      Extracted(LinesOf(b.entries, read), 0), b.queued, 0, 0)
  }

  ghost function Appended(a: Transcript, b: Transcript): Transcript {
    Transcript(a.entries + b.entries, a.queued + b.queued)
  }

  /**
   * Appending: when the incremental parser accepts the tail, the full parse of the longer file is the
   * full parse of the shorter one followed by the incremental messages, provided the main session goes
   * on with the tail, the tail does not carry on the last message, and the queued commands merge cleanly.
   */
  lemma IncrementalAgreesWithFull(a: Transcript, b: Transcript, read: Reader)
    requires DistinctEntries(a.entries + b.entries) && DistinctEntries(a.entries)
    requires Accepted(b.entries, read) && !Chunks.CutsRun(a.entries, b.entries)
    requires MainGoesOn(a.entries, b.entries) && Clean(a, b, read)
    ensures FullMessages(Appended(a, b), read)
         == FullMessages(a, read) + TailMessages(b, read, |FullMessages(a, read)|)
  {
    MainGoesOnIff(a.entries, b.entries);
    MainMessagesSplit(MainEntries(a.entries), a.queued, b, read);
  }

  /** The messages of some entries and commands. */
  ghost function MessagesOf(entries: seq<Chunks.Entry>, queued: seq<QueuedCommand>, read: Reader): seq<Message> {
    Spliced(Extracted(LinesOf(entries, read), 0), queued, 0)
  }

  lemma MainMessagesSplit(main: seq<Chunks.Entry>, queued: seq<QueuedCommand>, b: Transcript, read: Reader)
    requires CleanFrom(Extracted(LinesOf(main, read), 0), queued, Extracted(LinesOf(b.entries, read), 0), b.queued, 0, 0)
    ensures MessagesOf(main + b.entries, queued + b.queued, read)
         == MessagesOf(main, queued, read) + TailMessages(b, read, |MessagesOf(main, queued, read)|)
  {
    LinesSplit(main, b.entries, read);
    LinesMessagesSplit(LinesOf(main, read), LinesOf(b.entries, read), queued, b.queued);
  }

  /** Extracting and merging the tail by itself, numbered on from the messages that are there. */
  lemma LinesMessagesSplit(x: seq<Line>, y: seq<Line>, q1: seq<QueuedCommand>, q2: seq<QueuedCommand>)
    requires CleanFrom(Extracted(x, 0), q1, Extracted(y, 0), q2, 0, 0)
    ensures var n := |Extracted(x, 0)| + |q1|;
      Spliced(Extracted(x + y, 0), q1 + q2, 0) == Spliced(Extracted(x, 0), q1, 0) + Spliced(Extracted(y, n), q2, n)
  {
    var m := |Extracted(x, 0)|;
    ExtractSameBodies(y, 0, m);
    ExtractSameBodies(y, m, m + |q1|);
    GatheredMessagesSplit(x, y, Emitted, q1, q2);
  }

  lemma GatheredMessagesSplit(x: seq<Line>, y: seq<Line>, give: (Line, nat) -> seq<Message>, q1: seq<QueuedCommand>, q2: seq<QueuedCommand>)
    requires CleanFrom(Gathered(x, |x|, give, 0), q1, Gathered(y, |y|, give, 0), q2, 0, 0)
    requires var m := |Gathered(x, |x|, give, 0)|;
      && SameBodies(Gathered(y, |y|, give, 0), Gathered(y, |y|, give, m))
      && SameBodies(Gathered(y, |y|, give, m), Gathered(y, |y|, give, m + |q1|))
    ensures var n := |Gathered(x, |x|, give, 0)| + |q1|;
      Spliced(Gathered(x + y, |x + y|, give, 0), q1 + q2, 0)
      == Spliced(Gathered(x, |x|, give, 0), q1, 0) + Spliced(Gathered(y, |y|, give, n), q2, n)
  {
    var m1 := Gathered(x, |x|, give, 0);
    var n := |m1| + |q1|;
    GatheredSplits(x, y, |y|, give, 0);
    SpliceSplitsWhole(
      Gathered(x + y, |x + y|, give, 0), m1, Gathered(y, |y|, give, 0), Gathered(y, |y|, give, |m1|), Gathered(y, |y|, give, n), q1, q2, n);
  }

  lemma SpliceSplitsWhole(
    whole: seq<Message>, m1: seq<Message>, a: seq<Message>, b: seq<Message>, c: seq<Message>, q1: seq<QueuedCommand>, q2: seq<QueuedCommand>, n: nat)
    requires whole == m1 + b && n == |m1| + |q1| && SameBodies(a, b) && SameBodies(b, c) && CleanFrom(m1, q1, a, q2, 0, 0)
    ensures Spliced(whole, q1 + q2, 0) == Spliced(m1, q1, 0) + Spliced(c, q2, n)
  {
    SpliceSplitsMessages(m1, a, b, c, q1, q2);
  }

  lemma SpliceSplitsMessages(
    m1: seq<Message>, a: seq<Message>, b: seq<Message>, c: seq<Message>, q1: seq<QueuedCommand>, q2: seq<QueuedCommand>)
    requires SameBodies(a, b) && SameBodies(b, c) && CleanFrom(m1, q1, a, q2, 0, 0)
    ensures Spliced(m1 + b, q1 + q2, 0) == Spliced(m1, q1, 0) + Spliced(c, q2, |m1| + |q1|)
  {
    SameTail(m1, q1, a, b, q2);
    SpliceSplits(m1, q1, b, q2);
    SpliceIgnoresOrdinals(b, c, q2, |m1| + |q1|);
  }

  lemma {:induction false} CleanIgnoresOrdinals(
    m1: seq<Message>, q1: seq<QueuedCommand>, m2: seq<Message>, m2': seq<Message>, q2: seq<QueuedCommand>, i: nat, j: nat)
    requires SameBodies(m2, m2') && i <= |m1| && j <= |q1| && CleanFrom(m1, q1, m2, q2, i, j)
    ensures CleanFrom(m1, q1, m2', q2, i, j)
    decreases |m1| - i + |q1| - j
  {
    if i < |m1| && j < |q1| {
      if QueuedBefore(q1[j], m1[i]) {
        CleanIgnoresOrdinals(m1, q1, m2, m2', q2, i, j + 1);
      } else {
        CleanIgnoresOrdinals(m1, q1, m2, m2', q2, i + 1, j);
      }
    } else if m2 != [] {
      assert m2[0].(ordinal := 0).timestamp == m2'[0].(ordinal := 0).timestamp;
    }
  }

  lemma SameTail(m1: seq<Message>, q1: seq<QueuedCommand>, m2: seq<Message>, m2': seq<Message>, q2: seq<QueuedCommand>)
    requires SameBodies(m2, m2') && CleanFrom(m1, q1, m2, q2, 0, 0)
    ensures CleanFrom(m1, q1, m2', q2, 0, 0)
  {
    CleanIgnoresOrdinals(m1, q1, m2, m2', q2, 0, 0);
  }

  /** Appending in time order merges cleanly. */
  lemma {:induction false} TimeOrderIsClean(
    m1: seq<Message>, q1: seq<QueuedCommand>, m2: seq<Message>, q2: seq<QueuedCommand>, i: nat, j: nat)
    requires i <= |m1| && j <= |q1|
    requires forall q, m | q in q2 && m in m1 :: !QueuedBefore(q, m)
    requires forall q, m | q in q1 && m in m2 :: QueuedBefore(q, m)
    ensures CleanFrom(m1, q1, m2, q2, i, j)
    decreases |m1| - i + |q1| - j
  {
    if i < |m1| && j < |q1| {
      if QueuedBefore(q1[j], m1[i]) {
        TimeOrderIsClean(m1, q1, m2, q2, i, j + 1);
      } else {
        TimeOrderIsClean(m1, q1, m2, q2, i + 1, j);
      }
    }
  }

  // ------------------------------------------------------------- the boundary

  lemma {:induction false} LastUuidIsPrevious(es: seq<Chunks.Entry>, i: nat)
    requires AllHaveUuid(es) && 0 < i <= |es|
    ensures LastUuid(es, i) == es[i - 1].uuid
  {
  }

  /** The fork guard looks inside the tail only: a chain grows into a chain exactly when the first link fits too. */
  lemma ChainGrowsIff(a: seq<Chunks.Entry>, b: seq<Chunks.Entry>)
    requires ChainFile(a) && AllHaveUuid(b) && DistinctEntries(a + b)
    requires forall i | 0 <= i < |b| :: !BreaksChain(b, i)
    ensures ChainFile(a + b) <==> b[0].parentUuid == a[|a| - 1].uuid
  {
    var ab := a + b;
    assert ab[|a|] == b[0] && ab[|a| - 1] == a[|a| - 1];
    forall i | 0 <= i < |ab|
      ensures ab[i].uuid != ""
      ensures 0 < i && i != |a| ==> ab[i].parentUuid == ab[i - 1].uuid
    {
      if i > |a| {
        LastUuidIsPrevious(b, i - |a|);
        assert !BreaksChain(b, i - |a|);
      }
    }
  }

  /** The first entry of the tail b continues some entry of the file other than the last one of a. */
  ghost predicate ForksAtBoundary(a: seq<Chunks.Entry>, b: seq<Chunks.Entry>)
    requires b != []
  {
    exists k | 0 <= k < |a + b| && k != |a| - 1 :: b[0].parentUuid == (a + b)[k].uuid
  }

  /**
   * Exactly when the guards let a tail through that the full parse would not keep whole and in order:
   * when its first entry continues another entry than the last one stored.  (A first entry whose
   * parent is unknown sends the full parse down the linear path, and so does a chunk run.)
   */
  lemma BoundaryForkIff(a: seq<Chunks.Entry>, b: seq<Chunks.Entry>)
    requires ChainFile(a) && AllHaveUuid(b) && DistinctEntries(a + b) && Chunks.NoRuns(a + b)
    requires forall i | 0 <= i < |b| :: !BreaksChain(b, i)
    ensures MainEntries(a + b) == a + b <==> !ForksAtBoundary(a, b)
  {
    var ab := a + b;
    ChainGrowsIff(a, b);
    assert ab[|a|] == b[0] && ab[|a| - 1] == a[|a| - 1];
    if ChainFile(ab) {
      ChainKeepsEverything(ab);
      Chunks.NoRunsNoChange(ab, 0);
    } else if ForksAtBoundary(a, b) {
      var k :| 0 <= k < |ab| && k != |a| - 1 && b[0].parentUuid == ab[k].uuid;
      BoundaryForkLosesTheChain(a, b, k);
    } else {
      NoParentIsLinear(a, b);
      Chunks.NoRunsNoChange(ab, 0);
    }
  }

  lemma NoParentIsLinear(a: seq<Chunks.Entry>, b: seq<Chunks.Entry>)
    requires ChainFile(a) && b != [] && Chunks.NoRuns(a + b)
    requires forall i | 0 <= i < |a + b| :: b[0].parentUuid != (a + b)[i].uuid
    ensures !Dag.Connected(DagOf(Chunks.MergedChunks(a + b)))
  {
    var ab := a + b;
    Chunks.NoRunsNoChange(ab, 0);
    var dag := DagOf(ab);
    assert Chunks.MergedChunks(ab) == ab;
    assert dag[|a|] == ToDag(b[0]) && dag[0] == ToDag(a[0]);
    if b[0].parentUuid == "" {
      TwoRootsAreApart(dag, |a|);
    } else {
      assert forall j :: !Dag.Names(dag, j, |a|);
    }
  }

  lemma TwoRootsAreApart(dag: seq<Dag.Entry>, i: nat)
    requires 0 < i < |dag| && dag[0].parentUuid == "" && dag[i].parentUuid == ""
    ensures !Dag.Connected(dag)
  {
    var roots := Dag.KidsBelow(dag, "", |dag|);
    assert 0 in roots && i in roots;
  }

  lemma BoundaryForkLosesTheChain(a: seq<Chunks.Entry>, b: seq<Chunks.Entry>, k: nat)
    requires ChainFile(a) && AllHaveUuid(b) && DistinctEntries(a + b) && Chunks.NoRuns(a + b)
    requires forall i | 0 <= i < |b| :: !BreaksChain(b, i)
    requires k < |a + b| && k != |a| - 1 && b[0].parentUuid == (a + b)[k].uuid
    ensures MainEntries(a + b) != a + b
  {
    var ab := a + b;
    Chunks.NoRunsNoChange(ab, 0);
    assert Chunks.MergedChunks(ab) == ab;
    assert AllHaveUuid(ab) && ab[|a|] == b[0];
    var dag := DagOf(ab);
    MergedStaysDistinct(ab);
    LinkedTailIsConnected(a, b, k);
    assert Dag.Names(dag, k, |a|);
    Dag.ForkIsNotStraight(dag, "", k, |a|);
    if Pick(ab, Dag.MainWalk(dag, "").path) == ab {
      PickedAllIsStraight(ab, Dag.MainWalk(dag, "").path);
    }
  }

  lemma LinkedTailIsConnected(a: seq<Chunks.Entry>, b: seq<Chunks.Entry>, k: nat)
    requires ChainFile(a) && AllHaveUuid(b)
    requires forall i | 0 <= i < |b| :: !BreaksChain(b, i)
    requires k < |a + b| && b[0].parentUuid == (a + b)[k].uuid
    ensures Dag.Connected(DagOf(a + b))
  {
    var ab := a + b;
    var dag := DagOf(ab);
    forall i | 0 < i < |dag|
      ensures dag[i].parentUuid != "" && exists j :: Dag.Names(dag, j, i)
    {
      if i > |a| {
        LastUuidIsPrevious(b, i - |a|);
        assert !BreaksChain(b, i - |a|);
      }
      var j := if i == |a| then k else i - 1;
      assert ab[j].uuid != "" && Dag.Names(dag, j, i);
    }
    OneRoot(dag, |dag|);
  }

  lemma {:induction false} OneRoot(dag: seq<Dag.Entry>, n: nat)
    requires 0 < n <= |dag| && dag[0].parentUuid == ""
    requires forall i | 0 < i < |dag| :: dag[i].parentUuid != ""
    ensures Dag.KidsBelow(dag, "", n) == [0]
  {
    if n > 1 {
      OneRoot(dag, n - 1);
    } else {
      assert Dag.KidsBelow(dag, "", 0) == [];
    }
  }

  lemma PickedAllIsStraight(es: seq<Chunks.Entry>, path: seq<nat>)
    requires AllHaveUuid(es) && DistinctEntries(es) && Pick(es, path) == es
    ensures path == Dag.AllIndices(DagOf(es))
  {
    assert |path| == |es|;
    forall k | 0 <= k < |path|
      ensures path[k] == k
    {
      assert Pick(es, path)[k].uuid == es[k].uuid;
    }
  }

  /** The guards see no fork in a tail that retries an earlier prompt; the full parse drops the first try. */
  lemma BoundaryForkExample()
    ensures var turn := (u: string, p: string) => Chunks.Entry(u, p, false, "", "", Chunks.Opaque(""), "");
      var a, b := [turn("1", ""), turn("2", "1")], [turn("3", "1")];
      && (forall i | 0 <= i < |b| :: !BreaksChain(b, i)) && Chunks.NoRuns(a + b)
      && DistinctEntries(a + b) && MainEntries(a + b) != a + b
  {
    var turn := (u: string, p: string) => Chunks.Entry(u, p, false, "", "", Chunks.Opaque(""), "");
    var a, b := [turn("1", ""), turn("2", "1")], [turn("3", "1")];
    assert b[0].parentUuid == (a + b)[0].uuid;
    BoundaryForkLosesTheChain(a, b, 0);
  }
}
