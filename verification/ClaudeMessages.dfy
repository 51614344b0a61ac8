/** What every line and every queued command turns into, field by field (internal/parser/claude.go). */
module ClaudeMessages {
  import opened Common
  import opened ClaudeIncremental
  import opened ClaudeAgreement
  import Chunks = ClaudeChunks
  import Endings = ClaudeEndings

  // ------------------------------------------------------------------- leading space

  const SPACES: set<int> := {
    0x09, 0x0A, 0x0B, 0x0C, 0x0D, 0x20, 0x85, 0xA0, 0x1680,
    0x2000, 0x2001, 0x2002, 0x2003, 0x2004, 0x2005, 0x2006, 0x2007, 0x2008, 0x2009, 0x200A,
    0x2028, 0x2029, 0x202F, 0x205F, 0x3000}

  const BOM: int := 0xFEFF

  lemma SpacesAre(c: char)
    ensures IsSpace(c) <==> c as int in SPACES
    ensures IsByteOrderMark(c) <==> c as int == BOM
  {
  }

  /** Nothing but space. */
  predicate AllSpace(text: string) {
    forall i | 0 <= i < |text| :: text[i] as int in SPACES
  }

  predicate Leads(c: char) {
    c as int in SPACES || c as int == BOM
  }

  /** The text up to i is the leading space. */
  predicate StartsAt(text: string, i: nat) {
    && i <= |text| && (forall k | 0 <= k < i :: Leads(text[k]))
    && (i < |text| ==> !Leads(text[i]))
  }

  /** Behind the leading space, byte order marks included, the text begins with p. */
  predicate Begins(text: string, p: string) {
    exists i | 0 <= i <= |text| :: StartsAt(text, i) && p <= text[i..]
  }

  lemma {:induction false} TrimmedStart(text: string)
    ensures var i := |text| - |TrimLeft(text)|;
      i >= 0 && StartsAt(text, i) && TrimLeft(text) == text[i..]
  {
    if text != [] {
      SpacesAre(text[0]);
      if Leads(text[0]) {
        TrimmedStart(text[1..]);
        var i := |text[1..]| - |TrimLeft(text[1..])|;
        assert forall k | 0 < k < |text| :: text[1..][k - 1] == text[k];
        assert text[1..][i..] == text[i + 1..];
      }
    }
  }

  lemma OneStart(text: string, i: nat, j: nat)
    requires StartsAt(text, i) && StartsAt(text, j)
    ensures i == j
  {
    assert i < |text| ==> text[i] == text[i];
    assert j < |text| ==> text[j] == text[j];
  }

  lemma BeginsIff(text: string, p: string)
    ensures p <= TrimLeft(text) <==> Begins(text, p)
  {
    TrimmedStart(text);
    var i := |text| - |TrimLeft(text)|;
    if j: nat :| 0 <= j <= |text| && StartsAt(text, j) && p <= text[j..] {
      OneStart(text, i, j);
    }
  }

  lemma BlankIff(text: string)
    ensures Blank(text) <==> AllSpace(text)
  {
    forall i | 0 <= i < |text|
      ensures IsSpace(text[i]) <==> text[i] as int in SPACES
    {
      SpacesAre(text[i]);
    }
  }

  // ------------------------------------------------------------------ kinds of lines

  /** The system notices that a user line can carry, in the order in which they are looked for. */
  predicate IsNotice(text: string, subtype: string) {
    || (subtype == "continuation" && Begins(text, "This session is being continued"))
    || (subtype == "resume" && Begins(text, "<local-command-caveat>"))
    || (subtype == "interrupted" && Begins(text, "[Request interrupted"))
    || (subtype == "task_notification" && Begins(text, "<task-notification>"))
    || (subtype == "stop_hook" && Begins(text, "Stop hook feedback:"))
  }

  /** What the user sees: the command of a command line, the text of any other. */
  function Visible(e: Line): string {
    if e.user && e.command.Some? then e.command.value else e.text
  }

  /** A line that yields no message. */
  predicate YieldsNothing(e: Line) {
    && e.compactSummary.None?
    && (|| (e.user && e.isMeta)
        || (e.user && e.command.None? && e.commandEnvelope)
        || (AllSpace(Visible(e)) && e.toolResults == [])
        || (e.user && Begins(Visible(e), "<local-command-") && !Begins(Visible(e), "<local-command-caveat>")))
  }

  /** A user line that yields a system notice. */
  predicate YieldsNotice(e: Line, subtype: string) {
    && e.compactSummary.None? && e.user && !e.isMeta && !(e.command.None? && e.commandEnvelope)
    && !(AllSpace(Visible(e)) && e.toolResults == [])
    && IsNotice(Visible(e), subtype)
  }

  /** A line that yields an ordinary message. */
  ghost predicate YieldsSpeech(e: Line) {
    e.compactSummary.None? && !YieldsNothing(e) && forall subtype :: !YieldsNotice(e, subtype)
  }

  function PrefixOf(subtype: string): string {
    if subtype == "continuation" then "This session is being continued"
    else if subtype == "resume" then "<local-command-caveat>"
    else if subtype == "interrupted" then "[Request interrupted"
    else if subtype == "task_notification" then "<task-notification>"
    else "Stop hook feedback:"
  }

  /** The notice that is found first is the only one there can be. */
  lemma NoticeIs(text: string, subtype: string)
    requires IsNotice(text, subtype)
    ensures SystemSubtype(text) == subtype
  {
    NoticeStarts(text, subtype);
    var t := TrimLeft(text);
    assert "This session is being continued"[0] == 'T' && "[Request interrupted"[0] == '[' && "Stop hook feedback:"[0] == 'S';
    assert "<local-command-caveat>"[0] == '<' && "<local-command-caveat>"[1] == 'l';
    assert "<task-notification>"[0] == '<' && "<task-notification>"[1] == 't';
    assert PrefixOf(subtype) <= t;
    assert |t| >= 2 && t[0] == PrefixOf(subtype)[0] && t[1] == PrefixOf(subtype)[1];
  }

  /** The subtype, by what the text begins with. */
  lemma SubtypeByStart(text: string)
    ensures SystemSubtype(text) ==
      if Begins(text, "This session is being continued") then "continuation"
      else if Begins(text, "<local-command-caveat>") then "resume"
      else if Begins(text, "[Request interrupted") then "interrupted"
      else if Begins(text, "<task-notification>") then "task_notification"
      else if Begins(text, "Stop hook feedback:") then "stop_hook"
      else ""
    ensures SystemNoise(text) <==>
      || Begins(text, "This session is being continued") || Begins(text, "[Request interrupted")
      || Begins(text, "<task-notification>") || Begins(text, "<local-command-") || Begins(text, "Stop hook feedback:")
  {
    BeginsIff(text, "This session is being continued");
    BeginsIff(text, "<local-command-caveat>");
    BeginsIff(text, "[Request interrupted");
    BeginsIff(text, "<task-notification>");
    BeginsIff(text, "Stop hook feedback:");
    BeginsIff(text, "<local-command-");
  }

  lemma NoticeStarts(text: string, subtype: string)
    requires IsNotice(text, subtype)
    ensures PrefixOf(subtype) <= TrimLeft(text)
  {
    BeginsIff(text, PrefixOf(subtype));
  }

  lemma NoticeFound(text: string)
    ensures SystemSubtype(text) != "" ==> IsNotice(text, SystemSubtype(text))
    ensures SystemSubtype(text) == "" ==> forall subtype :: !IsNotice(text, subtype)
  {
    SubtypeByStart(text);
  }

  lemma NoiseFound(text: string)
    requires SystemSubtype(text) == ""
    ensures SystemNoise(text) <==> Begins(text, "<local-command-") && !Begins(text, "<local-command-caveat>")
  {
    SubtypeByStart(text);
  }

  // ------------------------------------------------------------------- what they yield

  /** A summary of a compaction is kept as a system message, whatever else the line says. */
  lemma BoundaryIsKept(e: Line, n: nat)
    requires e.compactSummary.Some?
    ensures Emitted(e, n) ==
      [Message(n, false, e.compactSummary.value, "", e.timestamp, true, [], [],
               "system", "compact_boundary", e.uuid, e.parentUuid, e.isSidechain, true, "")]
  {
  }

  /** Exactly these lines yield nothing. */
  lemma YieldsNothingIff(e: Line, n: nat)
    ensures Emitted(e, n) == [] <==> YieldsNothing(e)
  {
    BlankIff(Visible(e));
    NoticeFound(Visible(e));
    if SystemSubtype(Visible(e)) == "" {
      NoiseFound(Visible(e));
    } else {
      LoudNotice(Visible(e));
    }
  }

  /** A notice is no mere noise. */
  lemma LoudNotice(text: string)
    requires SystemSubtype(text) != ""
    ensures Begins(text, "<local-command-") ==> Begins(text, "<local-command-caveat>")
  {
    NoticeFound(text);
    NoticeStarts(text, SystemSubtype(text));
    BeginsIff(text, "<local-command-");
    BeginsIff(text, "<local-command-caveat>");
    var t := TrimLeft(text);
    assert "This session is being continued"[0] == 'T' && "[Request interrupted"[0] == '[' && "Stop hook feedback:"[0] == 'S';
    assert "<local-command-"[0] == '<' && "<local-command-"[1] == 'l';
    assert "<task-notification>"[0] == '<' && "<task-notification>"[1] == 't';
    assert |t| >= 2 && t[0] == PrefixOf(SystemSubtype(text))[0] && t[1] == PrefixOf(SystemSubtype(text))[1];
  }

  /** A notice becomes a system message of its kind, in the user's place, without calls and results. */
  lemma NoticeIsKept(e: Line, n: nat, subtype: string)
    requires YieldsNotice(e, subtype)
    ensures Emitted(e, n) ==
      [Message(n, true, Visible(e), "", e.timestamp, true, [], [],
               "system", subtype, e.uuid, e.parentUuid, e.isSidechain, false, "")]
  {
    BlankIff(Visible(e));
    NoticeIs(Visible(e), subtype);
    assert subtype != "";
  }

  /** Any other line becomes a message with everything that is its own; only an assistant's usage counts. */
  lemma SpeechIsKept(e: Line, n: nat)
    requires YieldsSpeech(e)
    ensures Emitted(e, n) ==
      [Message(n, e.user, Visible(e), e.thinkingText, e.timestamp, false, e.toolCalls, e.toolResults,
               if e.user then "user" else "assistant", "", e.uuid, e.parentUuid, e.isSidechain, false,
               if e.user then "" else e.usage)]
  {
    YieldsNothingIff(e, n);
    NoticeFound(Visible(e));
    BlankIff(Visible(e));
    assert SystemSubtype(Visible(e)) != "" && e.user ==> YieldsNotice(e, SystemSubtype(Visible(e)));
  }

  // ---------------------------------------------------------------- calls and results

  /** What the messages hold of something, joined in order. */
  ghost function Joined(ms: seq<Message>, part: Message -> seq<string>): seq<string> {
    if ms == [] then [] else Joined(ms[..|ms| - 1], part) + part(ms[|ms| - 1])
  }

  /** What the first n lines give of it, joined in order. */
  ghost function Given(lines: seq<Line>, n: nat, own: Line -> seq<string>): seq<string>
    requires n <= |lines|
  {
    if n == 0 then [] else Given(lines, n - 1, own) + own(lines[n - 1])
  }

  ghost function Calls(m: Message): seq<string> { m.toolCalls }

  ghost function Results(m: Message): seq<string> { m.toolResults }

  ghost function Uuid(m: Message): seq<string> { [m.sourceUUID] }

  ghost function SpokenCalls(e: Line): seq<string> { if YieldsSpeech(e) then e.toolCalls else [] }

  ghost function SpokenResults(e: Line): seq<string> { if YieldsSpeech(e) then e.toolResults else [] }

  ghost function KeptUuid(e: Line): seq<string> { if YieldsNothing(e) then [] else [e.uuid] }

  /** What one line contributes. */
  lemma OneLine(e: Line, n: nat)
    ensures |Emitted(e, n)| <= 1
    ensures Joined(Emitted(e, n), Calls) == SpokenCalls(e)
    ensures Joined(Emitted(e, n), Results) == SpokenResults(e)
    ensures Joined(Emitted(e, n), Uuid) == KeptUuid(e)
  {
    YieldsNothingIff(e, n);
    if YieldsSpeech(e) {
      SpeechIsKept(e, n);
    } else if e.compactSummary.Some? {
      BoundaryIsKept(e, n);
    } else if !YieldsNothing(e) {
      var subtype :| YieldsNotice(e, subtype);
      NoticeIsKept(e, n, subtype);
    }
    if Emitted(e, n) != [] {
      assert Emitted(e, n)[..0] == [];
    }
  }

  lemma JoinedAppends(a: seq<Message>, b: seq<Message>, part: Message -> seq<string>)
    requires |b| <= 1
    ensures Joined(a + b, part) == Joined(a, part) + Joined(b, part)
  {
    if b == [] {
      assert a + b == a;
    } else {
      assert (a + b)[..|a|] == a && b[..0] == [];
    }
  }

  ghost predicate GivesOwn(lines: seq<Line>, give: (Line, nat) -> seq<Message>, part: Message -> seq<string>, own: Line -> seq<string>) {
    forall k, n | 0 <= k < |lines| :: |give(lines[k], n)| <= 1 && Joined(give(lines[k], n), part) == own(lines[k])
  }

  lemma {:induction false} NothingIsMisplaced(
    lines: seq<Line>, give: (Line, nat) -> seq<Message>, part: Message -> seq<string>, own: Line -> seq<string>, n: nat, start: nat)
    requires GivesOwn(lines, give, part, own) && n <= |lines|
    ensures Joined(Gathered(lines, n, give, start), part) == Given(lines, n, own)
  {
    if n > 0 {
      NothingIsMisplaced(lines, give, part, own, n - 1, start);
      var before := Gathered(lines, n - 1, give, start);
      JoinedAppends(before, give(lines[n - 1], start + |before|), part);
    }
  }

  /**
   * All calls, joined, are the calls of the lines that yield ordinary messages, in order, and the same for
   * the results; and the messages come from exactly the lines that yield something, in order.
   */
  lemma CallsAndResultsAreKept(lines: seq<Line>, start: nat)
    ensures Joined(Extracted(lines, start), Calls) == Given(lines, |lines|, SpokenCalls)
    ensures Joined(Extracted(lines, start), Results) == Given(lines, |lines|, SpokenResults)
    ensures Joined(Extracted(lines, start), Uuid) == Given(lines, |lines|, KeptUuid)
  {
    forall k, n: nat | 0 <= k < |lines|
      ensures |Emitted(lines[k], n)| <= 1 && Joined(Emitted(lines[k], n), Calls) == SpokenCalls(lines[k])
      ensures Joined(Emitted(lines[k], n), Results) == SpokenResults(lines[k])
      ensures Joined(Emitted(lines[k], n), Uuid) == KeptUuid(lines[k])
    {
      OneLine(lines[k], n);
    }
    NothingIsMisplaced(lines, Emitted, Calls, SpokenCalls, |lines|, start);
    NothingIsMisplaced(lines, Emitted, Results, SpokenResults, |lines|, start);
    NothingIsMisplaced(lines, Emitted, Uuid, KeptUuid, |lines|, start);
  }

  // ---------------------------------------------------------------------- queued commands

  /** What a command becomes, but for its number. */
  ghost function CommandMessage(q: QueuedCommand, n: nat): Message {
    Message(n, true, q.prompt, "", q.timestamp, false, [], [], "user", "queued_command", "", "", false, false, "")
  }

  /** Both kinds of messages come out of a merge as they went in, in order and numbered through. */
  ghost predicate Shuffles(out: seq<Message>, slots: seq<Slot>, ms: seq<Message>, qs: seq<QueuedCommand>, start: nat) {
    && |out| == |slots| && Interleaves(slots, 0, 0, |ms|, |qs|)
    && forall k | 0 <= k < |out| ::
      match slots[k]
      case FromMessages(i) => i < |ms| && out[k] == ms[i].(ordinal := start + k)
      case FromQueue(j) => j < |qs| && out[k] == CommandMessage(qs[j], start + k)
  }

  lemma SplicingShuffles(ms: seq<Message>, qs: seq<QueuedCommand>, start: nat)
    ensures Shuffles(Spliced(ms, qs, start), Slots(ms, qs, 0, 0), ms, qs, start)
  {
    SlotsInterleave(ms, qs, 0, 0);
    SlotsInRange(ms, qs, 0, 0);
    forall k | 0 <= k < |ms| + |qs|
      ensures SlotIn(Slots(ms, qs, 0, 0)[k], |ms|, |qs|)
      ensures Spliced(ms, qs, start)[k] == Fill(Slots(ms, qs, 0, 0)[k], ms, qs).(ordinal := start + k)
    {
      SplicedPlace(ms, qs, start, k);
    }
  }

  ghost predicate MessagesInTime(ms: seq<Message>) {
    && (forall k | 0 <= k < |ms| :: ms[k].timestamp.Some?)
    && forall i, j | 0 <= i < j < |ms| :: ms[i].timestamp.value <= ms[j].timestamp.value
  }

  ghost predicate CommandsInTime(qs: seq<QueuedCommand>) {
    && (forall k | 0 <= k < |qs| :: qs[k].timestamp.Some?)
    && forall i, j | 0 <= i < j < |qs| :: qs[i].timestamp.value <= qs[j].timestamp.value
  }

  ghost function TimeOf(slot: Slot, ms: seq<Message>, qs: seq<QueuedCommand>): int
    requires MessagesInTime(ms) && CommandsInTime(qs) && SlotIn(slot, |ms|, |qs|)
  {
    match slot case FromMessages(i) => ms[i].timestamp.value case FromQueue(j) => qs[j].timestamp.value
  }

  /** At the same time a message goes before a command. */
  ghost predicate NoLater(a: Slot, b: Slot, ms: seq<Message>, qs: seq<QueuedCommand>)
    requires MessagesInTime(ms) && CommandsInTime(qs) && SlotIn(a, |ms|, |qs|) && SlotIn(b, |ms|, |qs|)
  {
    TimeOf(a, ms, qs) < TimeOf(b, ms, qs) || (TimeOf(a, ms, qs) == TimeOf(b, ms, qs) && (b.FromMessages? ==> a.FromMessages?))
  }

  /** Merging what is in time order gives what is in time order, messages first. */
  lemma {:induction false} MergedInTimeOrder(ms: seq<Message>, qs: seq<QueuedCommand>, i: nat, j: nat, k: nat)
    requires MessagesInTime(ms) && CommandsInTime(qs) && i <= |ms| && j <= |qs|
    requires k + 1 < |Slots(ms, qs, i, j)|
    ensures var slots := Slots(ms, qs, i, j);
      && SlotIn(slots[k], |ms|, |qs|) && SlotIn(slots[k + 1], |ms|, |qs|) && NoLater(slots[k], slots[k + 1], ms, qs)
    decreases |ms| - i + |qs| - j
  {
    SlotsInRange(ms, qs, i, j);
    var slots := Slots(ms, qs, i, j);
    var i', j' := if CommandNext(ms, qs, i, j) then i else i + 1, if CommandNext(ms, qs, i, j) then j + 1 else j;
    assert slots[1..] == Slots(ms, qs, i', j');
    if k > 0 {
      MergedInTimeOrder(ms, qs, i', j', k - 1);
      assert slots[1..][k - 1] == slots[k] && slots[1..][k] == slots[k + 1];
    } else {
      assert slots[1] == Slots(ms, qs, i', j')[0];
    }
  }

  // --------------------------------------------------------------------- the guards

  /** The entry i continues another entry than the last one before it that has a uuid. */
  ghost predicate ContinuesAnother(es: seq<Chunks.Entry>, i: nat)
    requires i < |es|
  {
    && es[i].uuid != ""
    && exists k | 0 <= k < i :: es[k].uuid != "" && es[i].parentUuid != es[k].uuid && NoUuidBetween(es, k, i)
  }

  predicate NoUuidBetween(es: seq<Chunks.Entry>, k: nat, i: nat)
    requires i <= |es|
  {
    forall j | k < j < i :: es[j].uuid == ""
  }

  lemma {:induction false} LastUuidIs(es: seq<Chunks.Entry>, i: nat)
    requires i <= |es|
    ensures LastUuid(es, i) == "" <==> forall j | 0 <= j < i :: es[j].uuid == ""
    ensures LastUuid(es, i) != "" ==> exists k | 0 <= k < i :: es[k].uuid == LastUuid(es, i) && NoUuidBetween(es, k, i)
  {
    if i > 0 {
      LastUuidIs(es, i - 1);
      if es[i - 1].uuid != "" {
        assert NoUuidBetween(es, i - 1, i);
      } else if LastUuid(es, i) != "" {
        var k :| 0 <= k < i - 1 && es[k].uuid == LastUuid(es, i - 1) && NoUuidBetween(es, k, i - 1);
        assert NoUuidBetween(es, k, i);
      }
    }
  }

  lemma BreaksIff(es: seq<Chunks.Entry>, i: nat)
    requires i < |es|
    ensures BreaksChain(es, i) <==> ContinuesAnother(es, i)
  {
    LastUuidIs(es, i);
    if LastUuid(es, i) != "" {
      var k :| 0 <= k < i && es[k].uuid == LastUuid(es, i) && NoUuidBetween(es, k, i);
      forall j | 0 <= j < i && es[j].uuid != "" && NoUuidBetween(es, j, i)
        ensures j == k
      {
        assert !(j < k) && !(k < j);
      }
    }
  }

  lemma ChainIff(es: seq<Chunks.Entry>)
    ensures (forall i | 0 <= i < |es| :: !BreaksChain(es, i)) <==> forall i | 0 <= i < |es| :: !ContinuesAnother(es, i)
  {
    forall i | 0 <= i < |es|
      ensures BreaksChain(es, i) <==> ContinuesAnother(es, i)
    {
      BreaksIff(es, i);
    }
  }

  lemma LinksIff(es: seq<Chunks.Entry>, read: Reader)
    ensures (forall i | 0 <= i < |es| :: !LinksSubagent(es[i], read)) <==> forall e | e in es :: e.assistant || read(e).agentID == ""
  {
    forall i | 0 <= i < |es|
      ensures es[i] in es && (LinksSubagent(es[i], read) <==> !es[i].assistant && read(es[i]).agentID != "")
    {
    }
  }

  lemma RunsIff(es: seq<Chunks.Entry>)
    ensures Chunks.NoRuns(es) <==> forall i | 0 <= i < |es| - 1 :: !Endings.OneMessage(es[i], es[i + 1])
  {
    forall i | 0 <= i < |es| - 1
      ensures Chunks.SameMessage(es[i], es[i + 1]) <==> Endings.OneMessage(es[i], es[i + 1])
    {
      Endings.OneMessageIff(es[i], es[i + 1]);
    }
  }

  /** A tail is parsed by itself exactly when it is one chain, links no sub-agent, and splits no message into snapshots. */
  lemma AcceptedIff(es: seq<Chunks.Entry>, read: Reader)
    ensures Accepted(es, read) <==>
      && (forall i | 0 <= i < |es| :: !ContinuesAnother(es, i))
      && (forall e | e in es :: e.assistant || read(e).agentID == "")
      && (forall i | 0 <= i < |es| - 1 :: !Endings.OneMessage(es[i], es[i + 1]))
  {
    ChainIff(es);
    LinksIff(es, read);
    RunsIff(es);
  }

  /** An entry is read with its own uuids and role, and enters the walk under them. */
  lemma EntryIsRead(e: Chunks.Entry, read: Reader)
    ensures LineOf(e, read) == read(e).(uuid := e.uuid, parentUuid := e.parentUuid, user := LineOf(e, read).user)
    ensures LineOf(e, read).user <==> !e.assistant
    ensures ToDag(e).uuid == e.uuid && ToDag(e).parentUuid == e.parentUuid && (ToDag(e).entryType.User? <==> !e.assistant)
  {
  }
}
