/** When incremental and full parsing of a transcript differ (internal/parser/claude.go). */
module ClaudeAgreement {
  // Messages made from lines and messages made from queued commands can be told apart, and so the result
  // of a merge tells how it was put together.  That makes the conditions for agreement exact.

  import opened Common
  import opened ClaudeIncremental
  import Chunks = ClaudeChunks
  import Dag = ClaudeDag
  import Growth = ClaudeGrowth
  import Termination = ClaudeTermination

  // --------------------------------------------------------------- two kinds of messages

  predicate FromLine(m: Message) {
    m.sourceSubtype != "queued_command"
  }

  ghost predicate AllFromLines(ms: seq<Message>) {
    forall k | 0 <= k < |ms| :: FromLine(ms[k])
  }

  lemma SubtypesOfLines(text: string)
    ensures SystemSubtype(text) != "queued_command"
  {
    assert "queued_command"[0] == 'q';
    assert "continuation"[0] == 'c' && "resume"[0] == 'r' && "interrupted"[0] == 'i';
    assert "task_notification"[0] == 't' && "stop_hook"[0] == 's';
  }

  lemma EmittedIsFromLine(line: Line, n: nat)
    ensures AllFromLines(Emitted(line, n))
  {
    SubtypesOfLines(if line.user && line.command.Some? then line.command.value else line.text);
    assert "queued_command"[0] == 'q' && "compact_boundary"[0] == 'c';
  }

  lemma ExtractedIsFromLines(lines: seq<Line>, start: nat)
    ensures AllFromLines(Extracted(lines, start))
  {
    forall line, n: nat
      ensures AllFromLines(Emitted(line, n))
    {
      EmittedIsFromLine(line, n);
    }
    GatheredIsFromLines(lines, Emitted, |lines|, start);
  }

  lemma {:induction false} GatheredIsFromLines(lines: seq<Line>, give: (Line, nat) -> seq<Message>, n: nat, start: nat)
    requires n <= |lines| && forall line, i :: AllFromLines(give(line, i))
    ensures AllFromLines(Gathered(lines, n, give, start))
  {
    if n > 0 {
      GatheredIsFromLines(lines, give, n - 1, start);
      assert AllFromLines(give(lines[n - 1], start + |Gathered(lines, n - 1, give, start)|));
    }
  }

  // ------------------------------------------------------------------- interleavings

  /** From message i and command j on, every one of m messages and q commands has its place, in order. */
  ghost predicate Interleaves(slots: seq<Slot>, i: nat, j: nat, m: nat, q: nat) {
    if slots == [] then i == m && j == q
    else match slots[0]
      case FromMessages(k) => k == i < m && Interleaves(slots[1..], i + 1, j, m, q)
      case FromQueue(k) => k == j < q && Interleaves(slots[1..], i, j + 1, m, q)
  }

  lemma {:induction false} SlotsInterleave(ms: seq<Message>, qs: seq<QueuedCommand>, i: nat, j: nat)
    requires i <= |ms| && j <= |qs|
    ensures Interleaves(Slots(ms, qs, i, j), i, j, |ms|, |qs|)
    decreases |ms| - i + |qs| - j
  {
    var slots := Slots(ms, qs, i, j);
    if CommandNext(ms, qs, i, j) {
      SlotsInterleave(ms, qs, i, j + 1);
      assert slots[1..] == Slots(ms, qs, i, j + 1);
    } else if i < |ms| {
      SlotsInterleave(ms, qs, i + 1, j);
      assert slots[1..] == Slots(ms, qs, i + 1, j);
    }
  }

  lemma {:induction false} ShiftedInterleaves(slots: seq<Slot>, i: nat, j: nat, m: nat, q: nat, dm: nat, dq: nat)
    requires Interleaves(slots, i, j, m, q)
    ensures Interleaves(Shifted(slots, dm, dq), dm + i, dq + j, dm + m, dq + q)
    decreases |slots|
  {
    if slots != [] {
      assert Shifted(slots, dm, dq)[1..] == Shifted(slots[1..], dm, dq);
      match slots[0]
      case FromMessages(k) => ShiftedInterleaves(slots[1..], i + 1, j, m, q, dm, dq);
      case FromQueue(k) => ShiftedInterleaves(slots[1..], i, j + 1, m, q, dm, dq);
    }
  }

  lemma {:induction false} InterleavingsJoin(a: seq<Slot>, b: seq<Slot>, i: nat, j: nat, m: nat, q: nat, m': nat, q': nat)
    requires Interleaves(a, i, j, m, q) && Interleaves(b, m, q, m', q') && m <= m' && q <= q'
    ensures Interleaves(a + b, i, j, m', q')
    decreases |a|
  {
    if a == [] {
      assert a + b == b;
    } else {
      assert (a + b)[1..] == a[1..] + b;
      match a[0]
      case FromMessages(k) => InterleavingsJoin(a[1..], b, i + 1, j, m, q, m', q');
      case FromQueue(k) => InterleavingsJoin(a[1..], b, i, j + 1, m, q, m', q');
    }
  }

  /** Equal up to the ordinal. */
  ghost predicate SameBody(a: Message, b: Message) {
    a.(ordinal := 0) == b.(ordinal := 0)
  }

  /** Both sequences of places are filled with the same. */
  ghost predicate SameFill(s: seq<Slot>, t: seq<Slot>, ms: seq<Message>, ns: seq<Message>, qs: seq<QueuedCommand>) {
    && |s| == |t|
    && forall k | 0 <= k < |s| ::
      SlotIn(s[k], |ms|, |qs|) && SlotIn(t[k], |ns|, |qs|) && SameBody(Fill(s[k], ms, qs), Fill(t[k], ns, qs))
  }

  lemma SameFillTail(s: seq<Slot>, t: seq<Slot>, ms: seq<Message>, ns: seq<Message>, qs: seq<QueuedCommand>)
    requires SameFill(s, t, ms, ns, qs) && s != []
    ensures SameFill(s[1..], t[1..], ms, ns, qs)
    ensures SlotIn(s[0], |ms|, |qs|) && SlotIn(t[0], |ns|, |qs|) && SameBody(Fill(s[0], ms, qs), Fill(t[0], ns, qs))
  {
    forall k | 0 <= k < |s| - 1
      ensures SlotIn(s[1..][k], |ms|, |qs|) && SlotIn(t[1..][k], |ns|, |qs|)
      ensures SameBody(Fill(s[1..][k], ms, qs), Fill(t[1..][k], ns, qs))
    {
      assert s[1..][k] == s[k + 1] && t[1..][k] == t[k + 1];
    }
  }

  /** A place tells from what it holds which kind it is. */
  lemma SameKind(s: Slot, t: Slot, ms: seq<Message>, ns: seq<Message>, qs: seq<QueuedCommand>)
    requires SlotIn(s, |ms|, |qs|) && SlotIn(t, |ns|, |qs|) && SameBody(Fill(s, ms, qs), Fill(t, ns, qs))
    requires AllFromLines(ms) && AllFromLines(ns)
    ensures s.FromMessages? <==> t.FromMessages?
  {
    assert Fill(s, ms, qs).(ordinal := 0).sourceSubtype == Fill(t, ns, qs).(ordinal := 0).sourceSubtype;
  }

  /** So what is in the places determines the places, and the messages. */
  lemma {:induction false} FillTells(s: seq<Slot>, t: seq<Slot>, ms: seq<Message>, ns: seq<Message>, qs: seq<QueuedCommand>, i: nat, j: nat)
    requires Interleaves(s, i, j, |ms|, |qs|) && Interleaves(t, i, j, |ns|, |qs|) && SameFill(s, t, ms, ns, qs)
    requires AllFromLines(ms) && AllFromLines(ns)
    ensures s == t && |ms| == |ns|
    ensures forall k | i <= k < |ms| :: SameBody(ms[k], ns[k])
    decreases |s|
  {
    if s != [] {
      SameFillTail(s, t, ms, ns, qs);
      SameKind(s[0], t[0], ms, ns, qs);
      if s[0].FromMessages? {
        FillTells(s[1..], t[1..], ms, ns, qs, i + 1, j);
      } else {
        FillTells(s[1..], t[1..], ms, ns, qs, i, j + 1);
      }
      assert s == [s[0]] + s[1..] && t == [t[0]] + t[1..];
    }
  }

  // ------------------------------------------------------------------ merged in parts

  ghost function PartSlots(m1: seq<Message>, q1: seq<QueuedCommand>, m2: seq<Message>, q2: seq<QueuedCommand>): seq<Slot> {
    Slots(m1, q1, 0, 0) + Shifted(Slots(m2, q2, 0, 0), |m1|, |q1|)
  }

  lemma PartsInterleave(m1: seq<Message>, q1: seq<QueuedCommand>, m2: seq<Message>, q2: seq<QueuedCommand>)
    ensures Interleaves(PartSlots(m1, q1, m2, q2), 0, 0, |m1 + m2|, |q1 + q2|)
  {
    SlotsInterleave(m1, q1, 0, 0);
    SlotsInterleave(m2, q2, 0, 0);
    ShiftedInterleaves(Slots(m2, q2, 0, 0), 0, 0, |m2|, |q2|, |m1|, |q1|);
    InterleavingsJoin(Slots(m1, q1, 0, 0), Shifted(Slots(m2, q2, 0, 0), |m1|, |q1|), 0, 0, |m1|, |q1|, |m1 + m2|, |q1 + q2|);
  }

  lemma PartsPlace(m1: seq<Message>, q1: seq<QueuedCommand>, m2: seq<Message>, q2: seq<QueuedCommand>, k: nat)
    requires k < |m1| + |q1| + |m2| + |q2|
    ensures |PartSlots(m1, q1, m2, q2)| == |m1| + |q1| + |m2| + |q2|
    ensures var slot := PartSlots(m1, q1, m2, q2)[k];
      && SlotIn(slot, |m1 + m2|, |q1 + q2|)
      && (Spliced(m1, q1, 0) + Spliced(m2, q2, |m1| + |q1|))[k] == Fill(slot, m1 + m2, q1 + q2).(ordinal := k)
  {
    SplicedPlace(m1, q1, 0, k);
    SplicedPlace(m2, q2, |m1| + |q1|, if k < |m1| + |q1| then 0 else k - |m1| - |q1|);
    if k < |m1| + |q1| {
      FillInFront(Slots(m1, q1, 0, 0)[k], m1, q1, m2, q2);
    } else {
      FillBehind(Slots(m2, q2, 0, 0)[k - |m1| - |q1|], m1, q1, m2, q2);
    }
  }

  lemma EqualSplicesFillAlike(
    all: seq<Message>, m1: seq<Message>, q1: seq<QueuedCommand>, m2: seq<Message>, q2: seq<QueuedCommand>)
    requires Spliced(all, q1 + q2, 0) == Spliced(m1, q1, 0) + Spliced(m2, q2, |m1| + |q1|)
    ensures SameFill(Slots(all, q1 + q2, 0, 0), PartSlots(m1, q1, m2, q2), all, m1 + m2, q1 + q2)
  {
    var s, t := Slots(all, q1 + q2, 0, 0), PartSlots(m1, q1, m2, q2);
    assert |all| + |q1 + q2| == |m1| + |q1| + |m2| + |q2|;
    SlotsInRange(all, q1 + q2, 0, 0);
    SlotsInRange(m1, q1, 0, 0);
    SlotsInRange(m2, q2, 0, 0);
    forall k | 0 <= k < |s|
      ensures SlotIn(s[k], |all|, |q1 + q2|) && SlotIn(t[k], |m1 + m2|, |q1 + q2|)
      ensures SameBody(Fill(s[k], all, q1 + q2), Fill(t[k], m1 + m2, q1 + q2))
    {
      SplicedPlace(all, q1 + q2, 0, k);
      PartsPlace(m1, q1, m2, q2, k);
      var x, y := Fill(s[k], all, q1 + q2), Fill(t[k], m1 + m2, q1 + q2);
      assert x.(ordinal := k) == y.(ordinal := k);
      assert x.(ordinal := 0) == x.(ordinal := k).(ordinal := 0) && y.(ordinal := 0) == y.(ordinal := k).(ordinal := 0);
    }
  }

  /** Merging in two parts gives what merging all of it gives exactly when the messages are the same and the parts clean. */
  lemma SplicesAgreeIff(
    all: seq<Message>, m1: seq<Message>, q1: seq<QueuedCommand>, m2: seq<Message>, q2: seq<QueuedCommand>)
    requires AllFromLines(all) && AllFromLines(m1) && AllFromLines(m2)
    ensures Spliced(all, q1 + q2, 0) == Spliced(m1, q1, 0) + Spliced(m2, q2, |m1| + |q1|)
       <==> SameBodies(all, m1 + m2) && CleanFrom(m1, q1, m2, q2, 0, 0)
  {
    if Spliced(all, q1 + q2, 0) == Spliced(m1, q1, 0) + Spliced(m2, q2, |m1| + |q1|) {
      EqualSplicesFillAlike(all, m1, q1, m2, q2);
      SlotsInterleave(all, q1 + q2, 0, 0);
      PartsInterleave(m1, q1, m2, q2);
      FillTells(Slots(all, q1 + q2, 0, 0), PartSlots(m1, q1, m2, q2), all, m1 + m2, q1 + q2, 0, 0);
      SlotsIgnoreOrdinals(all, m1 + m2, q1 + q2, 0, 0);
      SlotsSplitIff(m1, q1, m2, q2, 0, 0);
    }
    if SameBodies(all, m1 + m2) && CleanFrom(m1, q1, m2, q2, 0, 0) {
      SpliceIgnoresOrdinals(all, m1 + m2, q1 + q2, 0);
      SpliceSplits(m1, q1, m2, q2);
    }
  }

  // -------------------------------------------------------------------- main results

  /** The entries give rise to the same messages, up to their numbers. */
  ghost predicate SameSpeech(x: seq<Chunks.Entry>, y: seq<Chunks.Entry>, read: Reader) {
    SameBodies(Extracted(LinesOf(x, read), 0), Extracted(LinesOf(y, read), 0))
  }

  /** The extraction of an appended tail, numbered from anywhere. */
  lemma TailSpeech(x: seq<Chunks.Entry>, b: seq<Chunks.Entry>, read: Reader, n: nat)
    ensures SameBodies(Extracted(LinesOf(x + b, read), 0), Extracted(LinesOf(x, read), 0) + Extracted(LinesOf(b, read), n))
    ensures SameBodies(Extracted(LinesOf(b, read), 0), Extracted(LinesOf(b, read), n))
  {
    var m := |Extracted(LinesOf(x, read), 0)|;
    LinesSplit(x, b, read);
    ExtractSplits(LinesOf(x, read), LinesOf(b, read), 0);
    ExtractSameBodies(LinesOf(b, read), m, n);
    ExtractSameBodies(LinesOf(b, read), 0, n);
    SameBodiesAppend(
      Extracted(LinesOf(x, read), 0), Extracted(LinesOf(x, read), 0), Extracted(LinesOf(b, read), m), Extracted(LinesOf(b, read), n));
  }

  lemma SameBodiesChain(a: seq<Message>, b: seq<Message>, c: seq<Message>)
    requires SameBodies(b, c)
    ensures SameBodies(a, b) <==> SameBodies(a, c)
  {
    if SameBodies(a, b) {
      forall k | 0 <= k < |a|
        ensures a[k].(ordinal := 0) == c[k].(ordinal := 0)
      {
        assert a[k].(ordinal := 0) == b[k].(ordinal := 0) == c[k].(ordinal := 0);
      }
    }
    if SameBodies(a, c) {
      forall k | 0 <= k < |a|
        ensures a[k].(ordinal := 0) == b[k].(ordinal := 0)
      {
        assert b[k].(ordinal := 0) == c[k].(ordinal := 0) == a[k].(ordinal := 0);
      }
    }
  }

  lemma CleanIff(m1: seq<Message>, q1: seq<QueuedCommand>, m2: seq<Message>, n2: seq<Message>, q2: seq<QueuedCommand>)
    requires SameBodies(m2, n2)
    ensures CleanFrom(m1, q1, m2, q2, 0, 0) <==> CleanFrom(m1, q1, n2, q2, 0, 0)
  {
    if CleanFrom(m1, q1, m2, q2, 0, 0) {
      CleanIgnoresOrdinals(m1, q1, m2, n2, q2, 0, 0);
    }
    if CleanFrom(m1, q1, n2, q2, 0, 0) {
      CleanIgnoresOrdinals(m1, q1, n2, m2, q2, 0, 0);
    }
  }

  /**
   * For every file and every tail: the full parse of the longer file is that of the shorter one followed
   * by the incremental messages exactly when its main session says what the shorter one and the tail say,
   * and the queued commands merge cleanly.
   */
  lemma ParsesAgreeIff(a: Transcript, b: Transcript, read: Reader)
    requires DistinctEntries(a.entries + b.entries) && DistinctEntries(a.entries)
    ensures FullMessages(Appended(a, b), read) == FullMessages(a, read) + TailMessages(b, read, |FullMessages(a, read)|)
       <==> SameSpeech(MainEntries(a.entries + b.entries), MainEntries(a.entries) + b.entries, read) && Clean(a, b, read)
  {
    EntriesAgreeIff(MainEntries(a.entries + b.entries), MainEntries(a.entries), a.queued, b, read);
  }

  lemma EntriesAgreeIff(all: seq<Chunks.Entry>, main: seq<Chunks.Entry>, queued: seq<QueuedCommand>, b: Transcript, read: Reader)
    ensures MessagesOf(all, queued + b.queued, read)
         == MessagesOf(main, queued, read) + TailMessages(b, read, |MessagesOf(main, queued, read)|)
       <==> (SameSpeech(all, main + b.entries, read)
             && CleanFrom(Extracted(LinesOf(main, read), 0), queued, Extracted(LinesOf(b.entries, read), 0), b.queued, 0, 0))
  {
    var m1 := Extracted(LinesOf(main, read), 0);
    var n := |m1| + |queued|;
    var ms := Extracted(LinesOf(all, read), 0);
    var m2 := Extracted(LinesOf(b.entries, read), n);
    ExtractedIsFromLines(LinesOf(main, read), 0);
    ExtractedIsFromLines(LinesOf(all, read), 0);
    ExtractedIsFromLines(LinesOf(b.entries, read), n);
    SplicesAgreeIff(ms, m1, queued, m2, b.queued);
    TailSpeech(main, b.entries, read, n);
    SameBodiesChain(ms, Extracted(LinesOf(main + b.entries, read), 0), m1 + m2);
    CleanIff(m1, queued, Extracted(LinesOf(b.entries, read), 0), m2, b.queued);
  }

  // -------------------------------------------------------- when every entry says something

  predicate Speaks(e: Chunks.Entry, read: Reader) {
    MessageOf(LineOf(e, read), 0).Some?
  }

  ghost predicate AllSpeak(es: seq<Chunks.Entry>, read: Reader) {
    forall i | 0 <= i < |es| :: Speaks(es[i], read)
  }

  /** One message, with the uuid of its entry. */
  lemma SpeakingEntry(e: Chunks.Entry, read: Reader, n: nat)
    requires Speaks(e, read)
    ensures |Emitted(LineOf(e, read), n)| == 1 && Emitted(LineOf(e, read), n)[0].sourceUUID == e.uuid
  {
  }

  /** Every line gives one message, with the uuid of the line. */
  ghost predicate GivesOneEach(lines: seq<Line>, give: (Line, nat) -> seq<Message>) {
    forall k, n | 0 <= k < |lines| :: |give(lines[k], n)| == 1 && give(lines[k], n)[0].sourceUUID == lines[k].uuid
  }

  lemma {:induction false} OneEach(lines: seq<Line>, give: (Line, nat) -> seq<Message>, n: nat)
    requires GivesOneEach(lines, give) && n <= |lines|
    ensures var ms := Gathered(lines, n, give, 0);
      |ms| == n && forall k | 0 <= k < n :: ms[k].sourceUUID == lines[k].uuid
  {
    if n > 0 {
      OneEach(lines, give, n - 1);
      assert |give(lines[n - 1], n - 1)| == 1;
    }
  }

  lemma SpeechNames(es: seq<Chunks.Entry>, read: Reader)
    requires AllSpeak(es, read)
    ensures var ms := Extracted(LinesOf(es, read), 0);
      |ms| == |es| && forall k | 0 <= k < |es| :: ms[k].sourceUUID == es[k].uuid
  {
    var lines := LinesOf(es, read);
    forall k, n: nat | 0 <= k < |lines|
      ensures |Emitted(lines[k], n)| == 1 && Emitted(lines[k], n)[0].sourceUUID == lines[k].uuid
    {
      assert lines[k] == LineOf(es[k], read);
      SpeakingEntry(es[k], read, n);
    }
    OneEach(lines, Emitted, |lines|);
    assert forall k | 0 <= k < |es| :: lines[k].uuid == es[k].uuid;
  }

  ghost predicate SameNames(x: seq<Chunks.Entry>, y: seq<Chunks.Entry>) {
    |x| == |y| && forall k | 0 <= k < |x| :: x[k].uuid == y[k].uuid
  }

  lemma SameSpeechSameNames(x: seq<Chunks.Entry>, y: seq<Chunks.Entry>, read: Reader)
    requires AllSpeak(x, read) && AllSpeak(y, read) && SameSpeech(x, y, read)
    ensures SameNames(x, y)
  {
    SpeechNames(x, read);
    SpeechNames(y, read);
    var a, b := Extracted(LinesOf(x, read), 0), Extracted(LinesOf(y, read), 0);
    forall k | 0 <= k < |x|
      ensures x[k].uuid == y[k].uuid
    {
      assert a[k].(ordinal := 0).sourceUUID == b[k].(ordinal := 0).sourceUUID;
    }
  }

  ghost predicate DrawnFrom(x: seq<Chunks.Entry>, z: seq<Chunks.Entry>) {
    forall k | 0 <= k < |x| :: x[k] in z
  }

  /** Where uuids are distinct, entries with the same names are the same. */
  lemma NamesTell(x: seq<Chunks.Entry>, y: seq<Chunks.Entry>, z: seq<Chunks.Entry>)
    requires Dag.DistinctUuids(DagOf(z)) && DrawnFrom(x, z) && DrawnFrom(y, z) && SameNames(x, y)
    ensures x == y
  {
    forall k | 0 <= k < |x|
      ensures x[k] == y[k]
    {
      assert x[k] in z && y[k] in z;
      var i :| 0 <= i < |z| && z[i] == x[k];
      var j :| 0 <= j < |z| && z[j] == y[k];
      assert DagOf(z)[i].uuid == DagOf(z)[j].uuid;
    }
  }

  lemma PickedIsDrawn(z: seq<Chunks.Entry>)
    requires Dag.DistinctUuids(DagOf(z)) && Dag.Connected(DagOf(z))
    ensures DrawnFrom(Pick(z, Dag.MainWalk(DagOf(z), "").path), z)
  {
    MainIsInside(DagOf(z));
  }

  lemma DrawnJoins(x: seq<Chunks.Entry>, z: seq<Chunks.Entry>, b: seq<Chunks.Entry>)
    requires DrawnFrom(x, z)
    ensures DrawnFrom(x + b, z + b) && DrawnFrom(x, x)
  {
  }

  lemma MainIsDrawn(es: seq<Chunks.Entry>)
    requires DistinctEntries(es)
    ensures DrawnFrom(MainEntries(es), Chunks.MergedChunks(es))
  {
    var merged := Chunks.MergedChunks(es);
    if IsDag(es) {
      MergedStaysDistinct(es);
      PickedIsDrawn(merged);
    }
  }

  lemma DrawnSpeak(x: seq<Chunks.Entry>, z: seq<Chunks.Entry>, read: Reader)
    requires DrawnFrom(x, z) && AllSpeak(z, read)
    ensures AllSpeak(x, read)
  {
    forall k | 0 <= k < |x|
      ensures Speaks(x[k], read)
    {
      assert x[k] in z;
    }
  }

  /** Names decide: whatever the kinds of the two files, the same names mean the same entries. */
  lemma MainNamesTell(a: seq<Chunks.Entry>, b: seq<Chunks.Entry>)
    requires Appendable(a, b) && SameNames(MainEntries(a + b), MainEntries(a) + b)
    ensures MainEntries(a + b) == MainEntries(a) + b
  {
    MergedGoesOn(a, b);
    MainIsDrawn(a);
    MainIsDrawn(a + b);
    var m := Chunks.MergedChunks(a);
    DrawnJoins(MainEntries(a), m, b);
    if IsDag(a + b) {
      MergedStaysDistinct(a + b);
      NamesTell(MainEntries(a + b), MainEntries(a) + b, m + b);
    } else if IsDag(a) {
      MergedStaysDistinct(a);
      FrontNames(m, MainEntries(a), b);
      DrawnJoins(m, m, []);
      NamesTell(m, MainEntries(a), m);
    } else {
      LinearThenLinear(a, b);
    }
  }

  lemma FrontNames(x: seq<Chunks.Entry>, y: seq<Chunks.Entry>, b: seq<Chunks.Entry>)
    requires SameNames(x + b, y + b)
    ensures SameNames(x, y)
  {
    forall k | 0 <= k < |x|
      ensures x[k].uuid == y[k].uuid
    {
      assert (x + b)[k].uuid == (y + b)[k].uuid;
    }
  }

  /**
   * If every entry yields a message, a tail that is accepted and does not carry on the last message agrees
   * with the full parse exactly when the main session goes on with it and the commands merge cleanly: when
   * one of the two fails, or both do, the results differ.
   */
  lemma SpeakingAgreeIff(a: Transcript, b: Transcript, read: Reader)
    requires DistinctEntries(a.entries + b.entries) && DistinctEntries(a.entries)
    requires Accepted(b.entries, read) && !Chunks.CutsRun(a.entries, b.entries)
    requires AllSpeak(Chunks.MergedChunks(a.entries) + b.entries, read)
    ensures FullMessages(Appended(a, b), read) == FullMessages(a, read) + TailMessages(b, read, |FullMessages(a, read)|)
       <==> MainGoesOn(a.entries, b.entries) && Clean(a, b, read)
  {
    ParsesAgreeIff(a, b, read);
    MainGoesOnIff(a.entries, b.entries);
    SpeechTells(a.entries, b.entries, read);
  }

  lemma SpeechTells(a: seq<Chunks.Entry>, b: seq<Chunks.Entry>, read: Reader)
    requires Appendable(a, b) && AllSpeak(Chunks.MergedChunks(a) + b, read)
    ensures SameSpeech(MainEntries(a + b), MainEntries(a) + b, read) <==> MainEntries(a + b) == MainEntries(a) + b
  {
    MergedGoesOn(a, b);
    MainIsDrawn(a);
    MainIsDrawn(a + b);
    DrawnJoins(MainEntries(a), Chunks.MergedChunks(a), b);
    DrawnSpeak(MainEntries(a + b), Chunks.MergedChunks(a) + b, read);
    DrawnSpeak(MainEntries(a) + b, Chunks.MergedChunks(a) + b, read);
    if SameSpeech(MainEntries(a + b), MainEntries(a) + b, read) {
      SameSpeechSameNames(MainEntries(a + b), MainEntries(a) + b, read);
      MainNamesTell(a, b);
    }
  }

  // ----------------------------------------------------------- a tail that carries on

  lemma MainIsNotLonger(es: seq<Chunks.Entry>)
    requires DistinctEntries(es)
    ensures |MainEntries(es)| <= |Chunks.MergedChunks(es)|
  {
    if IsDag(es) {
      MergedStaysDistinct(es);
      PathIsNotLonger(DagOf(Chunks.MergedChunks(es)));
    }
  }

  lemma PathIsNotLonger(dag: seq<Dag.Entry>)
    requires Dag.DistinctUuids(dag) && Dag.Connected(dag)
    ensures |Dag.MainWalk(dag, "").path| <= |dag|
  {
    var path := Dag.MainWalk(dag, "").path;
    MainIsInside(dag);
    if |path| > |dag| {
      Termination.PigeonHole(path, |dag|);
      var j, k :| 0 <= j < k < |path| && path[j] == path[k];
      Dag.RootIsRooted(dag);
      Dag.WalkConserves(dag, "", Dag.Root(dag), "", path[j]);
      TwiceOnPath(path, j, k);
    }
  }

  lemma TwiceOnPath(p: seq<nat>, j: nat, k: nat)
    requires j < k < |p| && p[j] == p[k]
    ensures multiset(p)[p[j]] >= 2
  {
    assert p == p[..j] + [p[j]] + p[j + 1..k] + [p[k]] + p[k + 1..];
  }

  /**
   * A tail that carries on the last message: if the full parse keeps every entry of the shorter file and
   * all of them say something, the results always differ.
   */
  lemma CutNeverAgrees(a: Transcript, b: Transcript, read: Reader)
    requires DistinctEntries(a.entries + b.entries) && DistinctEntries(a.entries)
    requires Accepted(b.entries, read) && Chunks.CutsRun(a.entries, b.entries)
    requires MainEntries(a.entries) == Chunks.MergedChunks(a.entries)
    requires AllSpeak(Chunks.MergedChunks(a.entries) + b.entries, read) && AllSpeak(Chunks.MergedChunks(a.entries + b.entries), read)
    ensures FullMessages(Appended(a, b), read) != FullMessages(a, read) + TailMessages(b, read, |FullMessages(a, read)|)
  {
    ParsesAgreeIff(a, b, read);
    var all, main := MainEntries(a.entries + b.entries), MainEntries(a.entries) + b.entries;
    MainIsDrawn(a.entries + b.entries);
    DrawnSpeak(all, Chunks.MergedChunks(a.entries + b.entries), read);
    MainIsNotLonger(a.entries + b.entries);
    Chunks.NoRunsNoChange(b.entries, 0);
    Chunks.CutMergesOneFewer(a.entries, b.entries, 0);
    Chunks.OneEntryPerRun(a.entries + b.entries, 0);
    Chunks.OneEntryPerRun(a.entries, 0);
    Chunks.OneEntryPerRun(b.entries, 0);
    if SameSpeech(all, main, read) {
      SameSpeechSameNames(all, main, read);
    }
  }
}
