/** Writing whole sessions in bulk, with savepoints or all-or-nothing (internal/db/session_batch.go). */
module StoreBatch {
  import opened Common
  import opened Store
  import opened StoreMessages
  import opened StoreLifecycle

  datatype Write = Write(
    session: NewSession, messages: seq<NewMessage>, signals: string, dataVersion: nat, replaceMessages: bool)

  /** Callers hand over a complete session: every message is its own, numbered from zero. */
  ghost predicate Complete(w: Write) {
    AllOf(w.session.id, w.messages) && forall i | 0 <= i < |w.messages| :: w.messages[i].row.ordinal >= 0
  }

  // -------------------------------------------------------------- append mode

  ghost predicate IsMaxOrdinal(t: Tables, sid: string, m: int) {
    && (forall id | id in IDsOf(t, sid) :: t.messages[id].ordinal <= m)
    && (if IDsOf(t, sid) == {} then m == -1 else exists id | id in IDsOf(t, sid) :: t.messages[id].ordinal == m)
  }

  method MaxOrdinalTx(db: Db, sid: string) returns (ok: bool, m: int)
    ensures ok ==> IsMaxOrdinal(db.t, sid, m)
    ensures db.reliable ==> ok
  {
    m := -1;
    ok := db.Works();
    if !ok {
      return;
    }
    var ids := IDsOf(db.t, sid);
    var todo := ids;
    while todo != {}
      invariant todo <= ids
      invariant forall id | id in ids && id !in todo :: db.t.messages[id].ordinal <= m
      invariant todo == ids ==> m == -1
      invariant todo != ids ==> exists id | id in ids :: db.t.messages[id].ordinal == m
    {
      var id :| id in todo;
      if todo == ids || db.t.messages[id].ordinal > m {
        m := db.t.messages[id].ordinal;
      }
      todo := todo - {id};
    }
  }

  lemma MaxOrdinalIsUnique(t: Tables, sid: string, m: int, n: int)
    requires IsMaxOrdinal(t, sid, m) && IsMaxOrdinal(t, sid, n)
    ensures m == n
  {
  }

  lemma {:induction false} MaxOrdinalExists(t: Tables, ids: set<nat>)
    requires ids <= t.messages.Keys && ids != {}
    ensures exists m | m in ids :: forall id | id in ids :: t.messages[id].ordinal <= t.messages[m].ordinal
  {
    var a :| a in ids;
    var rest := ids - {a};
    assert forall id | id in ids :: id == a || id in rest;
    if rest != {} {
      MaxOrdinalExists(t, rest);
      var b :| b in rest && forall id | id in rest :: t.messages[id].ordinal <= t.messages[b].ordinal;
      var m := if t.messages[a].ordinal > t.messages[b].ordinal then a else b;
      assert m in ids && forall id | id in ids :: t.messages[id].ordinal <= t.messages[m].ordinal;
    } else {
      assert forall id | id in ids :: t.messages[id].ordinal <= t.messages[a].ordinal;
    }
  }

  ghost function MaxOrdinal(t: Tables, sid: string): (m: int)
    ensures IsMaxOrdinal(t, sid, m)
  {
    if IDsOf(t, sid) == {} then -1
    else
      MaxOrdinalExists(t, IDsOf(t, sid));
      var x :| x in IDsOf(t, sid) && forall id | id in IDsOf(t, sid) :: t.messages[id].ordinal <= t.messages[x].ordinal;
      t.messages[x].ordinal
  }

  /** The messages from the first one beyond the stored maximum on. */
  ghost function After(msgs: seq<NewMessage>, maxOrd: int): seq<NewMessage> {
    if maxOrd < 0 then msgs
    else if msgs == [] then []
    else if msgs[0].row.ordinal > maxOrd then msgs
    else After(msgs[1..], maxOrd)
  }

  method MessagesAfterOrdinal(msgs: seq<NewMessage>, maxOrd: int) returns (out: seq<NewMessage>)
    ensures out == After(msgs, maxOrd)
  {
    if maxOrd < 0 {
      return msgs;
    }
    for i := 0 to |msgs|
      invariant After(msgs, maxOrd) == After(msgs[i..], maxOrd)
    {
      if msgs[i].row.ordinal > maxOrd {
        return msgs[i..];
      }
      assert msgs[i..][1..] == msgs[i + 1..];
    }
    out := [];
  }

  ghost predicate Sorted(msgs: seq<NewMessage>) {
    forall i, j | 0 <= i < j < |msgs| :: msgs[i].row.ordinal < msgs[j].row.ordinal
  }

  ghost predicate Beyond(msgs: seq<NewMessage>, maxOrd: int) {
    forall i | 0 <= i < |msgs| :: msgs[i].row.ordinal > maxOrd
  }

  /** The cut is a suffix that leaves out only stored ordinals. */
  lemma {:induction false} AfterCuts(msgs: seq<NewMessage>, maxOrd: int) returns (k: nat)
    requires maxOrd >= 0
    ensures k <= |msgs| && After(msgs, maxOrd) == msgs[k..]
    ensures forall i | 0 <= i < k :: msgs[i].row.ordinal <= maxOrd
    ensures k < |msgs| ==> msgs[k].row.ordinal > maxOrd
  {
    if msgs == [] || msgs[0].row.ordinal > maxOrd {
      k := 0;
    } else {
      k := AfterCuts(msgs[1..], maxOrd);
      k := k + 1;
      assert msgs[1..][k - 1..] == msgs[k..];
    }
  }

  /** Only new ordinals get through exactly when none of the stored ones follows a new one. */
  lemma AppendsOnlyNewIff(msgs: seq<NewMessage>, maxOrd: int)
    requires maxOrd >= 0
    ensures Beyond(After(msgs, maxOrd), maxOrd) <==>
      forall i, j | 0 <= i < j < |msgs| && msgs[i].row.ordinal > maxOrd :: msgs[j].row.ordinal > maxOrd
  {
    var k := AfterCuts(msgs, maxOrd);
    if Beyond(msgs[k..], maxOrd) {
      forall j | k <= j < |msgs|
        ensures msgs[j].row.ordinal > maxOrd
      {
        assert msgs[k..][j - k] == msgs[j];
      }
    }
  }

  lemma SortedAppendsOnlyNew(msgs: seq<NewMessage>, maxOrd: int)
    requires Sorted(msgs) && maxOrd >= 0
    ensures Beyond(After(msgs, maxOrd), maxOrd)
    ensures forall i | 0 <= i < |msgs| && msgs[i].row.ordinal > maxOrd :: msgs[i] in After(msgs, maxOrd)
  {
    AppendsOnlyNewIff(msgs, maxOrd);
    var k := AfterCuts(msgs, maxOrd);
    forall i | 0 <= i < |msgs| && msgs[i].row.ordinal > maxOrd
      ensures msgs[i] in msgs[k..]
    {
      assert msgs[k..][i - k] == msgs[i];
    }
  }

  // ------------------------------------------------------------------ one write

  /** The tables after the session row is upserted and, in replace mode, its old messages are gone. */
  ghost function Prepared(t: Tables, w: Write): Tables {
    var u := UpsertRow(t, w.session);
    if w.replaceMessages then DeletedOneByOne(u, w.session.id) else u
  }

  /** The messages that go in. */
  ghost function Payload(t: Tables, w: Write): seq<NewMessage> {
    if w.replaceMessages then w.messages else After(w.messages, MaxOrdinal(t, w.session.id))
  }

  function Stamped(t: Tables, w: Write): Tables
    requires w.session.id in t.sessions
  {
    var row := t.sessions[w.session.id];
    t.(sessions := t.sessions[w.session.id := row.(
      dataVersion := if w.dataVersion > 0 then w.dataVersion else row.dataVersion,
      signals := w.signals)])
  }

  ghost function Repinned(t: Tables, w: Write, u: Tables): (v: Tables)
    ensures v == u.(pins := v.pins)
  {
    if w.replaceMessages then RestoredPins(u, w.session.id, SavedPins(t, w.session.id, t.pins)) else u
  }

  ghost predicate CanWrite(t: Tables, w: Write) {
    Admits(t, w.session.id) && (Payload(t, w) != [] ==> Insertable(Prepared(t, w), Payload(t, w)))
  }

  ghost function Written(t: Tables, w: Write): Tables
    requires CanWrite(t, w)
  {
    WithMessagesShape(Prepared(t, w), Payload(t, w));
    Stamped(Repinned(t, w, WithMessages(Prepared(t, w), Payload(t, w))), w)
  }

  lemma WithMessagesShape(t: Tables, msgs: seq<NewMessage>)
    ensures WithMessages(t, msgs).sessions == t.sessions && WithMessages(t, msgs).excluded == t.excluded
    ensures WithMessages(t, msgs).pins == t.pins
  {
    InsertShape(t, NextID(t.messages), Rows(msgs));
  }

  datatype Outcome = Wrote | Excluded | InTrash | Failed

  method DeleteSessionMessagesTx(db: Db, sid: string) returns (ok: bool)
    modifies db
    ensures ok ==> db.t == DeletedOneByOne(old(db.t), sid)
    ensures db.reliable ==> ok
  {
    ok := db.Works();
    if !ok {
      return;
    }
    db.t := DeleteCallsOf(db.t, sid);
    assert IDsOf(db.t, sid) == IDsOf(old(db.t), sid);
    ok := db.Works();
    if ok {
      db.t := DeleteRows(db.t, IDsOf(db.t, sid));
    }
  }

  /** In replace mode the old messages and tool calls go, and their pins are saved. */
  method PrepareTx(db: Db, w: Write) returns (ok: bool, msgs: seq<NewMessage>, pins: seq<SavedPin>)
    requires Admits(db.t, w.session.id)
    modifies db
    ensures ok ==> db.t == Prepared(old(db.t), w) && msgs == Payload(old(db.t), w)
    ensures ok && w.replaceMessages ==> pins == SavedPins(old(db.t), w.session.id, old(db.t).pins)
    ensures db.reliable ==> ok
  {
    ghost var t0 := db.t;
    msgs, pins := w.messages, [];
    ok := db.Works();
    if !ok {
      return;
    }
    db.t := UpsertRow(db.t, w.session);
    if w.replaceMessages {
      SavedPinsIgnoreSessions(t0, db.t, w.session.id, t0.pins);
      ok, pins := SavePinsTx(db, w.session.id);
      if ok {
        ok := DeleteSessionMessagesTx(db, w.session.id);
      }
    } else {
      var maxOrd;
      ok, maxOrd := MaxOrdinalTx(db, w.session.id);
      if ok {
        assert IDsOf(db.t, w.session.id) == IDsOf(t0, w.session.id);
        MaxOrdinalIsUnique(t0, w.session.id, maxOrd, MaxOrdinal(t0, w.session.id));
        msgs := MessagesAfterOrdinal(msgs, maxOrd);
      }
    }
  }

  lemma {:induction false} SavedPinsIgnoreSessions(t: Tables, u: Tables, sid: string, pins: seq<PinRow>)
    requires t.messages == u.messages
    ensures SavedPins(t, sid, pins) == SavedPins(u, sid, pins)
  {
    if pins != [] {
      SavedPinsIgnoreSessions(t, u, sid, pins[..|pins| - 1]);
    }
  }

  /** One write.  Unless it wrote, the tables may be left half-way: the caller rolls back. */
  method WriteOneSessionBatchTx(db: Db, w: Write) returns (outcome: Outcome, n: nat)
    modifies db
    ensures outcome.Wrote? ==>
      CanWrite(old(db.t), w) && db.t == Written(old(db.t), w) && n == |Payload(old(db.t), w)|
    ensures outcome.Excluded? ==> w.session.id in old(db.t).excluded
    ensures outcome.InTrash? ==> w.session.id !in old(db.t).excluded && Trashed(old(db.t), w.session.id)
    ensures db.reliable ==> (outcome.Wrote? <==> CanWrite(old(db.t), w))
    ensures db.reliable && !Admits(old(db.t), w.session.id) ==> outcome.Excluded? || outcome.InTrash?
  {
    ghost var t0 := db.t;
    n := 0;
    var ok := db.Works();
    if !ok {
      return Failed, 0;
    }
    if w.session.id in db.t.excluded {
      return Excluded, 0;
    }
    if Trashed(db.t, w.session.id) {
      return InTrash, 0;
    }
    var prepared, msgs, pins := PrepareTx(db, w);
    if !prepared {
      return Failed, 0;
    }
    WithMessagesShape(db.t, msgs);
    if |msgs| > 0 {
      ok := InsertWithCallsTx(db, msgs);
      if !ok {
        return Failed, 0;
      }
    }
    if w.replaceMessages {
      ok := RestorePinsTx(db, w.session.id, pins);
      if !ok {
        return Failed, 0;
      }
    }
    ok := db.Works();
    if !ok {
      return Failed, 0;
    }
    db.t := Stamped(db.t, w);
    outcome, n := Wrote, |msgs|;
  }

  // ------------------------------------------------------------------ the batch

  /** The writes that went through, one after the other. */
  ghost function Fold(t: Tables, writes: seq<Write>, outcomes: seq<Outcome>): Tables
    requires |writes| == |outcomes|
  {
    if writes == [] then t
    else
      var n := |writes| - 1;
      var u := Fold(t, writes[..n], outcomes[..n]);
      if outcomes[n].Wrote? && CanWrite(u, writes[n]) then Written(u, writes[n]) else u
  }

  /** The outcome that a write deserves on top of the tables u. */
  ghost predicate Deserves(u: Tables, w: Write, o: Outcome, reliable: bool) {
    && (o.Wrote? ==> CanWrite(u, w))
    && (o.Excluded? ==> w.session.id in u.excluded)
    && (o.InTrash? ==> Trashed(u, w.session.id))
    && (reliable ==> (o.Wrote? <==> CanWrite(u, w)))
    && (reliable && !Admits(u, w.session.id) ==> o.Excluded? || o.InTrash?)
  }

  /** Each outcome is what its write deserves on top of the writes before it. */
  ghost predicate Justified(t: Tables, writes: seq<Write>, outcomes: seq<Outcome>, reliable: bool)
    requires |writes| == |outcomes|
  {
    if writes == [] then true
    else
      var n := |writes| - 1;
      && Justified(t, writes[..n], outcomes[..n], reliable)
      && Deserves(Fold(t, writes[..n], outcomes[..n]), writes[n], outcomes[n], reliable)
  }

  ghost function Count(outcomes: seq<Outcome>, which: Outcome): nat {
    if outcomes == [] then 0
    else Count(outcomes[..|outcomes| - 1], which) + if outcomes[|outcomes| - 1] == which then 1 else 0
  }

  datatype BatchResult = BatchResult(
    writtenSessions: nat, writtenMessages: nat, excludedSessions: nat, excludedIDs: seq<string>, failedSessions: nat)

  const NOTHING_WRITTEN: BatchResult := BatchResult(0, 0, 0, [], 0)

  ghost function RejectedIDs(writes: seq<Write>, outcomes: seq<Outcome>): seq<string>
    requires |writes| == |outcomes|
  {
    if writes == [] then []
    else
      var n := |writes| - 1;
      RejectedIDs(writes[..n], outcomes[..n])
      + if outcomes[n].Excluded? || outcomes[n].InTrash? then [writes[n].session.id] else []
  }

  ghost function MessagesWritten(t: Tables, writes: seq<Write>, outcomes: seq<Outcome>): nat
    requires |writes| == |outcomes|
  {
    if writes == [] then 0
    else
      var n := |writes| - 1;
      MessagesWritten(t, writes[..n], outcomes[..n])
      + if outcomes[n].Wrote? then |Payload(Fold(t, writes[..n], outcomes[..n]), writes[n])| else 0
  }

  ghost predicate Summarizes(r: BatchResult, t: Tables, writes: seq<Write>, outcomes: seq<Outcome>)
    requires |writes| == |outcomes|
  {
    && r.writtenSessions == Count(outcomes, Wrote)
    && r.excludedSessions == Count(outcomes, Excluded) + Count(outcomes, InTrash)
    && r.failedSessions == Count(outcomes, Failed)
    && r.excludedIDs == RejectedIDs(writes, outcomes)
    && r.writtenMessages == MessagesWritten(t, writes, outcomes)
  }

  function Tallied(r: BatchResult, outcome: Outcome, id: string, n: nat): BatchResult {
    match outcome
    case Wrote => r.(writtenSessions := r.writtenSessions + 1, writtenMessages := r.writtenMessages + n)
    case Failed => r.(failedSessions := r.failedSessions + 1)
    case _ => r.(excludedSessions := r.excludedSessions + 1, excludedIDs := r.excludedIDs + [id])
  }

  lemma TallyStep(t: Tables, writes: seq<Write>, outcomes: seq<Outcome>, k: nat, o: Outcome, r: BatchResult, n: nat)
    requires k < |writes| && |outcomes| == k && Summarizes(r, t, writes[..k], outcomes)
    requires o.Wrote? ==> n == |Payload(Fold(t, writes[..k], outcomes), writes[k])|
    ensures Summarizes(Tallied(r, o, writes[k].session.id, n), t, writes[..k + 1], outcomes + [o])
  {
    assert writes[..k + 1][..k] == writes[..k] && (outcomes + [o])[..k] == outcomes;
  }

  lemma BatchStep(t: Tables, writes: seq<Write>, outcomes: seq<Outcome>, k: nat, reliable: bool, o: Outcome, r: BatchResult, n: nat)
    requires k < |writes| && |outcomes| == k
    requires Justified(t, writes[..k], outcomes, reliable) && Summarizes(r, t, writes[..k], outcomes)
    requires Deserves(Fold(t, writes[..k], outcomes), writes[k], o, reliable)
    requires o.Wrote? ==> n == |Payload(Fold(t, writes[..k], outcomes), writes[k])|
    ensures Justified(t, writes[..k + 1], outcomes + [o], reliable)
    ensures Summarizes(Tallied(r, o, writes[k].session.id, n), t, writes[..k + 1], outcomes + [o])
    ensures Fold(t, writes[..k + 1], outcomes + [o])
         == if o.Wrote? then Written(Fold(t, writes[..k], outcomes), writes[k]) else Fold(t, writes[..k], outcomes)
  {
    TallyStep(t, writes, outcomes, k, o, r, n);
    assert writes[..k + 1][..k] == writes[..k] && (outcomes + [o])[..k] == outcomes;
  }

  /** Each outcome is the one its write deserved on top of those before it, and the counters add them up. */
  ghost predicate IsReported(r: BatchResult, t: Tables, writes: seq<Write>, outcomes: seq<Outcome>, reliable: bool) {
    |outcomes| == |writes| && Justified(t, writes, outcomes, reliable) && Summarizes(r, t, writes, outcomes)
  }

  /**
   * A bad write rolls back to its own savepoint; the batch commits the writes that went through.  When it
   * fails it is undone, but the counters returned are those of the writes handled until then.
   */
  method WriteSessionBatch(db: Db, writes: seq<Write>) returns (ok: bool, result: BatchResult, ghost outcomes: seq<Outcome>)
    modifies db
    ensures |outcomes| <= |writes| && IsReported(result, old(db.t), writes[..|outcomes|], outcomes, db.reliable)
    ensures !ok ==> db.t == old(db.t)
    ensures ok ==> |outcomes| == |writes| && db.t == Fold(old(db.t), writes, outcomes)
    ensures db.reliable || writes == [] ==> ok
  {
    ghost var t0 := db.t;
    result, outcomes, ok := NOTHING_WRITTEN, [], true;
    if |writes| == 0 {
      return;
    }
    var begun := db.t;
    for i := 0 to |writes|
      invariant ok && |outcomes| == i
      invariant db.t == Fold(t0, writes[..i], outcomes)
      invariant Justified(t0, writes[..i], outcomes, db.reliable)
      invariant Summarizes(result, t0, writes[..i], outcomes)
    {
      ok := db.Works();
      if !ok {
        db.t := begun;
        return;
      }
      var savepoint := db.t;
      var outcome, n := WriteOneSessionBatchTx(db, writes[i]);
      if !outcome.Wrote? {
        db.t := savepoint;
      }
      ok := db.Works();
      if !ok {
        db.t := begun;
        return;
      }
      BatchStep(t0, writes, outcomes, i, db.reliable, outcome, result, n);
      result := Tallied(result, outcome, writes[i].session.id, n);
      outcomes := outcomes + [outcome];
    }
    assert writes[..|writes|] == writes;
    ok := db.Works();
    if !ok {
      db.t := begun;
    }
  }

  /** Every write is accounted for exactly once. */
  lemma BatchCountsAddUp(r: BatchResult, t: Tables, writes: seq<Write>, outcomes: seq<Outcome>)
    requires |writes| == |outcomes| && Summarizes(r, t, writes, outcomes)
    ensures r.writtenSessions + r.excludedSessions + r.failedSessions == |writes|
    ensures |r.excludedIDs| == r.excludedSessions
  {
    CountsAddUp(outcomes);
    RejectionsCount(writes, outcomes);
  }

  lemma {:induction false} CountsAddUp(outcomes: seq<Outcome>)
    ensures Count(outcomes, Wrote) + Count(outcomes, Excluded) + Count(outcomes, InTrash) + Count(outcomes, Failed) == |outcomes|
  {
    if outcomes != [] {
      var n := |outcomes| - 1;
      CountsAddUp(outcomes[..n]);
    }
  }

  lemma {:induction false} RejectionsCount(writes: seq<Write>, outcomes: seq<Outcome>)
    requires |writes| == |outcomes|
    ensures |RejectedIDs(writes, outcomes)| == Count(outcomes, Excluded) + Count(outcomes, InTrash)
  {
    if writes != [] {
      var n := |writes| - 1;
      RejectionsCount(writes[..n], outcomes[..n]);
    }
  }

  // --------------------------------------------------------------- all or nothing

  function AllWrote(n: nat): seq<Outcome> {
    seq(n, _ => Wrote)
  }

  ghost predicate AllCanWrite(t: Tables, writes: seq<Write>) {
    if writes == [] then true
    else
      var n := |writes| - 1;
      AllCanWrite(t, writes[..n]) && CanWrite(AllWritten(t, writes[..n]), writes[n])
  }

  ghost function AllWritten(t: Tables, writes: seq<Write>): Tables {
    Fold(t, writes, AllWrote(|writes|))
  }

  lemma AtomicStep(t: Tables, writes: seq<Write>, k: nat)
    requires k < |writes|
    ensures AllCanWrite(t, writes[..k + 1]) <==> AllCanWrite(t, writes[..k]) && CanWrite(AllWritten(t, writes[..k]), writes[k])
    ensures AllCanWrite(t, writes[..k + 1]) ==>
      AllWritten(t, writes[..k + 1]) == Written(AllWritten(t, writes[..k]), writes[k])
  {
    assert writes[..k + 1][..k] == writes[..k] && AllWrote(k + 1)[..k] == AllWrote(k);
  }

  lemma {:induction false} PrefixCanWrite(t: Tables, writes: seq<Write>, k: nat)
    requires AllCanWrite(t, writes) && k <= |writes|
    ensures AllCanWrite(t, writes[..k])
  {
    if k < |writes| {
      var n := |writes| - 1;
      PrefixCanWrite(t, writes[..n], k);
      assert writes[..n][..k] == writes[..k];
    } else {
      assert writes[..k] == writes;
    }
  }

  /** How an atomic batch ends. */
  datatype AtomicEnd = Committed | NotBegun | Rejected(at: nat, outcome: Outcome) | HookFailed | CommitFailed

  /** A rejection is counted, and nothing else then; a failed commit leaves the counters as if it had worked. */
  ghost predicate IsAtomicReport(end: AtomicEnd, r: BatchResult, t: Tables, writes: seq<Write>, beforeCommit: bool, reliable: bool) {
    match end
    case NotBegun => r == NOTHING_WRITTEN
    case Rejected(k, o) =>
      && k < |writes| && AllCanWrite(t, writes[..k]) && !o.Wrote?
      && Deserves(AllWritten(t, writes[..k]), writes[k], o, reliable)
      && r == Tallied(NOTHING_WRITTEN, o, writes[k].session.id, 0)
    case HookFailed => AllCanWrite(t, writes) && !beforeCommit && r == NOTHING_WRITTEN
    case _ => AllCanWrite(t, writes) && Summarizes(r, t, writes, AllWrote(|writes|))
  }

  lemma AtomicTally(t: Tables, writes: seq<Write>, k: nat, r: BatchResult, n: nat)
    requires k < |writes| && Summarizes(r, t, writes[..k], AllWrote(k)) && n == |Payload(AllWritten(t, writes[..k]), writes[k])|
    ensures Summarizes(Tallied(r, Wrote, writes[k].session.id, n), t, writes[..k + 1], AllWrote(k + 1))
  {
    TallyStep(t, writes, AllWrote(k), k, Wrote, r, n);
    assert AllWrote(k) + [Wrote] == AllWrote(k + 1);
  }

  /** Stops at the first write that does not go through, and undoes everything. */
  method WriteSessionBatchAtomic(db: Db, writes: seq<Write>, beforeCommit: bool)
    returns (ok: bool, result: BatchResult, ghost end: AtomicEnd)
    modifies db
    ensures IsAtomicReport(end, result, old(db.t), writes, beforeCommit, db.reliable) && (ok <==> end.Committed?)
    ensures !ok ==> db.t == old(db.t)
    ensures ok ==> AllCanWrite(old(db.t), writes) && db.t == AllWritten(old(db.t), writes)
    ensures db.reliable && (beforeCommit || writes == []) && AllCanWrite(old(db.t), writes) ==> ok
  {
    result, end := NOTHING_WRITTEN, Committed;
    if |writes| == 0 {
      assert AllWritten(db.t, []) == db.t;
      return true, result, end;
    }
    ghost var t0 := db.t;
    var begun := db.t;
    ok := db.Works();
    if !ok {
      return false, result, NotBegun;
    }
    for i := 0 to |writes|
      invariant Summarizes(result, t0, writes[..i], AllWrote(i))
      invariant AllCanWrite(t0, writes[..i]) && db.t == AllWritten(t0, writes[..i])
    {
      AtomicStep(t0, writes, i);
      if AllCanWrite(t0, writes) {
        PrefixCanWrite(t0, writes, i + 1);
      }
      var outcome, n := WriteOneSessionBatchTx(db, writes[i]);
      if !outcome.Wrote? {
        db.t := begun;
        return false, Tallied(NOTHING_WRITTEN, outcome, writes[i].session.id, 0), Rejected(i, outcome);
      }
      AtomicTally(t0, writes, i, result, n);
      result := Tallied(result, outcome, writes[i].session.id, n);
    }
    assert writes[..|writes|] == writes;
    if !beforeCommit {
      db.t := begun;
      return false, NOTHING_WRITTEN, HookFailed;
    }
    ok := db.Works();
    if !ok {
      db.t := begun;
      end := CommitFailed;
    }
  }

  /** On a reliable database the two variants agree whenever every write goes through. */
  lemma {:induction false} AtomicAgrees(t: Tables, writes: seq<Write>, outcomes: seq<Outcome>)
    requires AllCanWrite(t, writes) && |outcomes| == |writes| && Justified(t, writes, outcomes, true)
    ensures outcomes == AllWrote(|writes|)
    ensures Fold(t, writes, outcomes) == AllWritten(t, writes)
  {
    if writes != [] {
      var n := |writes| - 1;
      AtomicAgrees(t, writes[..n], outcomes[..n]);
      MustBeWritten(AllWritten(t, writes[..n]), writes[n], outcomes[n]);
      AllWroteSnoc(outcomes);
    }
  }

  lemma MustBeWritten(u: Tables, w: Write, o: Outcome)
    requires CanWrite(u, w) && Deserves(u, w, o, true)
    ensures o == Wrote
  {
  }

  lemma AllWroteSnoc(outcomes: seq<Outcome>)
    requires outcomes != [] && outcomes[..|outcomes| - 1] == AllWrote(|outcomes| - 1) && outcomes[|outcomes| - 1] == Wrote
    ensures outcomes == AllWrote(|outcomes|)
  {
    var n := |outcomes| - 1;
    assert outcomes == outcomes[..n] + [outcomes[n]];
  }

  // ------------------------------------------------------------ what writes keep

  lemma WrittenShape(t: Tables, w: Write)
    requires CanWrite(t, w)
    ensures var u, v := WithMessages(Prepared(t, w), Payload(t, w)), Written(t, w);
      && v.messages == u.messages && v.index == u.index && v.triggers == u.triggers && v.calls == u.calls
      && v.sessions.Keys == t.sessions.Keys + {w.session.id} && v.excluded == t.excluded
      && !v.sessions[w.session.id].deleted
      && (forall x | x in t.sessions && x != w.session.id :: v.sessions[x] == t.sessions[x])
      && Prepared(t, w).messages == if w.replaceMessages then t.messages - IDsOf(t, w.session.id) else t.messages
  {
    WithMessagesShape(Prepared(t, w), Payload(t, w));
    assert IDsOf(UpsertRow(t, w.session), w.session.id) == IDsOf(t, w.session.id);
    InsertShape(Prepared(t, w), NextID(Prepared(t, w).messages), Rows(Payload(t, w)));
  }

  /** A write keeps every key, the index in step with the messages, and excluded ids away. */
  lemma WrittenKeeps(t: Tables, w: Write)
    requires CanWrite(t, w) && Sound(t)
    ensures Sound(Written(t, w)) && KeepsSearch(t, Written(t, w))
    ensures Separated(t) ==> Separated(Written(t, w))
  {
    WrittenShape(t, w);
    var u1, msgs := Prepared(t, w), Payload(t, w);
    PreparedKeeps(t, w);
    var u2 := WithMessages(u1, msgs);
    PayloadKeeps(u1, msgs);
    RestoredPinsKeepSound(u2, w.session.id, SavedPins(t, w.session.id, t.pins));
    WithMessagesShape(u1, msgs);
    var u3 := Repinned(t, w, u2);
    SessionRowsKeepSound(u3, Stamped(u3, w));
  }

  lemma PayloadKeeps(t: Tables, msgs: seq<NewMessage>)
    requires Sound(t) && (msgs != [] ==> Insertable(t, msgs))
    ensures Sound(WithMessages(t, msgs)) && KeepsSearch(t, WithMessages(t, msgs))
  {
    if msgs != [] {
      InsertedKeepsSound(t, msgs);
      InsertKeepsSetup(t, NextID(t.messages), Rows(msgs));
      if SearchOK(t) {
        InsertedKeepsSearch(t, msgs);
      }
    }
  }

  lemma PreparedKeeps(t: Tables, w: Write)
    requires Sound(t)
    ensures Sound(Prepared(t, w)) && KeepsSearch(t, Prepared(t, w))
  {
    var u0 := UpsertRow(t, w.session);
    SessionRowsKeepSound(t, u0);
    DeletedKeeps(u0, w.session.id);
  }

  /** The messages of session x are the same, row for row, on both sides. */
  ghost predicate SameMessagesOf(t: Tables, u: Tables, x: string) {
    forall id {:trigger id in t.messages} {:trigger id in u.messages} ::
      ((id in t.messages && t.messages[id].sessionID == x) <==> (id in u.messages && u.messages[id].sessionID == x))
      && (id in t.messages && t.messages[id].sessionID == x ==> t.messages[id] == u.messages[id])
  }

  lemma InsertedLeavesOthers(t: Tables, msgs: seq<NewMessage>, sid: string, x: string)
    requires AllOf(sid, msgs) && x != sid
    ensures SameMessagesOf(t, WithMessages(t, msgs), x)
  {
    var first := NextID(t.messages);
    InsertShape(t, first, Rows(msgs));
    forall id | first <= id < first + |msgs| && msgs != []
      ensures Inserted(t, msgs).messages[id].sessionID != x
    {
      assert Inserted(t, msgs).messages[first + (id - first)] == Rows(msgs)[id - first];
    }
  }

  lemma WrittenLeavesOthers(t: Tables, w: Write, x: string)
    requires CanWrite(t, w) && Complete(w) && x != w.session.id
    ensures x in t.sessions ==> x in Written(t, w).sessions && Written(t, w).sessions[x] == t.sessions[x]
    ensures SameMessagesOf(t, Written(t, w), x)
  {
    WrittenShape(t, w);
    var u := Prepared(t, w);
    assert SameMessagesOf(t, u, x);
    PayloadIsOwn(t, w);
    InsertedLeavesOthers(u, Payload(t, w), w.session.id, x);
    SameMessagesChain(t, u, WithMessages(u, Payload(t, w)), x);
  }

  lemma PayloadIsOwn(t: Tables, w: Write)
    requires Complete(w)
    ensures AllOf(w.session.id, Payload(t, w))
  {
    var maxOrd := MaxOrdinal(t, w.session.id);
    if !w.replaceMessages && maxOrd >= 0 {
      var k := AfterCuts(w.messages, maxOrd);
    }
  }

  ghost predicate AllComplete(writes: seq<Write>) {
    forall i | 0 <= i < |writes| :: Complete(writes[i])
  }

  /** No batch touches a trashed session: neither its row nor its messages. */
  lemma {:induction false} BatchLeavesTrash(t: Tables, writes: seq<Write>, outcomes: seq<Outcome>, x: string)
    requires |writes| == |outcomes| && AllComplete(writes) && Trashed(t, x)
    ensures x in Fold(t, writes, outcomes).sessions && Fold(t, writes, outcomes).sessions[x] == t.sessions[x]
    ensures SameMessagesOf(t, Fold(t, writes, outcomes), x)
  {
    if writes != [] {
      var n := |writes| - 1;
      BatchLeavesTrash(t, writes[..n], outcomes[..n], x);
      var u := Fold(t, writes[..n], outcomes[..n]);
      if outcomes[n].Wrote? && CanWrite(u, writes[n]) {
        WrittenLeavesOthers(u, writes[n], x);
        SameMessagesChain(t, u, Written(u, writes[n]), x);
      }
    }
  }

  lemma SameMessagesChain(t: Tables, u: Tables, v: Tables, x: string)
    requires SameMessagesOf(t, u, x) && SameMessagesOf(u, v, x)
    ensures SameMessagesOf(t, v, x)
  {
  }

  lemma {:induction false} BatchKeeps(t: Tables, writes: seq<Write>, outcomes: seq<Outcome>)
    requires |writes| == |outcomes| && Sound(t)
    ensures var u := Fold(t, writes, outcomes);
      Sound(u) && KeepsSearch(t, u) && (Separated(t) ==> Separated(u))
  {
    if writes != [] {
      var n := |writes| - 1;
      BatchKeeps(t, writes[..n], outcomes[..n]);
      var u := Fold(t, writes[..n], outcomes[..n]);
      if outcomes[n].Wrote? && CanWrite(u, writes[n]) {
        WrittenKeeps(u, writes[n]);
      }
    }
  }

  lemma {:induction false} AfterAllStored(msgs: seq<NewMessage>, maxOrd: int)
    requires maxOrd >= 0 && forall i | 0 <= i < |msgs| :: msgs[i].row.ordinal <= maxOrd
    ensures After(msgs, maxOrd) == []
  {
    if msgs != [] {
      AfterAllStored(msgs[1..], maxOrd);
    }
  }

  /** Where append mode cuts: what comes before is stored already, the rest goes in. */
  lemma PayloadCut(t: Tables, w: Write) returns (k: nat)
    requires !w.replaceMessages
    ensures k <= |w.messages| && Payload(t, w) == w.messages[k..]
    ensures k > 0 ==> MaxOrdinal(t, w.session.id) >= 0
    ensures forall i | 0 <= i < k :: w.messages[i].row.ordinal <= MaxOrdinal(t, w.session.id)
  {
    k := 0;
    if MaxOrdinal(t, w.session.id) >= 0 {
      k := AfterCuts(w.messages, MaxOrdinal(t, w.session.id));
    }
  }

  lemma PayloadIsStored(t: Tables, w: Write, k: nat)
    requires CanWrite(t, w) && Complete(w) && k < |Payload(t, w)|
    ensures Payload(t, w)[k].row.ordinal <= MaxOrdinal(Written(t, w), w.session.id)
  {
    PayloadIsOwn(t, w);
    InsertedIsStored(Prepared(t, w), Payload(t, w), k);
    WrittenShape(t, w);
    OrdinalIsBounded(Written(t, w), w.session.id, NextID(Prepared(t, w).messages) + k);
  }

  lemma MaxOrdinalGrows(t: Tables, w: Write)
    requires CanWrite(t, w) && !w.replaceMessages && MaxOrdinal(t, w.session.id) >= 0
    ensures MaxOrdinal(t, w.session.id) <= MaxOrdinal(Written(t, w), w.session.id)
  {
    var id :| id in IDsOf(t, w.session.id) && t.messages[id].ordinal == MaxOrdinal(t, w.session.id);
    WrittenShape(t, w);
    OldRowsStay(Prepared(t, w), Payload(t, w), id);
    OrdinalIsBounded(Written(t, w), w.session.id, id);
  }

  lemma StoredOrdinal(t: Tables, w: Write, i: nat)
    requires CanWrite(t, w) && Complete(w) && !w.replaceMessages && i < |w.messages|
    ensures w.messages[i].row.ordinal <= MaxOrdinal(Written(t, w), w.session.id)
  {
    var k := PayloadCut(t, w);
    if i >= k {
      NewOrdinal(t, w, i, k);
    } else {
      MaxOrdinalGrows(t, w);
    }
  }

  lemma NewOrdinal(t: Tables, w: Write, i: nat, k: nat)
    requires CanWrite(t, w) && Complete(w) && k <= i < |w.messages| && Payload(t, w) == w.messages[k..]
    ensures w.messages[i].row.ordinal <= MaxOrdinal(Written(t, w), w.session.id)
  {
    PayloadIsStored(t, w, i - k);
  }

  lemma OrdinalIsBounded(t: Tables, sid: string, id: nat)
    requires id in t.messages && t.messages[id].sessionID == sid
    ensures t.messages[id].ordinal <= MaxOrdinal(t, sid)
  {
    assert id in IDsOf(t, sid);
  }

  lemma InsertedIsStored(t: Tables, msgs: seq<NewMessage>, k: nat)
    requires k < |msgs|
    ensures var id := NextID(t.messages) + k;
      id in WithMessages(t, msgs).messages && WithMessages(t, msgs).messages[id] == msgs[k].row
  {
    InsertShape(t, NextID(t.messages), Rows(msgs));
    assert Rows(msgs)[k] == msgs[k].row;
  }

  lemma OldRowsStay(t: Tables, msgs: seq<NewMessage>, id: nat)
    requires id in t.messages
    ensures id in WithMessages(t, msgs).messages && WithMessages(t, msgs).messages[id] == t.messages[id]
  {
    InsertShape(t, NextID(t.messages), Rows(msgs));
  }

  /** Appending the same session again adds no messages. */
  lemma RepeatedAppendAddsNothing(t: Tables, w: Write)
    requires CanWrite(t, w) && Complete(w) && !w.replaceMessages
    ensures Payload(Written(t, w), w) == []
    ensures CanWrite(Written(t, w), w) && Written(Written(t, w), w).messages == Written(t, w).messages
  {
    var u := Written(t, w);
    forall i | 0 <= i < |w.messages|
      ensures w.messages[i].row.ordinal <= MaxOrdinal(u, w.session.id)
    {
      StoredOrdinal(t, w, i);
    }
    if w.messages == [] {
      assert After(w.messages, MaxOrdinal(u, w.session.id)) == [];
    } else {
      assert w.messages[0].row.ordinal >= 0;
      AfterAllStored(w.messages, MaxOrdinal(u, w.session.id));
    }
    WrittenShape(t, w);
    WrittenShape(u, w);
  }
}
