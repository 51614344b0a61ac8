/** What a write leaves of rows, tool calls and pins, in plain terms (internal/db/messages.go, internal/db/session_batch.go). */
module StoreCarried {
  import opened Common
  import opened Store
  import opened StoreMessages
  import opened StoreLifecycle
  import opened StoreBatch

  // ------------------------------------------------------------------------- pins

  lemma {:induction false} PinAllRows(t: Tables, sid: string, note: string, ids: set<nat>, q: PinRow)
    requires ids <= t.messages.Keys && q in PinAll(t, sid, note, ids).pins && q !in t.pins
    ensures q.sessionID == sid && q.messageID in ids && q.note == note && q.ordinal == t.messages[q.messageID].ordinal
    decreases ids
  {
    if ids != {} {
      var id := Smallest(ids);
      var next := if Pinned(t.pins, sid, id) then t else t.(pins := t.pins + [PinRow(sid, id, t.messages[id].ordinal, note)]);
      if q !in next.pins {
        PinAllRows(next, sid, note, ids - {id}, q);
      }
    }
  }

  /** The pin p, of a message with this uuid, belongs on the message m: by the uuid, or by its place. */
  predicate BelongsOn(p: PinRow, uuid: string, m: MessageRow) {
    m.sessionID == p.sessionID && ((uuid != "" && m.sourceUUID == uuid) || m.ordinal == p.ordinal)
  }

  /** The pin q stands for an old pin, which belongs there, and carries its note. */
  ghost predicate Carries(q: PinRow, t: Tables, p: PinRow, messages: map<nat, MessageRow>) {
    && p in t.pins && p.sessionID == q.sessionID && q.note == p.note
    && q.messageID in messages && q.ordinal == messages[q.messageID].ordinal
    && p.messageID in t.messages && BelongsOn(p, t.messages[p.messageID].sourceUUID, messages[q.messageID])
  }

  lemma {:induction false} SavedComesFromPin(t: Tables, sid: string, pins: seq<PinRow>, sp: SavedPin)
    requires sp in SavedPins(t, sid, pins)
    ensures exists p :: p in pins && p.sessionID == sid && sp == SavedPinOf(t, p)
  {
    var n := |pins| - 1;
    assert pins == pins[..n] + [pins[n]];
    if sp in SavedPins(t, sid, pins[..n]) {
      SavedComesFromPin(t, sid, pins[..n], sp);
      var p :| p in pins[..n] && p.sessionID == sid && sp == SavedPinOf(t, p);
      assert p in pins;
    } else {
      assert pins[n] in pins && pins[n].sessionID == sid;
    }
  }

  lemma {:induction false} PinIsSaved(t: Tables, sid: string, pins: seq<PinRow>, p: PinRow) returns (k: nat)
    requires p in pins && p.sessionID == sid
    ensures k < |SavedPins(t, sid, pins)| && SavedPins(t, sid, pins)[k] == SavedPinOf(t, p)
  {
    var n := |pins| - 1;
    assert pins == pins[..n] + [pins[n]];
    if p in pins[..n] {
      k := PinIsSaved(t, sid, pins[..n], p);
    } else {
      k := |SavedPins(t, sid, pins[..n])|;
    }
  }

  lemma RestoredPinRows(u: Tables, sid: string, sp: SavedPin, q: PinRow)
    requires q in RestoredPin(u, sid, sp).pins && q !in u.pins
    ensures q.sessionID == sid && q.note == sp.note
    ensures q.messageID in u.messages && u.messages[q.messageID].sessionID == sid
    ensures q.ordinal == u.messages[q.messageID].ordinal
    ensures (sp.sourceUUID != "" && u.messages[q.messageID].sourceUUID == sp.sourceUUID)
         || u.messages[q.messageID].ordinal == sp.ordinal
  {
    var byUUID := if sp.sourceUUID != "" then PinAll(u, sid, sp.note, WithUUID(u, sid, sp.sourceUUID)) else u;
    if |byUUID.pins| > |u.pins| {
      PinAllRows(u, sid, sp.note, WithUUID(u, sid, sp.sourceUUID), q);
    } else {
      PinAllRows(u, sid, sp.note, WithOrdinal(u, sid, sp.ordinal), q);
    }
  }

  /** A new pin is that of a saved one. */
  lemma {:induction false} RestoredRows(u: Tables, sid: string, saved: seq<SavedPin>, q: PinRow)
    requires q in RestoredPins(u, sid, saved).pins && q !in u.pins
    ensures q.sessionID == sid && q.messageID in u.messages && u.messages[q.messageID].sessionID == sid
    ensures q.ordinal == u.messages[q.messageID].ordinal
    ensures exists sp :: sp in saved && StandsFor(sp, q, u.messages)
  {
    var n := |saved| - 1;
    var before := RestoredPins(u, sid, saved[..n]);
    assert saved == saved[..n] + [saved[n]];
    if q in before.pins {
      RestoredRows(u, sid, saved[..n], q);
      var sp :| sp in saved[..n] && StandsFor(sp, q, u.messages);
      assert sp in saved;
    } else {
      RestoredPinRows(before, sid, saved[n], q);
      assert saved[n] in saved && StandsFor(saved[n], q, u.messages);
    }
  }

  ghost predicate StandsFor(sp: SavedPin, q: PinRow, messages: map<nat, MessageRow>) {
    && q.note == sp.note && q.messageID in messages
    && ((sp.sourceUUID != "" && messages[q.messageID].sourceUUID == sp.sourceUUID) || messages[q.messageID].ordinal == sp.ordinal)
  }

  /** Some message of the session has this uuid. */
  ghost predicate HasUUID(messages: map<nat, MessageRow>, sid: string, uuid: string) {
    exists id | id in messages :: messages[id].sessionID == sid && messages[id].sourceUUID == uuid
  }

  /**
   * The pins u of the session sid stand for those of t, with these messages: every old pin is on the messages
   * with its uuid, or if there are none at its ordinal; every pin is one of those; and other sessions keep theirs.
   */
  ghost predicate PinsCarried(t: Tables, sid: string, messages: map<nat, MessageRow>, pins: seq<PinRow>) {
    AllLand(t, sid, messages, pins) && AllCarried(t, sid, messages, pins) && OthersKept(t, sid, pins)
  }

  ghost predicate AllLand(t: Tables, sid: string, messages: map<nat, MessageRow>, pins: seq<PinRow>) {
    forall p, id | p in t.pins && p.sessionID == sid && id in messages && messages[id].sessionID == sid ::
      PinLands(t, p, sid, messages, id) ==> exists q :: q in pins && q.sessionID == sid && q.messageID == id
  }

  ghost predicate AllCarried(t: Tables, sid: string, messages: map<nat, MessageRow>, pins: seq<PinRow>) {
    forall q | q in pins && q.sessionID == sid :: exists p :: Carries(q, t, p, messages)
  }

  ghost predicate OthersKept(t: Tables, sid: string, pins: seq<PinRow>) {
    forall q: PinRow | q.sessionID != sid :: q in pins <==> q in t.pins
  }

  ghost predicate PinLands(t: Tables, p: PinRow, sid: string, messages: map<nat, MessageRow>, id: nat)
    requires id in messages
  {
    && p.messageID in t.messages
    && var uuid := t.messages[p.messageID].sourceUUID;
       if uuid != "" && HasUUID(messages, sid, uuid) then messages[id].sourceUUID == uuid else messages[id].ordinal == p.ordinal
  }

  lemma RestoringCarries(t: Tables, base: Tables, sid: string, u: Tables)
    requires Sound(t) && u.pins == RestoredPins(base, sid, SavedPins(t, sid, t.pins)).pins
    requires forall q :: q in base.pins <==> q in t.pins && q.sessionID != sid
    ensures PinsCarried(t, sid, base.messages, u.pins)
  {
    RestoringLands(t, base, sid);
    RestoringIsCarried(t, base, sid);
    RestoringKeepsOthers(t, base, sid);
  }

  lemma RestoringLands(t: Tables, base: Tables, sid: string)
    ensures AllLand(t, sid, base.messages, RestoredPins(base, sid, SavedPins(t, sid, t.pins)).pins)
  {
    var pins := RestoredPins(base, sid, SavedPins(t, sid, t.pins)).pins;
    forall p, id | p in t.pins && p.sessionID == sid && id in base.messages && base.messages[id].sessionID == sid
      ensures PinLands(t, p, sid, base.messages, id) ==> exists q :: q in pins && q.sessionID == sid && q.messageID == id
    {
      if PinLands(t, p, sid, base.messages, id) {
        LandedPin(t, base, sid, p, id);
      }
    }
  }

  lemma RestoringIsCarried(t: Tables, base: Tables, sid: string)
    requires Sound(t) && forall q | q in base.pins :: q.sessionID != sid
    ensures AllCarried(t, sid, base.messages, RestoredPins(base, sid, SavedPins(t, sid, t.pins)).pins)
  {
    var saved := SavedPins(t, sid, t.pins);
    forall q | q in RestoredPins(base, sid, saved).pins && q.sessionID == sid
      ensures exists p :: Carries(q, t, p, base.messages)
    {
      RestoredRows(base, sid, saved, q);
      var sp :| sp in saved && StandsFor(sp, q, base.messages);
      SavedComesFromPin(t, sid, t.pins, sp);
      var p :| p in t.pins && p.sessionID == sid && sp == SavedPinOf(t, p);
      assert Carries(q, t, p, base.messages);
    }
  }

  lemma RestoringKeepsOthers(t: Tables, base: Tables, sid: string)
    requires forall q :: q in base.pins <==> q in t.pins && q.sessionID != sid
    ensures OthersKept(t, sid, RestoredPins(base, sid, SavedPins(t, sid, t.pins)).pins)
  {
    var saved := SavedPins(t, sid, t.pins);
    forall q: PinRow | q.sessionID != sid
      ensures q in RestoredPins(base, sid, saved).pins <==> q in base.pins
    {
      if q in RestoredPins(base, sid, saved).pins && q !in base.pins {
        RestoredRows(base, sid, saved, q);
      }
      if q in base.pins {
        OldPinsStay(base, sid, saved, q);
      }
    }
  }

  lemma OldPinsStay(base: Tables, sid: string, saved: seq<SavedPin>, q: PinRow)
    requires q in base.pins
    ensures q in RestoredPins(base, sid, saved).pins
  {
    if saved != [] {
      PinsLand(base, sid, saved, 0);
      var i :| 0 <= i < |base.pins| && base.pins[i] == q;
      assert RestoredPins(base, sid, saved).pins[i] == q;
    }
  }

  lemma LandedPin(t: Tables, base: Tables, sid: string, p: PinRow, id: nat)
    requires p in t.pins && p.sessionID == sid && id in base.messages && base.messages[id].sessionID == sid
    requires PinLands(t, p, sid, base.messages, id)
    ensures exists q :: q in RestoredPins(base, sid, SavedPins(t, sid, t.pins)).pins && q.sessionID == sid && q.messageID == id
  {
    var k := PinIsSaved(t, sid, t.pins, p);
    var saved := SavedPins(t, sid, t.pins);
    PinsLand(base, sid, saved, k);
    var uuid := t.messages[p.messageID].sourceUUID;
    assert HasUUID(base.messages, sid, uuid) <==> WithUUID(base, sid, uuid) != {} by {
      if x: nat :| x in base.messages && base.messages[x].sessionID == sid && base.messages[x].sourceUUID == uuid {
        assert x in WithUUID(base, sid, uuid);
      }
      if WithUUID(base, sid, uuid) != {} {
        var x :| x in WithUUID(base, sid, uuid);
      }
    }
    assert id in PinTargets(base, sid, saved[k]);
    var pins := RestoredPins(base, sid, saved).pins;
    assert Pinned(pins, sid, id);
    var i :| 0 <= i < |pins| && pins[i].sessionID == sid && pins[i].messageID == id;
    assert pins[i] in pins;
  }

  /** The pins of a replaced session are carried over, those of all other sessions are what they were. */
  lemma ReplacedCarriesPins(t: Tables, sid: string, msgs: seq<NewMessage>)
    requires Sound(t) && Replaceable(t, sid, msgs)
    ensures PinsCarried(t, sid, Replaced(t, sid, msgs).messages, Replaced(t, sid, msgs).pins)
  {
    var base := WithMessages(DeletedInBulk(t, sid), msgs);
    WithMessagesShape(DeletedInBulk(t, sid), msgs);
    RestoringCarries(t, base, sid, Replaced(t, sid, msgs));
  }

  /** The same for a batch write that replaces; one that appends leaves all pins alone. */
  lemma WrittenCarriesPins(t: Tables, w: Write)
    requires Sound(t) && CanWrite(t, w)
    ensures w.replaceMessages ==> PinsCarried(t, w.session.id, Written(t, w).messages, Written(t, w).pins)
    ensures !w.replaceMessages ==> Written(t, w).pins == t.pins
  {
    var base := WithMessages(Prepared(t, w), Payload(t, w));
    WithMessagesShape(Prepared(t, w), Payload(t, w));
    if w.replaceMessages {
      assert IDsOf(UpsertRow(t, w.session), w.session.id) == IDsOf(t, w.session.id);
      RestoringCarries(t, base, w.session.id, Written(t, w));
    }
  }

  // ------------------------------------------------------------------------ tool calls

  /** The call belongs to the k-th message, under the k-th id from first on. */
  ghost predicate IsCallOf(c: ToolCallRow, msgs: seq<NewMessage>, first: nat, k: int) {
    0 <= k < |msgs| && c.messageID == first + k && c.sessionID == msgs[k].row.sessionID && c.call in msgs[k].calls
  }

  lemma {:induction false} EveryCallHasItsRow(msgs: seq<NewMessage>, ids: seq<nat>, k: nat, call: string)
    requires |msgs| == |ids| && k < |msgs| && call in msgs[k].calls
    ensures ToolCallRow(ids[k], msgs[k].row.sessionID, call) in CallRows(msgs, ids)
  {
    var n := |msgs| - 1;
    if k < n {
      EveryCallHasItsRow(msgs[..n], ids[..n], k, call);
    } else {
      var j :| 0 <= j < |msgs[n].calls| && msgs[n].calls[j] == call;
      assert CallsOf(msgs[n], ids[n])[j] == ToolCallRow(ids[n], msgs[n].row.sessionID, call);
    }
  }

  lemma CallRowIsOf(msgs: seq<NewMessage>, ids: seq<nat>, first: nat, c: ToolCallRow)
    requires ids == IDsFrom(first, |msgs|) && c in CallRows(msgs, ids)
    ensures HasCall(msgs, first, c)
  {
    CallRowsPointAtMessages(msgs, ids);
    var i :| PointsAt(c, msgs, ids, i);
    assert IsCallOf(c, msgs, first, i);
  }

  lemma CallHasRow(msgs: seq<NewMessage>, ids: seq<nat>, first: nat, c: ToolCallRow)
    requires ids == IDsFrom(first, |msgs|) && HasCall(msgs, first, c)
    ensures c in CallRows(msgs, ids)
  {
    var k :| IsCallOf(c, msgs, first, k);
    assert ids[k] == first + k;
    assert c == ToolCallRow(ids[k], msgs[k].row.sessionID, c.call);
    EveryCallHasItsRow(msgs, ids, k, c.call);
  }

  ghost predicate HasCall(msgs: seq<NewMessage>, first: nat, c: ToolCallRow) {
    exists k :: IsCallOf(c, msgs, first, k)
  }

  /** The messages with their calls, under consecutive new ids; the other rows are those of before. */
  ghost predicate Holds(before: Tables, msgs: seq<NewMessage>, first: nat, after: Tables) {
    RowsAdded(before.messages, msgs, first, after.messages) && CallsAdded(before.calls, msgs, first, after.calls)
  }

  ghost predicate RowsAdded(before: map<nat, MessageRow>, msgs: seq<NewMessage>, first: nat, after: map<nat, MessageRow>) {
    && (forall id | id in before :: id < first)
    && (forall id {:trigger id in after} :: id in after <==> id in before || first <= id < first + |msgs|)
    && (forall id | id in before :: after[id] == before[id])
    && (forall k | 0 <= k < |msgs| :: after[first + k] == msgs[k].row)
  }

  ghost predicate CallsAdded(before: seq<ToolCallRow>, msgs: seq<NewMessage>, first: nat, after: seq<ToolCallRow>) {
    forall c :: c in after <==> c in before || HasCall(msgs, first, c)
  }

  lemma InsertingAddsRows(t: Tables, msgs: seq<NewMessage>)
    ensures RowsAdded(t.messages, msgs, NextID(t.messages), WithMessages(t, msgs).messages)
  {
    assert IsNextID(t.messages, NextID(t.messages));
    RowsAreAdded(t, NextID(t.messages), msgs);
  }

  lemma RowsAreAdded(t: Tables, first: nat, msgs: seq<NewMessage>)
    requires forall id | id in t.messages :: id < first
    ensures RowsAdded(t.messages, msgs, first, InsertRows(t, first, Rows(msgs)).messages)
  {
    InsertShape(t, first, Rows(msgs));
    assert forall k | 0 <= k < |msgs| :: Rows(msgs)[k] == msgs[k].row;
  }

  lemma InsertingAddsCalls(t: Tables, msgs: seq<NewMessage>)
    ensures CallsAdded(t.calls, msgs, NextID(t.messages), WithMessages(t, msgs).calls)
  {
    var first := NextID(t.messages);
    var ids := IDsFrom(first, |msgs|);
    forall c
      ensures c in WithMessages(t, msgs).calls <==> c in t.calls || HasCall(msgs, first, c)
    {
      if c in CallRows(msgs, ids) {
        CallRowIsOf(msgs, ids, first, c);
      }
      if HasCall(msgs, first, c) {
        CallHasRow(msgs, ids, first, c);
      }
    }
  }

  lemma InsertingHolds(t: Tables, msgs: seq<NewMessage>)
    ensures Holds(t, msgs, NextID(t.messages), WithMessages(t, msgs))
  {
    InsertingAddsRows(t, msgs);
    InsertingAddsCalls(t, msgs);
  }

  /** What is left of the tables without the session's messages. */
  ghost predicate Cleared(t: Tables, sid: string, u: Tables) {
    && (forall id {:trigger id in u.messages} :: id in u.messages <==> id in t.messages && t.messages[id].sessionID != sid)
    && (forall id | id in u.messages :: u.messages[id] == t.messages[id])
    && (forall c :: c in u.calls <==> c in t.calls && c.sessionID != sid)
  }

  lemma DeletingClears(t: Tables, sid: string)
    requires Sound(t)
    ensures Cleared(t, sid, DeletedInBulk(t, sid)) && Cleared(t, sid, DeletedOneByOne(t, sid))
  {
    assert IDsOf(DeleteCallsOf(t, sid), sid) == IDsOf(t, sid);
  }

  /** Replacing: the session's rows and calls go, the new ones come, and nothing else changes but pins and index. */
  lemma ReplacedHoldsCalls(t: Tables, sid: string, msgs: seq<NewMessage>)
    requires Sound(t) && Replaceable(t, sid, msgs)
    ensures var u := Replaced(t, sid, msgs);
      && (exists left, first :: Cleared(t, sid, left) && Holds(left, msgs, first, u))
      && u.sessions == t.sessions && u.excluded == t.excluded
  {
    var left := DeletedInBulk(t, sid);
    DeletingClears(t, sid);
    InsertingHolds(left, msgs);
    WithMessagesShape(left, msgs);
    assert Holds(left, msgs, NextID(left.messages), Replaced(t, sid, msgs));
  }

  // -------------------------------------------------------------------- a batch write

  /** The row of a written session: parsed columns and signals are those of the write, the version too unless it is zero. */
  ghost predicate IsWrittenRow(row: SessionRow, was: Option<SessionRow>, w: Write) {
    && row.parsed == w.session.parsed && row.signals == w.signals && !row.deleted
    && row.displayName == (if was.Some? then was.value.displayName else w.session.displayName)
    && row.dataVersion == if w.dataVersion > 0 then w.dataVersion else if was.Some? then was.value.dataVersion else 0
  }

  /** The messages that a write brings: all of them when it replaces, those from the first new ordinal on when it appends. */
  ghost predicate IsBrought(t: Tables, w: Write, msgs: seq<NewMessage>) {
    if w.replaceMessages then msgs == w.messages
    else exists k | 0 <= k <= |w.messages| :: msgs == w.messages[k..] && CutsAt(t, w, k)
  }

  /** Nothing before k lies beyond the stored ordinals, and the k-th message does. */
  ghost predicate CutsAt(t: Tables, w: Write, k: nat)
    requires k <= |w.messages|
  {
    && (forall i | 0 <= i < k :: !BeyondStored(t, w.session.id, w.messages[i].row.ordinal))
    && (k < |w.messages| ==> BeyondStored(t, w.session.id, w.messages[k].row.ordinal))
  }

  /** The ordinal is larger than every stored one; negative ordinals do not count as stored. */
  ghost predicate BeyondStored(t: Tables, sid: string, ordinal: int) {
    (forall id | id in t.messages && t.messages[id].sessionID == sid :: t.messages[id].ordinal < 0)
    || forall id | id in t.messages && t.messages[id].sessionID == sid :: t.messages[id].ordinal < ordinal
  }

  lemma BeyondIff(t: Tables, sid: string, ordinal: int)
    ensures BeyondStored(t, sid, ordinal) <==> MaxOrdinal(t, sid) < 0 || ordinal > MaxOrdinal(t, sid)
  {
    var m := MaxOrdinal(t, sid);
    assert IsMaxOrdinal(t, sid, m);
    forall id | id in t.messages && t.messages[id].sessionID == sid
      ensures t.messages[id].ordinal <= m
    {
      assert id in IDsOf(t, sid);
    }
  }

  lemma {:induction false} AfterCutsAt(msgs: seq<NewMessage>, maxOrd: int) returns (k: nat)
    ensures k <= |msgs| && After(msgs, maxOrd) == msgs[k..]
    ensures forall i | 0 <= i < k :: maxOrd >= 0 && msgs[i].row.ordinal <= maxOrd
    ensures k < |msgs| ==> maxOrd < 0 || msgs[k].row.ordinal > maxOrd
  {
    k := 0;
    if maxOrd >= 0 && msgs != [] && msgs[0].row.ordinal <= maxOrd {
      var j := AfterCutsAt(msgs[1..], maxOrd);
      k := j + 1;
    }
  }

  lemma PayloadIsBrought(t: Tables, w: Write)
    ensures IsBrought(t, w, Payload(t, w))
  {
    if !w.replaceMessages {
      var k := AfterCutsAt(w.messages, MaxOrdinal(t, w.session.id));
      forall i | 0 <= i < |w.messages|
        ensures BeyondStored(t, w.session.id, w.messages[i].row.ordinal)
           <==> MaxOrdinal(t, w.session.id) < 0 || w.messages[i].row.ordinal > MaxOrdinal(t, w.session.id)
      {
        BeyondIff(t, w.session.id, w.messages[i].row.ordinal);
      }
      assert CutsAt(t, w, k);
    }
  }

  /** What the new messages are put on top of. */
  ghost predicate StartsFrom(t: Tables, w: Write, left: Tables) {
    if w.replaceMessages then Cleared(t, w.session.id, left) else left.messages == t.messages && left.calls == t.calls
  }

  ghost predicate Brings(t: Tables, w: Write, left: Tables, msgs: seq<NewMessage>, first: nat, u: Tables) {
    IsBrought(t, w, msgs) && StartsFrom(t, w, left) && Holds(left, msgs, first, u)
  }

  /** A batch write puts its messages on top of all that were there, or of those of the other sessions. */
  lemma WrittenHolds(t: Tables, w: Write)
    requires Sound(t) && CanWrite(t, w)
    ensures exists left, msgs, first :: Brings(t, w, left, msgs, first, Written(t, w))
  {
    var left := Prepared(t, w);
    PayloadIsBrought(t, w);
    InsertingHolds(left, Payload(t, w));
    PreparedStarts(t, w);
    WrittenShape(t, w);
    assert Brings(t, w, left, Payload(t, w), NextID(left.messages), Written(t, w));
  }

  lemma PreparedStarts(t: Tables, w: Write)
    requires Sound(t)
    ensures StartsFrom(t, w, Prepared(t, w))
  {
    if w.replaceMessages {
      SessionRowsKeepSound(t, UpsertRow(t, w.session));
      DeletingClears(UpsertRow(t, w.session), w.session.id);
    }
  }

  /** Its own row, and no other. */
  lemma WrittenRow(t: Tables, w: Write)
    requires CanWrite(t, w)
    ensures var u, id := Written(t, w), w.session.id;
      && id in u.sessions && IsWrittenRow(u.sessions[id], if id in t.sessions then Some(t.sessions[id]) else None, w)
      && u.sessions.Keys == t.sessions.Keys + {id} && (forall x | x in t.sessions && x != id :: u.sessions[x] == t.sessions[x])
      && u.excluded == t.excluded
  {
    WrittenShape(t, w);
    WithMessagesShape(Prepared(t, w), Payload(t, w));
  }

  // -------------------------------------------------------------------- the counters

  lemma IDsAreFresh(before: map<nat, MessageRow>, msgs: seq<NewMessage>, first: nat, after: map<nat, MessageRow>)
    requires RowsAdded(before, msgs, first, after)
    ensures |after| == |before| + |msgs|
  {
    var added := Interval(first, |msgs|);
    DisjointSizes(before.Keys, added, after.Keys);
    assert |after| == |after.Keys| && |before| == |before.Keys|;
  }

  lemma DisjointSizes(a: set<nat>, b: set<nat>, c: set<nat>)
    requires a !! b && forall x {:trigger x in c} :: x in c <==> x in a || x in b
    ensures |c| == |a| + |b|
  {
    assert c == a + b;
  }

  ghost function Interval(first: nat, n: nat): (ids: set<nat>)
    ensures |ids| == n && forall id {:trigger id in ids} :: id in ids <==> first <= id < first + n
  {
    if n == 0 then {} else Interval(first, n - 1) + {first + n - 1}
  }

  /** A batch that only appends leaves as many more messages as it reports. */
  lemma {:induction false} BatchGrows(t: Tables, writes: seq<Write>, outcomes: seq<Outcome>, reliable: bool)
    requires |writes| == |outcomes| && Justified(t, writes, outcomes, reliable)
    requires forall i | 0 <= i < |writes| :: !writes[i].replaceMessages
    ensures |Fold(t, writes, outcomes).messages| == |t.messages| + MessagesWritten(t, writes, outcomes)
  {
    if writes != [] {
      var n := |writes| - 1;
      BatchGrows(t, writes[..n], outcomes[..n], reliable);
      var u := Fold(t, writes[..n], outcomes[..n]);
      if outcomes[n].Wrote? {
        AppendGrows(u, writes[n]);
      }
    }
  }

  lemma AppendGrows(t: Tables, w: Write)
    requires CanWrite(t, w) && !w.replaceMessages
    ensures |Written(t, w).messages| == |t.messages| + |Payload(t, w)|
  {
    var left := Prepared(t, w);
    InsertingAddsRows(left, Payload(t, w));
    WrittenShape(t, w);
    IDsAreFresh(left.messages, Payload(t, w), NextID(left.messages), WithMessages(left, Payload(t, w)).messages);
  }
}
