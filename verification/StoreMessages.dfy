/** Inserting and replacing messages with their calls, pins and index entries (internal/db/messages.go). */
module StoreMessages {
  import opened Common
  import opened Store

  const MESSAGE_ROWS_PER_STMT: nat := 39
  const TOOL_CALL_ROWS_PER_STMT: nat := 90

  datatype NewMessage = NewMessage(row: MessageRow, calls: seq<string>)

  function Rows(msgs: seq<NewMessage>): seq<MessageRow> {
    seq(|msgs|, i requires 0 <= i < |msgs| => msgs[i].row)
  }

  // ------------------------------------------------------------------- row ids

  ghost predicate IsNextID(messages: map<nat, MessageRow>, n: nat) {
    && (forall id | id in messages :: id < n)
    && (if messages == map[] then n == 1 else n > 0 && n - 1 in messages)
  }

  lemma {:induction false} NextIDExists(messages: map<nat, MessageRow>)
    ensures exists n :: IsNextID(messages, n)
    decreases |messages|
  {
    if messages == map[] {
      assert IsNextID(messages, 1);
    } else {
      var id :| id in messages;
      var rest := messages - {id};
      assert rest.Keys == messages.Keys - {id};
      NextIDExists(rest);
      var n :| IsNextID(rest, n);
      assert forall x | x in messages :: x == id || x in rest;
      assert IsNextID(messages, if rest == map[] || id >= n then id + 1 else n);
    }
  }

  /** One more than the largest id, or 1. */
  ghost function NextID(messages: map<nat, MessageRow>): (n: nat)
    ensures IsNextID(messages, n)
  {
    NextIDExists(messages);
    var n :| IsNextID(messages, n);
    n
  }

  lemma NextIDIsUnique(messages: map<nat, MessageRow>, m: nat, n: nat)
    requires IsNextID(messages, m) && IsNextID(messages, n)
    ensures m == n
  {
  }

  method NextMessageID(db: Db) returns (n: nat)
    ensures n == NextID(db.t.messages)
  {
    var messages := db.t.messages;
    if messages == map[] {
      return 1;
    }
    var todo := messages.Keys;
    n := 0;
    while todo != {}
      invariant todo <= messages.Keys
      invariant forall id | id in messages && id !in todo :: id < n
      invariant n > 0 ==> n - 1 in messages
    {
      var id :| id in todo;
      if id >= n {
        n := id + 1;
      }
      todo := todo - {id};
    }
    ghost var some :| some in messages;
    assert some < n;
    NextIDIsUnique(messages, n, NextID(messages));
  }

  // --------------------------------------------------------------- tool calls

  /** The rows of the calls of all messages, each pointing at the id of its message. */
  ghost function CallRows(msgs: seq<NewMessage>, ids: seq<nat>): seq<ToolCallRow>
    requires |msgs| == |ids|
  {
    if msgs == [] then []
    else
      var n := |msgs| - 1;
      CallRows(msgs[..n], ids[..n]) + CallsOf(msgs[n], ids[n])
  }

  ghost function CallsOf(m: NewMessage, id: nat): seq<ToolCallRow> {
    seq(|m.calls|, k requires 0 <= k < |m.calls| => ToolCallRow(id, m.row.sessionID, m.calls[k]))
  }

  method ResolveToolCalls(msgs: seq<NewMessage>, ids: seq<nat>) returns (calls: seq<ToolCallRow>)
    requires |ids| == |msgs|
    ensures calls == CallRows(msgs, ids)
  {
    calls := [];
    for i := 0 to |msgs|
      invariant calls == CallRows(msgs[..i], ids[..i])
    {
      ghost var before := calls;
      var m := msgs[i];
      for k := 0 to |m.calls|
        invariant calls == before + CallsOf(m, ids[i])[..k]
      {
        calls := calls + [ToolCallRow(ids[i], m.row.sessionID, m.calls[k])];
      }
      assert msgs[..i + 1][..i] == msgs[..i] && ids[..i + 1][..i] == ids[..i];
    }
    assert msgs[..|msgs|] == msgs && ids[..|ids|] == ids;
  }

  ghost predicate PointsAt(c: ToolCallRow, msgs: seq<NewMessage>, ids: seq<nat>, i: int)
    requires |msgs| == |ids|
  {
    0 <= i < |msgs| && c.messageID == ids[i] && c.sessionID == msgs[i].row.sessionID && c.call in msgs[i].calls
  }

  /** Every resolved call belongs to one of the messages. */
  lemma {:induction false} CallRowsPointAtMessages(msgs: seq<NewMessage>, ids: seq<nat>)
    requires |msgs| == |ids|
    ensures forall c | c in CallRows(msgs, ids) ::
      exists i :: PointsAt(c, msgs, ids, i)
  {
    if msgs != [] {
      var n := |msgs| - 1;
      CallRowsPointAtMessages(msgs[..n], ids[..n]);
      forall c | c in CallRows(msgs, ids)
        ensures exists i :: PointsAt(c, msgs, ids, i)
      {
        if c in CallRows(msgs[..n], ids[..n]) {
          var i :| PointsAt(c, msgs[..n], ids[..n], i);
          assert PointsAt(c, msgs, ids, i);
        } else {
          assert c in CallsOf(msgs[n], ids[n]);
          assert PointsAt(c, msgs, ids, n);
        }
      }
    }
  }

  // ------------------------------------------------------------------ inserting

  function IDsFrom(first: nat, n: nat): seq<nat> {
    seq(n, i requires 0 <= i => first + i)
  }

  ghost predicate Insertable(t: Tables, msgs: seq<NewMessage>) {
    CanInsert(t, NextID(t.messages), Rows(msgs))
  }

  /** All rows under consecutive new ids, with their tool calls. */
  ghost function Inserted(t: Tables, msgs: seq<NewMessage>): Tables {
    var first := NextID(t.messages);
    InsertRows(t, first, Rows(msgs)).(calls := t.calls + CallRows(msgs, IDsFrom(first, |msgs|)))
  }

  /** One multi-row insert statement. */
  method ExecInsert(db: Db, first: nat, rows: seq<MessageRow>) returns (ok: bool)
    modifies db
    ensures ok ==> CanInsert(old(db.t), first, rows) && db.t == InsertRows(old(db.t), first, rows)
    ensures !ok ==> db.t == old(db.t)
    ensures db.reliable && CanInsert(old(db.t), first, rows) ==> ok
  {
    ok := db.Works();
    if !CanInsert(db.t, first, rows) {
      ok := false;
    }
    if ok {
      db.t := InsertRows(db.t, first, rows);
    }
  }

  method InsertMessagesTx(db: Db, msgs: seq<NewMessage>) returns (ok: bool, ids: seq<nat>)
    modifies db
    ensures ok ==> Insertable(old(db.t), msgs)
    ensures ok ==> db.t == InsertRows(old(db.t), NextID(old(db.t).messages), Rows(msgs))
    ensures ok ==> ids == IDsFrom(NextID(old(db.t).messages), |msgs|)
    ensures db.reliable && Insertable(old(db.t), msgs) ==> ok
  {
    ids := [];
    ghost var t0 := db.t;
    var nextID := NextMessageID(db);
    var rows := Rows(msgs);
    var start := 0;
    while start < |msgs|
      invariant 0 <= start <= |msgs|
      invariant InsertedUpTo(t0, db.t, nextID, rows, start)
      invariant ids == IDsFrom(nextID, start)
    {
      var end := if start + MESSAGE_ROWS_PER_STMT < |msgs| then start + MESSAGE_ROWS_PER_STMT else |msgs|;
      ids := ids + IDsFrom(nextID + start, end - start);
      var done := InsertChunk(db, t0, nextID, rows, start, end);
      if !done {
        return false, [];
      }
      start := end;
    }
    assert rows[..start] == rows;
    ok := true;
  }

  /** The tables t are t0 with the first n rows inserted. */
  ghost predicate InsertedUpTo(t0: Tables, t: Tables, first: nat, rows: seq<MessageRow>, n: nat)
    requires n <= |rows|
  {
    CanInsert(t0, first, rows[..n]) && t == InsertRows(t0, first, rows[..n])
  }

  /** One chunk of the insert loop: 25 parameters for each row, of which older SQLite takes 999. */
  method InsertChunk(db: Db, ghost t0: Tables, first: nat, rows: seq<MessageRow>, start: nat, end: nat) returns (ok: bool)
    requires start <= end <= |rows| && 25 * (end - start) <= 999 && InsertedUpTo(t0, db.t, first, rows, start)
    modifies db
    ensures ok ==> InsertedUpTo(t0, db.t, first, rows, end)
    ensures db.reliable && CanInsert(t0, first, rows) ==> ok
  {
    ChunkStep(t0, first, rows, start, end);
    ok := ExecInsert(db, first + start, rows[start..end]);
  }

  /** A chunk in the middle of the rows, on top of the rows before it. */
  lemma ChunkStep(t: Tables, first: nat, rows: seq<MessageRow>, start: nat, end: nat)
    requires start <= end <= |rows| && CanInsert(t, first, rows[..start])
    ensures var u, b := InsertRows(t, first, rows[..start]), rows[start..end];
      && InsertRows(u, first + start, b) == InsertRows(t, first, rows[..end])
      && (CanInsert(u, first + start, b) <==> CanInsert(t, first, rows[..end]))
    ensures CanInsert(t, first, rows) ==> CanInsert(t, first, rows[..end])
  {
    InsertsCompose(t, first, rows[..start], rows[start..end]);
    assert rows[..start] + rows[start..end] == rows[..end];
    InsertsCompose(t, first, rows[..end], rows[end..]);
    assert rows[..end] + rows[end..] == rows;
  }

  /** Tool calls go in by chunks as well; their keys were resolved against rows of this transaction. */
  method InsertToolCallsTx(db: Db, calls: seq<ToolCallRow>) returns (ok: bool)
    modifies db
    ensures ok ==> db.t == old(db.t).(calls := old(db.t).calls + calls)
    ensures db.reliable ==> ok
  {
    var start := 0;
    while start < |calls|
      invariant 0 <= start <= |calls|
      invariant db.t == old(db.t).(calls := old(db.t).calls + calls[..start])
    {
      var end := if start + TOOL_CALL_ROWS_PER_STMT < |calls| then start + TOOL_CALL_ROWS_PER_STMT else |calls|;
      ok := db.Works();
      if !ok {
        return;
      }
      assert old(db.t).calls + calls[..start] + calls[start..end] == old(db.t).calls + calls[..end];
      db.t := db.t.(calls := db.t.calls + calls[start..end]);
      start := end;
    }
    assert calls[..start] == calls;
    ok := true;
  }

  /** Messages and their tool calls, inside an open transaction. */
  method InsertWithCallsTx(db: Db, msgs: seq<NewMessage>) returns (ok: bool)
    modifies db
    ensures ok ==> Insertable(old(db.t), msgs) && db.t == Inserted(old(db.t), msgs)
    ensures db.reliable && Insertable(old(db.t), msgs) ==> ok
  {
    ghost var t0 := db.t;
    var inserted, ids := InsertMessagesTx(db, msgs);
    if !inserted {
      return false;
    }
    InsertShape(t0, NextID(t0.messages), Rows(msgs));
    var toolCalls := ResolveToolCalls(msgs, ids);
    ok := InsertToolCallsTx(db, toolCalls);
  }

  method InsertMessages(db: Db, msgs: seq<NewMessage>) returns (ok: bool)
    modifies db
    ensures !ok ==> db.t == old(db.t)
    ensures ok ==> if msgs == [] then db.t == old(db.t)
                   else Insertable(old(db.t), msgs) && db.t == Inserted(old(db.t), msgs)
    ensures db.reliable && Insertable(old(db.t), msgs) ==> ok
  {
    if |msgs| == 0 {
      return true;
    }
    var saved := db.t;
    ok := InsertWithCallsTx(db, msgs);
    if !ok {
      db.t := saved;
    }
  }

  lemma InsertedKeepsSearch(t: Tables, msgs: seq<NewMessage>)
    requires SearchOK(t) && Insertable(t, msgs)
    ensures SearchOK(Inserted(t, msgs))
    ensures Searchable(t) ==> Searchable(Inserted(t, msgs))
  {
    InsertKeepsSearch(t, NextID(t.messages), Rows(msgs));
  }

  lemma InsertedKeepsSound(t: Tables, msgs: seq<NewMessage>)
    requires Sound(t) && Insertable(t, msgs)
    ensures Sound(Inserted(t, msgs))
  {
    var first := NextID(t.messages);
    var u, ids := InsertRows(t, first, Rows(msgs)), IDsFrom(first, |msgs|);
    InsertKeepsSound(t, first, Rows(msgs));
    InsertShape(t, first, Rows(msgs));
    forall k | 0 <= k < |msgs|
      ensures ids[k] in u.messages && u.messages[ids[k]].sessionID == msgs[k].row.sessionID
    {
      assert u.messages[first + k] == Rows(msgs)[k];
    }
    CallRowsFit(u.messages, msgs, ids);
    assert u.calls == t.calls;
    CallsKeepSound(u, CallRows(msgs, ids));
  }

  /** Calls of stored messages can be added. */
  lemma CallsKeepSound(t: Tables, more: seq<ToolCallRow>)
    requires Sound(t)
    requires forall c | c in more :: c.messageID in t.messages && t.messages[c.messageID].sessionID == c.sessionID
    ensures Sound(t.(calls := t.calls + more))
  {
  }

  lemma CallRowsFit(messages: map<nat, MessageRow>, msgs: seq<NewMessage>, ids: seq<nat>)
    requires |ids| == |msgs|
    requires forall k | 0 <= k < |msgs| :: ids[k] in messages && messages[ids[k]].sessionID == msgs[k].row.sessionID
    ensures forall c | c in CallRows(msgs, ids) :: c.messageID in messages && messages[c.messageID].sessionID == c.sessionID
  {
    CallRowsPointAtMessages(msgs, ids);
    forall c | c in CallRows(msgs, ids)
      ensures c.messageID in messages && messages[c.messageID].sessionID == c.sessionID
    {
      var i :| PointsAt(c, msgs, ids, i);
    }
  }

  // ------------------------------------------------------------------- deleting

  /** Deleting a session's messages with the per-row triggers, as the batch writer does. */
  function DeletedOneByOne(t: Tables, sid: string): Tables {
    DeleteRows(DeleteCallsOf(t, sid), IDsOf(t, sid))
  }

  /** Deleting them with one bulk index delete and the delete trigger out of the way. */
  function DeletedInBulk(t: Tables, sid: string): Tables {
    var u := DeleteCallsOf(t, sid);
    if u.index.None? then DeleteRows(u, IDsOf(u, sid))
    else
      var bulk := u.(index := Some(IndexRemove(u.index.value, Contents(RowsWhere(u.messages, IDsOf(u, sid))))),
                     triggers := u.triggers - {DeleteTrigger});
      var gone := DeleteRows(bulk, IDsOf(bulk, sid));
      gone.(triggers := gone.triggers + {DeleteTrigger})
  }

  /** The trigger swap is only an optimisation: it leaves exactly what the per-row path leaves. */
  lemma BulkDeleteRefines(t: Tables, sid: string)
    requires DeleteTrigger in t.triggers || t.index.None?
    ensures DeletedInBulk(t, sid) == DeletedOneByOne(t, sid)
  {
    assert IDsOf(DeleteCallsOf(t, sid), sid) == IDsOf(t, sid);
    if t.index.Some? {
      assert t.triggers - {DeleteTrigger} + {DeleteTrigger} == t.triggers;
    }
  }

  lemma DeletedKeeps(t: Tables, sid: string)
    requires Sound(t)
    ensures Sound(DeletedOneByOne(t, sid))
    ensures SearchOK(t) ==> SearchOK(DeletedOneByOne(t, sid))
    ensures Searchable(t) ==> Searchable(DeletedOneByOne(t, sid))
  {
    var u := DeleteCallsOf(t, sid);
    assert Sound(u);
    DeleteKeepsSound(u, IDsOf(t, sid));
    if SearchOK(u) {
      DeleteKeepsSearch(u, IDsOf(t, sid));
    }
  }

  // ----------------------------------------------------------------------- pins

  datatype SavedPin = SavedPin(sourceUUID: string, ordinal: int, note: string)

  function SavedPinOf(t: Tables, p: PinRow): SavedPin {
    SavedPin(if p.messageID in t.messages then t.messages[p.messageID].sourceUUID else "", p.ordinal, p.note)
  }

  /** The pins of a session, with the source uuid of the message each sits on. */
  ghost function SavedPins(t: Tables, sid: string, pins: seq<PinRow>): seq<SavedPin> {
    if pins == [] then []
    else
      var n := |pins| - 1;
      SavedPins(t, sid, pins[..n]) + if pins[n].sessionID == sid then [SavedPinOf(t, pins[n])] else []
  }

  method SavePinsTx(db: Db, sid: string) returns (ok: bool, saved: seq<SavedPin>)
    ensures ok ==> saved == SavedPins(db.t, sid, db.t.pins)
    ensures db.reliable ==> ok
  {
    saved := [];
    ok := db.Works();
    if !ok {
      return;
    }
    var pins := db.t.pins;
    for i := 0 to |pins|
      invariant saved == SavedPins(db.t, sid, pins[..i])
    {
      assert pins[..i + 1][..i] == pins[..i];
      if pins[i].sessionID == sid {
        saved := saved + [SavedPinOf(db.t, pins[i])];
      }
    }
    assert pins[..|pins|] == pins;
  }

  function WithUUID(t: Tables, sid: string, uuid: string): set<nat> {
    set id | id in t.messages && t.messages[id].sessionID == sid && t.messages[id].sourceUUID == uuid
  }

  function WithOrdinal(t: Tables, sid: string, ordinal: int): set<nat> {
    set id | id in t.messages && t.messages[id].sessionID == sid && t.messages[id].ordinal == ordinal
  }

  predicate Pinned(pins: seq<PinRow>, sid: string, id: nat) {
    exists i | 0 <= i < |pins| :: pins[i].sessionID == sid && pins[i].messageID == id
  }

  predicate IsSmallest(ids: set<nat>, m: nat) {
    m in ids && forall x | x in ids :: m <= x
  }

  function Smallest(ids: set<nat>): (m: nat)
    requires ids != {}
    ensures IsSmallest(ids, m)
  {
    SmallestExists(ids);
    var m :| IsSmallest(ids, m);
    m
  }

  lemma {:induction false} SmallestExists(ids: set<nat>)
    requires ids != {}
    ensures exists m :: IsSmallest(ids, m)
  {
    var a :| a in ids;
    var rest := ids - {a};
    assert forall x | x in ids :: x == a || x in rest;
    if rest == {} {
      assert IsSmallest(ids, a);
    } else {
      SmallestExists(rest);
      var b :| IsSmallest(rest, b);
      assert IsSmallest(ids, if a < b then a else b);
    }
  }

  /** INSERT OR IGNORE of a pin on every selected message, in row order. */
  function PinAll(t: Tables, sid: string, note: string, ids: set<nat>): (u: Tables)
    requires ids <= t.messages.Keys
    ensures u == t.(pins := u.pins)
    decreases ids
  {
    if ids == {} then t
    else
      var id := Smallest(ids);
      var next := if Pinned(t.pins, sid, id) then t
                  else t.(pins := t.pins + [PinRow(sid, id, t.messages[id].ordinal, note)]);
      PinAll(next, sid, note, ids - {id})
  }

  /** By source uuid if that adds a pin, by ordinal otherwise. */
  function RestoredPin(t: Tables, sid: string, sp: SavedPin): (u: Tables)
    ensures u == t.(pins := u.pins)
  {
    var byUUID := if sp.sourceUUID != "" then PinAll(t, sid, sp.note, WithUUID(t, sid, sp.sourceUUID)) else t;
    if |byUUID.pins| > |t.pins| then byUUID else PinAll(t, sid, sp.note, WithOrdinal(t, sid, sp.ordinal))
  }

  ghost function RestoredPins(t: Tables, sid: string, saved: seq<SavedPin>): (u: Tables)
    ensures u == t.(pins := u.pins)
  {
    if saved == [] then t else RestoredPin(RestoredPins(t, sid, saved[..|saved| - 1]), sid, saved[|saved| - 1])
  }

  method RestorePinsTx(db: Db, sid: string, saved: seq<SavedPin>) returns (ok: bool)
    modifies db
    ensures ok ==> db.t == RestoredPins(old(db.t), sid, saved)
    ensures db.reliable ==> ok
  {
    for i := 0 to |saved|
      invariant db.t == RestoredPins(old(db.t), sid, saved[..i])
    {
      assert saved[..i + 1][..i] == saved[..i];
      var sp := saved[i];
      var inserted := 0;
      var before := db.t;
      if sp.sourceUUID != "" {
        ok := db.Works();
        if !ok {
          return;
        }
        db.t := PinAll(before, sid, sp.note, WithUUID(before, sid, sp.sourceUUID));
        inserted := |db.t.pins| - |before.pins|;
      }
      PinAllGrows(before, sid, sp.note, WithUUID(before, sid, sp.sourceUUID));
      if inserted > 0 {
        continue;
      }
      ok := db.Works();
      if !ok {
        return;
      }
      db.t := PinAll(db.t, sid, sp.note, WithOrdinal(db.t, sid, sp.ordinal));
    }
    assert saved[..|saved|] == saved;
    ok := true;
  }

  lemma {:induction false} PinAllGrows(t: Tables, sid: string, note: string, ids: set<nat>)
    requires ids <= t.messages.Keys
    ensures var u := PinAll(t, sid, note, ids);
      && t.pins <= u.pins && (|u.pins| == |t.pins| ==> u == t)
      && (forall id | id in ids :: Pinned(u.pins, sid, id))
      && (forall k | |t.pins| <= k < |u.pins| ::
            u.pins[k].sessionID == sid && u.pins[k].messageID in ids && u.pins[k].note == note)
    decreases ids
  {
    if ids != {} {
      var id := Smallest(ids);
      var pin := PinRow(sid, id, t.messages[id].ordinal, note);
      var next := if Pinned(t.pins, sid, id) then t else t.(pins := t.pins + [pin]);
      assert Pinned(next.pins, sid, id) by {
        if !Pinned(t.pins, sid, id) {
          assert next.pins[|t.pins|] == pin;
        }
      }
      PinAllGrows(next, sid, note, ids - {id});
      StaysPinned(next.pins, PinAll(t, sid, note, ids).pins, sid, id);
    }
  }

  lemma StaysPinned(a: seq<PinRow>, b: seq<PinRow>, sid: string, id: nat)
    requires a <= b && Pinned(a, sid, id)
    ensures Pinned(b, sid, id)
  {
    var i :| 0 <= i < |a| && a[i].sessionID == sid && a[i].messageID == id;
    assert b[i] == a[i];
  }

  lemma PinAllKeepsSound(t: Tables, sid: string, note: string, ids: set<nat>)
    requires Sound(t) && forall id | id in ids :: id in t.messages && t.messages[id].sessionID == sid
    ensures Sound(PinAll(t, sid, note, ids))
    decreases ids
  {
    if ids != {} {
      var id := Smallest(ids);
      var pin := PinRow(sid, id, t.messages[id].ordinal, note);
      if !Pinned(t.pins, sid, id) {
        forall q | q in t.pins
          ensures !SamePin(pin, q)
        {
          var i :| 0 <= i < |t.pins| && t.pins[i] == q;
        }
        UniquePinsSnoc(t.pins, pin);
        PinAllKeepsSound(t.(pins := t.pins + [pin]), sid, note, ids - {id});
      } else {
        PinAllKeepsSound(t, sid, note, ids - {id});
      }
    }
  }

  lemma {:induction false} RestoredPinsKeepSound(t: Tables, sid: string, saved: seq<SavedPin>)
    requires Sound(t)
    ensures Sound(RestoredPins(t, sid, saved))
  {
    if saved != [] {
      var n := |saved| - 1;
      RestoredPinsKeepSound(t, sid, saved[..n]);
      var u, sp := RestoredPins(t, sid, saved[..n]), saved[n];
      if sp.sourceUUID != "" {
        PinAllKeepsSound(u, sid, sp.note, WithUUID(u, sid, sp.sourceUUID));
      }
      PinAllKeepsSound(u, sid, sp.note, WithOrdinal(u, sid, sp.ordinal));
    }
  }

  /** The messages a saved pin belongs on: those with its source uuid, or else those at its ordinal. */
  ghost function PinTargets(t: Tables, sid: string, sp: SavedPin): set<nat> {
    if sp.sourceUUID != "" && WithUUID(t, sid, sp.sourceUUID) != {} then WithUUID(t, sid, sp.sourceUUID)
    else WithOrdinal(t, sid, sp.ordinal)
  }

  lemma RestoredPinLands(t: Tables, sid: string, sp: SavedPin)
    ensures t.pins <= RestoredPin(t, sid, sp).pins
    ensures forall id | id in PinTargets(t, sid, sp) :: Pinned(RestoredPin(t, sid, sp).pins, sid, id)
  {
    var byUUID := WithUUID(t, sid, sp.sourceUUID);
    PinAllGrows(t, sid, sp.note, byUUID);
    PinAllGrows(t, sid, sp.note, WithOrdinal(t, sid, sp.ordinal));
    if sp.sourceUUID != "" && byUUID != {} {
      forall id | id in byUUID
        ensures Pinned(RestoredPin(t, sid, sp).pins, sid, id)
      {
        if |PinAll(t, sid, sp.note, byUUID).pins| == |t.pins| {
          StaysPinned(t.pins, RestoredPin(t, sid, sp).pins, sid, id);
        }
      }
    }
  }

  /** No pin is lost while its message is still there, by uuid or by place. */
  lemma {:induction false} PinsLand(t: Tables, sid: string, saved: seq<SavedPin>, k: nat)
    requires k < |saved|
    ensures t.pins <= RestoredPins(t, sid, saved).pins
    ensures forall id | id in PinTargets(t, sid, saved[k]) :: Pinned(RestoredPins(t, sid, saved).pins, sid, id)
    decreases |saved|
  {
    var n := |saved| - 1;
    var u := RestoredPins(t, sid, saved[..n]);
    RestoredPinLands(u, sid, saved[n]);
    if n > 0 {
      PinsLand(t, sid, saved[..n], if k < n then k else 0);
    }
    if k < n {
      AllStayPinned(u.pins, RestoredPins(t, sid, saved).pins, sid, PinTargets(t, sid, saved[k]));
    }
  }

  lemma AllStayPinned(a: seq<PinRow>, b: seq<PinRow>, sid: string, ids: set<nat>)
    requires a <= b && forall id | id in ids :: Pinned(a, sid, id)
    ensures forall id | id in ids :: Pinned(b, sid, id)
  {
    forall id | id in ids
      ensures Pinned(b, sid, id)
    {
      StaysPinned(a, b, sid, id);
    }
  }

  // ------------------------------------------------------------------ replacing

  ghost function WithMessages(t: Tables, msgs: seq<NewMessage>): Tables {
    if msgs == [] then t else Inserted(t, msgs)
  }

  /** The session's messages replaced, its pins carried over. */
  ghost function Replaced(t: Tables, sid: string, msgs: seq<NewMessage>): Tables {
    RestoredPins(WithMessages(DeletedInBulk(t, sid), msgs), sid, SavedPins(t, sid, t.pins))
  }

  ghost predicate Replaceable(t: Tables, sid: string, msgs: seq<NewMessage>) {
    msgs != [] ==> Insertable(DeletedInBulk(t, sid), msgs)
  }

  /** Clears a session's messages inside a transaction, with the delete trigger swapped out. */
  method ClearMessagesTx(db: Db, sid: string) returns (ok: bool)
    modifies db
    ensures ok ==> db.t == DeletedInBulk(old(db.t), sid)
    ensures db.reliable ==> ok
  {
    ok := db.Works();
    if !ok {
      return;
    }
    db.t := DeleteCallsOf(db.t, sid);
    var hasFTS := db.t.index.Some?;
    if hasFTS {
      ok := db.Works();
      if !ok {
        return;
      }
      db.t := db.t.(index := Some(IndexRemove(db.t.index.value, Contents(RowsWhere(db.t.messages, IDsOf(db.t, sid))))));
      ok := db.Works();
      if !ok {
        return;
      }
      db.t := db.t.(triggers := db.t.triggers - {DeleteTrigger});
    }
    ok := db.Works();
    if !ok {
      return;
    }
    db.t := DeleteRows(db.t, IDsOf(db.t, sid));
    if hasFTS {
      ok := db.Works();
      if !ok {
        return;
      }
      db.t := db.t.(triggers := db.t.triggers + {DeleteTrigger});
    }
  }

  method ReplaceSessionMessages(db: Db, sid: string, msgs: seq<NewMessage>) returns (ok: bool)
    modifies db
    ensures !ok ==> db.t == old(db.t)
    ensures ok ==> Replaceable(old(db.t), sid, msgs) && db.t == Replaced(old(db.t), sid, msgs)
    ensures db.reliable && Replaceable(old(db.t), sid, msgs) ==> ok
  {
    var saved := db.t;
    ok := ReplaceTx(db, sid, msgs);
    if !ok {
      db.t := saved;
    }
  }

  method ReplaceTx(db: Db, sid: string, msgs: seq<NewMessage>) returns (ok: bool)
    modifies db
    ensures ok ==> Replaceable(old(db.t), sid, msgs) && db.t == Replaced(old(db.t), sid, msgs)
    ensures db.reliable && Replaceable(old(db.t), sid, msgs) ==> ok
  {
    var savedOK, pins := SavePinsTx(db, sid);
    if !savedOK {
      return false;
    }
    ok := ClearMessagesTx(db, sid);
    if !ok {
      return;
    }
    if |msgs| > 0 {
      ok := InsertWithCallsTx(db, msgs);
      if !ok {
        return;
      }
    }
    ok := RestorePinsTx(db, sid, pins);
  }

  /** Replacing messages keeps the index in step with the table, all triggers installed, and every key. */
  lemma ReplacedKeeps(t: Tables, sid: string, msgs: seq<NewMessage>)
    requires Sound(t) && SearchOK(t) && Replaceable(t, sid, msgs)
    ensures Sound(Replaced(t, sid, msgs)) && SearchOK(Replaced(t, sid, msgs))
    ensures Searchable(t) ==> Searchable(Replaced(t, sid, msgs))
  {
    BulkDeleteRefines(t, sid);
    DeletedKeeps(t, sid);
    var u := DeletedInBulk(t, sid);
    if msgs != [] {
      InsertedKeepsSearch(u, msgs);
      InsertedKeepsSound(u, msgs);
    }
    RestoredPinsKeepSound(WithMessages(u, msgs), sid, SavedPins(t, sid, t.pins));
  }

  ghost predicate AllOf(sid: string, msgs: seq<NewMessage>) {
    forall i | 0 <= i < |msgs| :: msgs[i].row.sessionID == sid
  }

  /** The session ends up with exactly the given rows, every other session with exactly what it had. */
  lemma ReplacedHolds(t: Tables, sid: string, msgs: seq<NewMessage>, row: MessageRow)
    requires Sound(t) && Replaceable(t, sid, msgs) && AllOf(sid, msgs)
    ensures row in Replaced(t, sid, msgs).messages.Values <==>
      (row in t.messages.Values && row.sessionID != sid) || row in Rows(msgs)
  {
    var u := DeletedInBulk(t, sid);
    assert u.messages == t.messages - IDsOf(t, sid);
    if row in u.messages.Values {
      var id :| id in u.messages && u.messages[id] == row;
      assert t.messages[id] == row;
    }
    if row in t.messages.Values && row.sessionID != sid {
      var id :| id in t.messages && t.messages[id] == row;
      assert u.messages[id] == row;
    }
    if msgs != [] {
      InsertedValues(u, NextID(u.messages), Rows(msgs), row);
    }
  }

  lemma {:induction false} InsertedValues(t: Tables, first: nat, rows: seq<MessageRow>, row: MessageRow)
    requires CanInsert(t, first, rows)
    ensures row in InsertRows(t, first, rows).messages.Values <==> row in t.messages.Values || row in rows
  {
    if rows != [] {
      var n := |rows| - 1;
      InsertedValues(t, first, rows[..n], row);
      UpdateValues(InsertRows(t, first, rows[..n]).messages, first + n, rows[n], row);
      assert rows == rows[..n] + [rows[n]];
    }
  }

  lemma UpdateValues(m: map<nat, MessageRow>, id: nat, r: MessageRow, row: MessageRow)
    requires id !in m
    ensures row in m[id := r].Values <==> row in m.Values || row == r
  {
    var u := m[id := r];
    if row in m.Values {
      var x :| x in m && m[x] == row;
      assert u[x] == row;
    }
    if row == r {
      assert u[id] == row;
    }
  }
}
