/** When the store refuses messages, and what each operation on sessions leaves, in plain terms (internal/db/sessions.go, internal/importer/importer.go). */
module StoreOutcomes {
  import opened Common
  import opened Store
  import opened StoreMessages
  import opened StoreLifecycle
  import opened StoreImport
  import opened StoreCarried
  import Orphans = StoreOrphans

  // ----------------------------------------------------------- which messages fit

  /** Every row belongs to a stored session, and no two rows share session and ordinal, new or old. */
  ghost predicate Room(sessions: set<string>, stored: map<nat, MessageRow>, rows: seq<MessageRow>) {
    && (forall k | 0 <= k < |rows| :: rows[k].sessionID in sessions)
    && (forall k, id | 0 <= k < |rows| && id in stored :: rows[k].sessionID != stored[id].sessionID || rows[k].ordinal != stored[id].ordinal)
    && (forall j, k | 0 <= j < k < |rows| :: rows[j].sessionID != rows[k].sessionID || rows[j].ordinal != rows[k].ordinal)
  }

  /** The last row has room beside the others. */
  ghost predicate RoomFor(sessions: set<string>, stored: map<nat, MessageRow>, rows: seq<MessageRow>)
    requires rows != []
  {
    var row := rows[|rows| - 1];
    && row.sessionID in sessions
    && (forall id | id in stored :: row.sessionID != stored[id].sessionID || row.ordinal != stored[id].ordinal)
    && (forall j | 0 <= j < |rows| - 1 :: rows[j].sessionID != row.sessionID || rows[j].ordinal != row.ordinal)
  }

  lemma RoomStep(sessions: set<string>, stored: map<nat, MessageRow>, rows: seq<MessageRow>)
    requires rows != []
    ensures Room(sessions, stored, rows) <==> Room(sessions, stored, rows[..|rows| - 1]) && RoomFor(sessions, stored, rows)
  {
  }

  lemma FitsIff(t: Tables, first: nat, rows: seq<MessageRow>)
    requires rows != [] && forall id | id in t.messages :: id < first
    ensures var n := |rows| - 1;
      Fits(InsertRows(t, first, rows[..n]), first + n, rows[n]) <==> RoomFor(t.sessions.Keys, t.messages, rows)
  {
    var n := |rows| - 1;
    var u := InsertRows(t, first, rows[..n]);
    InsertShape(t, first, rows[..n]);
    assert forall j | 0 <= j < n :: first + j in u.messages && u.messages[first + j] == rows[j];
    if Fits(u, first + n, rows[n]) {
      forall j | 0 <= j < n
        ensures rows[j].sessionID != rows[n].sessionID || rows[j].ordinal != rows[n].ordinal
      {
        assert !SameKey(rows[n], u.messages[first + j]);
      }
      assert forall id | id in t.messages :: id in u.messages && !SameKey(rows[n], u.messages[id]);
    }
    if RoomFor(t.sessions.Keys, t.messages, rows) {
      forall id | id in u.messages
        ensures !SameKey(rows[n], u.messages[id])
      {
        if id !in t.messages {
          assert u.messages[id] == rows[id - first];
        }
      }
    }
  }

  /** An insert is refused for no other reason than an unknown session or an ordinal that is taken. */
  lemma {:induction false} CanInsertIff(t: Tables, first: nat, rows: seq<MessageRow>)
    requires forall id | id in t.messages :: id < first
    ensures CanInsert(t, first, rows) <==> Room(t.sessions.Keys, t.messages, rows)
  {
    if rows != [] {
      CanInsertIff(t, first, rows[..|rows| - 1]);
      FitsIff(t, first, rows);
      RoomStep(t.sessions.Keys, t.messages, rows);
    }
  }

  lemma InsertableIff(t: Tables, msgs: seq<NewMessage>)
    ensures Insertable(t, msgs) <==> Room(t.sessions.Keys, t.messages, Rows(msgs))
  {
    CanInsertIff(t, NextID(t.messages), Rows(msgs));
  }

  /** New messages for a session can replace its old ones unless two of them have the same ordinal. */
  lemma ReplaceableIff(t: Tables, sid: string, msgs: seq<NewMessage>)
    requires Sound(t) && sid in t.sessions && AllOf(sid, msgs)
    ensures Replaceable(t, sid, msgs) <==> forall j, k | 0 <= j < k < |msgs| :: msgs[j].row.ordinal != msgs[k].row.ordinal
  {
    var left, rows := DeletedInBulk(t, sid), Rows(msgs);
    DeletingClears(t, sid);
    InsertableIff(left, msgs);
    assert forall k | 0 <= k < |msgs| :: rows[k] == msgs[k].row;
  }

  // ----------------------------------------------------------------- session rows

  /** Only the row of this session may differ. */
  ghost predicate OnlyRowOf(t: Tables, id: string, u: Tables) {
    && u == t.(sessions := u.sessions)
    && u.sessions - {id} == t.sessions - {id}
  }

  /** A stored row gets the parsed columns and keeps everything else; a new one starts live, without version and signals. */
  lemma UpsertedRow(t: Tables, s: NewSession)
    ensures var u := UpsertRow(t, s);
      && OnlyRowOf(t, s.id, u) && s.id in u.sessions && u.sessions[s.id].parsed == s.parsed
      && (s.id in t.sessions ==>
        && u.sessions[s.id].displayName == t.sessions[s.id].displayName && u.sessions[s.id].deleted == t.sessions[s.id].deleted
        && u.sessions[s.id].dataVersion == t.sessions[s.id].dataVersion && u.sessions[s.id].signals == t.sessions[s.id].signals)
      && (s.id !in t.sessions ==>
        && u.sessions[s.id].displayName == s.displayName && !u.sessions[s.id].deleted
        && u.sessions[s.id].dataVersion == 0 && u.sessions[s.id].signals == "")
  {
  }

  /** With both guards read, exactly what is neither excluded nor in the trash is written. */
  lemma GuardedUpsert(t: Tables, s: NewSession)
    ensures AfterUpsert(t, s, BOTH_READ) ==
      if s.id in t.excluded || (s.id in t.sessions && t.sessions[s.id].deleted) then t else UpsertRow(t, s)
  {
  }

  /** Moving a live session to the trash marks its row, and restoring it takes back exactly that. */
  lemma TrashingIsUndone(t: Tables, id: string)
    requires id in t.sessions && !t.sessions[id].deleted
    ensures var u := SoftDeleted(t, id);
      && OnlyRowOf(t, id, u) && id in u.sessions && u.sessions[id].deleted && u != t
      && Restored(u, id) == t && SoftDeleted(u, id) == u && Restored(t, id) == t
  {
    assert t.sessions[id := t.sessions[id]] == t.sessions;
  }

  /** Gone are these sessions with all messages, calls and pins of theirs, and their ids are remembered; all else stays. */
  lemma PurgedLeaves(t: Tables, gone: set<string>)
    requires Sound(t)
    ensures var u := Purged(t, gone);
      && (forall id :: id in u.sessions <==> id in t.sessions && id !in gone)
      && (forall id | id in u.sessions :: u.sessions[id] == t.sessions[id])
      && (forall id :: id in u.excluded <==> id in t.excluded || id in gone)
      && (forall k {:trigger k in u.messages} :: k in u.messages <==> k in t.messages && t.messages[k].sessionID !in gone)
      && (forall k | k in u.messages :: u.messages[k] == t.messages[k])
      && (forall c :: c in u.calls <==> c in t.calls && c.sessionID !in gone)
      && (forall p :: p in u.pins <==> p in t.pins && p.sessionID !in gone)
  {
    PurgedIsPurged(t, gone);
  }

  // ----------------------------------------------------------------------- imports

  /** There is a live row of the session, whose message count and end time are those of the conversation. */
  predicate Known(t: Tables, c: Conversation, extent: string -> string) {
    IsLive(t, c.session.id) && extent(t.sessions[c.session.id].parsed) == extent(c.session.parsed)
  }

  predicate IsLive(t: Tables, id: string) {
    id in t.sessions && !t.sessions[id].deleted
  }

  /** The conversation's messages have taken the place of the session's. */
  ghost predicate TakesOver(t: Tables, c: Conversation, u: Tables) {
    exists left, first :: Cleared(t, c.session.id, left) && Holds(left, c.messages, first, u)
  }

  /**
   * A conversation counts as new when there was no live session of it and as updated when there was one of another
   * extent, and its messages are in place then; it is skipped without a change of messages when nothing is new about it.
   */
  lemma ConversationIs(t: Tables, c: Conversation, extent: string -> string, tries: bool, e: Event, u: Tables)
    requires Sound(t) && Converts(t, c, extent, tries, e, u)
    ensures e.status.New? ==> !IsLive(t, c.session.id) && TakesOver(t, c, u)
    ensures e.status.Updated? ==> IsLive(t, c.session.id) && !Known(t, c, extent) && TakesOver(t, c, u)
    ensures e.status.Skipped? ==> u.messages == t.messages && (Known(t, c, extent) || c.session.id in t.excluded)
    ensures e.status.New? || e.status.Updated? ==> u.sessions == UpsertRow(t, c.session).sessions && u.excluded == t.excluded
  {
    if Written(t, c, extent, tries, e, u) {
      var row := UpsertRow(t, c.session);
      var v: Tables :| Suspends(row, tries, e.attempt, v) && Replaces(t, v, c, e.status, u);
      SessionRowsKeepSound(t, row);
      if !e.status.Failed? {
        ReplacedHoldsCalls(v, c.session.id, c.messages);
        var left, first :| Cleared(v, c.session.id, left) && Holds(left, c.messages, first, u);
        assert Cleared(t, c.session.id, left);
      }
    }
  }

  /** The four drop statements run in order: the insert trigger goes first, the index last. */
  lemma DropOrder(t: Tables, n: nat)
    requires t.triggers == ALL_TRIGGERS && t.index.Some?
    ensures var u := DroppedUpTo(t, n);
      && u == t.(triggers := u.triggers, index := u.index)
      && (InsertTrigger in u.triggers <==> n < 1) && (DeleteTrigger in u.triggers <==> n < 2)
      && (UpdateTrigger in u.triggers <==> n < 3) && u.index == if n < 4 then t.index else None
  {
  }

  // ------------------------------------------------------------------------ copies

  /** A copied session has the row of the source; what was stored stays as it was. */
  lemma CopiedSessions(t: Tables, src: Tables, ids: set<string>, u: Tables, id: string)
    requires Sound(t) && Sound(src) && Orphans.IsCopied(t, src, ids, u)
    ensures id in u.sessions <==> id in t.sessions || (id in src.sessions && id in ids)
    ensures id in u.sessions ==> u.sessions[id] == if id in t.sessions then t.sessions[id] else src.sessions[id]
    ensures id in Orphans.OrphanedIDs(t, src) <==> id in src.sessions && id !in t.sessions && id !in t.excluded
    ensures id in Orphans.OldTrashIDs(t, src) <==> id in src.sessions && src.sessions[id].deleted && id !in t.excluded
  {
    Orphans.IsCopiedKeeps(t, src, ids, u);
  }

  /** The pin q has come from an old pin of the source, and carries its note to a message of its session. */
  ghost predicate CameFrom(q: PinRow, p: PinRow, src: Tables, ids: set<string>, messages: map<nat, MessageRow>) {
    && p in src.pins && p.sessionID in ids && q.sessionID == p.sessionID && q.note == p.note && q.messageID in messages
    && messages[q.messageID].sessionID == p.sessionID && q.ordinal == messages[q.messageID].ordinal
  }

  lemma {:induction false} CopiedPinRows(t: Tables, src: Tables, ids: set<string>, n: nat, byUUID: bool, q: PinRow)
    requires Sound(src) && n <= |src.pins|
    requires q in Orphans.PinCopies(t, src, ids, src.pins[..n], byUUID).pins && q !in t.pins
    ensures exists p :: CameFrom(q, p, src, ids, t.messages)
  {
    if n > 0 {
      var pins := src.pins[..n];
      assert pins[..n - 1] == src.pins[..n - 1];
      var u, p := Orphans.PinCopies(t, src, ids, src.pins[..n - 1], byUUID), src.pins[n - 1];
      if q in u.pins {
        CopiedPinRows(t, src, ids, n - 1, byUUID, q);
      } else {
        PinAllRows(u, p.sessionID, p.note, Orphans.PinJoin(u, src.messages[p.messageID], byUUID), q);
        assert CameFrom(q, p, src, ids, t.messages);
      }
    }
  }

  lemma CopiedPinsCameFrom(t: Tables, src: Tables, ids: set<string>, u: Tables, q: PinRow)
    requires Sound(src) && Orphans.IsCopied(t, src, ids, u) && q in u.pins && q !in t.pins
    ensures exists p :: CameFrom(q, p, src, ids, u.messages)
  {
    var order :| Orphans.IsCopiedIn(t, src, ids, order, u);
    var v := Orphans.WithCallsOf(t, src, ids, order);
    InsertShape(Orphans.WithSessionsOf(t, src, ids), NextID(t.messages), Orphans.RowsAt(src.messages, order));
    var w := Orphans.PinCopies(v, src, ids, src.pins, true);
    assert src.pins[..|src.pins|] == src.pins;
    if q in w.pins {
      CopiedPinRows(v, src, ids, |src.pins|, true, q);
    } else {
      CopiedPinRows(w, src, ids, |src.pins|, false, q);
    }
  }

  // ------------------------------------------------------------------------ search

  /** Search is up when every trigger is there and a sound index holds the content of each message, and nothing else. */
  lemma SearchableIff(t: Tables)
    ensures Searchable(t) <==>
      && InsertTrigger in t.triggers && DeleteTrigger in t.triggers && UpdateTrigger in t.triggers
      && t.index.Some? && !t.index.value.damaged && t.index.value.entries.Keys == t.messages.Keys
      && forall id | id in t.messages :: id in t.index.value.entries && t.index.value.entries[id] == t.messages[id].content
    ensures Suspended(t) <==> t.index.None? && InsertTrigger !in t.triggers && DeleteTrigger !in t.triggers && UpdateTrigger !in t.triggers
  {
    TriggersAreThree(t.triggers);
    if InsertTrigger !in t.triggers && DeleteTrigger !in t.triggers && UpdateTrigger !in t.triggers {
      assert t.triggers == {};
    }
    assert t.index.Some? && t.index.value.entries.Keys == t.messages.Keys
      && (forall id | id in t.messages :: id in t.index.value.entries && t.index.value.entries[id] == t.messages[id].content)
      ==> t.index.value.entries == Contents(t.messages);
  }

  /** The index stays sound exactly while no row is posted twice and every row is taken out as it was posted. */
  lemma PostingsMatchIff(index: Index, id: nat, content: string, rows: map<nat, string>)
    ensures !IndexAdd(index, id, content).damaged <==> !index.damaged && id !in index.entries
    ensures !IndexRemove(index, rows).damaged <==>
      !index.damaged && forall x | x in rows :: x in index.entries && index.entries[x] == rows[x]
    ensures index.damaged ==> IndexAdd(index, id, content).damaged && IndexRemove(index, rows).damaged
  {
  }
}
