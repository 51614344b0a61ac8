/**
 * The session store as tables (internal/db/schema.sql, internal/db/db.go): what each SQL statement
 * does to sessions, messages, tool calls, pins, excluded ids and the full-text index, with the
 * keys, cascades and triggers that the schema declares.
 */
module Store {
  import opened Common

  /** parsed stands for every column that an upsert overwrites. */
  datatype SessionRow = SessionRow(
    parsed: string, displayName: Option<string>, deleted: bool, dataVersion: nat, signals: string)

  datatype MessageRow = MessageRow(sessionID: string, ordinal: int, content: string, sourceUUID: string, rest: string)

  datatype ToolCallRow = ToolCallRow(messageID: nat, sessionID: string, call: string)

  datatype PinRow = PinRow(sessionID: string, messageID: nat, ordinal: int, note: string)

  datatype Trigger = InsertTrigger | DeleteTrigger | UpdateTrigger

  /** The index holds the content it was fed per row id; damaged records a posting that did not match. */
  datatype Index = Index(entries: map<nat, string>, damaged: bool)

  datatype Tables = Tables(
    sessions: map<string, SessionRow>,
    messages: map<nat, MessageRow>,
    calls: seq<ToolCallRow>,
    pins: seq<PinRow>,
    excluded: set<string>,
    index: Option<Index>,
    triggers: set<Trigger>)

  const ALL_TRIGGERS: set<Trigger> := {InsertTrigger, DeleteTrigger, UpdateTrigger}

  // ------------------------------------------------------------------ the index

  function Contents(messages: map<nat, MessageRow>): map<nat, string> {
    map id | id in messages :: messages[id].content
  }

  /** Feeding a row to the index: a row id that is already there would be posted twice. */
  function IndexAdd(index: Index, id: nat, content: string): Index {
    Index(index.entries[id := content], index.damaged || id in index.entries)
  }

  /** The FTS5 'delete' command takes the old content on trust; it only undoes a matching posting. */
  function IndexRemove(index: Index, rows: map<nat, string>): Index {
    Index(index.entries - rows.Keys,
          index.damaged || exists id | id in rows :: id !in index.entries || index.entries[id] != rows[id])
  }

  /** Search is up: the index mirrors the messages and every trigger is installed. */
  predicate Searchable(t: Tables) {
    && t.triggers == ALL_TRIGGERS
    && t.index == Some(Index(Contents(t.messages), false))
  }

  /** Search is suspended: neither index nor triggers. */
  predicate Suspended(t: Tables) {
    t.triggers == {} && t.index == None
  }

  predicate SearchOK(t: Tables) { Searchable(t) || Suspended(t) }

  /** The same triggers installed, and an index or none on both sides. */
  ghost predicate SameSetup(t: Tables, u: Tables) {
    u.triggers == t.triggers && (u.index.Some? <==> t.index.Some?)
  }

  /** Search is neither gained nor lost: it stays up, or suspended, with the same setup. */
  ghost predicate KeepsSearch(t: Tables, u: Tables) {
    SameSetup(t, u) && (SearchOK(t) ==> SearchOK(u)) && (Searchable(t) ==> Searchable(u))
  }

  // -------------------------------------------------------------------- keys

  predicate SameKey(a: MessageRow, b: MessageRow) {
    a.sessionID == b.sessionID && a.ordinal == b.ordinal
  }

  /** UNIQUE(session_id, ordinal). */
  ghost predicate UniqueOrdinals(messages: map<nat, MessageRow>) {
    forall i, j | i in messages && j in messages && i != j :: !SameKey(messages[i], messages[j])
  }

  /** Foreign keys and unique keys hold, and dependent rows sit in the session of their message. */
  ghost predicate Sound(t: Tables) {
    && (forall id | id in t.messages :: t.messages[id].sessionID in t.sessions)
    && UniqueOrdinals(t.messages)
    && (forall c | c in t.calls :: c.messageID in t.messages && t.messages[c.messageID].sessionID == c.sessionID)
    && (forall p | p in t.pins :: p.messageID in t.messages && t.messages[p.messageID].sessionID == p.sessionID)
    && UniquePins(t.pins)
  }

  /** UNIQUE(session_id, message_id). */
  ghost predicate UniquePins(pins: seq<PinRow>) {
    forall i, j | 0 <= i < j < |pins| :: pins[i].sessionID != pins[j].sessionID || pins[i].messageID != pins[j].messageID
  }

  /** No session id is both stored and excluded. */
  ghost predicate Separated(t: Tables) {
    t.sessions.Keys !! t.excluded
  }

  // ------------------------------------------------------- statements: messages

  /** The constraints a new row must meet: primary key, foreign key, unique key. */
  predicate Fits(t: Tables, id: nat, row: MessageRow) {
    && id !in t.messages && row.sessionID in t.sessions
    && forall x | x in t.messages :: !SameKey(row, t.messages[x])
  }

  /** One row goes in and fires the insert trigger. */
  function InsertRow(t: Tables, id: nat, row: MessageRow): Tables {
    t.(messages := t.messages[id := row],
       index := if InsertTrigger in t.triggers && t.index.Some? then Some(IndexAdd(t.index.value, id, row.content))
                else t.index)
  }

  /** INSERT INTO messages with the ids first, first + 1, ...: row after row. */
  function InsertRows(t: Tables, first: nat, rows: seq<MessageRow>): Tables {
    if rows == [] then t
    else
      var n := |rows| - 1;
      InsertRow(InsertRows(t, first, rows[..n]), first + n, rows[n])
  }

  /** Every row fits when its turn comes; otherwise the whole statement fails. */
  predicate CanInsert(t: Tables, first: nat, rows: seq<MessageRow>) {
    if rows == [] then true
    else
      var n := |rows| - 1;
      CanInsert(t, first, rows[..n]) && Fits(InsertRows(t, first, rows[..n]), first + n, rows[n])
  }

  function CallsOutside(calls: seq<ToolCallRow>, gone: set<nat>): (out: seq<ToolCallRow>)
    ensures forall c {:trigger c in out} :: c in out <==> c in calls && c.messageID !in gone
  {
    if calls == [] then []
    else
      var before := CallsOutside(calls[..|calls| - 1], gone);
      var last := calls[|calls| - 1];
      if last.messageID in gone then before else before + [last]
  }

  function CallsOfOthers(calls: seq<ToolCallRow>, gone: set<string>): (out: seq<ToolCallRow>)
    ensures forall c {:trigger c in out} :: c in out <==> c in calls && c.sessionID !in gone
  {
    if calls == [] then []
    else
      var before := CallsOfOthers(calls[..|calls| - 1], gone);
      var last := calls[|calls| - 1];
      if last.sessionID in gone then before else before + [last]
  }

  function PinsOutside(pins: seq<PinRow>, gone: set<nat>): (out: seq<PinRow>)
    ensures forall p {:trigger p in out} :: p in out <==> p in pins && p.messageID !in gone
  {
    if pins == [] then []
    else
      var before := PinsOutside(pins[..|pins| - 1], gone);
      var last := pins[|pins| - 1];
      if last.messageID in gone then before else before + [last]
  }

  function PinsOfOthers(pins: seq<PinRow>, gone: set<string>): (out: seq<PinRow>)
    ensures forall p {:trigger p in out} :: p in out <==> p in pins && p.sessionID !in gone
  {
    if pins == [] then []
    else
      var before := PinsOfOthers(pins[..|pins| - 1], gone);
      var last := pins[|pins| - 1];
      if last.sessionID in gone then before else before + [last]
  }

  function RowsWhere(messages: map<nat, MessageRow>, gone: set<nat>): map<nat, MessageRow> {
    map id | id in messages && id in gone :: messages[id]
  }

  /** DELETE FROM messages for a set of ids: cascades to tool calls and pins, fires the delete trigger. */
  function DeleteRows(t: Tables, gone: set<nat>): Tables {
    t.(messages := t.messages - gone,
       calls := CallsOutside(t.calls, gone),
       pins := PinsOutside(t.pins, gone),
       index := if DeleteTrigger in t.triggers && t.index.Some?
                then Some(IndexRemove(t.index.value, Contents(RowsWhere(t.messages, gone)))) else t.index)
  }

  function IDsOf(t: Tables, sid: string): set<nat> {
    set id | id in t.messages && t.messages[id].sessionID == sid
  }

  function IDsOfAll(t: Tables, sids: set<string>): set<nat> {
    set id | id in t.messages && t.messages[id].sessionID in sids
  }

  /** DELETE FROM tool_calls WHERE session_id = ?. */
  function DeleteCallsOf(t: Tables, sid: string): Tables {
    t.(calls := CallsOfOthers(t.calls, {sid}))
  }

  // ------------------------------------------------------- statements: sessions

  /** DELETE FROM sessions for a set of ids, cascading to everything below them. */
  function DeleteSessionRows(t: Tables, gone: set<string>): Tables {
    var u := DeleteRows(t, IDsOfAll(t, gone));
    u.(sessions := t.sessions - gone,
       calls := CallsOfOthers(u.calls, gone),
       pins := PinsOfOthers(u.pins, gone))
  }

  datatype NewSession = NewSession(id: string, parsed: string, displayName: Option<string>)

  /** INSERT ... ON CONFLICT(id) DO UPDATE: a stored row keeps its name, trash mark, version and signals. */
  function UpsertRow(t: Tables, s: NewSession): Tables {
    t.(sessions := t.sessions[s.id :=
      if s.id in t.sessions then t.sessions[s.id].(parsed := s.parsed)
      else SessionRow(s.parsed, s.displayName, false, 0, "")])
  }

  // -------------------------------------------------- statements keep the index

  lemma {:induction false} InsertKeepsSearch(t: Tables, first: nat, rows: seq<MessageRow>)
    requires SearchOK(t) && CanInsert(t, first, rows)
    ensures SearchOK(InsertRows(t, first, rows))
    ensures Searchable(t) ==> Searchable(InsertRows(t, first, rows))
  {
    if rows != [] {
      var n := |rows| - 1;
      InsertKeepsSearch(t, first, rows[..n]);
      var u := InsertRows(t, first, rows[..n]);
      assert Contents(u.messages[first + n := rows[n]]) == Contents(u.messages)[first + n := rows[n].content];
    }
  }

  lemma DeleteKeepsSearch(t: Tables, gone: set<nat>)
    requires SearchOK(t)
    ensures SearchOK(DeleteRows(t, gone))
    ensures Searchable(t) ==> Searchable(DeleteRows(t, gone))
  {
    assert Contents(t.messages - gone) == Contents(t.messages) - Contents(RowsWhere(t.messages, gone)).Keys;
  }

  lemma SessionDeleteKeepsSearch(t: Tables, gone: set<string>)
    requires SearchOK(t)
    ensures SearchOK(DeleteSessionRows(t, gone))
    ensures Searchable(t) ==> Searchable(DeleteSessionRows(t, gone))
  {
    DeleteKeepsSearch(t, IDsOfAll(t, gone));
  }

  // ------------------------------------------------ statements keep the keys

  lemma {:induction false} InsertKeepsSound(t: Tables, first: nat, rows: seq<MessageRow>)
    requires Sound(t) && CanInsert(t, first, rows)
    ensures Sound(InsertRows(t, first, rows))
  {
    if rows != [] {
      var n := |rows| - 1;
      InsertKeepsSound(t, first, rows[..n]);
    }
  }

  /** The new rows sit under their ids, and nothing else changes. */
  lemma {:induction false} InsertShape(t: Tables, first: nat, rows: seq<MessageRow>)
    ensures var u := InsertRows(t, first, rows);
      && u == t.(messages := u.messages, index := u.index)
      && (forall id :: id in u.messages <==> id in t.messages || first <= id < first + |rows|)
      && (forall k | 0 <= k < |rows| :: u.messages[first + k] == rows[k])
      && (forall id | id in t.messages && !(first <= id < first + |rows|) :: u.messages[id] == t.messages[id])
  {
    if rows != [] {
      InsertShape(t, first, rows[..|rows| - 1]);
    }
  }

  ghost predicate SamePin(a: PinRow, b: PinRow) {
    a.sessionID == b.sessionID && a.messageID == b.messageID
  }

  ghost predicate NoneSame(p: PinRow, pins: seq<PinRow>) {
    forall q | q in pins :: !SamePin(p, q)
  }

  lemma UniquePinsSnoc(pins: seq<PinRow>, p: PinRow)
    requires UniquePins(pins) && NoneSame(p, pins)
    ensures UniquePins(pins + [p])
  {
    forall i | 0 <= i < |pins|
      ensures !SamePin(pins[i], p)
    {
      assert !SamePin(p, pins[i]);
    }
  }

  lemma LastPinIsUnique(pins: seq<PinRow>)
    requires pins != [] && UniquePins(pins)
    ensures UniquePins(pins[..|pins| - 1])
    ensures NoneSame(pins[|pins| - 1], pins[..|pins| - 1])
  {
  }

  lemma {:induction false} PinsOutsideUnique(pins: seq<PinRow>, gone: set<nat>)
    requires UniquePins(pins)
    ensures UniquePins(PinsOutside(pins, gone))
  {
    if pins != [] {
      var n := |pins| - 1;
      LastPinIsUnique(pins);
      PinsOutsideUnique(pins[..n], gone);
      UniquePinsSnoc(PinsOutside(pins[..n], gone), pins[n]);
    }
  }

  lemma {:induction false} PinsOfOthersUnique(pins: seq<PinRow>, gone: set<string>)
    requires UniquePins(pins)
    ensures UniquePins(PinsOfOthers(pins, gone))
  {
    if pins != [] {
      var n := |pins| - 1;
      LastPinIsUnique(pins);
      PinsOfOthersUnique(pins[..n], gone);
      UniquePinsSnoc(PinsOfOthers(pins[..n], gone), pins[n]);
    }
  }

  lemma DeleteKeepsSound(t: Tables, gone: set<nat>)
    requires Sound(t)
    ensures Sound(DeleteRows(t, gone))
  {
    PinsOutsideUnique(t.pins, gone);
  }

  lemma SessionDeleteKeepsSound(t: Tables, gone: set<string>)
    requires Sound(t)
    ensures Sound(DeleteSessionRows(t, gone))
  {
    var ids := IDsOfAll(t, gone);
    DeleteKeepsSound(t, ids);
    PinsOfOthersUnique(DeleteRows(t, ids).pins, gone);
  }

  /** Changing session rows only, and dropping none, keeps every key. */
  lemma SessionRowsKeepSound(t: Tables, u: Tables)
    requires Sound(t) && t.messages == u.messages && t.calls == u.calls && t.pins == u.pins
    requires t.sessions.Keys <= u.sessions.Keys
    ensures Sound(u)
  {
  }

  lemma {:induction false} InsertKeepsSetup(t: Tables, first: nat, rows: seq<MessageRow>)
    ensures SameSetup(t, InsertRows(t, first, rows))
  {
    if rows != [] {
      InsertKeepsSetup(t, first, rows[..|rows| - 1]);
    }
  }

  // ---------------------------------------------------------- chunked inserts

  /** Inserting in chunks is inserting everything at once: same rows, same ids, same index, same constraints. */
  lemma {:induction false} InsertsCompose(t: Tables, first: nat, a: seq<MessageRow>, b: seq<MessageRow>)
    ensures InsertRows(InsertRows(t, first, a), first + |a|, b) == InsertRows(t, first, a + b)
    ensures CanInsert(t, first, a + b) <==>
      CanInsert(t, first, a) && CanInsert(InsertRows(t, first, a), first + |a|, b)
  {
    if b == [] {
      assert a + b == a;
    } else {
      var n := |b| - 1;
      assert (a + b)[..|a + b| - 1] == a + b[..n];
      InsertsCompose(t, first, a, b[..n]);
    }
  }

  // ------------------------------------------------------------------ the handle

  /**
   * One open database.  A statement of an unreliable one may fail for reasons the tables do not
   * show; a reliable one fails only on a violated constraint.
   */
  class Db {
    var t: Tables
    const reliable: bool

    constructor (t: Tables, reliable: bool)
      ensures this.t == t && this.reliable == reliable
    {
      this.t, this.reliable := t, reliable;
    }

    method Works() returns (ok: bool)
      ensures reliable ==> ok
    {
      if reliable {
        ok := true;
      } else {
        ok := *;
      }
    }
  }
}
