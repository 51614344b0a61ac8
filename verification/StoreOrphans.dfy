/** Carrying sessions over from an old database, with fresh message ids (internal/db/orphaned.go). */
module StoreOrphans {
  import opened Common
  import opened Store
  import opened StoreMessages
  import opened StoreLifecycle

  // ------------------------------------------------------------------ statements

  /** INSERT OR IGNORE of the chosen session rows, as they are in the source. */
  function WithSessionsOf(t: Tables, src: Tables, ids: set<string>): Tables {
    t.(sessions := (map id | id in src.sessions && id in ids :: src.sessions[id]) + t.sessions)
  }

  /** The order in which a select yields a set of rows: each once. */
  ghost predicate Lists(order: seq<nat>, ids: set<nat>) {
    && (forall k | 0 <= k < |order| :: order[k] in ids)
    && (forall id | id in ids :: id in order)
    && forall j, k | 0 <= j < k < |order| :: order[j] != order[k]
  }

  method Select(ids: set<nat>) returns (order: seq<nat>)
    ensures Lists(order, ids)
  {
    order := [];
    var todo := ids;
    while todo != {}
      invariant todo <= ids && Lists(order, ids - todo)
    {
      var id :| id in todo;
      order := order + [id];
      todo := todo - {id};
    }
    assert ids - todo == ids;
  }

  function RowsAt(messages: map<nat, MessageRow>, order: seq<nat>): seq<MessageRow>
    requires forall k | 0 <= k < |order| :: order[k] in messages
  {
    seq(|order|, k requires 0 <= k < |order| => messages[order[k]])
  }

  /** One copy of the call on every joined message. */
  function CallOnEach(c: ToolCallRow, targets: set<nat>): seq<ToolCallRow>
    decreases targets
  {
    if targets == {} then []
    else
      var id := Smallest(targets);
      [ToolCallRow(id, c.sessionID, c.call)] + CallOnEach(c, targets - {id})
  }

  /** INSERT INTO tool_calls SELECT ...: old call, joined to its old message, joined to the new one. */
  function CallCopies(t: Tables, src: Tables, ids: set<string>, calls: seq<ToolCallRow>): seq<ToolCallRow> {
    if calls == [] then []
    else
      var n := |calls| - 1;
      var c := calls[n];
      CallCopies(t, src, ids, calls[..n])
      + if c.sessionID in ids && c.messageID in src.messages
        then CallOnEach(c, WithOrdinal(t, src.messages[c.messageID].sessionID, src.messages[c.messageID].ordinal))
        else []
  }

  /** The rows a pin of the old message is copied to: first pass by source uuid, second by ordinal. */
  function PinJoin(t: Tables, was: MessageRow, byUUID: bool): set<nat> {
    if !byUUID then WithOrdinal(t, was.sessionID, was.ordinal)
    else if was.sourceUUID == "" then {}
    else WithUUID(t, was.sessionID, was.sourceUUID)
  }

  /** INSERT OR IGNORE INTO pinned_messages SELECT ...: one of the two passes. */
  function PinCopies(t: Tables, src: Tables, ids: set<string>, pins: seq<PinRow>, byUUID: bool): (u: Tables)
    ensures u == t.(pins := u.pins)
  {
    if pins == [] then t
    else
      var n := |pins| - 1;
      var u, p := PinCopies(t, src, ids, pins[..n], byUUID), pins[n];
      if p.sessionID in ids && p.messageID in src.messages
      then PinAll(u, p.sessionID, p.note, PinJoin(u, src.messages[p.messageID], byUUID))
      else u
  }

  // -------------------------------------------------------------------- the copy

  /** The tables with the chosen sessions, and their messages in the given order. */
  ghost function WithMessagesOf(t: Tables, src: Tables, ids: set<string>, order: seq<nat>): Tables
    requires Lists(order, IDsOfAll(src, ids))
  {
    InsertRows(WithSessionsOf(t, src, ids), NextID(t.messages), RowsAt(src.messages, order))
  }

  ghost predicate CanCopy(t: Tables, src: Tables, ids: set<string>, order: seq<nat>)
    requires Lists(order, IDsOfAll(src, ids))
  {
    CanInsert(WithSessionsOf(t, src, ids), NextID(t.messages), RowsAt(src.messages, order))
  }

  ghost function WithCallsOf(t: Tables, src: Tables, ids: set<string>, order: seq<nat>): Tables
    requires Lists(order, IDsOfAll(src, ids))
  {
    var u := WithMessagesOf(t, src, ids, order);
    u.(calls := u.calls + CallCopies(u, src, ids, src.calls))
  }

  ghost function Copied(t: Tables, src: Tables, ids: set<string>, order: seq<nat>): Tables
    requires Lists(order, IDsOfAll(src, ids))
  {
    PinCopies(PinCopies(WithCallsOf(t, src, ids, order), src, ids, src.pins, true), src, ids, src.pins, false)
  }

  /** The four copy steps inside an open transaction; the caller rolls back when one fails. */
  method CopySessionDataForIDs(db: Db, src: Tables, ids: set<string>) returns (ok: bool, ghost order: seq<nat>)
    modifies db
    ensures Lists(order, IDsOfAll(src, ids))
    ensures ok ==> CanCopy(old(db.t), src, ids, order) && db.t == Copied(old(db.t), src, ids, order)
    ensures db.reliable && CanCopy(old(db.t), src, ids, order) ==> ok
  {
    var rowsOrder := Select(IDsOfAll(src, ids));
    order := rowsOrder;
    ok := db.Works();
    if !ok {
      return;
    }
    db.t := WithSessionsOf(db.t, src, ids);
    var first := NextMessageID(db);
    ok := ExecInsert(db, first, RowsAt(src.messages, rowsOrder));
    if !ok {
      return;
    }
    ok := db.Works();
    if !ok {
      return;
    }
    db.t := db.t.(calls := db.t.calls + CallCopies(db.t, src, ids, src.calls));
    ok := db.Works();
    if !ok {
      return;
    }
    db.t := PinCopies(db.t, src, ids, src.pins, true);
    ok := db.Works();
    if ok {
      db.t := PinCopies(db.t, src, ids, src.pins, false);
    }
  }

  function OrphanedIDs(t: Tables, src: Tables): set<string> {
    set id | id in src.sessions && id !in t.sessions && id !in t.excluded
  }

  function OldTrashIDs(t: Tables, src: Tables): set<string> {
    set id | id in src.sessions && src.sessions[id].deleted && id !in t.excluded
  }

  /** What copying the ids leaves; nothing is written when there are none. */
  ghost predicate IsCopied(t: Tables, src: Tables, ids: set<string>, u: Tables) {
    if ids == {} then u == t
    else exists order :: IsCopiedIn(t, src, ids, order, u)
  }

  ghost predicate IsCopiedIn(t: Tables, src: Tables, ids: set<string>, order: seq<nat>, u: Tables) {
    Lists(order, IDsOfAll(src, ids)) && CanCopy(t, src, ids, order) && u == Copied(t, src, ids, order)
  }

  method CopyOrphanedDataFrom(db: Db, src: Tables) returns (ok: bool, count: nat)
    modifies db
    ensures !ok ==> db.t == old(db.t)
    ensures ok ==> IsCopied(old(db.t), src, OrphanedIDs(old(db.t), src), db.t) && count == |OrphanedIDs(old(db.t), src)|
    ensures db.reliable && Sound(old(db.t)) && Sound(src) ==> ok
  {
    count := 0;
    ok := db.Works();
    if !ok {
      return;
    }
    var ids := OrphanedIDs(db.t, src);
    if ids == {} {
      return;
    }
    var saved := db.t;
    ghost var order;
    ok, order := CopySessionDataForIDs(db, src, ids);
    if Sound(saved) && Sound(src) {
      CanCopyIff(saved, src, ids, order);
      OrphansNeverClash(saved, src);
    }
    if ok {
      ok := db.Works();
    }
    if ok {
      assert IsCopiedIn(saved, src, ids, order, db.t);
      count := |ids|;
    } else {
      db.t := saved;
    }
  }

  /** What copying the trash leaves; when the probe for the mark fails, that is taken for an old database without trash. */
  ghost predicate TrashCopied(t: Tables, src: Tables, found: bool, u: Tables) {
    if found then IsCopied(t, src, OldTrashIDs(t, src), u) else u == t
  }

  method CopyTrashedDataFrom(db: Db, src: Tables) returns (ok: bool, count: nat, ghost found: bool)
    modifies db
    ensures !ok ==> db.t == old(db.t)
    ensures ok ==> TrashCopied(old(db.t), src, found, db.t)
    ensures ok ==> count == if found then |OldTrashIDs(old(db.t), src)| else 0
    ensures db.reliable ==> found
    ensures db.reliable && Sound(old(db.t)) && Sound(src) && NoKeyClash(old(db.t), src, OldTrashIDs(old(db.t), src)) ==> ok
  {
    count, found := 0, true;
    ok := db.Works();
    if !ok {
      return;
    }
    var probed := db.Works();
    found := probed;
    if !probed {
      return;
    }
    ok := db.Works();
    if !ok {
      return;
    }
    var ids := OldTrashIDs(db.t, src);
    if ids == {} {
      return;
    }
    var saved := db.t;
    ghost var order;
    ok, order := CopySessionDataForIDs(db, src, ids);
    if Sound(saved) && Sound(src) {
      CanCopyIff(saved, src, ids, order);
    }
    if ok {
      ok := db.Works();
    }
    if ok {
      assert IsCopiedIn(saved, src, ids, order, db.t);
      count := |ids|;
    } else {
      db.t := saved;
    }
  }

  function WithExcludedOf(t: Tables, src: Tables): Tables {
    t.(excluded := t.excluded + src.excluded)
  }

  method CopyExcludedSessionsFrom(db: Db, src: Tables, tableExists: bool) returns (ok: bool)
    modifies db
    ensures db.t == if ok && tableExists then WithExcludedOf(old(db.t), src) else old(db.t)
    ensures db.reliable ==> ok
  {
    ok := db.Works();
    if ok && tableExists {
      ok := db.Works();
      if ok {
        db.t := WithExcludedOf(db.t, src);
      }
    }
  }

  // ------------------------------------------------------- when the copy goes through

  /** No copied message meets a stored one at the same place of the same session. */
  ghost predicate NoKeyClash(t: Tables, src: Tables, ids: set<string>) {
    forall m, x | m in IDsOfAll(src, ids) && x in t.messages :: !SameKey(src.messages[m], t.messages[x])
  }

  lemma OrphansNeverClash(t: Tables, src: Tables)
    requires Sound(t)
    ensures NoKeyClash(t, src, OrphanedIDs(t, src))
  {
  }

  /** Rows with new keys of known sessions all fit. */
  lemma {:induction false} FreshRowsFit(t: Tables, first: nat, rows: seq<MessageRow>)
    requires forall id | id in t.messages :: id < first
    requires forall k | 0 <= k < |rows| :: rows[k].sessionID in t.sessions
    requires forall k, x | 0 <= k < |rows| && x in t.messages :: !SameKey(rows[k], t.messages[x])
    requires forall j, k | 0 <= j < k < |rows| :: !SameKey(rows[j], rows[k])
    ensures CanInsert(t, first, rows)
  {
    if rows != [] {
      var n := |rows| - 1;
      FreshRowsFit(t, first, rows[..n]);
      InsertShape(t, first, rows[..n]);
      var u := InsertRows(t, first, rows[..n]);
      forall x | x in u.messages
        ensures !SameKey(rows[n], u.messages[x])
      {
        if x !in t.messages {
          assert u.messages[first + (x - first)] == rows[..n][x - first];
        }
      }
    }
  }

  /** A row that meets a stored one cannot go in. */
  lemma {:induction false} ClashingRowFails(t: Tables, first: nat, rows: seq<MessageRow>, k: nat, x: nat)
    requires k < |rows| && x in t.messages && SameKey(rows[k], t.messages[x])
    ensures !CanInsert(t, first, rows)
  {
    var n := |rows| - 1;
    if k < n {
      ClashingRowFails(t, first, rows[..n], k, x);
    } else if CanInsert(t, first, rows) {
      InsertShape(t, first, rows[..n]);
      InsertKeepsOld(t, first, rows[..n], x);
    }
  }

  lemma {:induction false} InsertKeepsOld(t: Tables, first: nat, rows: seq<MessageRow>, x: nat)
    requires CanInsert(t, first, rows) && x in t.messages
    ensures x in InsertRows(t, first, rows).messages && InsertRows(t, first, rows).messages[x] == t.messages[x]
  {
    if rows != [] {
      InsertKeepsOld(t, first, rows[..|rows| - 1], x);
    }
  }

  /** The constraints let a copy through exactly when no stored message sits where a copied one goes. */
  lemma CanCopyIff(t: Tables, src: Tables, ids: set<string>, order: seq<nat>)
    requires Sound(t) && Sound(src) && Lists(order, IDsOfAll(src, ids))
    ensures CanCopy(t, src, ids, order) <==> NoKeyClash(t, src, ids)
  {
    var u, first, rows := WithSessionsOf(t, src, ids), NextID(t.messages), RowsAt(src.messages, order);
    if NoKeyClash(t, src, ids) {
      FreshRowsFit(u, first, rows);
    } else {
      var m, x :| m in IDsOfAll(src, ids) && x in t.messages && SameKey(src.messages[m], t.messages[x]);
      var k :| 0 <= k < |order| && order[k] == m;
      ClashingRowFails(u, first, rows, k, x);
    }
  }

  // ---------------------------------------------------------------- what it carries

  /** The new row id holds what the old one held, and it was not in use before. */
  ghost predicate IsCopyOf(t: Tables, src: Tables, u: Tables, m: nat, id: nat) {
    id !in t.messages && id in u.messages && m in src.messages && u.messages[id] == src.messages[m]
  }

  /** The k-th selected message sits under the k-th new id, and nothing else happened to the messages. */
  lemma MessagesCarried(t: Tables, src: Tables, ids: set<string>, order: seq<nat>)
    requires Lists(order, IDsOfAll(src, ids)) && CanCopy(t, src, ids, order)
    ensures var u, first := WithMessagesOf(t, src, ids, order), NextID(t.messages);
      && (forall k | 0 <= k < |order| :: IsCopyOf(t, src, u, order[k], first + k))
      && (forall id | id in u.messages && id !in t.messages :: first <= id < first + |order|)
      && (forall id | id in t.messages :: id in u.messages && u.messages[id] == t.messages[id])
      && u == t.(sessions := WithSessionsOf(t, src, ids).sessions, messages := u.messages, index := u.index)
  {
    var first, rows := NextID(t.messages), RowsAt(src.messages, order);
    InsertShape(WithSessionsOf(t, src, ids), first, rows);
    forall k | 0 <= k < |order|
      ensures IsCopyOf(t, src, WithMessagesOf(t, src, ids, order), order[k], first + k)
    {
      assert WithMessagesOf(t, src, ids, order).messages[first + k] == rows[k];
    }
  }

  lemma CopiedKeepsMessages(t: Tables, src: Tables, ids: set<string>, order: seq<nat>)
    requires Lists(order, IDsOfAll(src, ids))
    ensures Copied(t, src, ids, order) == WithCallsOf(t, src, ids, order).(pins := Copied(t, src, ids, order).pins)
  {
  }

  /** Every old message has one copy under a fresh id, and every new row is the copy of one old message. */
  lemma EveryMessageIsCopiedOnce(t: Tables, src: Tables, ids: set<string>, u: Tables)
    requires Sound(t) && Sound(src) && ids <= src.sessions.Keys && ids != {} && IsCopied(t, src, ids, u)
    ensures forall m | m in IDsOfAll(src, ids) :: exists id :: IsCopyOf(t, src, u, m, id)
    ensures forall m, i, j | IsCopyOf(t, src, u, m, i) && IsCopyOf(t, src, u, m, j) :: i == j
    ensures forall id | id in u.messages && id !in t.messages :: exists m :: m in IDsOfAll(src, ids) && IsCopyOf(t, src, u, m, id)
    ensures forall id | id in t.messages :: id in u.messages && u.messages[id] == t.messages[id]
  {
    var order :| IsCopiedIn(t, src, ids, order, u);
    CopiedRows(t, src, ids, order, u);
    EveryMessageHasACopy(t, src, ids, order, u);
    forall id | id in u.messages && id !in t.messages
      ensures exists m :: m in IDsOfAll(src, ids) && IsCopyOf(t, src, u, m, id)
    {
      var k := id - NextID(t.messages);
      assert IsCopyOf(t, src, u, order[k], NextID(t.messages) + k);
    }
    CopiesAreUnique(t, src, u);
  }

  lemma EveryMessageHasACopy(t: Tables, src: Tables, ids: set<string>, order: seq<nat>, u: Tables)
    requires Lists(order, IDsOfAll(src, ids))
    requires forall k | 0 <= k < |order| :: IsCopyOf(t, src, u, order[k], NextID(t.messages) + k)
    ensures forall m | m in IDsOfAll(src, ids) :: exists id :: IsCopyOf(t, src, u, m, id)
  {
    forall m | m in IDsOfAll(src, ids)
      ensures exists id :: IsCopyOf(t, src, u, m, id)
    {
      var k :| 0 <= k < |order| && order[k] == m;
      assert IsCopyOf(t, src, u, m, NextID(t.messages) + k);
    }
  }

  lemma CopiesAreUnique(t: Tables, src: Tables, u: Tables)
    requires UniqueOrdinals(u.messages)
    ensures forall m, i, j | IsCopyOf(t, src, u, m, i) && IsCopyOf(t, src, u, m, j) :: i == j
  {
    forall m, i, j | IsCopyOf(t, src, u, m, i) && IsCopyOf(t, src, u, m, j)
      ensures i == j
    {
      if i != j {
        assert SameKey(u.messages[i], u.messages[j]);
      }
    }
  }

  lemma CopiedRows(t: Tables, src: Tables, ids: set<string>, order: seq<nat>, u: Tables)
    requires Sound(t) && Sound(src) && IsCopiedIn(t, src, ids, order, u)
    ensures Sound(u)
    ensures forall k | 0 <= k < |order| :: IsCopyOf(t, src, u, order[k], NextID(t.messages) + k)
    ensures forall id | id in u.messages && id !in t.messages ::
      NextID(t.messages) <= id < NextID(t.messages) + |order|
    ensures forall id | id in t.messages :: id in u.messages && u.messages[id] == t.messages[id]
  {
    CopiedKeepsMessages(t, src, ids, order);
    MessagesCarried(t, src, ids, order);
    CopiedKeeps(t, src, ids, order);
    var v := WithMessagesOf(t, src, ids, order);
    assert u.messages == v.messages;
    forall k | 0 <= k < |order|
      ensures IsCopyOf(t, src, u, order[k], NextID(t.messages) + k)
    {
      assert IsCopyOf(t, src, v, order[k], NextID(t.messages) + k);
    }
  }

  function CallsAmong(calls: seq<ToolCallRow>, ids: set<string>): seq<ToolCallRow> {
    if calls == [] then []
    else
      var n := |calls| - 1;
      CallsAmong(calls[..n], ids) + if calls[n].sessionID in ids then [calls[n]] else []
  }

  /** The same call, on the new row of its old message. */
  ghost predicate CallCarried(t: Tables, src: Tables, u: Tables, was: ToolCallRow, now: ToolCallRow) {
    && now.call == was.call && now.sessionID == was.sessionID
    && IsCopyOf(t, src, u, was.messageID, now.messageID)
  }

  ghost predicate CallsCarried(t: Tables, src: Tables, u: Tables, was: seq<ToolCallRow>, now: seq<ToolCallRow>) {
    |was| == |now| && forall k | 0 <= k < |was| :: CallCarried(t, src, u, was[k], now[k])
  }

  lemma TheOneMatch(u: Tables, id: nat)
    requires UniqueOrdinals(u.messages) && id in u.messages
    ensures WithOrdinal(u, u.messages[id].sessionID, u.messages[id].ordinal) == {id}
  {
    forall x | x in WithOrdinal(u, u.messages[id].sessionID, u.messages[id].ordinal)
      ensures x == id
    {
      if x != id {
        assert SameKey(u.messages[x], u.messages[id]);
      }
    }
  }

  lemma {:induction false} CallCopiesAreCarried(t: Tables, src: Tables, ids: set<string>, u: Tables, calls: seq<ToolCallRow>)
    requires Sound(src) && UniqueOrdinals(u.messages)
    requires forall m | m in IDsOfAll(src, ids) :: exists id :: IsCopyOf(t, src, u, m, id)
    requires forall c | c in calls :: c in src.calls
    ensures CallsCarried(t, src, u, CallsAmong(calls, ids), CallCopies(u, src, ids, calls))
  {
    if calls != [] {
      var n := |calls| - 1;
      CallCopiesAreCarried(t, src, ids, u, calls[..n]);
      var c := calls[n];
      assert c in src.calls;
      if c.sessionID in ids {
        assert c.messageID in IDsOfAll(src, ids);
        var id :| IsCopyOf(t, src, u, c.messageID, id);
        TheOneMatch(u, id);
        assert Smallest({id}) == id;
        assert {id} - {id} == {};
        assert CallOnEach(c, {id}) == [ToolCallRow(id, c.sessionID, c.call)];
      }
    }
  }

  /** Old calls keep their place; each copied call points at the new row of its old message. */
  lemma CallsAreCarried(t: Tables, src: Tables, ids: set<string>, u: Tables)
    requires Sound(t) && Sound(src) && ids <= src.sessions.Keys && ids != {} && IsCopied(t, src, ids, u)
    ensures t.calls <= u.calls
    ensures CallsCarried(t, src, u, CallsAmong(src.calls, ids), u.calls[|t.calls|..])
  {
    EveryMessageIsCopiedOnce(t, src, ids, u);
    var order :| IsCopiedIn(t, src, ids, order, u);
    CopiedRows(t, src, ids, order, u);
    MessagesCarried(t, src, ids, order);
    CopiedKeepsMessages(t, src, ids, order);
    CallCopiesAreCarried(t, src, ids, u, src.calls);
    CallCopiesReadMessages(WithMessagesOf(t, src, ids, order), u, src, ids, src.calls);
    assert u.calls[|t.calls|..] == CallCopies(u, src, ids, src.calls);
  }

  lemma {:induction false} CallCopiesReadMessages(v: Tables, u: Tables, src: Tables, ids: set<string>, calls: seq<ToolCallRow>)
    requires v.messages == u.messages
    ensures CallCopies(v, src, ids, calls) == CallCopies(u, src, ids, calls)
  {
    if calls != [] {
      var c := calls[|calls| - 1];
      CallCopiesReadMessages(v, u, src, ids, calls[..|calls| - 1]);
      if c.messageID in src.messages {
        var m := src.messages[c.messageID];
        assert WithOrdinal(v, m.sessionID, m.ordinal) == WithOrdinal(u, m.sessionID, m.ordinal);
      }
    }
  }

  // ------------------------------------------------------------------------ pins

  /** Some old pin reaches the row. */
  ghost predicate PinReaches(u: Tables, src: Tables, ids: set<string>, pins: seq<PinRow>, byUUID: bool, sid: string, id: nat) {
    exists i | 0 <= i < |pins| :: PinHits(u, src, ids, pins[i], byUUID, sid, id)
  }

  ghost predicate PinHits(u: Tables, src: Tables, ids: set<string>, p: PinRow, byUUID: bool, sid: string, id: nat) {
    && p.sessionID in ids && p.sessionID == sid && p.messageID in src.messages
    && id in PinJoin(u, src.messages[p.messageID], byUUID)
  }

  lemma {:induction false} PinCopiesExactly(
    t: Tables, src: Tables, ids: set<string>, pins: seq<PinRow>, byUUID: bool, sid: string, id: nat)
    ensures t.pins <= PinCopies(t, src, ids, pins, byUUID).pins
    ensures Pinned(PinCopies(t, src, ids, pins, byUUID).pins, sid, id) <==>
      Pinned(t.pins, sid, id) || PinReaches(t, src, ids, pins, byUUID, sid, id)
  {
    if pins != [] {
      var n := |pins| - 1;
      PinCopiesExactly(t, src, ids, pins[..n], byUUID, sid, id);
      ReachesStep(t, src, ids, pins, byUUID, sid, id);
      var u, p := PinCopies(t, src, ids, pins[..n], byUUID), pins[n];
      if p.sessionID in ids && p.messageID in src.messages {
        var targets := PinJoin(u, src.messages[p.messageID], byUUID);
        assert targets == PinJoin(t, src.messages[p.messageID], byUUID);
        PinAllExactly(u, p.sessionID, p.note, targets, sid, id);
      }
    }
  }

  lemma ReachesStep(u: Tables, src: Tables, ids: set<string>, pins: seq<PinRow>, byUUID: bool, sid: string, id: nat)
    requires pins != []
    ensures PinReaches(u, src, ids, pins, byUUID, sid, id) <==>
      PinReaches(u, src, ids, pins[..|pins| - 1], byUUID, sid, id) || PinHits(u, src, ids, pins[|pins| - 1], byUUID, sid, id)
  {
    var front := pins[..|pins| - 1];
    if PinReaches(u, src, ids, front, byUUID, sid, id) {
      var i :| 0 <= i < |front| && PinHits(u, src, ids, front[i], byUUID, sid, id);
      assert pins[i] == front[i];
    }
    if PinReaches(u, src, ids, pins, byUUID, sid, id) {
      var i :| 0 <= i < |pins| && PinHits(u, src, ids, pins[i], byUUID, sid, id);
      if i < |front| {
        assert front[i] == pins[i];
      }
    }
  }

  lemma PinAllExactly(t: Tables, sid: string, note: string, targets: set<nat>, x: string, id: nat)
    requires targets <= t.messages.Keys
    ensures t.pins <= PinAll(t, sid, note, targets).pins
    ensures Pinned(PinAll(t, sid, note, targets).pins, x, id) <==> Pinned(t.pins, x, id) || (x == sid && id in targets)
  {
    PinAllGrows(t, sid, note, targets);
    var pins := PinAll(t, sid, note, targets).pins;
    if Pinned(t.pins, x, id) {
      StaysPinned(t.pins, pins, x, id);
    } else if Pinned(pins, x, id) {
      var i :| 0 <= i < |pins| && pins[i].sessionID == x && pins[i].messageID == id;
      assert i >= |t.pins| by {
        if i < |t.pins| {
          PrefixPin(t.pins, pins, i);
        }
      }
    }
  }

  lemma PrefixPin(a: seq<PinRow>, b: seq<PinRow>, i: nat)
    requires a <= b && i < |a|
    ensures Pinned(a, b[i].sessionID, b[i].messageID)
  {
    assert a[i] == b[i];
  }

  lemma {:induction false} PinCopiesKeepSound(t: Tables, src: Tables, ids: set<string>, pins: seq<PinRow>, byUUID: bool)
    requires Sound(t) && Sound(src) && forall p | p in pins :: p in src.pins
    ensures Sound(PinCopies(t, src, ids, pins, byUUID))
  {
    if pins != [] {
      var n := |pins| - 1;
      PinCopiesKeepSound(t, src, ids, pins[..n], byUUID);
      var u, p := PinCopies(t, src, ids, pins[..n], byUUID), pins[n];
      assert p in src.pins;
      if p.sessionID in ids {
        PinAllKeepsSound(u, p.sessionID, p.note, PinJoin(u, src.messages[p.messageID], byUUID));
      }
    }
  }

  /**
   * Which copies end up pinned, exactly: those whose old message was pinned, and those that share a
   * source uuid with a pinned message of the session.
   */
  ghost predicate WasPinned(src: Tables, m: nat)
    requires m in src.messages
  {
    exists i | 0 <= i < |src.pins| :: PinsSameMessage(src, src.pins[i], m)
  }

  ghost predicate PinsSameMessage(src: Tables, p: PinRow, m: nat)
    requires m in src.messages
  {
    && p.sessionID == src.messages[m].sessionID && p.messageID in src.messages
    && src.messages[p.messageID].sessionID == src.messages[m].sessionID
    && (p.messageID == m
        || (src.messages[m].sourceUUID != "" && src.messages[p.messageID].sourceUUID == src.messages[m].sourceUUID))
  }

  lemma PinsAreCarriedExactly(t: Tables, src: Tables, ids: set<string>, u: Tables, m: nat, id: nat)
    requires Sound(t) && Sound(src) && ids <= src.sessions.Keys && IsCopied(t, src, ids, u)
    requires m in IDsOfAll(src, ids) && IsCopyOf(t, src, u, m, id)
    ensures t.pins <= u.pins
    ensures Pinned(u.pins, src.messages[m].sessionID, id) <==> WasPinned(src, m)
  {
    var order :| IsCopiedIn(t, src, ids, order, u);
    MessagesCarried(t, src, ids, order);
    CopiedKeepsMessages(t, src, ids, order);
    NewRowsAreUnpinned(t, src.messages[m].sessionID, id);
    TwoPassesExactly(WithCallsOf(t, src, ids, order), src, ids, m, id);
  }

  /** Two messages of one session with the same source uuid, the first of them pinned. */
  function Namesakes(row: SessionRow): Tables {
    Tables(map["s" := row], map[0 := MessageRow("s", 0, "", "x", ""), 1 := MessageRow("s", 1, "", "x", "")],
           [], [PinRow("s", 0, 0, "")], {}, None, {})
  }

  lemma NamesakesAreSound(row: SessionRow)
    ensures Sound(Namesakes(row)) && !Pinned(Namesakes(row).pins, "s", 1)
    ensures 1 in IDsOfAll(Namesakes(row), {"s"}) && WasPinned(Namesakes(row), 1)
  {
    assert PinsSameMessage(Namesakes(row), PinRow("s", 0, 0, ""), 1);
    assert Namesakes(row).pins[0] == PinRow("s", 0, 0, "");
  }

  /** The copy of the second one comes out pinned, although nobody pinned it. */
  lemma SurplusPinExample(t: Tables, row: SessionRow, u: Tables, id: nat)
    requires Sound(t) && IsCopied(t, Namesakes(row), {"s"}, u) && IsCopyOf(t, Namesakes(row), u, 1, id)
    ensures Pinned(u.pins, "s", id) && !Pinned(Namesakes(row).pins, "s", 1)
  {
    var src := Namesakes(row);
    NamesakesAreSound(row);
    assert {"s"} <= src.sessions.Keys && src.messages[1].sessionID == "s";
    CopyIsPinned(t, src, {"s"}, u, 1, id);
  }

  lemma CopyIsPinned(t: Tables, src: Tables, ids: set<string>, u: Tables, m: nat, id: nat)
    requires Sound(t) && Sound(src) && ids <= src.sessions.Keys && IsCopied(t, src, ids, u)
    requires m in IDsOfAll(src, ids) && IsCopyOf(t, src, u, m, id) && WasPinned(src, m)
    ensures Pinned(u.pins, src.messages[m].sessionID, id)
  {
    PinsAreCarriedExactly(t, src, ids, u, m, id);
  }

  /** Both passes over the old pins. */
  lemma TwoPassesExactly(v: Tables, src: Tables, ids: set<string>, m: nat, id: nat)
    requires Sound(src) && m in IDsOfAll(src, ids)
    requires id in v.messages && v.messages[id] == src.messages[m]
    ensures var u := PinCopies(PinCopies(v, src, ids, src.pins, true), src, ids, src.pins, false);
      && v.pins <= u.pins
      && (Pinned(u.pins, src.messages[m].sessionID, id) <==>
           Pinned(v.pins, src.messages[m].sessionID, id) || WasPinned(src, m))
  {
    var sid := src.messages[m].sessionID;
    PinCopiesExactly(v, src, ids, src.pins, true, sid, id);
    var w := PinCopies(v, src, ids, src.pins, true);
    PinCopiesExactly(w, src, ids, src.pins, false, sid, id);
    forall i | 0 <= i < |src.pins|
      ensures PinHits(v, src, ids, src.pins[i], true, sid, id) || PinHits(w, src, ids, src.pins[i], false, sid, id)
         <==> PinsSameMessage(src, src.pins[i], m)
    {
      HitMeansSame(src, v, ids, src.pins[i], m, id);
      HitMeansSame(src, w, ids, src.pins[i], m, id);
    }
    ReachedIffPinned(v, w, src, ids, m, id);
  }

  lemma ReachedIffPinned(v: Tables, w: Tables, src: Tables, ids: set<string>, m: nat, id: nat)
    requires m in src.messages
    requires forall i | 0 <= i < |src.pins| ::
      (PinHits(v, src, ids, src.pins[i], true, src.messages[m].sessionID, id)
        || PinHits(w, src, ids, src.pins[i], false, src.messages[m].sessionID, id))
      <==> PinsSameMessage(src, src.pins[i], m)
    ensures PinReaches(v, src, ids, src.pins, true, src.messages[m].sessionID, id)
         || PinReaches(w, src, ids, src.pins, false, src.messages[m].sessionID, id)
       <==> WasPinned(src, m)
  {
  }

  lemma NewRowsAreUnpinned(t: Tables, sid: string, id: nat)
    requires Sound(t) && id !in t.messages
    ensures !Pinned(t.pins, sid, id)
  {
    forall i | 0 <= i < |t.pins|
      ensures t.pins[i].messageID != id
    {
      assert t.pins[i] in t.pins;
    }
  }

  lemma HitMeansSame(src: Tables, v: Tables, ids: set<string>, p: PinRow, m: nat, id: nat)
    requires Sound(src) && m in IDsOfAll(src, ids) && p in src.pins
    requires id in v.messages && v.messages[id] == src.messages[m]
    ensures PinHits(v, src, ids, p, true, src.messages[m].sessionID, id) <==>
      p.sessionID == src.messages[m].sessionID && src.messages[m].sourceUUID != ""
      && src.messages[p.messageID].sourceUUID == src.messages[m].sourceUUID
    ensures PinHits(v, src, ids, p, false, src.messages[m].sessionID, id) <==>
      p.sessionID == src.messages[m].sessionID && p.messageID == m
  {
    if p.sessionID == src.messages[m].sessionID && src.messages[p.messageID].ordinal == src.messages[m].ordinal {
      assert SameKey(src.messages[p.messageID], src.messages[m]);
    }
  }

  // ----------------------------------------------------------------------- it keeps

  lemma WithMessagesKeeps(t: Tables, src: Tables, ids: set<string>, order: seq<nat>)
    requires Lists(order, IDsOfAll(src, ids)) && CanCopy(t, src, ids, order) && Sound(t)
    ensures Sound(WithMessagesOf(t, src, ids, order))
    ensures KeepsSearch(t, WithMessagesOf(t, src, ids, order))
  {
    var u := WithSessionsOf(t, src, ids);
    SessionRowsKeepSound(t, u);
    InsertKeepsSound(u, NextID(t.messages), RowsAt(src.messages, order));
    InsertKeepsSetup(u, NextID(t.messages), RowsAt(src.messages, order));
    if SearchOK(t) {
      InsertKeepsSearch(u, NextID(t.messages), RowsAt(src.messages, order));
    }
  }

  /** A copy keeps every key and the index in step. */
  lemma CopiedKeeps(t: Tables, src: Tables, ids: set<string>, order: seq<nat>)
    requires Lists(order, IDsOfAll(src, ids)) && CanCopy(t, src, ids, order) && Sound(t) && Sound(src)
    ensures Sound(Copied(t, src, ids, order))
    ensures KeepsSearch(t, Copied(t, src, ids, order))
  {
    WithMessagesKeeps(t, src, ids, order);
    MessagesCarried(t, src, ids, order);
    var u := WithMessagesOf(t, src, ids, order);
    EveryMessageHasACopy(t, src, ids, order, u);
    CallCopiesKeepKeys(t, src, ids, u);
    var v := WithCallsOf(t, src, ids, order);
    assert Sound(v);
    PinCopiesKeepSound(v, src, ids, src.pins, true);
    PinCopiesKeepSound(PinCopies(v, src, ids, src.pins, true), src, ids, src.pins, false);
  }

  lemma CallCopiesKeepKeys(t: Tables, src: Tables, ids: set<string>, u: Tables)
    requires Sound(src) && UniqueOrdinals(u.messages)
    requires forall m | m in IDsOfAll(src, ids) :: exists id :: IsCopyOf(t, src, u, m, id)
    ensures forall c | c in CallCopies(u, src, ids, src.calls) ::
      c.messageID in u.messages && u.messages[c.messageID].sessionID == c.sessionID
  {
    CallCopiesAreCarried(t, src, ids, u, src.calls);
    CallsAmongAre(src.calls, ids);
    var was, now := CallsAmong(src.calls, ids), CallCopies(u, src, ids, src.calls);
    forall c | c in now
      ensures c.messageID in u.messages && u.messages[c.messageID].sessionID == c.sessionID
    {
      var k :| 0 <= k < |now| && now[k] == c;
      assert CallCarried(t, src, u, was[k], now[k]);
      assert was[k] in src.calls;
    }
  }

  lemma {:induction false} CallsAmongAre(calls: seq<ToolCallRow>, ids: set<string>)
    ensures forall c | c in CallsAmong(calls, ids) :: c in calls && c.sessionID in ids
  {
    if calls != [] {
      CallsAmongAre(calls[..|calls| - 1], ids);
    }
  }

  lemma IsCopiedKeeps(t: Tables, src: Tables, ids: set<string>, u: Tables)
    requires Sound(t) && Sound(src) && IsCopied(t, src, ids, u)
    ensures Sound(u) && KeepsSearch(t, u)
    ensures u.excluded == t.excluded
    ensures u.sessions == WithSessionsOf(t, src, ids).sessions
  {
    if ids != {} {
      var order :| IsCopiedIn(t, src, ids, order, u);
      CopiedKeeps(t, src, ids, order);
      MessagesCarried(t, src, ids, order);
    }
  }

  /** After an orphan copy every source session is stored here or excluded, and what was here is unchanged. */
  lemma OrphanCopyCoversTheSource(t: Tables, src: Tables, u: Tables)
    requires Sound(t) && Sound(src) && IsCopied(t, src, OrphanedIDs(t, src), u)
    ensures forall id | id in src.sessions :: id in u.sessions || id in u.excluded
    ensures forall id | id in t.sessions :: id in u.sessions && u.sessions[id] == t.sessions[id]
    ensures Separated(t) ==> Separated(u)
  {
    IsCopiedKeeps(t, src, OrphanedIDs(t, src), u);
  }
}
