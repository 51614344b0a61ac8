/**
 * Suspending full-text search during an import (internal/importer/importer.go) on top of the
 * drop and rebuild statements (internal/db/db.go).
 */
module StoreImport {
  import opened Common
  import opened Store
  import opened StoreMessages
  import opened StoreLifecycle

  // -------------------------------------------------------------- drop and rebuild

  /** After the first n of the four drop statements. */
  function DroppedUpTo(t: Tables, n: nat): Tables {
    t.(triggers := t.triggers
         - (if n >= 1 then {InsertTrigger} else {})
         - (if n >= 2 then {DeleteTrigger} else {})
         - (if n >= 3 then {UpdateTrigger} else {}),
       index := if n >= 4 then None else t.index)
  }

  method DropFTS(db: Db) returns (ok: bool, ghost done: nat)
    modifies db
    ensures done <= 4 && db.t == DroppedUpTo(old(db.t), done) && (ok <==> done == 4)
    ensures db.reliable ==> ok
  {
    ghost var t0 := db.t;
    for n := 0 to 4
      invariant db.t == DroppedUpTo(t0, n)
    {
      ok := db.Works();
      if !ok {
        done := n;
        return;
      }
      match n {
        case 0 => db.t := db.t.(triggers := db.t.triggers - {InsertTrigger});
        case 1 => db.t := db.t.(triggers := db.t.triggers - {DeleteTrigger});
        case 2 => db.t := db.t.(triggers := db.t.triggers - {UpdateTrigger});
        case _ => db.t := db.t.(index := None);
      }
    }
    ok, done := true, 4;
  }

  function Rebuilt(t: Tables): Tables {
    t.(triggers := ALL_TRIGGERS, index := Some(Index(Contents(t.messages), false)))
  }

  /** The schema statements leave what is there alone; the last statement refills the index. */
  method RebuildFTS(db: Db) returns (ok: bool)
    modifies db
    ensures ok ==> db.t == Rebuilt(old(db.t))
    ensures db.t == old(db.t).(triggers := db.t.triggers, index := db.t.index)
    ensures db.reliable ==> ok
  {
    ok := db.Works();
    if !ok {
      return;
    }
    db.t := db.t.(index := if db.t.index.None? then Some(Index(map[], false)) else db.t.index);
    var todo := [InsertTrigger, DeleteTrigger, UpdateTrigger];
    for i := 0 to |todo|
      invariant db.t == old(db.t).(triggers := db.t.triggers, index := db.t.index) && db.t.index.Some?
      invariant forall k | 0 <= k < i :: todo[k] in db.t.triggers
    {
      ok := db.Works();
      if !ok {
        return;
      }
      db.t := db.t.(triggers := db.t.triggers + {todo[i]});
    }
    assert todo[0] in db.t.triggers && todo[1] in db.t.triggers && todo[2] in db.t.triggers;
    TriggersAreThree(db.t.triggers);
    assert db.t.triggers == ALL_TRIGGERS;
    ok := db.Works();
    if ok {
      db.t := db.t.(index := Some(Index(Contents(db.t.messages), false)));
    }
  }

  /** Dropping everything suspends search cleanly; stopping part-way leaves neither state. */
  lemma DropSuspendsIff(t: Tables, n: nat)
    requires Searchable(t) && n <= 4
    ensures Suspended(DroppedUpTo(t, n)) <==> n == 4
    ensures SearchOK(DroppedUpTo(t, n)) <==> n == 0 || n == 4
  {
    if 1 <= n <= 3 {
      assert InsertTrigger in ALL_TRIGGERS && InsertTrigger !in DroppedUpTo(t, n).triggers;
    }
  }

  /** A rebuild brings search back from any state whatever, even a torn one. */
  lemma RebuildHeals(t: Tables)
    ensures Searchable(Rebuilt(t)) && (Sound(t) ==> Sound(Rebuilt(t))) && (Searchable(t) ==> Rebuilt(t) == t)
  {
  }

  // ------------------------------------------------------------------- lazy suspend

  /** Insert trigger gone while the index is still there: new messages go missing from search. */
  predicate Torn(t: Tables) {
    InsertTrigger !in t.triggers && t.index.Some?
  }

  class LazyFTS {
    const active: bool
    var dropped: bool

    constructor (hasFTS: bool)
      ensures active == hasFTS && !dropped
    {
      active, dropped := hasFTS, false;
    }

    /** Tries to drop the index unless that was done before; says how many drop statements ran. */
    method Suspend(db: Db) returns (ghost attempt: Option<nat>)
      modifies this`dropped, db
      ensures attempt.Some? <==> active && !old(dropped)
      ensures attempt.Some? ==> attempt.value <= 4 && db.t == DroppedUpTo(old(db.t), attempt.value)
      ensures attempt.None? ==> db.t == old(db.t)
      ensures dropped == (old(dropped) || attempt == Some(4))
      ensures attempt.Some? && db.reliable ==> attempt == Some(4)
    {
      attempt := None;
      if !active || dropped {
        return;
      }
      var ok;
      ghost var done;
      ok, done := DropFTS(db);
      attempt := Some(done);
      if ok {
        dropped := true;
      }
    }

    method Restore(db: Db) returns (ok: bool)
      modifies db
      ensures ok ==> db.t == if active && dropped then Rebuilt(old(db.t)) else old(db.t)
      ensures db.t == old(db.t).(triggers := db.t.triggers, index := db.t.index)
      ensures db.reliable ==> ok
    {
      ok := true;
      if active && dropped {
        ok := RebuildFTS(db);
      }
    }
  }

  lemma TriggersAreThree(s: set<Trigger>)
    ensures s <= ALL_TRIGGERS
  {
    forall x | x in s
      ensures x in ALL_TRIGGERS
    {
      match x {
        case InsertTrigger => assert x in ALL_TRIGGERS;
        case DeleteTrigger => assert x in ALL_TRIGGERS;
        case UpdateTrigger => assert x in ALL_TRIGGERS;
      }
    }
  }

  // -------------------------------------------------------- replacing while torn

  /** Replacing messages never brings the insert trigger back, nor drops the index. */
  lemma ReplacedKeepsTorn(t: Tables, sid: string, msgs: seq<NewMessage>)
    requires Torn(t)
    ensures Torn(Replaced(t, sid, msgs))
  {
    var u := DeletedInBulk(t, sid);
    if msgs != [] {
      InsertKeepsSetup(u, NextID(u.messages), Rows(msgs));
    }
  }

  /** The keys hold after a replace even while search is torn. */
  lemma ReplacedKeepsSound(t: Tables, sid: string, msgs: seq<NewMessage>)
    requires Sound(t) && Replaceable(t, sid, msgs)
    ensures Sound(Replaced(t, sid, msgs))
  {
    var u, v := DeletedInBulk(t, sid), DeletedOneByOne(t, sid);
    assert IDsOf(DeleteCallsOf(t, sid), sid) == IDsOf(t, sid);
    assert u.(triggers := v.triggers, index := v.index) == v;
    DeletedKeeps(t, sid);
    if msgs != [] {
      InsertedKeepsSound(u, msgs);
    }
    RestoredPinsKeepSound(WithMessages(u, msgs), sid, SavedPins(t, sid, t.pins));
  }

  lemma ReplacedKeepsSuspended(t: Tables, sid: string, msgs: seq<NewMessage>)
    requires Suspended(t)
    ensures Suspended(Replaced(t, sid, msgs))
  {
    var u := DeletedInBulk(t, sid);
    if msgs != [] {
      InsertKeepsSetup(u, NextID(u.messages), Rows(msgs));
    }
  }

  // ---------------------------------------------------------------------- the import

  datatype Conversation = Conversation(session: NewSession, messages: seq<NewMessage>)

  datatype Status = New | Updated | Skipped | Failed

  datatype ImportStats = ImportStats(imported: nat, updated: nat, skipped: nat, errors: nat)

  function Counted(s: ImportStats, status: Status): ImportStats {
    match status
    case New => s.(imported := s.imported + 1)
    case Updated => s.(updated := s.updated + 1)
    case Skipped => s.(skipped := s.skipped + 1)
    case Failed => s.(errors := s.errors + 1)
  }

  /** The stored session, unless it is in the trash. */
  function GetSession(t: Tables, id: string): Option<SessionRow> {
    if id in t.sessions && !t.sessions[id].deleted then Some(t.sessions[id]) else None
  }

  /**
   * What happened to one conversation: its status, which guards of its upsert could be read, and how far
   * an attempt to drop the index got.
   */
  datatype Event = Event(status: Status, guards: Guards, attempt: Option<nat>)

  /** The conversation was not written: refused, or a statement failed before. */
  ghost predicate Refused(t: Tables, c: Conversation, e: Event, u: Tables) {
    && u == t && e.attempt.None?
    && (e.status.Skipped? || e.status.Failed?)
    && (e.status.Skipped? ==> e.guards.excluded && c.session.id in t.excluded)
  }

  /** Its session row was written; the message count and the end time had not changed. */
  ghost predicate Unchanged(t: Tables, c: Conversation, extent: string -> string, e: Event, u: Tables) {
    && LetsPass(t, c.session.id, e.guards) && u == UpsertRow(t, c.session) && e.status.Skipped? && e.attempt.None?
    && var was := GetSession(t, c.session.id);
       was.Some? && extent(was.value.parsed) == extent(c.session.parsed)
  }

  /** The drop is tried when the index is in use and no earlier drop succeeded. */
  ghost predicate Suspends(t: Tables, tries: bool, attempt: Option<nat>, u: Tables) {
    if tries then attempt.Some? && attempt.value <= 4 && u == DroppedUpTo(t, attempt.value)
    else attempt.None? && u == t
  }

  /** The session row was written, the index suspended as far as that went, and the messages replaced or not. */
  ghost predicate Written(t: Tables, c: Conversation, extent: string -> string, tries: bool, e: Event, u: Tables) {
    && LetsPass(t, c.session.id, e.guards)
    && (GetSession(t, c.session.id).Some? ==> extent(t.sessions[c.session.id].parsed) != extent(c.session.parsed))
    && exists v: Tables :: Suspends(UpsertRow(t, c.session), tries, e.attempt, v) && Replaces(t, v, c, e.status, u)
  }

  ghost predicate Replaces(t: Tables, v: Tables, c: Conversation, status: Status, u: Tables) {
    if status.Failed? then u == v
    else
      && Replaceable(v, c.session.id, c.messages) && u == Replaced(v, c.session.id, c.messages)
      && status == if GetSession(t, c.session.id).None? then New else Updated
  }

  /** The new messages would violate a constraint. */
  ghost predicate Blocked(t: Tables, c: Conversation, tries: bool, e: Event) {
    exists v: Tables :: Suspends(UpsertRow(t, c.session), tries, e.attempt, v) && !Replaceable(v, c.session.id, c.messages)
  }

  /** One conversation; tries says whether the index would still have to be dropped. */
  ghost predicate Converts(t: Tables, c: Conversation, extent: string -> string, tries: bool, e: Event, u: Tables) {
    Refused(t, c, e, u) || Unchanged(t, c, extent, e, u) || Written(t, c, extent, tries, e, u)
  }

  /** Whether some attempt ran all four drop statements. */
  ghost predicate Dropped(events: seq<Event>) {
    exists i | 0 <= i < |events| :: events[i].attempt == Some(4)
  }

  ghost predicate IsAttempt(e: Event, ran: nat) {
    e.attempt == Some(ran)
  }

  /** No attempt ran any drop statement. */
  ghost predicate Untouched(events: seq<Event>) {
    forall i, n: nat | 0 <= i < |events| && IsAttempt(events[i], n) :: n == 0
  }

  /** Every attempt ran all four drop statements or none of them. */
  ghost predicate AllOrNothing(events: seq<Event>) {
    forall i, n: nat | 0 <= i < |events| && IsAttempt(events[i], n) :: n == 0 || n == 4
  }

  /** Every guard of every upsert could be read. */
  ghost predicate AllGuarded(events: seq<Event>) {
    forall i | 0 <= i < |events| :: events[i].guards == BOTH_READ
  }

  /** The states that the conversations took the tables through, with one event each; inUse says whether an index was found. */
  ghost predicate ImportRun(cs: seq<Conversation>, extent: string -> string, inUse: bool, events: seq<Event>, states: seq<Tables>) {
    && |events| == |cs| && |states| == |cs| + 1 && (inUse ==> states[0].index.Some?)
    && forall k {:trigger ConvertsAt(cs, extent, inUse, events, states, k)} | 0 <= k < |cs| :: ConvertsAt(cs, extent, inUse, events, states, k)
  }

  ghost predicate ConvertsAt(cs: seq<Conversation>, extent: string -> string, inUse: bool, events: seq<Event>, states: seq<Tables>, k: nat)
    requires |events| == |cs| && |states| == |cs| + 1 && k < |cs|
  {
    Converts(states[k], cs[k], extent, inUse && !Dropped(events[..k]), events[k], states[k + 1])
  }

  lemma ImportStep(cs: seq<Conversation>, extent: string -> string, inUse: bool, events: seq<Event>, states: seq<Tables>, c: Conversation, e: Event, u: Tables)
    requires ImportRun(cs, extent, inUse, events, states)
    requires Converts(states[|cs|], c, extent, inUse && !Dropped(events), e, u)
    ensures ImportRun(cs + [c], extent, inUse, events + [e], states + [u])
  {
    var cs', events', states' := cs + [c], events + [e], states + [u];
    forall k | 0 <= k < |cs'|
      ensures ConvertsAt(cs', extent, inUse, events', states', k)
    {
      if k < |cs| {
        assert ConvertsAt(cs, extent, inUse, events, states, k);
        assert events'[..k] == events[..k];
      } else {
        assert events'[..k] == events;
      }
    }
  }

  /** How many events have the status. */
  function CountOf(events: seq<Event>, status: Status): nat {
    if events == [] then 0
    else CountOf(events[..|events| - 1], status) + if events[|events| - 1].status == status then 1 else 0
  }

  ghost predicate Counts(stats: ImportStats, events: seq<Event>) {
    stats == ImportStats(CountOf(events, New), CountOf(events, Updated), CountOf(events, Skipped), CountOf(events, Failed))
  }

  /** Every conversation is counted under exactly one heading. */
  lemma {:induction false} CountsAddUp(stats: ImportStats, events: seq<Event>)
    requires Counts(stats, events)
    ensures stats.imported + stats.updated + stats.skipped + stats.errors == |events|
    decreases |events|
  {
    if events != [] {
      var front := events[..|events| - 1];
      CountsAddUp(ImportStats(CountOf(front, New), CountOf(front, Updated), CountOf(front, Skipped), CountOf(front, Failed)), front);
    }
  }

  /** extent picks the message count and the end time out of the parsed columns. */
  method UpsertConversation(db: Db, fts: LazyFTS, c: Conversation, extent: string -> string) returns (ghost e: Event, status: Status)
    modifies db, fts`dropped
    ensures e.status == status
    ensures Converts(old(db.t), c, extent, fts.active && !old(fts.dropped), e, db.t)
    ensures fts.dropped == (old(fts.dropped) || e.attempt == Some(4)) && (e.attempt.Some? ==> fts.active)
    ensures db.reliable && status.Failed? ==>
      Trashed(old(db.t), c.session.id) || Blocked(old(db.t), c, fts.active && !old(fts.dropped), e)
    ensures db.reliable && e.attempt.Some? ==> e.attempt == Some(4)
    ensures e.guards.excluded && c.session.id in old(db.t).excluded ==> status.Skipped? || status.Failed?
    ensures !LetsPass(old(db.t), c.session.id, e.guards) ==> db.t == old(db.t)
    ensures db.reliable ==> e.guards == BOTH_READ
  {
    ghost var t0 := db.t;
    e := Event(Failed, BOTH_READ, None);
    var got := db.Works();
    if !got {
      return e, Failed;
    }
    var existing := GetSession(db.t, c.session.id);
    var upsert;
    ghost var guards;
    upsert, guards := UpsertSession(db, c.session);
    if upsert.SessionExcluded? {
      return Event(Skipped, guards, None), Skipped;
    }
    if !upsert.Upserted? {
      return Event(Failed, guards, None), Failed;
    }
    if existing.Some? && extent(existing.value.parsed) == extent(c.session.parsed) {
      return Event(Skipped, guards, None), Skipped;
    }
    ghost var attempt := fts.Suspend(db);
    ghost var suspended := db.t;
    assert Suspends(UpsertRow(t0, c.session), fts.active && !old(fts.dropped), attempt, suspended);
    var ok := ReplaceSessionMessages(db, c.session.id, c.messages);
    status := if !ok then Failed else if existing.None? then New else Updated;
    e := Event(status, guards, attempt);
    assert Replaces(t0, suspended, c, status, db.t);
  }

  // --------------------------------------------------------------- what a run leaves

  lemma DropMoves(t: Tables, n: nat)
    requires n <= 4
    ensures Searchable(t) ==> SearchIs(DroppedUpTo(t, n), if n == 0 then Up else if n == 4 then Down else Broken)
    ensures Suspended(t) ==> Suspended(DroppedUpTo(t, n))
    ensures Torn(t) ==> SearchIs(DroppedUpTo(t, n), if n == 4 then Down else Broken)
  {
    TriggersAreThree(t.triggers);
    assert n >= 1 ==> InsertTrigger !in DroppedUpTo(t, n).triggers;
  }

  datatype Mode = Up | Down | Broken

  ghost predicate SearchIs(t: Tables, mode: Mode) {
    match mode
    case Up => Searchable(t)
    case Down => Suspended(t)
    case Broken => Torn(t)
  }

  lemma ReplacedKeepsMode(t: Tables, sid: string, msgs: seq<NewMessage>, mode: Mode)
    requires Sound(t) && Replaceable(t, sid, msgs) && SearchIs(t, mode)
    ensures Sound(Replaced(t, sid, msgs)) && SearchIs(Replaced(t, sid, msgs), mode)
  {
    ReplacedKeepsSound(t, sid, msgs);
    match mode
    case Up => ReplacedKeeps(t, sid, msgs);
    case Down => ReplacedKeepsSuspended(t, sid, msgs);
    case Broken => ReplacedKeepsTorn(t, sid, msgs);
  }

  function ModeAfter(mode: Mode, attempt: Option<nat>): Mode {
    match attempt
    case None => mode
    case Some(n) => if n == 4 then Down else if n == 0 then mode else if mode == Down then Down else Broken
  }

  lemma SuspendsMoves(t: Tables, tries: bool, attempt: Option<nat>, u: Tables, mode: Mode)
    requires Sound(t) && SearchIs(t, mode) && Suspends(t, tries, attempt, u)
    ensures Sound(u) && SearchIs(u, ModeAfter(mode, attempt))
  {
    if tries {
      DropMoves(t, attempt.value);
    }
  }

  lemma ReplacesKeeps(t: Tables, v: Tables, c: Conversation, status: Status, u: Tables, mode: Mode)
    requires Sound(v) && SearchIs(v, mode) && Replaces(t, v, c, status, u)
    ensures Sound(u) && SearchIs(u, mode)
  {
    if !status.Failed? {
      ReplacedKeepsMode(v, c.session.id, c.messages, mode);
    }
  }

  lemma RowKeeps(t: Tables, s: NewSession, mode: Mode)
    requires Sound(t) && SearchIs(t, mode)
    ensures Sound(UpsertRow(t, s)) && SearchIs(UpsertRow(t, s), mode)
  {
    SessionRowsKeepSound(t, UpsertRow(t, s));
  }

  lemma ConvertsKeeps(t: Tables, c: Conversation, extent: string -> string, tries: bool, e: Event, u: Tables, mode: Mode)
    requires Sound(t) && SearchIs(t, mode) && Converts(t, c, extent, tries, e, u)
    ensures Sound(u) && SearchIs(u, ModeAfter(mode, e.attempt))
  {
    RowKeeps(t, c.session, mode);
    if Written(t, c, extent, tries, e, u) {
      var row := UpsertRow(t, c.session);
      var v: Tables :| Suspends(row, tries, e.attempt, v) && Replaces(t, v, c, e.status, u);
      SuspendsMoves(row, tries, e.attempt, v, mode);
      ReplacesKeeps(t, v, c, e.status, u, ModeAfter(mode, e.attempt));
    }
  }

  ghost function ModeOf(mode: Mode, events: seq<Event>): Mode {
    if events == [] then mode else ModeAfter(ModeOf(mode, events[..|events| - 1]), events[|events| - 1].attempt)
  }

  lemma {:induction false} ImportKeeps(cs: seq<Conversation>, extent: string -> string, inUse: bool, events: seq<Event>, states: seq<Tables>, mode: Mode, k: nat)
    requires ImportRun(cs, extent, inUse, events, states) && k <= |cs|
    requires Sound(states[0]) && SearchIs(states[0], mode)
    ensures Sound(states[k]) && SearchIs(states[k], ModeOf(mode, events[..k]))
  {
    if k > 0 {
      ImportKeeps(cs, extent, inUse, events, states, mode, k - 1);
      assert ConvertsAt(cs, extent, inUse, events, states, k - 1);
      assert events[..k][..k - 1] == events[..k - 1];
      ConvertsKeeps(states[k - 1], cs[k - 1], extent, inUse && !Dropped(events[..k - 1]), events[k - 1], states[k],
                    ModeOf(mode, events[..k - 1]));
    }
  }

  /** How the attempts decide: a complete one suspends search for good, an incomplete one breaks it. */
  lemma {:induction false} AttemptsDecide(events: seq<Event>)
    ensures ModeOf(Up, events) == if Dropped(events) then Down else if Untouched(events) then Up else Broken
  {
    if events != [] {
      var n := |events| - 1;
      AttemptsDecide(events[..n]);
      DroppedStep(events);
      UntouchedStep(events);
    }
  }

  lemma DroppedStep(events: seq<Event>)
    requires events != []
    ensures Dropped(events) <==> Dropped(events[..|events| - 1]) || events[|events| - 1].attempt == Some(4)
  {
    var n := |events| - 1;
    if Dropped(events[..n]) {
      var i :| 0 <= i < n && events[..n][i].attempt == Some(4);
      assert events[i].attempt == Some(4);
    }
    if i :| 0 <= i < |events| && events[i].attempt == Some(4) {
      if i < n {
        assert events[..n][i].attempt == Some(4);
      }
    }
  }

  lemma UntouchedStep(events: seq<Event>)
    requires events != []
    ensures Untouched(events) <==>
      Untouched(events[..|events| - 1]) && (events[|events| - 1].attempt.None? || events[|events| - 1].attempt == Some(0))
  {
    var n := |events| - 1;
    if Untouched(events) {
      forall i, k: nat | 0 <= i < n && IsAttempt(events[..n][i], k)
        ensures k == 0
      {
        assert IsAttempt(events[i], k);
      }
      if events[n].attempt.Some? {
        assert IsAttempt(events[n], events[n].attempt.value);
      }
    }
    if Untouched(events[..n]) && (events[n].attempt.None? || events[n].attempt == Some(0)) {
      forall i, k: nat | 0 <= i < |events| && IsAttempt(events[i], k)
        ensures k == 0
      {
        if i < n {
          assert IsAttempt(events[..n][i], k);
        }
      }
    }
  }

  // ------------------------------------------------------------------- a whole import

  /** What an import of these conversations left when its restore went through. */
  ghost predicate Imports(t: Tables, cs: seq<Conversation>, extent: string -> string, inUse: bool, events: seq<Event>, final: Tables) {
    exists states: seq<Tables> :: ImportRun(cs, extent, inUse, events, states) && LeadsTo(states, t, Dropped(events), final)
  }

  ghost predicate LeadsTo(states: seq<Tables>, t: Tables, rebuilds: bool, final: Tables) {
    && states != [] && states[0] == t
    && final == if rebuilds then Rebuilt(states[|states| - 1]) else states[|states| - 1]
  }

  /**
   * After an import whose restore went through, search is up exactly when some attempt to drop the
   * index ran all four statements, so that it was rebuilt, or none ran any.  Otherwise it is torn, and no
   * error was reported.
   */
  lemma ImportLeavesSearchIff(t: Tables, cs: seq<Conversation>, extent: string -> string, inUse: bool, events: seq<Event>, final: Tables)
    requires Sound(t) && Searchable(t) && Imports(t, cs, extent, inUse, events, final)
    ensures Sound(final)
    ensures Searchable(final) <==> Dropped(events) || Untouched(events)
    ensures !Searchable(final) ==> Torn(final)
  {
    var states: seq<Tables> :| ImportRun(cs, extent, inUse, events, states) && LeadsTo(states, t, Dropped(events), final);
    ImportKeeps(cs, extent, inUse, events, states, Up, |cs|);
    assert events[..|cs|] == events;
    AttemptsDecide(events);
    RebuildHeals(states[|cs|]);
    assert InsertTrigger in ALL_TRIGGERS;
  }

  /** As long as dropping the index is all or nothing, every import leaves search up. */
  lemma AllOrNothingKeepsSearch(t: Tables, cs: seq<Conversation>, extent: string -> string, inUse: bool, events: seq<Event>, final: Tables)
    requires Sound(t) && Searchable(t) && Imports(t, cs, extent, inUse, events, final) && AllOrNothing(events)
    ensures Searchable(final) && Sound(final)
  {
    ImportLeavesSearchIff(t, cs, extent, inUse, events, final);
    if !Untouched(events) {
      var i, n: nat :| 0 <= i < |events| && IsAttempt(events[i], n) && n != 0;
      assert events[i].attempt == Some(4);
    }
  }

  /** Without an index to suspend, an import leaves search as it was: down. */
  lemma ImportWithoutIndex(t: Tables, cs: seq<Conversation>, extent: string -> string, inUse: bool, events: seq<Event>, final: Tables)
    requires Sound(t) && Suspended(t) && Imports(t, cs, extent, inUse, events, final)
    ensures Suspended(final) && Sound(final)
  {
    var states: seq<Tables> :| ImportRun(cs, extent, inUse, events, states) && LeadsTo(states, t, Dropped(events), final);
    ImportKeeps(cs, extent, inUse, events, states, Down, |cs|);
    forall k | 0 <= k < |cs|
      ensures events[k].attempt.None?
    {
      assert ConvertsAt(cs, extent, inUse, events, states, k);
    }
    StaysDown(events[..|cs|]);
  }

  lemma {:induction false} StaysDown(events: seq<Event>)
    ensures ModeOf(Down, events) == Down
  {
    if events != [] {
      StaysDown(events[..|events| - 1]);
    }
  }

  /** How many conversations are handled when the context is cancelled before the given one. */
  function Reached(conversations: seq<Conversation>, cancelledAt: nat): nat {
    if cancelledAt < |conversations| then cancelledAt else |conversations|
  }

  /** The import goes through the conversations in order until the context is cancelled; the index comes back at the end. */
  method ImportClaudeAI(db: Db, conversations: seq<Conversation>, cancelledAt: nat, extent: string -> string)
    returns (stats: ImportStats, restored: bool, ghost inUse: bool, ghost events: seq<Event>)
    modifies db
    ensures |events| == Reached(conversations, cancelledAt) && Counts(stats, events)
    ensures restored ==> Imports(old(db.t), conversations[..|events|], extent, inUse, events, db.t)
    ensures !restored ==> ImportsRows(old(db.t), conversations[..|events|], extent, inUse, events, db.t)
    ensures Sound(old(db.t)) && Searchable(old(db.t)) ==> Sound(db.t)
    ensures restored && Sound(old(db.t)) && Searchable(old(db.t)) ==>
      (Searchable(db.t) <==> Dropped(events) || Untouched(events))
    ensures restored && Sound(old(db.t)) && Searchable(old(db.t)) && AllOrNothing(events) ==> Searchable(db.t)
    ensures db.reliable ==> restored && AllOrNothing(events) && AllGuarded(events) && inUse == old(db.t).index.Some?
  {
    ghost var t0 := db.t;
    var probed := db.Works();
    var hasFTS := probed && db.t.index.Some?;
    inUse := hasFTS;
    var fts := new LazyFTS(hasFTS);
    ghost var states;
    stats, events, states := ImportEach(db, fts, conversations, cancelledAt, extent);
    restored := fts.Restore(db);
    if restored {
      assert LeadsTo(states, t0, Dropped(events), db.t);
      SearchAfterImport(t0, conversations[..|events|], extent, inUse, events, db.t);
    } else {
      assert LeadsTo(states, t0, false, states[|events|]);
      RowsAfterImport(t0, conversations[..|events|], extent, inUse, events, states, db.t);
    }
  }

  /** The rows of an import whose restore failed; search is in no particular state. */
  ghost predicate ImportsRows(t: Tables, cs: seq<Conversation>, extent: string -> string, inUse: bool, events: seq<Event>, u: Tables) {
    exists states: seq<Tables> ::
      ImportRun(cs, extent, inUse, events, states) && LeadsTo(states, t, false, u.(triggers := states[|cs|].triggers, index := states[|cs|].index))
  }

  lemma RowsAfterImport(t: Tables, cs: seq<Conversation>, extent: string -> string, inUse: bool, events: seq<Event>, states: seq<Tables>, u: Tables)
    requires ImportRun(cs, extent, inUse, events, states) && LeadsTo(states, t, false, states[|cs|])
    requires u == states[|cs|].(triggers := u.triggers, index := u.index)
    ensures ImportsRows(t, cs, extent, inUse, events, u)
    ensures Sound(t) && Searchable(t) ==> Sound(u)
  {
    assert LeadsTo(states, t, false, u.(triggers := states[|cs|].triggers, index := states[|cs|].index));
    if Sound(t) && Searchable(t) {
      ImportKeeps(cs, extent, inUse, events, states, Up, |cs|);
    }
  }

  lemma SearchAfterImport(t: Tables, cs: seq<Conversation>, extent: string -> string, inUse: bool, events: seq<Event>, final: Tables)
    requires Imports(t, cs, extent, inUse, events, final)
    ensures Sound(t) && Searchable(t) ==> Sound(final) && (Searchable(final) <==> Dropped(events) || Untouched(events))
    ensures Sound(t) && Searchable(t) && AllOrNothing(events) ==> Searchable(final)
  {
    if Sound(t) && Searchable(t) {
      ImportLeavesSearchIff(t, cs, extent, inUse, events, final);
      if AllOrNothing(events) {
        AllOrNothingKeepsSearch(t, cs, extent, inUse, events, final);
      }
    }
  }

  method ImportEach(db: Db, fts: LazyFTS, conversations: seq<Conversation>, cancelledAt: nat, extent: string -> string)
    returns (stats: ImportStats, ghost events: seq<Event>, ghost states: seq<Tables>)
    requires (fts.active ==> db.t.index.Some?) && !fts.dropped
    modifies db, fts`dropped
    ensures |events| == Reached(conversations, cancelledAt) && Counts(stats, events)
    ensures ImportRun(conversations[..|events|], extent, fts.active, events, states)
    ensures states[0] == old(db.t) && states[|events|] == db.t
    ensures fts.dropped == Dropped(events) && (fts.dropped ==> fts.active)
    ensures db.reliable ==> AllOrNothing(events) && AllGuarded(events)
  {
    stats, events, states := ImportStats(0, 0, 0, 0), [], [db.t];
    for i := 0 to |conversations|
      invariant |events| == i <= cancelledAt && |states| == i + 1 && Counts(stats, events)
      invariant ImportRun(conversations[..i], extent, fts.active, events, states)
      invariant states[0] == old(db.t) && states[i] == db.t
      invariant fts.dropped == Dropped(events) && (fts.dropped ==> fts.active)
      invariant db.reliable ==> AllOrNothing(events) && AllGuarded(events)
    {
      if i >= cancelledAt {
        return;
      }
      ghost var e;
      var status;
      e, status := UpsertConversation(db, fts, conversations[i], extent);
      ImportStep(conversations[..i], extent, fts.active, events, states, conversations[i], e, db.t);
      assert conversations[..i] + [conversations[i]] == conversations[..i + 1];
      EventStep(events, e);
      CountStep(stats, events, e);
      stats := Counted(stats, status);
      events, states := events + [e], states + [db.t];
    }
  }

  lemma CountStep(stats: ImportStats, events: seq<Event>, e: Event)
    requires Counts(stats, events)
    ensures Counts(Counted(stats, e.status), events + [e])
  {
    assert (events + [e])[..|events|] == events;
  }

  lemma EventStep(events: seq<Event>, e: Event)
    ensures Dropped(events + [e]) <==> Dropped(events) || e.attempt == Some(4)
    ensures AllOrNothing(events) && (e.attempt.Some? ==> e.attempt == Some(4)) ==> AllOrNothing(events + [e])
  {
    var all := events + [e];
    assert all[..|all| - 1] == events;
    DroppedStep(all);
    if AllOrNothing(events) && (e.attempt.Some? ==> e.attempt == Some(4)) {
      forall i, n: nat | 0 <= i < |all| && IsAttempt(all[i], n)
        ensures n == 0 || n == 4
      {
        if i < |events| {
          assert IsAttempt(events[i], n);
        }
      }
    }
  }

  /** What a torn index costs: a message inserted then is not in the index. */
  lemma TornIndexMissesMessages(t: Tables, n: nat, msgs: seq<NewMessage>)
    requires Searchable(t) && Sound(t) && 1 <= n <= 3 && msgs != []
    requires Insertable(DroppedUpTo(t, n), msgs)
    ensures var u := Inserted(DroppedUpTo(t, n), msgs);
      NextID(t.messages) in u.messages && u.index.Some? && NextID(t.messages) !in u.index.value.entries
  {
    var v := DroppedUpTo(t, n);
    InsertShape(v, NextID(t.messages), Rows(msgs));
    WithoutTriggerIndexStays(v, NextID(t.messages), Rows(msgs));
  }

  lemma {:induction false} WithoutTriggerIndexStays(t: Tables, first: nat, rows: seq<MessageRow>)
    requires InsertTrigger !in t.triggers
    ensures InsertRows(t, first, rows).index == t.index
  {
    if rows != [] {
      WithoutTriggerIndexStays(t, first, rows[..|rows| - 1]);
      InsertKeepsSetup(t, first, rows[..|rows| - 1]);
    }
  }
}
