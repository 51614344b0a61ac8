/**
 * Upserting, trashing, restoring and deleting sessions (internal/db/sessions.go).  Permanent deletion
 * records the id, so that a later sync does not bring the session back.
 */
module StoreLifecycle {
  import opened Common
  import opened Store

  const DELETE_BATCH_SIZE: nat := 500

  datatype UpsertResult = Upserted | SessionExcluded | SessionTrashed | UpsertFailed

  predicate Trashed(t: Tables, id: string) {
    id in t.sessions && t.sessions[id].deleted
  }

  /** Writers leave excluded and trashed sessions alone. */
  predicate Admits(t: Tables, id: string) {
    id !in t.excluded && !Trashed(t, id)
  }

  /** Which of the two guard queries could be read; an error is dropped, and the guard does not hold then. */
  datatype Guards = Guards(excluded: bool, trashed: bool)

  const BOTH_READ: Guards := Guards(true, true)

  /** What gets past the guards, as far as they could be read. */
  predicate LetsPass(t: Tables, id: string, g: Guards) {
    !(g.excluded && id in t.excluded) && !(g.trashed && Trashed(t, id))
  }

  /** What an upsert leaves that does not fail itself. */
  function AfterUpsert(t: Tables, s: NewSession, g: Guards): Tables {
    if LetsPass(t, s.id, g) then UpsertRow(t, s) else t
  }

  method UpsertSession(db: Db, s: NewSession) returns (result: UpsertResult, ghost g: Guards)
    modifies db
    ensures result.Upserted? ==> LetsPass(old(db.t), s.id, g) && db.t == UpsertRow(old(db.t), s)
    ensures !result.Upserted? ==> db.t == old(db.t)
    ensures result.SessionExcluded? <==> g.excluded && s.id in old(db.t).excluded
    ensures result.SessionTrashed? <==> !(g.excluded && s.id in old(db.t).excluded) && g.trashed && Trashed(old(db.t), s.id)
    ensures db.reliable ==> !result.UpsertFailed? && g == BOTH_READ
  {
    g := BOTH_READ;
    var readExcluded := db.Works();
    g := g.(excluded := readExcluded);
    if readExcluded && s.id in db.t.excluded {
      return SessionExcluded, g;
    }
    var readTrashed := db.Works();
    g := g.(trashed := readTrashed);
    if readTrashed && Trashed(db.t, s.id) {
      return SessionTrashed, g;
    }
    var ok := db.Works();
    if !ok {
      return UpsertFailed, g;
    }
    db.t := UpsertRow(db.t, s);
    result := Upserted;
  }

  /**
   * Unread guards make no difference exactly when there is nothing to guard, or the upsert would write
   * what is there already.
   */
  lemma GuardsDoNotMatterIff(t: Tables, s: NewSession)
    ensures (forall g :: AfterUpsert(t, s, g) == AfterUpsert(t, s, BOTH_READ)) <==> Admits(t, s.id) || UpsertRow(t, s) == t
  {
    if !Admits(t, s.id) && UpsertRow(t, s) != t {
      assert AfterUpsert(t, s, Guards(false, false)) != AfterUpsert(t, s, BOTH_READ);
    }
  }

  function WithDeletedMark(t: Tables, id: string, deleted: bool): Tables
    requires id in t.sessions
  {
    t.(sessions := t.sessions[id := t.sessions[id].(deleted := deleted)])
  }

  function SoftDeleted(t: Tables, id: string): Tables {
    if id in t.sessions && !Trashed(t, id) then WithDeletedMark(t, id, true) else t
  }

  function Restored(t: Tables, id: string): Tables {
    if Trashed(t, id) then WithDeletedMark(t, id, false) else t
  }

  method SoftDeleteSession(db: Db, id: string) returns (ok: bool)
    modifies db
    ensures db.t == if ok then SoftDeleted(old(db.t), id) else old(db.t)
    ensures db.reliable ==> ok
  {
    ok := db.Works();
    if ok && id in db.t.sessions && !db.t.sessions[id].deleted {
      db.t := db.t.(sessions := db.t.sessions[id := db.t.sessions[id].(deleted := true)]);
    }
  }

  method RestoreSession(db: Db, id: string) returns (ok: bool, n: nat)
    modifies db
    ensures db.t == if ok then Restored(old(db.t), id) else old(db.t)
    ensures ok ==> n == if Trashed(old(db.t), id) then 1 else 0
    ensures db.reliable ==> ok
  {
    ok := db.Works();
    n := 0;
    if ok && id in db.t.sessions && db.t.sessions[id].deleted {
      db.t := db.t.(sessions := db.t.sessions[id := db.t.sessions[id].(deleted := false)]);
      n := 1;
    }
  }

  /** Rows gone, ids remembered. */
  function Purged(t: Tables, gone: set<string>): Tables {
    DeleteSessionRows(t, gone).(excluded := t.excluded + gone)
  }

  function StoredAmong(t: Tables, ids: seq<string>): set<string> {
    set id | id in ids && id in t.sessions
  }

  function TrashedIDs(t: Tables): set<string> {
    set id | id in t.sessions && t.sessions[id].deleted
  }

  method DeleteSession(db: Db, id: string) returns (ok: bool)
    modifies db
    ensures !ok ==> db.t == old(db.t)
    ensures ok ==> db.t == if id in old(db.t).sessions then Purged(old(db.t), {id}) else old(db.t)
    ensures db.reliable ==> ok
  {
    var saved := db.t;
    ok := db.Works();
    if !ok {
      return;
    }
    if id in db.t.sessions {
      db.t := DeleteSessionRows(db.t, {id});
      ok := db.Works();
      if ok {
        db.t := db.t.(excluded := db.t.excluded + {id});
      } else {
        db.t := saved;
      }
    }
  }

  method DeleteSessionIfTrashed(db: Db, id: string) returns (ok: bool, n: nat)
    modifies db
    ensures !ok ==> db.t == old(db.t)
    ensures ok ==> db.t == if Trashed(old(db.t), id) then Purged(old(db.t), {id}) else old(db.t)
    ensures ok ==> n == if Trashed(old(db.t), id) then 1 else 0
    ensures db.reliable ==> ok
  {
    var saved := db.t;
    n := 0;
    ok := db.Works();
    if !ok {
      return;
    }
    if Trashed(db.t, id) {
      db.t := DeleteSessionRows(db.t, {id});
      ok := db.Works();
      if !ok {
        db.t := saved;
        return;
      }
      db.t := db.t.(excluded := db.t.excluded + {id});
      n := 1;
    }
  }

  method EmptyTrash(db: Db) returns (ok: bool, n: nat)
    modifies db
    ensures !ok ==> db.t == old(db.t)
    ensures ok ==> db.t == Purged(old(db.t), TrashedIDs(old(db.t))) && n == |TrashedIDs(old(db.t))|
    ensures db.reliable ==> ok
  {
    var saved := db.t;
    n := 0;
    ok := db.Works();
    if !ok {
      return;
    }
    var gone := TrashedIDs(db.t);
    db.t := db.t.(excluded := db.t.excluded + gone);
    ok := db.Works();
    if !ok {
      db.t := saved;
      return;
    }
    assert IDsOfAll(db.t, gone) == IDsOfAll(saved, gone);
    db.t := DeleteSessionRows(db.t, gone);
    n := |gone|;
  }

  /** What deleting a set of sessions leaves, whether it goes at once or by batches. */
  ghost predicate IsPurged(t: Tables, gone: set<string>, u: Tables) {
    && u.sessions == t.sessions - gone
    && u.excluded == t.excluded + gone
    && u.messages == t.messages - IDsOfAll(t, gone)
    && (forall c :: c in u.calls <==> c in t.calls && c.sessionID !in gone)
    && (forall p :: p in u.pins <==> p in t.pins && p.sessionID !in gone)
  }

  lemma PurgedIsPurged(t: Tables, gone: set<string>)
    requires Sound(t)
    ensures IsPurged(t, gone, Purged(t, gone))
    ensures Sound(Purged(t, gone))
    ensures KeepsSearch(t, Purged(t, gone))
  {
    SessionDeleteKeepsSound(t, gone);
    if SearchOK(t) {
      SessionDeleteKeepsSearch(t, gone);
    }
  }

  lemma PurgesCompose(t: Tables, a: set<string>, u: Tables, b: set<string>, v: Tables)
    requires IsPurged(t, a, u) && IsPurged(u, b, v)
    ensures IsPurged(t, a + b, v)
  {
    assert v.messages == t.messages - IDsOfAll(t, a + b);
  }

  method DeleteSessions(db: Db, ids: seq<string>) returns (ok: bool, total: nat)
    requires Sound(db.t)
    modifies db
    ensures !ok ==> db.t == old(db.t)
    ensures ok ==> IsPurged(old(db.t), StoredAmong(old(db.t), ids), db.t) && total == |StoredAmong(old(db.t), ids)|
    ensures Sound(db.t) && KeepsSearch(old(db.t), db.t)
    ensures db.reliable ==> ok
  {
    var saved := db.t;
    total := 0;
    var i := 0;
    assert IsPurged(db.t, StoredAmong(db.t, ids[..0]), db.t);
    while i < |ids|
      invariant 0 <= i <= |ids|
      invariant IsPurged(saved, StoredAmong(saved, ids[..i]), db.t) && total == |StoredAmong(saved, ids[..i])|
      invariant Sound(db.t) && KeepsSearch(saved, db.t)
    {
      var end := if i + DELETE_BATCH_SIZE < |ids| then i + DELETE_BATCH_SIZE else |ids|;
      var works := db.Works();
      if !works {
        db.t := saved;
        return false, 0;
      }
      var n := DeleteBatch(db, saved, ids, i, end);
      total := total + n;
      i := end;
    }
    assert ids[..i] == ids;
    ok := true;
  }

  method DeleteBatch(db: Db, ghost t0: Tables, ids: seq<string>, i: nat, end: nat) returns (n: nat)
    requires i <= end <= |ids| && Sound(db.t) && IsPurged(t0, StoredAmong(t0, ids[..i]), db.t)
    modifies db
    ensures IsPurged(t0, StoredAmong(t0, ids[..end]), db.t)
    ensures |StoredAmong(t0, ids[..end])| == |StoredAmong(t0, ids[..i])| + n
    ensures Sound(db.t) && KeepsSearch(old(db.t), db.t)
  {
    var gone := StoredAmong(db.t, ids[i..end]);
    ghost var before := db.t;
    PurgedIsPurged(db.t, gone);
    db.t := Purged(db.t, gone);
    n := |gone|;
    PurgesCompose(t0, StoredAmong(t0, ids[..i]), before, gone, db.t);
    BatchAdds(t0, before, ids, i, end);
  }

  lemma BatchAdds(t0: Tables, before: Tables, ids: seq<string>, i: nat, end: nat)
    requires i <= end <= |ids| && before.sessions.Keys == t0.sessions.Keys - StoredAmong(t0, ids[..i])
    ensures var was, gone := StoredAmong(t0, ids[..i]), StoredAmong(before, ids[i..end]);
      StoredAmong(t0, ids[..end]) == was + gone && |StoredAmong(t0, ids[..end])| == |was| + |gone|
  {
    assert ids[..end] == ids[..i] + ids[i..end];
    assert StoredAmong(t0, ids[..end]) == StoredAmong(t0, ids[..i]) + StoredAmong(before, ids[i..end]);
  }

  /** DELETE FROM sessions WHERE id IN (SELECT id FROM excluded_sessions). */
  function ExcludedRemoved(t: Tables): Tables {
    DeleteSessionRows(t, t.excluded)
  }

  method PurgeExcludedSessions(db: Db) returns (ok: bool)
    modifies db
    ensures db.t == if ok then ExcludedRemoved(old(db.t)) else old(db.t)
    ensures db.reliable ==> ok
  {
    ok := db.Works();
    if ok {
      db.t := DeleteSessionRows(db.t, db.t.excluded);
    }
  }
}
