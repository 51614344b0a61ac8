/** What every run of the store operations keeps, and the rebuild of a database from an old one. */
module StoreRuns {
  import opened Common
  import opened Store
  import opened StoreMessages
  import opened StoreLifecycle
  import opened StoreBatch
  import opened StoreOrphans
  import Search = StoreImport

  datatype Op =
    | Upsert(s: NewSession, g: Guards)
    | Insert(msgs: seq<NewMessage>)
    | Replace(sid: string, msgs: seq<NewMessage>)
    | Batch(writes: seq<Write>)
    | Trash(sid: string)
    | Restore(sid: string)
    | Delete(sid: string)
    | DeleteMany(sids: seq<string>)
    | EmptyTrash
    | CopyOrphans(src: Tables)
    | CopyTrash(src: Tables)
    | CopyExclusions(src: Tables)
    | PurgeExcluded
    | DropIndex(ran: nat)
    | RebuildIndex(complete: bool)

  /** What a committed operation may leave. */
  ghost predicate Does(op: Op, t: Tables, u: Tables) {
    match op
    case Upsert(s, g) => LetsPass(t, s.id, g) && u == UpsertRow(t, s)
    case Insert(msgs) => Insertable(t, msgs) && u == Inserted(t, msgs)
    case Replace(sid, msgs) => Replaceable(t, sid, msgs) && u == Replaced(t, sid, msgs)
    case Batch(writes) => exists outcomes: seq<Outcome> | |outcomes| == |writes| :: u == Fold(t, writes, outcomes)
    case Trash(sid) => u == SoftDeleted(t, sid)
    case Restore(sid) => u == Restored(t, sid)
    case Delete(sid) => sid in t.sessions && u == Purged(t, {sid})
    case DeleteMany(sids) => DeletedMany(t, StoredAmong(t, sids), u)
    case EmptyTrash => u == Purged(t, TrashedIDs(t))
    case CopyOrphans(src) => Sound(src) && IsCopied(t, src, OrphanedIDs(t, src), u)
    case CopyTrash(src) => Sound(src) && IsCopied(t, src, OldTrashIDs(t, src), u)
    case CopyExclusions(src) => u == WithExcludedOf(t, src)
    case PurgeExcluded => u == ExcludedRemoved(t)
    case DropIndex(ran) => ran <= 4 && u == Search.DroppedUpTo(t, ran)
    case RebuildIndex(complete) =>
      u == if complete then Search.Rebuilt(t) else t.(triggers := u.triggers, index := u.index)
  }

  /** What DeleteSessions promises of its result. */
  ghost predicate DeletedMany(t: Tables, gone: set<string>, u: Tables) {
    IsPurged(t, gone, u) && (Sound(t) ==> Sound(u) && KeepsSearch(t, u))
  }

  /** Statements on the index: they are not rolled back when they fail. */
  ghost predicate OnIndex(op: Op) {
    op.DropIndex? || op.RebuildIndex?
  }

  /** Every other operation may also fail and leave the tables alone. */
  ghost predicate Step(op: Op, t: Tables, u: Tables) {
    Does(op, t, u) || (!OnIndex(op) && u == t)
  }

  // ------------------------------------------------------------- keys and search

  /** Operations on session rows, exclusions or the index: they leave messages, calls and pins alone. */
  ghost predicate OnRows(op: Op) {
    op.Upsert? || op.Trash? || op.Restore? || op.CopyExclusions? || OnIndex(op)
  }

  ghost predicate Deletes(op: Op) {
    op.Delete? || op.DeleteMany? || op.EmptyTrash? || op.PurgeExcluded?
  }

  lemma RowStepKeepsSound(op: Op, t: Tables, u: Tables)
    requires Sound(t) && Does(op, t, u) && OnRows(op)
    ensures Sound(u) && (!OnIndex(op) ==> KeepsSearch(t, u))
  {
    SessionRowsKeepSound(t, u);
  }

  lemma DeleteStepKeepsSound(op: Op, t: Tables, u: Tables)
    requires Sound(t) && Does(op, t, u) && Deletes(op)
    ensures Sound(u) && KeepsSearch(t, u)
  {
    match op
    case Delete(sid) => PurgedIsPurged(t, {sid});
    case EmptyTrash => PurgedIsPurged(t, TrashedIDs(t));
    case PurgeExcluded => ExclusionPurgeKeeps(t);
    case DeleteMany(sids) =>
  }

  lemma StepKeepsSound(op: Op, t: Tables, u: Tables)
    requires Sound(t) && Step(op, t, u)
    ensures Sound(u)
    ensures !OnIndex(op) && !op.Replace? ==> KeepsSearch(t, u)
  {
    if Does(op, t, u) {
      if OnRows(op) {
        RowStepKeepsSound(op, t, u);
      } else if Deletes(op) {
        DeleteStepKeepsSound(op, t, u);
      } else {
        match op
        case Insert(msgs) => PayloadKeeps(t, msgs); InsertShape(t, NextID(t.messages), Rows(msgs));
        case Replace(sid, msgs) => Search.ReplacedKeepsSound(t, sid, msgs);
        case Batch(writes) => StepOfBatchKeeps(writes, t, u);
        case CopyOrphans(src) => IsCopiedKeeps(t, src, OrphanedIDs(t, src), u);
        case CopyTrash(src) => IsCopiedKeeps(t, src, OldTrashIDs(t, src), u);
      }
    }
  }

  lemma StepOfBatchKeeps(writes: seq<Write>, t: Tables, u: Tables)
    requires Sound(t) && Does(Batch(writes), t, u)
    ensures Sound(u) && KeepsSearch(t, u) && (Separated(t) ==> Separated(u))
  {
    var outcomes: seq<Outcome> :| |outcomes| == |writes| && u == Fold(t, writes, outcomes);
    BatchKeeps(t, writes, outcomes);
  }

  lemma ExclusionPurgeKeeps(t: Tables)
    requires Sound(t)
    ensures Sound(ExcludedRemoved(t)) && KeepsSearch(t, ExcludedRemoved(t))
  {
    SessionDeleteKeepsSound(t, t.excluded);
    if SearchOK(t) {
      SessionDeleteKeepsSearch(t, t.excluded);
    }
  }

  /** What is known about search: up, down, broken, or nothing after a rebuild that did not get through. */
  ghost predicate Knows(t: Tables, mode: Option<Search.Mode>) {
    mode.Some? ==> Search.SearchIs(t, mode.value)
  }

  ghost function ModeAfter(mode: Option<Search.Mode>, op: Op): Option<Search.Mode> {
    match op
    case DropIndex(ran) =>
      if ran == 4 then Some(Search.Down)
      else if mode.None? then None
      else Some(Search.ModeAfter(mode.value, Some(ran)))
    case RebuildIndex(complete) => if complete then Some(Search.Up) else None
    case _ => mode
  }

  lemma KeepingSearchKeepsMode(t: Tables, u: Tables, mode: Option<Search.Mode>)
    requires KeepsSearch(t, u) && Knows(t, mode)
    ensures Knows(u, mode)
  {
  }

  lemma DropKeepsMode(t: Tables, ran: nat, mode: Option<Search.Mode>)
    requires ran <= 4 && Knows(t, mode)
    ensures Knows(Search.DroppedUpTo(t, ran), ModeAfter(mode, DropIndex(ran)))
  {
    Search.DropMoves(t, ran);
    Search.TriggersAreThree(t.triggers);
  }

  lemma ReplaceKeepsMode(t: Tables, sid: string, msgs: seq<NewMessage>, u: Tables, mode: Option<Search.Mode>)
    requires Sound(t) && Step(Replace(sid, msgs), t, u) && Knows(t, mode)
    ensures Knows(u, mode)
  {
    if mode.Some? && u != t {
      Search.ReplacedKeepsMode(t, sid, msgs, mode.value);
    }
  }

  lemma StepKeepsMode(op: Op, t: Tables, u: Tables, mode: Option<Search.Mode>)
    requires Sound(t) && Step(op, t, u) && Knows(t, mode)
    ensures Knows(u, ModeAfter(mode, op))
  {
    if op.DropIndex? {
      DropKeepsMode(t, op.ran, mode);
    } else if op.RebuildIndex? {
      Search.RebuildHeals(t);
    } else if op.Replace? {
      ReplaceKeepsMode(t, op.sid, op.msgs, u, mode);
    } else {
      StepKeepsSound(op, t, u);
      KeepingSearchKeepsMode(t, u, mode);
    }
  }

  /** Operations that are not on the index leave search up. */
  lemma StepKeepsSearch(op: Op, t: Tables, u: Tables)
    requires Sound(t) && Step(op, t, u) && Searchable(t) && !OnIndex(op)
    ensures Searchable(u)
  {
    StepKeepsMode(op, t, u, Some(Search.Up));
  }

  /** An upsert of an excluded id that did not get to read the exclusion list. */
  ghost predicate PassesExclusion(op: Op, t: Tables) {
    op.Upsert? && !op.g.excluded && op.s.id in t.excluded
  }

  /**
   * Besides copying an exclusion list, only such an upsert can put a stored id among the excluded ones,
   * and it does whenever it goes through.  The purge undoes that.
   */
  lemma StepSeparatesIff(op: Op, t: Tables, u: Tables)
    requires Sound(t) && Step(op, t, u)
    requires Separated(t) || (op.PurgeExcluded? && u != t)
    requires op.CopyExclusions? ==> t.sessions.Keys !! op.src.excluded
    ensures Separated(u) <==> !(PassesExclusion(op, t) && u != t)
  {
    if u != t {
      match op
      case Upsert(s, g) => assert s.id in u.sessions;
      case Insert(msgs) => InsertShape(t, NextID(t.messages), Rows(msgs));
      case Replace(sid, msgs) => ReplacedKeepsSessions(t, sid, msgs);
      case Batch(writes) => StepOfBatchKeeps(writes, t, u);
      case CopyOrphans(src) => IsCopiedKeeps(t, src, OrphanedIDs(t, src), u);
      case CopyTrash(src) => IsCopiedKeeps(t, src, OldTrashIDs(t, src), u);
      case _ =>
    }
  }

  lemma ReplacedKeepsSessions(t: Tables, sid: string, msgs: seq<NewMessage>)
    ensures Replaced(t, sid, msgs).sessions == t.sessions && Replaced(t, sid, msgs).excluded == t.excluded
  {
    var u := DeletedInBulk(t, sid);
    InsertShape(u, NextID(u.messages), Rows(msgs));
  }

  /** Copying an exclusion list keeps the two apart exactly when no copied id is stored. */
  lemma CopyingExclusionsSeparatesIff(t: Tables, src: Tables)
    requires Separated(t)
    ensures Separated(WithExcludedOf(t, src)) <==> t.sessions.Keys !! src.excluded
  {
  }

  lemma PurgeSeparates(t: Tables)
    ensures Separated(ExcludedRemoved(t))
  {
  }

  /** Permanently deleted: excluded and not stored. */
  ghost predicate Away(t: Tables, id: string) {
    id in t.excluded && id !in t.sessions
  }

  /** An upsert of this id that did not get to read the exclusion list. */
  ghost predicate BringsBack(op: Op, id: string) {
    op.Upsert? && !op.g.excluded && op.s.id == id
  }

  /** What is away stays away through every operation except such an upsert, if it goes through. */
  lemma StepKeepsAwayIff(op: Op, t: Tables, u: Tables, id: string)
    requires Sound(t) && Step(op, t, u)
    requires Away(t, id)
    ensures Away(u, id) <==> !(BringsBack(op, id) && u != t)
  {
    if u != t {
      match op
      case Upsert(s, g) => assert s.id in u.sessions;
      case Insert(msgs) => InsertShape(t, NextID(t.messages), Rows(msgs));
      case Replace(sid, msgs) => ReplacedKeepsSessions(t, sid, msgs);
      case Batch(writes) => StepOfBatchKeepsAway(writes, t, u, id);
      case CopyOrphans(src) => IsCopiedKeeps(t, src, OrphanedIDs(t, src), u);
      case CopyTrash(src) => IsCopiedKeeps(t, src, OldTrashIDs(t, src), u);
      case _ =>
    }
  }

  lemma StepOfBatchKeepsAway(writes: seq<Write>, t: Tables, u: Tables, id: string)
    requires Does(Batch(writes), t, u) && Away(t, id)
    ensures Away(u, id)
  {
    var outcomes: seq<Outcome> :| |outcomes| == |writes| && u == Fold(t, writes, outcomes);
    BatchKeepsAway(t, writes, outcomes, id);
  }

  lemma {:induction false} BatchKeepsAway(t: Tables, writes: seq<Write>, outcomes: seq<Outcome>, id: string)
    requires |writes| == |outcomes| && Away(t, id)
    ensures Away(Fold(t, writes, outcomes), id)
  {
    if writes != [] {
      var n := |writes| - 1;
      BatchKeepsAway(t, writes[..n], outcomes[..n], id);
      var u := Fold(t, writes[..n], outcomes[..n]);
      if outcomes[n].Wrote? && CanWrite(u, writes[n]) {
        WrittenShape(u, writes[n]);
      }
    }
  }

  // ------------------------------------------------------------------------- runs

  const EMPTY: Tables := Tables(map[], map[], [], [], {}, Some(Index(map[], false)), ALL_TRIGGERS)

  ghost predicate Run(ops: seq<Op>, states: seq<Tables>) {
    |states| == |ops| + 1 && forall k {:trigger ops[k]} | 0 <= k < |ops| :: Step(ops[k], states[k], states[k + 1])
  }

  ghost function ModeAlong(mode: Option<Search.Mode>, ops: seq<Op>): Option<Search.Mode> {
    if ops == [] then mode else ModeAfter(ModeAlong(mode, ops[..|ops| - 1]), ops[|ops| - 1])
  }

  /**
   * Along every run all keys hold, and the statements on the index alone decide whether search is up,
   * cleanly suspended, or broken.
   */
  lemma {:induction false} RunKeepsHealthy(ops: seq<Op>, states: seq<Tables>, mode: Option<Search.Mode>, k: nat)
    requires Run(ops, states) && Sound(states[0]) && Knows(states[0], mode) && k <= |ops|
    ensures Sound(states[k]) && Knows(states[k], ModeAlong(mode, ops[..k]))
  {
    if k > 0 {
      RunKeepsHealthy(ops, states, mode, k - 1);
      HealthyStep(ops, states, mode, k - 1);
    }
  }

  lemma HealthyStep(ops: seq<Op>, states: seq<Tables>, mode: Option<Search.Mode>, k: nat)
    requires Run(ops, states) && k < |ops| && Sound(states[k]) && Knows(states[k], ModeAlong(mode, ops[..k]))
    ensures Sound(states[k + 1]) && Knows(states[k + 1], ModeAlong(mode, ops[..k + 1]))
  {
    StepKeepsSound(ops[k], states[k], states[k + 1]);
    StepKeepsMode(ops[k], states[k], states[k + 1], ModeAlong(mode, ops[..k]));
    assert ops[..k + 1][..k] == ops[..k];
  }

  lemma RunStaysSound(ops: seq<Op>, states: seq<Tables>, k: nat)
    requires Run(ops, states) && Sound(states[0]) && k <= |ops|
    ensures Sound(states[k])
  {
    RunKeepsHealthy(ops, states, None, k);
  }

  lemma {:induction false} ModeStays(mode: Option<Search.Mode>, ops: seq<Op>)
    requires forall j | 0 <= j < |ops| :: !OnIndex(ops[j])
    ensures ModeAlong(mode, ops) == mode
  {
    if ops != [] {
      ModeStays(mode, ops[..|ops| - 1]);
    }
  }

  /** Operations that are not on the index itself leave search up. */
  lemma RunKeepsSearch(ops: seq<Op>, states: seq<Tables>, k: nat)
    requires Run(ops, states) && Sound(states[0]) && Searchable(states[0]) && k <= |ops|
    requires forall j | 0 <= j < |ops| :: !OnIndex(ops[j])
    ensures Sound(states[k]) && Searchable(states[k])
  {
    RunKeepsHealthy(ops, states, Some(Search.Up), k);
    ModeStays(Some(Search.Up), ops[..k]);
  }

  lemma SearchStep(ops: seq<Op>, states: seq<Tables>, k: nat)
    requires Run(ops, states) && k < |ops| && Sound(states[k])
    ensures ops[k] == RebuildIndex(true) || (Searchable(states[k]) && !OnIndex(ops[k])) ==> Searchable(states[k + 1])
  {
    if ops[k] == RebuildIndex(true) {
      Search.RebuildHeals(states[k]);
    } else if Searchable(states[k]) && !OnIndex(ops[k]) {
      StepKeepsSearch(ops[k], states[k], states[k + 1]);
    }
  }

  /** Whatever happened before, a rebuild that gets through brings search back for as long as the index is left alone. */
  lemma RebuildBringsSearchBack(ops: seq<Op>, states: seq<Tables>, j: nat, k: nat)
    requires Run(ops, states) && Sound(states[0]) && j < k <= |ops| && ops[j] == RebuildIndex(true)
    requires forall i | j < i < k :: !OnIndex(ops[i])
    ensures Searchable(states[k])
    decreases k
  {
    RunStaysSound(ops, states, k - 1);
    if k > j + 1 {
      RebuildBringsSearchBack(ops, states, j, k - 1);
    }
    SearchStep(ops, states, k - 1);
  }

  /** The run got past the exclusion list: an upsert of an excluded id could not read it, and went through. */
  ghost predicate SlippedIn(ops: seq<Op>, states: seq<Tables>, j: nat)
    requires j < |ops| < |states|
  {
    PassesExclusion(ops[j], states[j]) && states[j + 1] != states[j]
  }

  /** Without exclusion lists from elsewhere, no id is ever both stored and excluded, exactly unless one slipped in. */
  lemma {:induction false} RunSeparatesIff(ops: seq<Op>, states: seq<Tables>, k: nat)
    requires Run(ops, states) && Sound(states[0]) && Separated(states[0]) && k <= |ops|
    requires forall j | 0 <= j < |ops| :: !ops[j].CopyExclusions?
    ensures (forall i | 0 <= i <= k :: Separated(states[i])) <==> forall j | 0 <= j < k :: !SlippedIn(ops, states, j)
  {
    if k > 0 {
      RunSeparatesIff(ops, states, k - 1);
      RunStaysSound(ops, states, k - 1);
      if Separated(states[k - 1]) {
        SeparatesNext(ops, states, k - 1);
      }
    }
  }

  lemma SeparatesNext(ops: seq<Op>, states: seq<Tables>, k: nat)
    requires Run(ops, states) && k < |ops| && Sound(states[k]) && Separated(states[k]) && !ops[k].CopyExclusions?
    ensures Separated(states[k + 1]) <==> !SlippedIn(ops, states, k)
  {
    StepSeparatesIff(ops[k], states[k], states[k + 1]);
  }

  /** So it is enough that every upsert of an excluded id could read the list. */
  lemma RunSeparates(ops: seq<Op>, states: seq<Tables>, k: nat)
    requires Run(ops, states) && Sound(states[0]) && Separated(states[0]) && k <= |ops|
    requires forall j | 0 <= j < |ops| :: !ops[j].CopyExclusions? && !PassesExclusion(ops[j], states[j])
    ensures Separated(states[k])
  {
    RunSeparatesIff(ops, states, k);
  }

  lemma {:induction false} SeparatedStays(ops: seq<Op>, states: seq<Tables>, p: nat, k: nat)
    requires Run(ops, states) && Sound(states[0]) && p <= k <= |ops| && Separated(states[p])
    requires forall j | p <= j < k :: !ops[j].CopyExclusions? && !SlippedIn(ops, states, j)
    ensures Separated(states[k])
    decreases k
  {
    if p < k {
      SeparatedStays(ops, states, p, k - 1);
      RunStaysSound(ops, states, k - 1);
      SeparatesNext(ops, states, k - 1);
    }
  }

  lemma PurgedState(t: Tables, u: Tables)
    requires u == ExcludedRemoved(t)
    ensures Separated(u)
  {
    PurgeSeparates(t);
  }

  /** After a purge that went through, the two are apart, whatever happened before, as long as nothing slips in again. */
  lemma RunSeparatesAfterPurge(ops: seq<Op>, states: seq<Tables>, p: nat, k: nat)
    requires Run(ops, states) && Sound(states[0]) && p < k <= |ops|
    requires states[p + 1] == ExcludedRemoved(states[p])
    requires forall j | p < j < |ops| :: !ops[j].CopyExclusions? && !SlippedIn(ops, states, j)
    ensures Separated(states[k])
  {
    PurgedState(states[p], states[p + 1]);
    SeparatedStays(ops, states, p + 1, k);
  }

  /** An upsert of the deleted id could not read the exclusion list, and went through. */
  ghost predicate CameBack(ops: seq<Op>, states: seq<Tables>, id: string, j: nat)
    requires j < |ops| < |states|
  {
    BringsBack(ops[j], id) && states[j + 1] != states[j]
  }

  /** A permanently deleted session stays away, exactly until such an upsert. */
  lemma {:induction false} DeletedStaysDeletedIff(ops: seq<Op>, states: seq<Tables>, j: nat, k: nat, id: string)
    requires Run(ops, states) && Sound(states[0]) && j <= k <= |ops|
    requires Away(states[j], id)
    ensures (forall i | j <= i <= k :: Away(states[i], id)) <==> forall i | j <= i < k :: !CameBack(ops, states, id, i)
    decreases k
  {
    if j < k {
      DeletedStaysDeletedIff(ops, states, j, k - 1, id);
      RunStaysSound(ops, states, k - 1);
      if Away(states[k - 1], id) {
        AwayNext(ops, states, k - 1, id);
      }
    }
  }

  lemma AwayNext(ops: seq<Op>, states: seq<Tables>, k: nat, id: string)
    requires Run(ops, states) && k < |ops| && Sound(states[k]) && Away(states[k], id)
    ensures Away(states[k + 1], id) <==> !CameBack(ops, states, id, k)
  {
    StepKeepsAwayIff(ops[k], states[k], states[k + 1], id);
  }

  /** As long as every upsert of its id can read the exclusion list, a permanently deleted session never comes back. */
  lemma DeletedStaysDeleted(ops: seq<Op>, states: seq<Tables>, j: nat, k: nat, id: string)
    requires Run(ops, states) && Sound(states[0]) && j <= k <= |ops|
    requires Away(states[j], id) && forall i | j <= i < k :: !BringsBack(ops[i], id)
    ensures Away(states[k], id)
  {
    DeletedStaysDeletedIff(ops, states, j, k, id);
  }

  /** A permanently deleted session, one upsert whose read of the exclusion list fails, and it is back. */
  lemma UnreadExclusionExample(s: NewSession)
    ensures var t, op := EMPTY.(excluded := {s.id}), Upsert(s, Guards(false, true));
      var u := UpsertRow(t, s);
      && Run([op], [t, u]) && Sound(t) && Searchable(t) && Separated(t) && Away(t, s.id)
      && !Separated(u) && s.id in u.sessions && s.id in u.excluded
  {
    var t := EMPTY.(excluded := {s.id});
    assert s.id in UpsertRow(t, s).sessions;
    assert Step(Upsert(s, Guards(false, true)), t, UpsertRow(t, s));
  }

  /** The writers. */
  ghost predicate IsWriter(op: Op) {
    op.Upsert? || (op.Batch? && AllComplete(op.writes))
  }

  /** An upsert of this id that did not get to read the trash mark. */
  ghost predicate Overwrites(op: Op, x: string) {
    op.Upsert? && !op.g.trashed && op.s.id == x
  }

  /** Still in the trash, with its messages; at most the parsed columns are other ones. */
  ghost predicate StaysInTrash(t: Tables, u: Tables, x: string)
    requires x in t.sessions
  {
    && x in u.sessions && u.sessions[x].(parsed := t.sessions[x].parsed) == t.sessions[x]
    && SameMessagesOf(t, u, x)
  }

  /** No writer takes a session out of the trash or touches its messages; the row changes exactly with such an upsert. */
  lemma WriterLeavesTrashIff(op: Op, t: Tables, u: Tables, x: string)
    requires Step(op, t, u) && IsWriter(op) && Trashed(t, x)
    ensures StaysInTrash(t, u, x) && Trashed(u, x)
    ensures u.sessions[x] == t.sessions[x] <==> !(Overwrites(op, x) && u != t)
  {
    if u != t && op.Batch? {
      var outcomes: seq<Outcome> :| |outcomes| == |op.writes| && u == Fold(t, op.writes, outcomes);
      BatchLeavesTrash(t, op.writes, outcomes, x);
    }
    if op.Upsert? && op.s.id == x {
      SameRowSameTables(t, op.s);
    }
  }

  lemma SameRowSameTables(t: Tables, s: NewSession)
    requires s.id in t.sessions
    ensures UpsertRow(t, s).sessions[s.id] == t.sessions[s.id] ==> UpsertRow(t, s) == t
  {
    if UpsertRow(t, s).sessions[s.id] == t.sessions[s.id] {
      assert UpsertRow(t, s).sessions == t.sessions;
    }
  }

  ghost predicate Overwrote(ops: seq<Op>, states: seq<Tables>, x: string, j: nat)
    requires j < |ops| < |states|
  {
    Overwrites(ops[j], x) && states[j + 1] != states[j]
  }

  /** Along a run of writers a trashed session stays in the trash with its messages. */
  lemma {:induction false} WritersKeepTrash(ops: seq<Op>, states: seq<Tables>, k: nat, x: string)
    requires Run(ops, states) && k <= |ops| && Trashed(states[0], x)
    requires forall j | 0 <= j < |ops| :: IsWriter(ops[j])
    ensures StaysInTrash(states[0], states[k], x) && Trashed(states[k], x)
  {
    if k > 0 {
      WritersKeepTrash(ops, states, k - 1, x);
      WriterLeavesTrashIff(ops[k - 1], states[k - 1], states[k], x);
      SameMessagesChain(states[0], states[k - 1], states[k], x);
    }
  }

  /** And its row is the same all the time exactly unless an upsert of it could not read the mark, and went through. */
  lemma {:induction false} WritersLeaveTrashIff(ops: seq<Op>, states: seq<Tables>, k: nat, x: string)
    requires Run(ops, states) && k <= |ops| && Trashed(states[0], x)
    requires forall j | 0 <= j < |ops| :: IsWriter(ops[j])
    ensures forall i | 0 <= i <= k :: x in states[i].sessions
    ensures (forall i | 0 <= i <= k :: states[i].sessions[x] == states[0].sessions[x])
       <==> forall j | 0 <= j < k :: !Overwrote(ops, states, x, j)
  {
    if k > 0 {
      WritersLeaveTrashIff(ops, states, k - 1, x);
      WritersKeepTrash(ops, states, k - 1, x);
      TrashNext(ops, states, k - 1, x);
    }
  }

  lemma TrashNext(ops: seq<Op>, states: seq<Tables>, k: nat, x: string)
    requires Run(ops, states) && k < |ops| && IsWriter(ops[k]) && Trashed(states[k], x)
    ensures x in states[k + 1].sessions
    ensures states[k + 1].sessions[x] == states[k].sessions[x] <==> !Overwrote(ops, states, x, k)
  {
    WriterLeavesTrashIff(ops[k], states[k], states[k + 1], x);
  }

  lemma WritersLeaveTrash(ops: seq<Op>, states: seq<Tables>, k: nat, x: string)
    requires Run(ops, states) && k <= |ops| && Trashed(states[0], x)
    requires forall j | 0 <= j < |ops| :: IsWriter(ops[j]) && !Overwrites(ops[j], x)
    ensures x in states[k].sessions && states[k].sessions[x] == states[0].sessions[x]
    ensures SameMessagesOf(states[0], states[k], x)
  {
    WritersKeepTrash(ops, states, k, x);
    WritersLeaveTrashIff(ops, states, k, x);
  }

  /** A trashed session, one upsert whose read of the mark fails, and its parsed columns are other ones. */
  lemma UnreadTrashExample(s: NewSession, row: SessionRow)
    requires row.deleted && row.parsed != s.parsed
    ensures var t, op := EMPTY.(sessions := map[s.id := row]), Upsert(s, Guards(true, false));
      var u := UpsertRow(t, s);
      && Run([op], [t, u]) && Sound(t) && Trashed(t, s.id) && s.id !in t.excluded
      && Trashed(u, s.id) && u.sessions[s.id] != t.sessions[s.id]
  {
    var t := EMPTY.(sessions := map[s.id := row]);
    assert Step(Upsert(s, Guards(true, false)), t, UpsertRow(t, s));
  }

  // -------------------------------------------------------------- imports are runs

  /** The upserts of an import, one for each conversation, with the guards that it could read. */
  ghost function Upserts(cs: seq<Search.Conversation>, events: seq<Search.Event>): seq<Op>
    requires |cs| == |events|
  {
    seq(|cs|, i requires 0 <= i < |cs| => Upsert(cs[i].session, events[i].guards))
  }

  /** The operations that an import with these upserts is made of. */
  ghost predicate ImportOps(ops: seq<Op>, upserts: seq<Op>) {
    forall k | 0 <= k < |ops| :: ops[k].DropIndex? || ops[k].Replace? || (ops[k].Upsert? && ops[k] in upserts)
  }

  lemma RunGoesOn(ops: seq<Op>, states: seq<Tables>, op: Op, u: Tables)
    requires Run(ops, states) && Step(op, states[|ops|], u)
    ensures Run(ops + [op], states + [u])
  {
    var ops', states' := ops + [op], states + [u];
    forall k | 0 <= k < |ops'|
      ensures Step(ops'[k], states'[k], states'[k + 1])
    {
      if k < |ops| {
        assert Step(ops[k], states[k], states[k + 1]);
      }
    }
  }

  /** What happens to one conversation is up to three operations, on top of a run. */
  lemma ConversationGoesOn(
    ops: seq<Op>, states: seq<Tables>, c: Search.Conversation, extent: string -> string, tries: bool, e: Search.Event, u: Tables, upserts: seq<Op>)
    returns (more: seq<Op>, through: seq<Tables>)
    requires Run(ops, states) && ImportOps(ops, upserts) && Search.Converts(states[|ops|], c, extent, tries, e, u)
    requires Upsert(c.session, e.guards) in upserts
    ensures Run(more, through) && ImportOps(more, upserts)
    ensures through[0] == states[0] && through[|more|] == u
  {
    var t := states[|ops|];
    more, through := ops, states;
    if Search.Refused(t, c, e, u) {
      return;
    }
    var row := UpsertRow(t, c.session);
    RunGoesOn(more, through, Upsert(c.session, e.guards), row);
    more, through := more + [Upsert(c.session, e.guards)], through + [row];
    if Search.Unchanged(t, c, extent, e, u) {
      return;
    }
    assert Search.Written(t, c, extent, tries, e, u);
    more, through := WriteGoesOn(more, through, t, c, extent, tries, e, u, upserts);
  }

  lemma WriteGoesOn(
    ops: seq<Op>, states: seq<Tables>, t: Tables, c: Search.Conversation, extent: string -> string, tries: bool, e: Search.Event, u: Tables, upserts: seq<Op>)
    returns (more: seq<Op>, through: seq<Tables>)
    requires Run(ops, states) && ImportOps(ops, upserts) && states[|ops|] == UpsertRow(t, c.session) && Search.Written(t, c, extent, tries, e, u)
    ensures Run(more, through) && ImportOps(more, upserts)
    ensures through[0] == states[0] && through[|more|] == u
  {
    more, through := ops, states;
    var v: Tables :| Search.Suspends(states[|ops|], tries, e.attempt, v) && Search.Replaces(t, v, c, e.status, u);
    if tries {
      RunGoesOn(more, through, DropIndex(e.attempt.value), v);
      more, through := more + [DropIndex(e.attempt.value)], through + [v];
    }
    RunGoesOn(more, through, Replace(c.session.id, c.messages), u);
    more, through := more + [Replace(c.session.id, c.messages)], through + [u];
  }

  /** So an import is a run, and everything that holds of runs holds of it. */
  lemma ImportIsARun(cs: seq<Search.Conversation>, extent: string -> string, inUse: bool, events: seq<Search.Event>, states: seq<Tables>, k: nat)
    returns (ops: seq<Op>, through: seq<Tables>)
    requires Search.ImportRun(cs, extent, inUse, events, states) && k <= |cs|
    ensures Run(ops, through) && ImportOps(ops, Upserts(cs, events))
    ensures through[0] == states[0] && through[|ops|] == states[k]
  {
    var upserts := Upserts(cs, events);
    ops, through := [], [states[0]];
    for i := 0 to k
      invariant Run(ops, through) && ImportOps(ops, upserts)
      invariant through[0] == states[0] && through[|ops|] == states[i]
    {
      assert Search.ConvertsAt(cs, extent, inUse, events, states, i);
      assert upserts[i] == Upsert(cs[i].session, events[i].guards);
      ops, through := ConversationGoesOn(
        ops, through, cs[i], extent, inUse && !Search.Dropped(events[..i]), events[i], states[i + 1], upserts);
    }
  }

  /** What a conversation does to the session rows. */
  lemma ConvertsRows(t: Tables, c: Search.Conversation, extent: string -> string, tries: bool, e: Search.Event, u: Tables)
    requires Search.Converts(t, c, extent, tries, e, u)
    ensures u == t || (LetsPass(t, c.session.id, e.guards) && u.sessions == UpsertRow(t, c.session).sessions)
    ensures u.excluded == t.excluded
  {
    if Search.Written(t, c, extent, tries, e, u) {
      var v: Tables :| Search.Suspends(UpsertRow(t, c.session), tries, e.attempt, v) && Search.Replaces(t, v, c, e.status, u);
      ReplacedKeepsSessions(v, c.session.id, c.messages);
    }
  }

  /** The conversation is the deleted session, and its import could not read the exclusion list, and changed something. */
  ghost predicate Reimported(cs: seq<Search.Conversation>, events: seq<Search.Event>, states: seq<Tables>, id: string, k: nat)
    requires k < |cs| == |events| < |states|
  {
    cs[k].session.id == id && !events[k].guards.excluded && states[k + 1] != states[k]
  }

  /** An import leaves a permanently deleted session away all the time, exactly unless that happens. */
  lemma {:induction false} ImportLeavesDeletedAwayIff(
    cs: seq<Search.Conversation>, extent: string -> string, inUse: bool, events: seq<Search.Event>, states: seq<Tables>, id: string, k: nat)
    requires Search.ImportRun(cs, extent, inUse, events, states) && Away(states[0], id) && k <= |cs|
    ensures (forall i | 0 <= i <= k :: Away(states[i], id)) <==> forall j | 0 <= j < k :: !Reimported(cs, events, states, id, j)
  {
    if k > 0 {
      ImportLeavesDeletedAwayIff(cs, extent, inUse, events, states, id, k - 1);
      if Away(states[k - 1], id) {
        ImportAwayNext(cs, extent, inUse, events, states, id, k - 1);
      }
    }
  }

  lemma ImportAwayNext(
    cs: seq<Search.Conversation>, extent: string -> string, inUse: bool, events: seq<Search.Event>, states: seq<Tables>, id: string, k: nat)
    requires Search.ImportRun(cs, extent, inUse, events, states) && k < |cs| && Away(states[k], id)
    ensures Away(states[k + 1], id) <==> !Reimported(cs, events, states, id, k)
  {
    assert Search.ConvertsAt(cs, extent, inUse, events, states, k);
    ConvertsRows(states[k], cs[k], extent, inUse && !Search.Dropped(events[..k]), events[k], states[k + 1]);
  }

  /** So it stays away if every guard of its own conversations could be read. */
  lemma ImportLeavesDeletedAway(
    cs: seq<Search.Conversation>, extent: string -> string, inUse: bool, events: seq<Search.Event>, states: seq<Tables>, id: string)
    requires Search.ImportRun(cs, extent, inUse, events, states) && Away(states[0], id)
    requires forall i | 0 <= i < |cs| && cs[i].session.id == id :: events[i].guards.excluded
    ensures Away(states[|cs|], id)
  {
    ImportLeavesDeletedAwayIff(cs, extent, inUse, events, states, id, |cs|);
  }

  // ------------------------------------------------------------------ a whole rebuild

  /**
   * Rebuilding into an empty database: exclusions and trash come first, then whatever the writers
   * do, then exclusions again with the purge, and last the sessions whose source files are gone.
   * found says whether the probe for the trash mark in the old database worked; if not, no trash is copied.
   */
  ghost predicate Rebuild(src: Tables, found: bool, ops: seq<Op>, states: seq<Tables>, purged: Tables, final: Tables) {
    && Run(ops, states)
    && (forall j | 0 <= j < |ops| :: IsWriter(ops[j]))
    && TrashCopied(WithExcludedOf(EMPTY, src), src, found, states[0])
    && purged == ExcludedRemoved(WithExcludedOf(states[|ops|], src))
    && IsCopied(purged, src, OrphanedIDs(purged, src), final)
  }

  /** Nothing of the old database is lost, deleted sessions stay deleted, and search works, whatever guards were read. */
  lemma RebuildLosesNothing(src: Tables, found: bool, ops: seq<Op>, states: seq<Tables>, purged: Tables, final: Tables)
    requires Sound(src) && Rebuild(src, found, ops, states, purged, final)
    ensures Sound(final) && Searchable(final) && Separated(final)
    ensures forall id | id in src.excluded :: id !in final.sessions
    ensures final.excluded == src.excluded
    ensures forall id | id in src.sessions && id !in src.excluded :: id in final.sessions
  {
    var first := WithExcludedOf(EMPTY, src);
    if found {
      IsCopiedKeeps(first, src, OldTrashIDs(first, src), states[0]);
    }
    RunKeepsSearch(ops, states, |ops|);
    WritersKeepExclusions(ops, states, |ops|);
    LastStepsLoseNothing(src, states[|ops|], purged, final);
  }

  lemma LastStepsLoseNothing(src: Tables, t: Tables, purged: Tables, final: Tables)
    requires Sound(src) && Sound(t) && Searchable(t) && t.excluded == src.excluded
    requires purged == ExcludedRemoved(WithExcludedOf(t, src)) && IsCopied(purged, src, OrphanedIDs(purged, src), final)
    ensures Sound(final) && Searchable(final) && Separated(final)
    ensures forall id | id in src.excluded :: id !in final.sessions
    ensures final.excluded == src.excluded
    ensures forall id | id in src.sessions && id !in src.excluded :: id in final.sessions
  {
    assert WithExcludedOf(t, src) == t;
    SessionDeleteKeepsSound(t, t.excluded);
    SessionDeleteKeepsSearch(t, t.excluded);
    OrphanCopyCoversTheSource(purged, src, final);
    IsCopiedKeeps(purged, src, OrphanedIDs(purged, src), final);
  }

  lemma {:induction false} WritersKeepExclusions(ops: seq<Op>, states: seq<Tables>, k: nat)
    requires Run(ops, states) && k <= |ops| && Sound(states[0])
    requires forall j | 0 <= j < |ops| :: IsWriter(ops[j])
    ensures states[k].excluded == states[0].excluded
  {
    if k > 0 {
      WritersKeepExclusions(ops, states, k - 1);
      RunStaysSound(ops, states, k - 1);
      match ops[k - 1]
      case Upsert(s, g) =>
      case Batch(writes) =>
        if states[k] != states[k - 1] {
          var outcomes: seq<Outcome> :| |outcomes| == |writes| && states[k] == Fold(states[k - 1], writes, outcomes);
          FoldKeepsExclusions(states[k - 1], writes, outcomes);
        }
    }
  }

  lemma {:induction false} FoldKeepsExclusions(t: Tables, writes: seq<Write>, outcomes: seq<Outcome>)
    requires |writes| == |outcomes|
    ensures Fold(t, writes, outcomes).excluded == t.excluded
  {
    if writes != [] {
      var n := |writes| - 1;
      FoldKeepsExclusions(t, writes[..n], outcomes[..n]);
      var u := Fold(t, writes[..n], outcomes[..n]);
      if outcomes[n].Wrote? && CanWrite(u, writes[n]) {
        WrittenShape(u, writes[n]);
      }
    }
  }

  /**
   * The user's trash survives a rebuild that found it: the marked row and the messages, whatever was parsed.
   * Its parsed columns do if no upsert of it failed to read the mark.
   */
  lemma RebuildKeepsTrash(src: Tables, ops: seq<Op>, states: seq<Tables>, purged: Tables, final: Tables, x: string)
    requires Sound(src) && Rebuild(src, true, ops, states, purged, final)
    requires Trashed(src, x) && x !in src.excluded
    ensures x in final.sessions && final.sessions[x].(parsed := src.sessions[x].parsed) == src.sessions[x]
    ensures (forall j | 0 <= j < |ops| :: !Overwrites(ops[j], x)) ==> final.sessions[x] == src.sessions[x]
    ensures forall row: MessageRow | row.sessionID == x ::
      row in final.messages.Values <==> row in src.messages.Values
  {
    var first := WithExcludedOf(EMPTY, src);
    var trash := OldTrashIDs(first, src);
    assert x in trash;
    IsCopiedKeeps(first, src, trash, states[0]);
    assert states[0].excluded == src.excluded;
    RunKeepsSearch(ops, states, |ops|);
    WritersKeepTrash(ops, states, |ops|, x);
    if forall j | 0 <= j < |ops| :: !Overwrites(ops[j], x) {
      WritersLeaveTrash(ops, states, |ops|, x);
    }
    WritersKeepExclusions(ops, states, |ops|);
    RebuildTail(src, states[|ops|], purged, final, x);
    CopiedRowValues(first, src, trash, states[0], x);
    forall row: MessageRow | row.sessionID == x
      ensures row in final.messages.Values <==> row in src.messages.Values
    {
      SameMessagesSameValues(states[0], final, x, row);
    }
  }

  lemma RebuildTail(src: Tables, t: Tables, purged: Tables, final: Tables, x: string)
    requires Sound(src) && Sound(t) && t.excluded == src.excluded && x !in src.excluded && x in t.sessions
    requires purged == ExcludedRemoved(WithExcludedOf(t, src))
    requires IsCopied(purged, src, OrphanedIDs(purged, src), final)
    ensures x in final.sessions && final.sessions[x] == t.sessions[x]
    ensures SameMessagesOf(t, final, x)
  {
    assert WithExcludedOf(t, src) == t;
    PurgeLeavesOthers(t, x);
    OrphansLeaveOthers(purged, src, final, x);
    SameMessagesChain(t, purged, final, x);
  }

  lemma PurgeLeavesOthers(t: Tables, x: string)
    requires Sound(t) && x !in t.excluded && x in t.sessions
    ensures var u := ExcludedRemoved(t);
      Sound(u) && x in u.sessions && u.sessions[x] == t.sessions[x] && SameMessagesOf(t, u, x)
  {
    SessionDeleteKeepsSound(t, t.excluded);
  }

  lemma OrphansLeaveOthers(t: Tables, src: Tables, u: Tables, x: string)
    requires Sound(src) && Sound(t) && x in t.sessions && IsCopied(t, src, OrphanedIDs(t, src), u)
    ensures x in u.sessions && u.sessions[x] == t.sessions[x] && SameMessagesOf(t, u, x)
  {
    var ids := OrphanedIDs(t, src);
    IsCopiedKeeps(t, src, ids, u);
    if ids != {} {
      EveryMessageIsCopiedOnce(t, src, ids, u);
      forall id | id in u.messages && id !in t.messages
        ensures u.messages[id].sessionID != x
      {
        var m :| m in IDsOfAll(src, ids) && IsCopyOf(t, src, u, m, id);
      }
    }
  }

  lemma CopiedRowValues(t: Tables, src: Tables, ids: set<string>, u: Tables, x: string)
    requires Sound(t) && Sound(src) && ids <= src.sessions.Keys && x in ids && x !in t.sessions && IsCopied(t, src, ids, u)
    ensures forall row: MessageRow | row.sessionID == x :: row in u.messages.Values <==> row in src.messages.Values
  {
    EveryMessageIsCopiedOnce(t, src, ids, u);
    forall row: MessageRow | row.sessionID == x
      ensures row in u.messages.Values <==> row in src.messages.Values
    {
      if row in src.messages.Values {
        var m :| m in src.messages && src.messages[m] == row;
        assert m in IDsOfAll(src, ids);
        var id :| IsCopyOf(t, src, u, m, id);
      }
      if row in u.messages.Values {
        var id :| id in u.messages && u.messages[id] == row;
        assert id !in t.messages;
        var m :| m in IDsOfAll(src, ids) && IsCopyOf(t, src, u, m, id);
      }
    }
  }

  lemma SameMessagesSameValues(t: Tables, u: Tables, x: string, row: MessageRow)
    requires SameMessagesOf(t, u, x) && row.sessionID == x
    ensures row in t.messages.Values <==> row in u.messages.Values
  {
    if row in t.messages.Values {
      var id :| id in t.messages && t.messages[id] == row;
      assert u.messages[id] == row;
    }
    if row in u.messages.Values {
      var id :| id in u.messages && u.messages[id] == row;
      assert t.messages[id] == row;
    }
  }
}
