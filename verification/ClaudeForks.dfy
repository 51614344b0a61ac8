/** What becomes of every entry at a fork point, in plain numbers (internal/parser/claude.go). */
module ClaudeForks {
  // Three user entries below the first child are still a retry; four make a fork.

  import opened Common
  import opened Ordering
  import opened ClaudeDag

  /** The user entries that hang off c, c included. */
  ghost function UsersBelow(es: seq<Entry>, c: nat): set<nat> {
    set i: nat | i < |es| && es[i].entryType == User && exists k: nat :: Up(es, i, k) == c
  }

  lemma UsersBelowAreTurns(es: seq<Entry>, c: nat)
    ensures |UsersBelow(es, c)| == UserTurns(es, c)
  {
    assert UsersBelow(es, c) == UsersIn(es, Subtree(es, c));
  }

  /** The child that the branch goes on with. */
  ghost function Chosen(es: seq<Entry>, i: nat): nat
    requires i < |es| && Kids(es, i) != []
  {
    var kids := Kids(es, i);
    if |kids| >= 2 && |UsersBelow(es, kids[0])| <= 3 then kids[|kids| - 1] else kids[0]
  }

  ghost predicate TakesTheRule(es: seq<Entry>, path: seq<nat>) {
    && path != []
    && (forall j | 0 <= j < |path| :: path[j] < |es|)
    && (forall j | 0 <= j < |path| - 1 :: Kids(es, path[j]) != [] && path[j + 1] == Chosen(es, path[j]))
    && Kids(es, path[|path| - 1]) == []
  }

  lemma ChosenIsNext(es: seq<Entry>, i: nat)
    requires i < |es| && Kids(es, i) != []
    ensures Chosen(es, i) == NextOnBranch(es, i)
  {
    UsersBelowAreTurns(es, Kids(es, i)[0]);
  }

  lemma RuleIsFollowed(es: seq<Entry>, path: seq<nat>)
    requires FollowsRule(es, path)
    ensures TakesTheRule(es, path)
  {
    forall j | 0 <= j < |path| - 1
      ensures path[j + 1] == Chosen(es, path[j])
    {
      ChosenIsNext(es, path[j]);
    }
  }

  /** Every branch goes from where it starts down to a leaf: to the last child after at most three user entries, to the first one otherwise. */
  lemma BranchesTakeTheRule(es: seq<Entry>, sid: string)
    requires DistinctUuids(es) && Connected(es)
    ensures var r := MainWalk(es, sid);
      && TakesTheRule(es, r.path) && es[r.path[0]].parentUuid == ""
      && forall f | f in r.forks :: TakesTheRule(es, f.indices)
  {
    RootIsRooted(es);
    WalkShape(es, sid, Root(es), sid);
    var r := MainWalk(es, sid);
    RuleIsFollowed(es, r.path);
    forall f | f in r.forks
      ensures TakesTheRule(es, f.indices)
    {
      RuleIsFollowed(es, f.indices);
    }
  }

  // ------------------------------------------------------------------ where things lie

  lemma {:induction false} ForkCounts(forks: seq<Branch>, f: Branch, i: nat)
    requires f in forks && i in f.indices
    ensures TallyBranches(forks, i) >= 1
  {
    var n := |forks| - 1;
    assert forks == forks[..n] + [forks[n]];
    if f in forks[..n] {
      ForkCounts(forks[..n], f, i);
    } else {
      assert i in multiset(f.indices);
    }
  }

  lemma {:induction false} CountedOnFork(forks: seq<Branch>, i: nat)
    requires TallyBranches(forks, i) >= 1
    ensures exists f :: f in forks && i in f.indices
  {
    var n := |forks| - 1;
    if multiset(forks[n].indices)[i] >= 1 {
      assert i in multiset(forks[n].indices) && forks[n] in forks;
    } else {
      CountedOnFork(forks[..n], i);
      var f :| f in forks[..n] && i in f.indices;
      assert f in forks;
    }
  }

  lemma {:induction false} DropCounts(es: seq<Entry>, dropped: seq<nat>, d: nat, i: nat)
    requires d in dropped && i in Subtree(es, d)
    ensures TallyDropped(es, dropped, i) >= 1
  {
    var n := |dropped| - 1;
    assert dropped == dropped[..n] + [dropped[n]];
    if d in dropped[..n] {
      DropCounts(es, dropped[..n], d, i);
    }
  }

  lemma {:induction false} CountedBelowDrop(es: seq<Entry>, dropped: seq<nat>, i: nat)
    requires TallyDropped(es, dropped, i) >= 1
    ensures exists d :: d in dropped && i in Subtree(es, d)
  {
    var n := |dropped| - 1;
    if i in Subtree(es, dropped[n]) {
      assert dropped[n] in dropped;
    } else {
      CountedBelowDrop(es, dropped[..n], i);
      var d :| d in dropped[..n] && i in Subtree(es, d);
      assert d in dropped;
    }
  }

  /** An entry on a branch is below no dropped child. */
  lemma OnBranchNotDropped(es: seq<Entry>, sid: string, p: nat, d: nat)
    requires DistinctUuids(es) && Connected(es) && OnAny(MainWalk(es, sid), p)
    requires d in MainWalk(es, sid).dropped
    ensures p !in Subtree(es, d)
  {
    var r := MainWalk(es, sid);
    RootIsRooted(es);
    WalkConserves(es, sid, Root(es), sid, p);
    if p in Subtree(es, d) {
      DropCounts(es, r.dropped, d, p);
    }
    if p in r.path {
      assert p in multiset(r.path);
    } else {
      var f :| f in r.forks && p in f.indices;
      ForkCounts(r.forks, f, p);
    }
  }

  /** A child of an entry on a branch is on a branch itself, or below a dropped child. */
  lemma KidIsSomewhere(es: seq<Entry>, sid: string, p: nat, c: nat)
    requires DistinctUuids(es) && Connected(es) && OnAny(MainWalk(es, sid), p) && p < |es| && c in Kids(es, p)
    ensures OnAny(MainWalk(es, sid), c) || exists d :: d in MainWalk(es, sid).dropped && c in Subtree(es, d)
  {
    var r := MainWalk(es, sid);
    RootIsRooted(es);
    BranchIsBelowRoot(es, sid, p);
    KidNamesParent(es, p, c);
    var k: nat :| Up(es, p, k) == Root(es);
    assert Up(es, c, k + 1) == Root(es);
    WalkConserves(es, sid, Root(es), sid, c);
    if TallyBranches(r.forks, c) >= 1 {
      CountedOnFork(r.forks, c);
    } else if TallyDropped(es, r.dropped, c) >= 1 {
      CountedBelowDrop(es, r.dropped, c);
    } else {
      assert c in multiset(r.path);
    }
  }

  lemma BranchIsBelowRoot(es: seq<Entry>, sid: string, p: nat)
    requires DistinctUuids(es) && Connected(es) && OnAny(MainWalk(es, sid), p)
    ensures p in Subtree(es, Root(es))
  {
    var r := MainWalk(es, sid);
    RootIsRooted(es);
    WalkConserves(es, sid, Root(es), sid, p);
    if p in r.path {
      assert p in multiset(r.path);
    } else {
      var f :| f in r.forks && p in f.indices;
      ForkCounts(r.forks, f, p);
    }
  }

  /** On a branch every entry but the first was chosen by its parent. */
  lemma ChosenOrFirst(es: seq<Entry>, path: seq<nat>, c: nat, p: nat)
    requires DistinctUuids(es) && FollowsRule(es, path) && c in path && p < |es| && c in Kids(es, p)
    ensures c == path[0] || c == NextOnBranch(es, p)
  {
    var j :| 0 <= j < |path| && path[j] == c;
    if j > 0 {
      assert path[j - 1 + 1] == NextOnBranch(es, path[j - 1]);
      KidNamesParent(es, path[j - 1], c);
      KidNamesParent(es, p, c);
    }
  }

  /** A child that is not chosen starts a fork or is dropped. */
  lemma NotChosen(es: seq<Entry>, sid: string, p: nat, c: nat)
    requires DistinctUuids(es) && Connected(es) && p < |es| && OnAny(MainWalk(es, sid), p)
    requires c in Kids(es, p) && c != NextOnBranch(es, p)
    ensures Heads(MainWalk(es, sid), c) || c in MainWalk(es, sid).dropped
  {
    var r := MainWalk(es, sid);
    RootIsRooted(es);
    WalkShape(es, sid, Root(es), sid);
    KidIsSomewhere(es, sid, p, c);
    KidNamesParent(es, p, c);
    if c in r.path {
      ChosenOrFirst(es, r.path, c, p);
    } else if f :| f in r.forks && c in f.indices {
      ChosenOrFirst(es, f.indices, c, p);
    } else {
      var d :| d in r.dropped && c in Subtree(es, d);
      DroppedItself(es, sid, p, c, d);
    }
  }

  lemma DroppedItself(es: seq<Entry>, sid: string, p: nat, c: nat, d: nat)
    requires DistinctUuids(es) && Connected(es) && p < |es| && OnAny(MainWalk(es, sid), p) && c in Kids(es, p)
    requires d in MainWalk(es, sid).dropped && c in Subtree(es, d)
    ensures c == d
  {
    KidBelow(es, p, c, d);
    OnBranchNotDropped(es, sid, p, d);
  }

  lemma KidBelow(es: seq<Entry>, p: nat, c: nat, d: nat)
    requires DistinctUuids(es) && p < |es| && c in Kids(es, p) && c in Subtree(es, d)
    ensures c == d || p in Subtree(es, d)
  {
    KidNamesParent(es, p, c);
    var k: nat :| Up(es, c, k) == d;
    if k > 0 {
      assert Up(es, p, k - 1) == d;
    }
  }

  /** The entry starts a fork. */
  ghost predicate Heads(r: WalkResult, h: nat) {
    exists f :: f in r.forks && f.indices != [] && f.indices[0] == h
  }

  /** The parent of c, which is on a branch. */
  ghost predicate ComesOff(es: seq<Entry>, sid: string, p: nat, c: nat)
    requires DistinctUuids(es) && Connected(es)
  {
    p < |es| && c in Kids(es, p) && OnAny(MainWalk(es, sid), p)
  }

  // -------------------------------------------------------------------- main results

  /**
   * The forks, exactly: an entry starts one if and only if it comes off a branch behind a first sibling
   * with at least four user entries below it.
   */
  lemma StartsAForkIff(es: seq<Entry>, sid: string, h: nat)
    requires DistinctUuids(es) && Connected(es)
    ensures Heads(MainWalk(es, sid), h) <==>
      exists p :: ComesOff(es, sid, p, h) && h != Kids(es, p)[0] && |UsersBelow(es, Kids(es, p)[0])| >= 4
  {
    var r := MainWalk(es, sid);
    RootIsRooted(es);
    WalkShape(es, sid, Root(es), sid);
    if f :| f in r.forks && f.indices != [] && f.indices[0] == h {
      var p := Parent(es, h);
      KidNamesParent(es, p, h);
      UsersBelowAreTurns(es, Kids(es, p)[0]);
      BranchOfParent(es, sid, f);
      assert ComesOff(es, sid, p, h);
    }
    if p :| ComesOff(es, sid, p, h) && h != Kids(es, p)[0] && |UsersBelow(es, Kids(es, p)[0])| >= 4 {
      UsersBelowAreTurns(es, Kids(es, p)[0]);
      NotChosen(es, sid, p, h);
      KidNamesParent(es, p, h);
    }
  }

  lemma BranchOfParent(es: seq<Entry>, sid: string, f: Branch)
    requires DistinctUuids(es) && Connected(es) && f in MainWalk(es, sid).forks && f.indices != [] && f.indices[0] < |es|
    ensures OnAny(MainWalk(es, sid), Parent(es, f.indices[0]))
  {
    var r := MainWalk(es, sid);
    RootIsRooted(es);
    WalkShape(es, sid, Root(es), sid);
    var p := Parent(es, f.indices[0]);
    assert OnBranch(es, sid, r, sid, p, f.parentID);
    if p !in r.path {
      var g :| g in r.forks && g.indices != [] && g.indices[0] < |es| && p in g.indices && f.parentID == ForkID(es, sid, g.indices[0]);
    }
  }

  /**
   * The dropped children, exactly: those that come off a branch before the last sibling when the first one
   * has at most three user entries below it.
   */
  lemma IsDroppedIff(es: seq<Entry>, sid: string, c: nat)
    requires DistinctUuids(es) && Connected(es)
    ensures c in MainWalk(es, sid).dropped <==>
      exists p :: ComesOff(es, sid, p, c) && c != Kids(es, p)[|Kids(es, p)| - 1] && |UsersBelow(es, Kids(es, p)[0])| <= 3
  {
    var r := MainWalk(es, sid);
    RootIsRooted(es);
    WalkShape(es, sid, Root(es), sid);
    if c in r.dropped {
      var p := Parent(es, c);
      KidNamesParent(es, p, c);
      UsersBelowAreTurns(es, Kids(es, p)[0]);
      assert ComesOff(es, sid, p, c);
    }
    if p :| ComesOff(es, sid, p, c) && c != Kids(es, p)[|Kids(es, p)| - 1] && |UsersBelow(es, Kids(es, p)[0])| <= 3 {
      UsersBelowAreTurns(es, Kids(es, p)[0]);
      TwoKids(es, p, c);
      NotChosen(es, sid, p, c);
      KidNamesParent(es, p, c);
    }
  }

  lemma TwoKids(es: seq<Entry>, p: nat, c: nat)
    requires p < |es| && c in Kids(es, p) && c != Kids(es, p)[|Kids(es, p)| - 1]
    ensures |Kids(es, p)| >= 2
  {
  }

  // -------------------------------------------------------------------- a retried prompt

  /** n turns and then the first one again: the prompt was retried. */
  ghost predicate RetryFile(es: seq<Entry>, n: nat) {
    && |es| == n + 2 && n >= 1 && DistinctUuids(es) && es[0].parentUuid == ""
    && (forall i | 0 <= i < |es| :: es[i].entryType == User)
    && (forall i | 1 <= i <= n :: es[i].parentUuid == es[i - 1].uuid)
    && es[n + 1].parentUuid == es[0].uuid
  }

  /** An ascending list is determined by what is in it. */
  lemma AscendingIsItsSet(s: seq<nat>, t: seq<nat>)
    requires Ascending(s) && Ascending(t) && forall x :: x in s <==> x in t
    ensures s == t
  {
    var le := (a: nat, b: nat) => a <= b;
    assert NoDuplicates(s) && NoDuplicates(t);
    DistinctIsItsSet(s);
    DistinctIsItsSet(t);
    assert (set x | x in s) == (set x | x in t);
    SortedIsUnique(s, t, le);
  }

  /** What continues the entry i. */
  ghost function RetryKids(n: nat, i: nat): seq<nat> {
    if i == 0 then [1, n + 1] else if i < n then [i + 1] else []
  }

  lemma RetryKid(es: seq<Entry>, n: nat, i: nat, c: nat)
    requires RetryFile(es, n) && i < |es| && c < |es|
    ensures es[c].parentUuid == es[i].uuid <==> c in RetryKids(n, i)
    ensures es[c].parentUuid == "" <==> c == 0
  {
    var p := if c == n + 1 then 0 else c - 1;
    if c > 0 {
      assert es[c].parentUuid == es[p].uuid != "";
      assert es[p].uuid == es[i].uuid <==> p == i;
    }
    assert es[i].uuid != "";
  }

  lemma KidsOfRetry(es: seq<Entry>, n: nat, i: nat)
    requires RetryFile(es, n) && i < |es|
    ensures Kids(es, i) == RetryKids(n, i)
  {
    KidsAscend(es, es[i].uuid, |es|);
    forall c: nat
      ensures c in Kids(es, i) <==> c in RetryKids(n, i)
    {
      if c < |es| {
        RetryKid(es, n, i, c);
      }
    }
    AscendingIsItsSet(Kids(es, i), RetryKids(n, i));
  }

  lemma RetryParents(es: seq<Entry>, n: nat, i: nat)
    requires RetryFile(es, n) && i < |es|
    ensures Parent(es, i) == if i == n + 1 then 0 else i - 1
  {
    RetryKid(es, n, 0, i);
    if i > 0 {
      assert Names(es, if i == n + 1 then 0 else i - 1, i);
    }
  }

  lemma {:induction false} RetryChains(es: seq<Entry>, n: nat, i: nat, k: nat)
    requires RetryFile(es, n) && i < |es|
    ensures Up(es, i, k) == 1 <==> 1 <= i <= n && k == i - 1
    decreases k
  {
    RetryParents(es, n, i);
    if k > 0 {
      if i == 0 {
        UpFromNowhere(es, k - 1);
      } else {
        RetryChains(es, n, Parent(es, i), k - 1);
      }
    }
  }

  ghost function UpTo(n: nat): (s: set<nat>)
    ensures forall i: nat {:trigger i in s} :: i in s <==> 1 <= i <= n
  {
    if n == 0 then {} else UpTo(n - 1) + {n}
  }

  lemma {:induction false} SizeUpTo(n: nat)
    ensures |UpTo(n)| == n
  {
    if n > 0 {
      SizeUpTo(n - 1);
    }
  }

  lemma RetryTurns(es: seq<Entry>, n: nat)
    requires RetryFile(es, n)
    ensures |UsersBelow(es, 1)| == n
  {
    forall i: nat
      ensures i in UsersBelow(es, 1) <==> i in UpTo(n)
    {
      if i < |es| {
        if 1 <= i <= n {
          RetryChains(es, n, i, i - 1);
        }
        if k: nat :| Up(es, i, k) == 1 {
          RetryChains(es, n, i, k);
        }
      }
    }
    assert UsersBelow(es, 1) == UpTo(n);
    SizeUpTo(n);
  }

  /** The rule, spelled out for this file. */
  lemma RetryChoice(es: seq<Entry>, n: nat, i: nat)
    requires RetryFile(es, n) && i < n
    ensures Kids(es, i) != [] && Chosen(es, i) == if i == 0 && n <= 3 then n + 1 else i + 1
  {
    KidsOfRetry(es, n, i);
    RetryTurns(es, n);
  }

  lemma RetryIsConnected(es: seq<Entry>, n: nat)
    requires RetryFile(es, n)
    ensures Connected(es) && Root(es) == 0
  {
    KidsAscend(es, "", |es|);
    forall c: nat
      ensures c in KidsBelow(es, "", |es|) <==> c in [0]
    {
      if c < |es| {
        RetryKid(es, n, 0, c);
      }
    }
    AscendingIsItsSet(KidsBelow(es, "", |es|), [0]);
    forall i | 0 <= i < |es| && es[i].parentUuid != ""
      ensures exists j :: Names(es, j, i)
    {
      assert Names(es, if i == n + 1 then 0 else i - 1, i);
    }
  }

  lemma {:induction false} StraightPath(es: seq<Entry>, n: nat, path: seq<nat>, j: nat)
    requires RetryFile(es, n) && n >= 4 && TakesTheRule(es, path) && path[0] == 0 && j < |path|
    ensures path[j] == j && j <= n
  {
    if j > 0 {
      StraightPath(es, n, path, j - 1);
      KidsOfRetry(es, n, j - 1);
      assert path[j - 1 + 1] == Chosen(es, path[j - 1]);
      RetryChoice(es, n, j - 1);
    }
  }

  lemma LongRetryPath(es: seq<Entry>, n: nat, path: seq<nat>)
    requires RetryFile(es, n) && n >= 4 && TakesTheRule(es, path) && path[0] == 0
    ensures path == seq(n + 1, i requires 0 <= i => i)
  {
    forall j | 0 <= j < |path|
      ensures path[j] == j <= n
    {
      StraightPath(es, n, path, j);
    }
    KidsOfRetry(es, n, |path| - 1);
    assert path[|path| - 1] == |path| - 1;
  }

  lemma ShortRetryPath(es: seq<Entry>, n: nat, path: seq<nat>)
    requires RetryFile(es, n) && n <= 3 && TakesTheRule(es, path) && path[0] == 0
    ensures path == [0, n + 1]
  {
    KidsOfRetry(es, n, 0);
    KidsOfRetry(es, n, n + 1);
    RetryChoice(es, n, 0);
    assert |path| > 1 && path[0 + 1] == Chosen(es, path[0]);
    assert Kids(es, path[1]) == [];
  }

  /** Only the retry can come off a branch behind four turns. */
  lemma OnlyTheRetry(es: seq<Entry>, n: nat, p: nat, h: nat)
    requires RetryFile(es, n) && p < |es| && h in Kids(es, p) && h != Kids(es, p)[0]
    ensures p == 0 && h == n + 1 && Kids(es, p)[0] == 1 && Kids(es, h) == []
  {
    KidsOfRetry(es, n, p);
    KidsOfRetry(es, n, n + 1);
  }

  lemma RetryFork(es: seq<Entry>, sid: string, n: nat, f: Branch)
    requires RetryFile(es, n) && Connected(es) && f in MainWalk(es, sid).forks
    ensures n >= 4 && f.indices == [n + 1]
  {
    BranchesTakeTheRule(es, sid);
    var h := f.indices[0];
    assert Heads(MainWalk(es, sid), h);
    StartsAForkIff(es, sid, h);
    var p :| ComesOff(es, sid, p, h) && h != Kids(es, p)[0] && |UsersBelow(es, Kids(es, p)[0])| >= 4;
    OnlyTheRetry(es, n, p, h);
    RetryTurns(es, n);
  }

  lemma RetryOwner(es: seq<Entry>, sid: string, n: nat, f: Branch)
    requires RetryFile(es, n) && Connected(es) && f in MainWalk(es, sid).forks && f.indices == [n + 1]
    ensures f.parentID == sid
  {
    RetryParents(es, n, n + 1);
    RootIsRooted(es);
    WalkShape(es, sid, Root(es), sid);
    var r := MainWalk(es, sid);
    assert OnBranch(es, sid, r, sid, Parent(es, f.indices[0]), f.parentID);
    forall g | g in r.forks
      ensures 0 !in g.indices
    {
      RetryFork(es, sid, n, g);
    }
  }

  lemma {:induction false} AllHold(forks: seq<Branch>, i: nat)
    requires forall f | f in forks :: i in f.indices
    ensures TallyBranches(forks, i) >= |forks|
  {
    if forks != [] {
      var n := |forks| - 1;
      AllHold(forks[..n], i);
      assert forks[n] in forks && i in multiset(forks[n].indices);
    }
  }

  lemma RetryForks(es: seq<Entry>, sid: string, n: nat)
    requires RetryFile(es, n) && Connected(es)
    ensures MainWalk(es, sid).forks == if n <= 3 then [] else [Branch([n + 1], sid)]
  {
    var r := MainWalk(es, sid);
    forall f | f in r.forks
      ensures n >= 4 && f == Branch([n + 1], sid)
    {
      RetryFork(es, sid, n, f);
      RetryOwner(es, sid, n, f);
    }
    assert r.forks != [] ==> r.forks[0] in r.forks;
    if n >= 4 {
      AllHold(r.forks, n + 1);
      OneFork(es, sid, n);
    }
  }

  lemma OneFork(es: seq<Entry>, sid: string, n: nat)
    requires RetryFile(es, n) && n >= 4 && Connected(es)
    ensures MainWalk(es, sid).forks != [] && TallyBranches(MainWalk(es, sid).forks, n + 1) <= 1
  {
    RetryStartsAFork(es, sid, n);
    AtMostOnce(es, sid, n + 1);
  }

  lemma AtMostOnce(es: seq<Entry>, sid: string, i: nat)
    requires DistinctUuids(es) && Connected(es)
    ensures TallyBranches(MainWalk(es, sid).forks, i) <= 1
  {
    RootIsRooted(es);
    WalkConserves(es, sid, Root(es), sid, i);
  }

  lemma RetryStartsAFork(es: seq<Entry>, sid: string, n: nat)
    requires RetryFile(es, n) && n >= 4 && Connected(es)
    ensures Heads(MainWalk(es, sid), n + 1)
  {
    MainStarts(es, sid, n);
    KidsOfRetry(es, n, 0);
    RetryTurns(es, n);
    assert ComesOff(es, sid, 0, n + 1);
    StartsAForkIff(es, sid, n + 1);
  }

  lemma MainStarts(es: seq<Entry>, sid: string, n: nat)
    requires RetryFile(es, n) && Connected(es)
    ensures MainWalk(es, sid).path != [] && MainWalk(es, sid).path[0] == 0 && 0 in MainWalk(es, sid).path
  {
    RetryIsConnected(es, n);
    RootIsRooted(es);
    WalkShape(es, sid, 0, sid);
  }

  /**
   * A prompt that was retried after n turns: up to three of them are dropped, and the file is one session;
   * four or more stay the main session, and the retry becomes a fork of it.
   */
  lemma RetriedPromptSessions(es: seq<Entry>, sid: string, parentSID: string, n: nat, out: seq<DagSession>)
    requires RetryFile(es, n) && Connected(es) && SessionsOf(es, sid, parentSID, MainWalk(es, sid), out)
    ensures n <= 3 ==> out == [DagSession(sid, parentSID, false, [0, n + 1])]
    ensures n >= 4 ==> out == [DagSession(sid, parentSID, false, seq(n + 1, i requires 0 <= i => i)),
                               DagSession(sid + "-" + es[n + 1].uuid, sid, true, [n + 1])]
  {
    RetryForks(es, sid, n);
    BranchesTakeTheRule(es, sid);
    MainStarts(es, sid, n);
    if n <= 3 {
      ShortRetryPath(es, n, MainWalk(es, sid).path);
    } else {
      LongRetryPath(es, n, MainWalk(es, sid).path);
      assert out[0 + 1] == ToSession(es, sid, MainWalk(es, sid).forks[0]);
    }
  }

  // ------------------------------------------------------------- the order of the forks

  /** They part at p: a hangs off a later child, b off one after that, or off the first, with which the branch goes on. */
  ghost predicate PartAt(es: seq<Entry>, a: nat, b: nat, p: nat, c: nat, d: nat) {
    && p < |es| && c in Kids(es, p) && d in Kids(es, p) && c != Kids(es, p)[0] && (c < d || d == Kids(es, p)[0])
    && a in Subtree(es, c) && b in Subtree(es, d)
  }

  /** What hangs off b comes before b; else it counts where they part. */
  ghost predicate ComesBefore(es: seq<Entry>, a: nat, b: nat) {
    (a in Subtree(es, b) && a != b) || exists p, c, d :: PartAt(es, a, b, p, c, d)
  }

  ghost predicate ForkBefore(es: seq<Entry>, f: Branch, g: Branch) {
    f.indices != [] && g.indices != [] && ComesBefore(es, f.indices[0], g.indices[0])
  }

  ghost predicate InOrder(es: seq<Entry>, forks: seq<Branch>) {
    forall i, j | 0 <= i < j < |forks| :: ForkBefore(es, forks[i], forks[j])
  }

  lemma JoinInOrder(es: seq<Entry>, a: seq<Branch>, b: seq<Branch>)
    requires InOrder(es, a) && InOrder(es, b) && forall f, g | f in a && g in b :: ForkBefore(es, f, g)
    ensures InOrder(es, a + b)
  {
    var all := a + b;
    forall i, j | 0 <= i < j < |all|
      ensures ForkBefore(es, all[i], all[j])
    {
      if i < |a| && j >= |a| {
        assert a[i] in a && b[j - |a|] in b;
      }
    }
  }

  /** The forks start below s, but not at s. */
  ghost predicate HeadsBelow(es: seq<Entry>, s: nat, forks: seq<Branch>) {
    forall f | f in forks :: f.indices != [] && f.indices[0] in Subtree(es, s) && f.indices[0] != s
  }

  ghost predicate HeadsUnder(es: seq<Entry>, kids: seq<nat>, forks: seq<Branch>) {
    forall f | f in forks :: f.indices != [] && UnderSome(es, kids, f.indices[0])
  }

  lemma HeadsOfKid(es: seq<Entry>, s: nat, c: nat, forks: seq<Branch>)
    requires DistinctUuids(es) && s < |es| && Rooted(es, s) && c in Kids(es, s) && HeadsBelow(es, c, forks)
    ensures HeadsBelow(es, s, forks)
  {
    KidIsSmaller(es, s, c);
    RootNotBelowKid(es, s, c);
  }

  lemma HeadsOfKids(es: seq<Entry>, s: nat, kids: seq<nat>, forks: seq<Branch>)
    requires DistinctUuids(es) && s < |es| && Rooted(es, s) && HeadsUnder(es, kids, forks)
    requires forall c | c in kids :: c in Kids(es, s)
    ensures HeadsBelow(es, s, forks)
  {
    forall f | f in forks
      ensures f.indices[0] in Subtree(es, s) && f.indices[0] != s
    {
      var c :| c in kids && f.indices[0] in Subtree(es, c);
      KidIsSmaller(es, s, c);
      RootNotBelowKid(es, s, c);
    }
  }

  /** Later children of s, in file order. */
  ghost predicate Later(es: seq<Entry>, s: nat, kids: seq<nat>)
    requires s < |es|
  {
    Ascending(kids) && forall c | c in kids :: c in Kids(es, s) && c != Kids(es, s)[0]
  }

  lemma {:induction false} WalkInOrder(es: seq<Entry>, sid: string, s: nat, owner: string)
    requires DistinctUuids(es) && s < |es| && Rooted(es, s)
    ensures InOrder(es, Walk(es, sid, s, owner).forks) && HeadsBelow(es, s, Walk(es, sid, s, owner).forks)
    decreases Subtree(es, s), 1, 0
  {
    var kids := Kids(es, s);
    if |kids| > 0 {
      var c := NextOnBranch(es, s);
      KidIsSmaller(es, s, c);
      WalkInOrder(es, sid, c, owner);
      var r := Walk(es, sid, c, owner);
      HeadsOfKid(es, s, c, r.forks);
      if |kids| >= 2 && !SmallGap(es, kids) {
        LaterKids(es, s);
        SplitInOrder(es, sid, s, kids[1..], owner);
        var f := SplitOff(es, sid, s, kids[1..], owner);
        HeadsOfKids(es, s, kids[1..], f.forks);
        SplitBeforeRest(es, s, f.forks, r.forks);
        JoinInOrder(es, f.forks, r.forks);
        assert Walk(es, sid, s, owner).forks == f.forks + r.forks;
      } else {
        assert Walk(es, sid, s, owner).forks == r.forks;
      }
    }
  }

  lemma LaterKids(es: seq<Entry>, s: nat)
    requires s < |es| && Kids(es, s) != []
    ensures Later(es, s, Kids(es, s)[1..])
  {
    KidsAscend(es, es[s].uuid, |es|);
  }

  lemma SplitBeforeRest(es: seq<Entry>, s: nat, split: seq<Branch>, rest: seq<Branch>)
    requires s < |es| && Kids(es, s) != [] && HeadsUnder(es, Kids(es, s)[1..], split) && HeadsBelow(es, Kids(es, s)[0], rest)
    ensures forall f, g | f in split && g in rest :: ForkBefore(es, f, g)
  {
    var kids := Kids(es, s);
    LaterKids(es, s);
    forall f, g | f in split && g in rest
      ensures ForkBefore(es, f, g)
    {
      var c :| c in kids[1..] && f.indices[0] in Subtree(es, c);
      assert PartAt(es, f.indices[0], g.indices[0], s, c, kids[0]);
    }
  }

  lemma {:induction false} SplitInOrder(es: seq<Entry>, sid: string, s: nat, kids: seq<nat>, owner: string)
    requires DistinctUuids(es) && s < |es| && Rooted(es, s) && Later(es, s, kids)
    ensures InOrder(es, SplitOff(es, sid, s, kids, owner).forks) && HeadsUnder(es, kids, SplitOff(es, sid, s, kids, owner).forks)
    decreases Subtree(es, s), 0, |kids|
  {
    if kids != [] {
      var n := |kids| - 1;
      KidIsSmaller(es, s, kids[n]);
      assert Later(es, s, kids[..n]);
      SplitInOrder(es, sid, s, kids[..n], owner);
      WalkInOrder(es, sid, kids[n], ForkID(es, sid, kids[n]));
      WalkShape(es, sid, kids[n], ForkID(es, sid, kids[n]));
      var before := SplitOff(es, sid, s, kids[..n], owner);
      var r := Walk(es, sid, kids[n], ForkID(es, sid, kids[n]));
      KidInOrder(es, s, kids, before.forks, r.forks, Branch(r.path, owner));
    }
  }

  /** One more child: the forks of its branch come before the branch itself, and those of earlier children before them. */
  lemma KidInOrder(es: seq<Entry>, s: nat, kids: seq<nat>, before: seq<Branch>, inner: seq<Branch>, own: Branch)
    requires s < |es| && kids != [] && Later(es, s, kids)
    requires var n := |kids| - 1;
      && HeadsUnder(es, kids[..n], before) && HeadsBelow(es, kids[n], inner)
      && own.indices != [] && own.indices[0] == kids[n] && kids[n] in Kids(es, s)
    requires InOrder(es, before) && InOrder(es, inner)
    ensures InOrder(es, before + inner + [own]) && HeadsUnder(es, kids, before + inner + [own])
  {
    var n := |kids| - 1;
    SubtreeHasRoot(es, kids[n]);
    JoinInOrder(es, inner, [own]);
    forall f, g | f in before && g in inner + [own]
      ensures ForkBefore(es, f, g)
    {
      var c :| c in kids[..n] && f.indices[0] in Subtree(es, c);
      assert c in kids;
      assert PartAt(es, f.indices[0], g.indices[0], s, c, kids[n]);
    }
    JoinInOrder(es, before, inner + [own]);
    assert before + inner + [own] == before + (inner + [own]);
    HeadsJoin(es, kids, before, inner, own);
  }

  lemma HeadsJoin(es: seq<Entry>, kids: seq<nat>, before: seq<Branch>, inner: seq<Branch>, own: Branch)
    requires kids != [] && own.indices != [] && own.indices[0] in Subtree(es, kids[|kids| - 1])
    requires HeadsUnder(es, kids[..|kids| - 1], before) && HeadsBelow(es, kids[|kids| - 1], inner)
    ensures HeadsUnder(es, kids, before + inner + [own])
  {
    var n := |kids| - 1;
    forall f | f in before + inner + [own]
      ensures f.indices != [] && UnderSome(es, kids, f.indices[0])
    {
      if f in before {
        var c :| c in kids[..n] && f.indices[0] in Subtree(es, c);
        assert c in kids;
      } else {
        assert kids[n] in kids && f.indices[0] in Subtree(es, kids[n]);
      }
    }
  }

  /** Forks follow each other from the inside out, by the order of the children, and the branch that goes on last. */
  lemma ForksInOrder(es: seq<Entry>, sid: string)
    requires DistinctUuids(es) && Connected(es)
    ensures InOrder(es, MainWalk(es, sid).forks)
  {
    RootIsRooted(es);
    WalkInOrder(es, sid, Root(es), sid);
  }
}
