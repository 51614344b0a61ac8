/** Splitting a transcript into branches (internal/parser/claude.go). */
module ClaudeDag {
  // parseDAG, walkBranch and countUserTurns.  Entries name each other by uuid and parentUuid.  The parent
  // links of a file with distinct uuids form a forest, possibly with cycles that no root reaches.

  import opened Common

  datatype EntryType = User | Assistant

  datatype Entry = Entry(uuid: string, parentUuid: string, entryType: EntryType)

  const FORK_THRESHOLD: nat := 3

  // ---------------------------------------------------------------- the forest

  ghost predicate DistinctUuids(es: seq<Entry>) {
    && (forall i | 0 <= i < |es| :: es[i].uuid != "")
    && (forall i, j | 0 <= i < j < |es| :: es[i].uuid != es[j].uuid)
  }

  /** Indices below n whose parent is u, in file order. */
  ghost function KidsBelow(es: seq<Entry>, u: string, n: nat): (kids: seq<nat>)
    requires n <= |es|
    ensures forall c {:trigger c in kids} :: c in kids <==> 0 <= c < n && es[c].parentUuid == u
  {
    if n == 0 then []
    else
      var before := KidsBelow(es, u, n - 1);
      if es[n - 1].parentUuid == u then before + [n - 1] else before
  }

  ghost predicate Ascending(s: seq<nat>) {
    forall i, j | 0 <= i < j < |s| :: s[i] < s[j]
  }

  lemma {:induction false} KidsAscend(es: seq<Entry>, u: string, n: nat)
    requires n <= |es|
    ensures Ascending(KidsBelow(es, u, n))
  {
    if n > 0 {
      KidsAscend(es, u, n - 1);
      var before := KidsBelow(es, u, n - 1);
      assert forall i | 0 <= i < |before| :: before[i] in before;
    }
  }

  ghost function Kids(es: seq<Entry>, i: nat): seq<nat>
    requires i < |es|
  {
    KidsBelow(es, es[i].uuid, |es|)
  }

  ghost predicate Names(es: seq<Entry>, p: int, i: int)
    requires 0 <= i < |es|
  {
    0 <= p < |es| && es[i].parentUuid != "" && es[p].uuid == es[i].parentUuid
  }

  /** The entry that i names as its parent, or -1. */
  ghost function Parent(es: seq<Entry>, i: int): (p: int)
    requires 0 <= i < |es|
    ensures p == -1 || Names(es, p, i)
    ensures p == -1 ==> forall q :: !Names(es, q, i)
  {
    if q :| Names(es, q, i) then q else -1
  }

  /** The k-th ancestor of i, or -1 once the chain has left the file. */
  ghost function Up(es: seq<Entry>, i: int, k: nat): (a: int)
    requires -1 <= i < |es|
    ensures -1 <= a < |es|
    decreases k
  {
    if k == 0 || i == -1 then i else Up(es, Parent(es, i), k - 1)
  }

  ghost predicate Below(es: seq<Entry>, s: nat, i: nat)
    requires i < |es|
  {
    exists k: nat :: Up(es, i, k) == s
  }

  /** Everything that hangs off s, s included. */
  ghost function Subtree(es: seq<Entry>, s: nat): set<nat> {
    set i: nat | i < |es| && Below(es, s, i)
  }

  /** The parent chain of i ends at an entry without a parent: i is on no cycle and below none. */
  ghost predicate Rooted(es: seq<Entry>, i: int)
    requires -1 <= i < |es|
  {
    exists k: nat :: Up(es, i, k) == -1
  }

  ghost function UsersIn(es: seq<Entry>, s: set<nat>): set<nat> {
    set i | i in s && i < |es| && es[i].entryType == User
  }

  /** How many user entries hang off s. */
  ghost function UserTurns(es: seq<Entry>, s: nat): nat {
    |UsersIn(es, Subtree(es, s))|
  }

  lemma {:induction false} UpAdds(es: seq<Entry>, i: int, j: nat, k: nat)
    requires -1 <= i < |es|
    ensures Up(es, i, j + k) == Up(es, Up(es, i, j), k)
    decreases j
  {
    if j == 0 || i == -1 {
      UpFromNowhere(es, j + k);
      UpFromNowhere(es, k);
    } else {
      UpAdds(es, Parent(es, i), j - 1, k);
    }
  }

  lemma UpFromNowhere(es: seq<Entry>, k: nat)
    ensures Up(es, -1, k) == -1
  {
  }

  /** A rooted entry is never its own proper ancestor. */
  lemma {:induction false} NoCycle(es: seq<Entry>, s: nat, k: nat)
    requires s < |es| && k > 0 && Rooted(es, s)
    ensures Up(es, s, k) != s
  {
    if Up(es, s, k) == s {
      var m: nat :| Up(es, s, m) == -1;
      NeverLeaves(es, s, k, m);
      assert false;
    }
  }

  lemma {:induction false} NeverLeaves(es: seq<Entry>, s: nat, k: nat, m: nat)
    requires s < |es| && k > 0 && Up(es, s, k) == s
    ensures Up(es, s, m) != -1
  {
    if m >= k {
      UpAdds(es, s, k, m - k);
      NeverLeaves(es, s, k, m - k);
    } else {
      UpAdds(es, s, m, k - m);
      UpFromNowhere(es, k - m);
    }
  }

  lemma KidNamesParent(es: seq<Entry>, s: nat, c: nat)
    requires DistinctUuids(es) && s < |es| && c < |es|
    ensures c in Kids(es, s) <==> Parent(es, c) == s
  {
    if c in Kids(es, s) {
      assert Names(es, s, c);
    }
  }

  /** A kid of a rooted entry is rooted, and its subtree is strictly smaller. */
  lemma KidIsSmaller(es: seq<Entry>, s: nat, c: nat)
    requires DistinctUuids(es) && s < |es| && Rooted(es, s) && c in Kids(es, s)
    ensures Rooted(es, c)
    ensures Subtree(es, c) < Subtree(es, s)
  {
    KidNamesParent(es, s, c);
    var m: nat :| Up(es, s, m) == -1;
    assert Up(es, c, m + 1) == -1;
    forall i | i in Subtree(es, c)
      ensures i in Subtree(es, s) && i != s
    {
      var k: nat :| Up(es, i, k) == c;
      UpAdds(es, i, k, 1);
      assert Up(es, c, 1) == Up(es, s, 0) == s;
      assert Up(es, i, k + 1) == s;
      NoCycle(es, s, k + 1);
    }
    assert Up(es, s, 0) == s;
    assert s in Subtree(es, s) && s !in Subtree(es, c);
  }

  /** The kid of s through which i hangs off s. */
  lemma SubtreeUnfolds(es: seq<Entry>, s: nat, i: nat)
    requires DistinctUuids(es) && s < |es| && Rooted(es, s)
    ensures i in Subtree(es, s) <==> i == s || exists c | c in Kids(es, s) :: i in Subtree(es, c)
  {
    if i in Subtree(es, s) && i != s {
      var k: nat :| Up(es, i, k) == s;
      UpAdds(es, i, k - 1, 1);
      var c := Up(es, i, k - 1);
      assert c != -1 && Up(es, c, 1) == Up(es, Parent(es, c), 0);
      KidNamesParent(es, s, c);
      assert i in Subtree(es, c);
    }
    if i == s {
      assert Up(es, s, 0) == s;
    }
    if c :| c in Kids(es, s) && i in Subtree(es, c) {
      KidIsSmaller(es, s, c);
    }
  }

  lemma KidsDisjoint(es: seq<Entry>, s: nat, c: nat, d: nat)
    requires DistinctUuids(es) && s < |es| && Rooted(es, s)
    requires c in Kids(es, s) && d in Kids(es, s) && c != d
    ensures Subtree(es, c) !! Subtree(es, d)
  {
    forall i | i in Subtree(es, c)
      ensures i !in Subtree(es, d)
    {
      var j: nat :| Up(es, i, j) == c;
      forall k: nat
        ensures Up(es, i, k) != d
      {
        if j <= k {
          KidsApart(es, s, i, c, j, d, k);
        } else if Up(es, i, k) == d {
          KidsApart(es, s, i, d, k, c, j);
        }
      }
    }
  }

  lemma KidsApart(es: seq<Entry>, s: nat, i: nat, c: nat, j: nat, d: nat, k: nat)
    requires DistinctUuids(es) && s < |es| && i < |es| && Rooted(es, s) && j <= k
    requires c in Kids(es, s) && d in Kids(es, s) && c != d
    requires Up(es, i, j) == c
    ensures Up(es, i, k) != d
  {
    UpAdds(es, i, j, k - j);
    if j < k {
      KidNamesParent(es, s, c);
      KidNamesParent(es, s, d);
      KidIsSmaller(es, s, c);
      assert Up(es, c, k - j) == Up(es, s, k - j - 1);
      assert Up(es, d, 1) == Up(es, s, 0) == s;
      UpAdds(es, s, k - j - 1, 1);
      NoCycle(es, s, k - j);
    }
  }

  // ------------------------------------------------------- the walk, as a value

  /** A branch holds entry indices and the session ID of the branch it forked from. */
  datatype Branch = Branch(indices: seq<nat>, parentID: string)

  /** What one walk leaves behind: its own path, the forks split off on the way, and the kids it dropped. */
  datatype WalkResult = WalkResult(path: seq<nat>, forks: seq<Branch>, dropped: seq<nat>)

  ghost predicate SmallGap(es: seq<Entry>, kids: seq<nat>) {
    |kids| >= 2 && UserTurns(es, kids[0]) <= FORK_THRESHOLD
  }

  ghost function ForkID(es: seq<Entry>, sid: string, i: nat): string
    requires i < |es|
  {
    sid + "-" + es[i].uuid
  }

  ghost function Walk(es: seq<Entry>, sid: string, s: nat, owner: string): WalkResult
    requires DistinctUuids(es) && s < |es| && Rooted(es, s)
    decreases Subtree(es, s), 1, 0
  {
    var kids := Kids(es, s);
    if |kids| == 0 then WalkResult([s], [], [])
    else if |kids| == 1 then
      KidIsSmaller(es, s, kids[0]);
      var r := Walk(es, sid, kids[0], owner);
      WalkResult([s] + r.path, r.forks, r.dropped)
    else if SmallGap(es, kids) then
      var last := |kids| - 1;
      KidIsSmaller(es, s, kids[last]);
      var r := Walk(es, sid, kids[last], owner);
      WalkResult([s] + r.path, r.forks, kids[..last] + r.dropped)
    else
      KidIsSmaller(es, s, kids[0]);
      var f := SplitOff(es, sid, s, kids[1..], owner);
      var r := Walk(es, sid, kids[0], owner);
      WalkResult([s] + r.path, f.forks + r.forks, f.dropped + r.dropped)
  }

  /** Walks each of the given kids as a fork of the branch called owner. */
  ghost function SplitOff(es: seq<Entry>, sid: string, s: nat, kids: seq<nat>, owner: string): WalkResult
    requires DistinctUuids(es) && s < |es| && Rooted(es, s)
    requires forall c | c in kids :: c in Kids(es, s)
    decreases Subtree(es, s), 0, |kids|
  {
    if kids == [] then WalkResult([], [], [])
    else
      var n := |kids| - 1;
      KidIsSmaller(es, s, kids[n]);
      var before := SplitOff(es, sid, s, kids[..n], owner);
      var r := Walk(es, sid, kids[n], ForkID(es, sid, kids[n]));
      WalkResult([], before.forks + r.forks + [Branch(r.path, owner)], before.dropped + r.dropped)
  }

  // --------------------------------------------- nothing is lost or duplicated

  ghost function TallyBranches(forks: seq<Branch>, i: nat): nat {
    if forks == [] then 0
    else TallyBranches(forks[..|forks| - 1], i) + multiset(forks[|forks| - 1].indices)[i]
  }

  ghost function TallyDropped(es: seq<Entry>, dropped: seq<nat>, i: nat): nat {
    if dropped == [] then 0
    else TallyDropped(es, dropped[..|dropped| - 1], i) + if i in Subtree(es, dropped[|dropped| - 1]) then 1 else 0
  }

  /** How often i occurs on the branches and below the dropped kids, all together. */
  ghost function Tally(es: seq<Entry>, r: WalkResult, i: nat): nat {
    multiset(r.path)[i] + TallyBranches(r.forks, i) + TallyDropped(es, r.dropped, i)
  }

  lemma {:induction false} TallyBranchesAdds(a: seq<Branch>, b: seq<Branch>, i: nat)
    ensures TallyBranches(a + b, i) == TallyBranches(a, i) + TallyBranches(b, i)
  {
    if b == [] {
      assert a + b == a;
    } else {
      var n := |b| - 1;
      assert (a + b)[..|a + b| - 1] == a + b[..n];
      TallyBranchesAdds(a, b[..n], i);
    }
  }

  lemma {:induction false} TallyDroppedAdds(es: seq<Entry>, a: seq<nat>, b: seq<nat>, i: nat)
    ensures TallyDropped(es, a + b, i) == TallyDropped(es, a, i) + TallyDropped(es, b, i)
  {
    if b == [] {
      assert a + b == a;
    } else {
      var n := |b| - 1;
      assert (a + b)[..|a + b| - 1] == a + b[..n];
      TallyDroppedAdds(es, a, b[..n], i);
    }
  }

  ghost predicate Siblings(es: seq<Entry>, s: nat, kids: seq<nat>)
    requires s < |es|
  {
    && (forall c | c in kids :: c in Kids(es, s))
    && (forall j, k | 0 <= j < k < |kids| :: kids[j] != kids[k])
  }

  ghost predicate UnderSome(es: seq<Entry>, kids: seq<nat>, i: nat) {
    exists c | c in kids :: i in Subtree(es, c)
  }

  ghost function OneIf(b: bool): nat { if b then 1 else 0 }

  /** Entries hang off at most one of several siblings, so a list of siblings splits at its last one. */
  lemma LastSibling(es: seq<Entry>, s: nat, kids: seq<nat>, i: nat)
    requires DistinctUuids(es) && s < |es| && Rooted(es, s) && Siblings(es, s, kids) && kids != []
    ensures Siblings(es, s, kids[..|kids| - 1])
    ensures OneIf(UnderSome(es, kids, i))
         == OneIf(UnderSome(es, kids[..|kids| - 1], i)) + OneIf(i in Subtree(es, kids[|kids| - 1]))
  {
    var n := |kids| - 1;
    assert kids == kids[..n] + [kids[n]];
    if c :| c in kids[..n] && i in Subtree(es, c) {
      KidsDisjoint(es, s, c, kids[n]);
    }
  }

  lemma {:induction false} DroppedSiblings(es: seq<Entry>, s: nat, kids: seq<nat>, i: nat)
    requires DistinctUuids(es) && s < |es| && Rooted(es, s) && Siblings(es, s, kids)
    ensures TallyDropped(es, kids, i) == OneIf(UnderSome(es, kids, i))
  {
    if kids != [] {
      LastSibling(es, s, kids, i);
      DroppedSiblings(es, s, kids[..|kids| - 1], i);
    }
  }

  lemma KidsAreSiblings(es: seq<Entry>, s: nat)
    requires s < |es|
    ensures Siblings(es, s, Kids(es, s))
  {
    KidsAscend(es, es[s].uuid, |es|);
  }

  /** i hangs off s itself, off the one kid singled out, or off one of the others: never two of these. */
  lemma Thirds(es: seq<Entry>, s: nat, rest: seq<nat>, c: nat, i: nat)
    requires DistinctUuids(es) && s < |es| && Rooted(es, s) && Siblings(es, s, rest + [c])
    requires forall k | k in Kids(es, s) :: k in rest + [c]
    ensures OneIf(i in Subtree(es, s)) == OneIf(i == s) + OneIf(UnderSome(es, rest, i)) + OneIf(i in Subtree(es, c))
  {
    SubtreeUnfolds(es, s, i);
    LastSibling(es, s, rest + [c], i);
    assert (rest + [c])[..|rest|] == rest;
    assert c in rest + [c];
    if i == s {
      forall k | k in rest + [c]
        ensures i !in Subtree(es, k)
      {
        KidIsSmaller(es, s, k);
        SubtreeHasRoot(es, s);
        assert s !in Subtree(es, k) by { RootNotBelowKid(es, s, k); }
      }
    }
  }

  lemma SubtreeHasRoot(es: seq<Entry>, s: nat)
    requires s < |es|
    ensures s in Subtree(es, s)
  {
    assert Up(es, s, 0) == s;
  }

  lemma RootNotBelowKid(es: seq<Entry>, s: nat, c: nat)
    requires DistinctUuids(es) && s < |es| && Rooted(es, s) && c in Kids(es, s)
    ensures s !in Subtree(es, c)
  {
    KidNamesParent(es, s, c);
    if s in Subtree(es, c) {
      var k: nat :| Up(es, s, k) == c;
      UpAdds(es, s, k, 1);
      assert Up(es, c, 1) == Up(es, s, 0);
      NoCycle(es, s, k + 1);
    }
  }

  /**
   * Conservation: what hangs off s lies on exactly one branch of the walk from s, once, or below
   * exactly one dropped kid; nothing else turns up anywhere.
   */
  lemma {:induction false} WalkConserves(es: seq<Entry>, sid: string, s: nat, owner: string, i: nat)
    requires DistinctUuids(es) && s < |es| && Rooted(es, s)
    ensures Tally(es, Walk(es, sid, s, owner), i) == OneIf(i in Subtree(es, s))
    decreases Subtree(es, s), 2, 0
  {
    var kids := Kids(es, s);
    if |kids| == 0 {
      SubtreeUnfolds(es, s, i);
      TallyOnePath(s, [], i);
    } else if |kids| == 1 {
      KidIsSmaller(es, s, kids[0]);
      WalkConserves(es, sid, kids[0], owner, i);
      TallyOnePath(s, Walk(es, sid, kids[0], owner).path, i);
      assert kids == [] + [kids[0]];
      Thirds(es, s, [], kids[0], i);
    } else if SmallGap(es, kids) {
      SmallGapConserves(es, sid, s, owner, i);
    } else {
      LargeGapConserves(es, sid, s, owner, i);
    }
  }

  lemma {:induction false} SmallGapConserves(es: seq<Entry>, sid: string, s: nat, owner: string, i: nat)
    requires DistinctUuids(es) && s < |es| && Rooted(es, s) && SmallGap(es, Kids(es, s))
    ensures Tally(es, Walk(es, sid, s, owner), i) == OneIf(i in Subtree(es, s))
    decreases Subtree(es, s), 1, 0
  {
    var kids := Kids(es, s);
    var last := |kids| - 1;
    var c, rest := kids[last], kids[..last];
    KidIsSmaller(es, s, c);
    var r := Walk(es, sid, c, owner);
    assert Walk(es, sid, s, owner) == WalkResult([s] + r.path, [] + r.forks, rest + r.dropped);
    TallyStep(es, s, [], rest, r, i);
    WalkConserves(es, sid, c, owner, i);
    LastKidApart(es, s, i);
  }

  lemma LastKidApart(es: seq<Entry>, s: nat, i: nat)
    requires DistinctUuids(es) && s < |es| && Rooted(es, s) && Kids(es, s) != []
    ensures var kids, last := Kids(es, s), |Kids(es, s)| - 1;
      OneIf(i in Subtree(es, s)) == OneIf(i == s) + TallyDropped(es, kids[..last], i) + OneIf(i in Subtree(es, kids[last]))
  {
    var kids := Kids(es, s);
    var last := |kids| - 1;
    assert kids == kids[..last] + [kids[last]];
    KidsAreSiblings(es, s);
    DroppedSiblings(es, s, kids[..last], i);
    Thirds(es, s, kids[..last], kids[last], i);
  }

  lemma {:induction false} LargeGapConserves(es: seq<Entry>, sid: string, s: nat, owner: string, i: nat)
    requires DistinctUuids(es) && s < |es| && Rooted(es, s)
    requires |Kids(es, s)| >= 2 && !SmallGap(es, Kids(es, s))
    ensures Tally(es, Walk(es, sid, s, owner), i) == OneIf(i in Subtree(es, s))
    decreases Subtree(es, s), 1, 0
  {
    var kids := Kids(es, s);
    var c, rest := kids[0], kids[1..];
    KidIsSmaller(es, s, c);
    var f := SplitOff(es, sid, s, rest, owner);
    var r := Walk(es, sid, c, owner);
    assert Walk(es, sid, s, owner) == WalkResult([s] + r.path, f.forks + r.forks, f.dropped + r.dropped);
    TallyStep(es, s, f.forks, f.dropped, r, i);
    WalkConserves(es, sid, c, owner, i);
    KidsAreSiblings(es, s);
    SplitConserves(es, sid, s, rest, owner, i);
    FirstKidLast(kids);
    Thirds(es, s, rest, c, i);
  }

  /** One entry put in front of a walk, with what it split off and dropped. */
  lemma TallyStep(es: seq<Entry>, s: nat, forks: seq<Branch>, dropped: seq<nat>, r: WalkResult, i: nat)
    ensures Tally(es, WalkResult([s] + r.path, forks + r.forks, dropped + r.dropped), i)
         == OneIf(i == s) + TallyBranches(forks, i) + TallyDropped(es, dropped, i) + Tally(es, r, i)
  {
    TallyOnePath(s, r.path, i);
    TallyBranchesAdds(forks, r.forks, i);
    TallyDroppedAdds(es, dropped, r.dropped, i);
  }

  lemma TallyOnePath(s: nat, path: seq<nat>, i: nat)
    ensures multiset([s] + path)[i] == OneIf(i == s) + multiset(path)[i]
  {
    assert multiset([s] + path) == multiset([s]) + multiset(path);
  }

  lemma FirstKidLast(kids: seq<nat>)
    requires kids != []
    ensures forall k | k in kids :: k in kids[1..] + [kids[0]]
  {
    assert kids == [kids[0]] + kids[1..];
  }

  lemma {:induction false} SplitConserves(es: seq<Entry>, sid: string, s: nat, kids: seq<nat>, owner: string, i: nat)
    requires DistinctUuids(es) && s < |es| && Rooted(es, s) && Siblings(es, s, kids)
    ensures Tally(es, SplitOff(es, sid, s, kids, owner), i) == OneIf(UnderSome(es, kids, i))
    decreases Subtree(es, s), 0, |kids|
  {
    if kids != [] {
      var n := |kids| - 1;
      KidIsSmaller(es, s, kids[n]);
      LastSibling(es, s, kids, i);
      var before := SplitOff(es, sid, s, kids[..n], owner);
      var r := Walk(es, sid, kids[n], ForkID(es, sid, kids[n]));
      var own := [Branch(r.path, owner)];
      SplitConserves(es, sid, s, kids[..n], owner, i);
      WalkConserves(es, sid, kids[n], ForkID(es, sid, kids[n]), i);
      TallyBranchesAdds(before.forks + r.forks, own, i);
      TallyBranchesAdds(before.forks, r.forks, i);
      TallyDroppedAdds(es, before.dropped, r.dropped, i);
      assert own[..0] == [];
    }
  }

  // ------------------------------------------------------ the shape of a branch

  /** The kid a branch goes on to: the only one, the latest after a small gap, the first after a large one. */
  ghost function NextOnBranch(es: seq<Entry>, i: nat): (c: nat)
    requires i < |es| && Kids(es, i) != []
    ensures c in Kids(es, i)
  {
    var kids := Kids(es, i);
    if SmallGap(es, kids) then kids[|kids| - 1] else kids[0]
  }

  /** A parent chain that takes the prescribed kid at every step and stops only at a leaf. */
  ghost predicate FollowsRule(es: seq<Entry>, path: seq<nat>) {
    && path != []
    && (forall j | 0 <= j < |path| :: path[j] < |es|)
    && Kids(es, path[|path| - 1]) == []
    && (forall j | 0 <= j < |path| - 1 :: Kids(es, path[j]) != [] && path[j + 1] == NextOnBranch(es, path[j]))
  }

  /** A fork starts at a later kid of a large-gap fork point. */
  ghost predicate StartsFork(es: seq<Entry>, h: nat) {
    && h < |es| && Parent(es, h) != -1
    && var kids := Kids(es, Parent(es, h));
       |kids| >= 2 && !SmallGap(es, kids) && h in kids && h != kids[0]
  }

  /** A dropped kid is an earlier kid of a small-gap fork point. */
  ghost predicate Retried(es: seq<Entry>, c: nat) {
    && c < |es| && Parent(es, c) != -1
    && var kids := Kids(es, Parent(es, c));
       SmallGap(es, kids) && c in kids && c != kids[|kids| - 1]
  }

  ghost predicate OnFork(es: seq<Entry>, sid: string, forks: seq<Branch>, p: int, id: string) {
    exists g | g in forks :: g.indices != [] && g.indices[0] < |es| && p in g.indices && id == ForkID(es, sid, g.indices[0])
  }

  /** The entry p lies on the branch whose session ID is id. */
  ghost predicate OnBranch(es: seq<Entry>, sid: string, r: WalkResult, owner: string, p: int, id: string) {
    (p in r.path && id == owner) || OnFork(es, sid, r.forks, p, id)
  }

  ghost predicate OnAny(r: WalkResult, p: int) {
    p in r.path || exists g | g in r.forks :: p in g.indices
  }

  ghost predicate ForkShape(es: seq<Entry>, f: Branch) {
    FollowsRule(es, f.indices) && StartsFork(es, f.indices[0])
  }

  /** The shape of a walk that starts at s on the branch called owner. */
  ghost predicate WellShaped(es: seq<Entry>, sid: string, s: nat, owner: string, r: WalkResult) {
    && FollowsRule(es, r.path) && r.path[0] == s
    && (forall f | f in r.forks ::
          ForkShape(es, f) && OnBranch(es, sid, r, owner, Parent(es, f.indices[0]), f.parentID))
    && (forall c | c in r.dropped :: Retried(es, c) && OnAny(r, Parent(es, c)))
  }

  /** The same for what is split off or dropped at the fork point s itself. */
  ghost predicate SplitShaped(es: seq<Entry>, sid: string, s: nat, owner: string, r: WalkResult) {
    && (forall f | f in r.forks ::
          && ForkShape(es, f)
          && var p := Parent(es, f.indices[0]);
             (p == s && f.parentID == owner) || OnFork(es, sid, r.forks, p, f.parentID))
    && (forall c | c in r.dropped ::
          Retried(es, c) && (Parent(es, c) == s || exists g | g in r.forks :: Parent(es, c) in g.indices))
  }

  lemma PathStep(es: seq<Entry>, s: nat, path: seq<nat>)
    requires s < |es| && FollowsRule(es, path) && Kids(es, s) != [] && path[0] == NextOnBranch(es, s)
    ensures FollowsRule(es, [s] + path)
  {
    var w := [s] + path;
    assert w[|w| - 1] == path[|path| - 1];
    forall j | 0 <= j < |w| - 1
      ensures Kids(es, w[j]) != [] && w[j + 1] == NextOnBranch(es, w[j])
    {
      if j > 0 {
        assert w[j] == path[j - 1] && w[j + 1] == path[j];
      }
    }
  }

  /** What lies on a branch of a part of the walk lies on a branch of the whole walk. */
  lemma OnBranchGrows(es: seq<Entry>, sid: string, r: WalkResult, w: WalkResult, owner: string, p: int, id: string)
    requires forall x | x in r.path :: x in w.path
    requires forall g | g in r.forks :: g in w.forks
    ensures OnBranch(es, sid, r, owner, p, id) ==> OnBranch(es, sid, w, owner, p, id)
    ensures OnAny(r, p) ==> OnAny(w, p)
  {
  }

  lemma ShapeStep(es: seq<Entry>, sid: string, s: nat, owner: string, f: WalkResult, r: WalkResult, c: nat)
    requires s < |es| && Kids(es, s) != [] && c == NextOnBranch(es, s)
    requires SplitShaped(es, sid, s, owner, f) && WellShaped(es, sid, c, owner, r)
    ensures WellShaped(es, sid, s, owner, WalkResult([s] + r.path, f.forks + r.forks, f.dropped + r.dropped))
  {
    var w := WalkResult([s] + r.path, f.forks + r.forks, f.dropped + r.dropped);
    PathStep(es, s, r.path);
    assert w.path[0] == s && s in w.path;
    assert forall p | p in r.path :: p in w.path;
    assert forall g | g in r.forks :: g in w.forks;
    assert forall g | g in f.forks :: g in w.forks;
    forall b | b in w.forks
      ensures ForkShape(es, b) && OnBranch(es, sid, w, owner, Parent(es, b.indices[0]), b.parentID)
    {
      if b in r.forks {
        OnBranchGrows(es, sid, r, w, owner, Parent(es, b.indices[0]), b.parentID);
      } else {
        SplitForkGrows(es, sid, s, owner, f, w, b);
      }
    }
    forall d | d in w.dropped
      ensures Retried(es, d) && OnAny(w, Parent(es, d))
    {
      if d in r.dropped {
        OnBranchGrows(es, sid, r, w, owner, Parent(es, d), owner);
      } else {
        SplitDropGrows(es, sid, s, owner, f, w, d);
      }
    }
  }

  lemma SplitForkGrows(es: seq<Entry>, sid: string, s: nat, owner: string, f: WalkResult, w: WalkResult, b: Branch)
    requires SplitShaped(es, sid, s, owner, f) && b in f.forks && s in w.path && forall g | g in f.forks :: g in w.forks
    ensures ForkShape(es, b) && OnBranch(es, sid, w, owner, Parent(es, b.indices[0]), b.parentID)
  {
    var p := Parent(es, b.indices[0]);
    if !(p == s && b.parentID == owner) {
      assert OnFork(es, sid, f.forks, p, b.parentID);
    }
  }

  lemma SplitDropGrows(es: seq<Entry>, sid: string, s: nat, owner: string, f: WalkResult, w: WalkResult, d: nat)
    requires SplitShaped(es, sid, s, owner, f) && d in f.dropped && s in w.path && forall g | g in f.forks :: g in w.forks
    ensures Retried(es, d) && OnAny(w, Parent(es, d))
  {
  }

  /** Every branch of a walk follows the rule, and every fork records the branch it left. */
  lemma {:induction false} WalkShape(es: seq<Entry>, sid: string, s: nat, owner: string)
    requires DistinctUuids(es) && s < |es| && Rooted(es, s)
    ensures WellShaped(es, sid, s, owner, Walk(es, sid, s, owner))
    decreases Subtree(es, s), 1, 0
  {
    var kids := Kids(es, s);
    if |kids| > 0 {
      var c := NextOnBranch(es, s);
      KidIsSmaller(es, s, c);
      var r := Walk(es, sid, c, owner);
      WalkShape(es, sid, c, owner);
      if |kids| == 1 {
        ShapeStep(es, sid, s, owner, WalkResult([], [], []), r, c);
      } else if SmallGap(es, kids) {
        var rest := kids[..|kids| - 1];
        DroppedShape(es, s);
        ShapeStep(es, sid, s, owner, WalkResult([], [], rest), r, c);
      } else {
        var f := SplitOff(es, sid, s, kids[1..], owner);
        KidsAreSiblings(es, s);
        SplitShape(es, sid, s, kids[1..], owner);
        ShapeStep(es, sid, s, owner, f, r, c);
        assert Walk(es, sid, s, owner) == WalkResult([s] + r.path, f.forks + r.forks, f.dropped + r.dropped);
      }
    }
  }

  lemma DroppedShape(es: seq<Entry>, s: nat)
    requires DistinctUuids(es) && s < |es| && SmallGap(es, Kids(es, s))
    ensures var kids := Kids(es, s);
      forall c | c in kids[..|kids| - 1] :: Retried(es, c) && Parent(es, c) == s
  {
    var kids := Kids(es, s);
    KidsAscend(es, es[s].uuid, |es|);
    forall c | c in kids[..|kids| - 1]
      ensures Retried(es, c) && Parent(es, c) == s
    {
      assert c in kids;
      KidNamesParent(es, s, c);
    }
  }

  lemma {:induction false} SplitShape(es: seq<Entry>, sid: string, s: nat, kids: seq<nat>, owner: string)
    requires DistinctUuids(es) && s < |es| && Rooted(es, s)
    requires |Kids(es, s)| >= 2 && !SmallGap(es, Kids(es, s))
    requires forall c | c in kids :: c in Kids(es, s) && c != Kids(es, s)[0]
    ensures SplitShaped(es, sid, s, owner, SplitOff(es, sid, s, kids, owner))
    decreases Subtree(es, s), 0, |kids|
  {
    if kids != [] {
      var n := |kids| - 1;
      var h := kids[n];
      KidIsSmaller(es, s, h);
      KidNamesParent(es, s, h);
      var before := SplitOff(es, sid, s, kids[..n], owner);
      var r := Walk(es, sid, h, ForkID(es, sid, h));
      SplitShape(es, sid, s, kids[..n], owner);
      WalkShape(es, sid, h, ForkID(es, sid, h));
      SplitStep(es, sid, s, owner, before, r, h);
    }
  }

  /** One more kid split off: its walk becomes a fork of owner. */
  lemma SplitStep(es: seq<Entry>, sid: string, s: nat, owner: string, f: WalkResult, r: WalkResult, h: nat)
    requires h < |es| && StartsFork(es, h) && Parent(es, h) == s
    requires SplitShaped(es, sid, s, owner, f) && WellShaped(es, sid, h, ForkID(es, sid, h), r)
    ensures SplitShaped(es, sid, s, owner,
              WalkResult([], f.forks + r.forks + [Branch(r.path, owner)], f.dropped + r.dropped))
  {
    var own := Branch(r.path, owner);
    var w := WalkResult([], f.forks + r.forks + [own], f.dropped + r.dropped);
    assert own in w.forks;
    forall b | b in w.forks
      ensures ForkShape(es, b)
      ensures var p := Parent(es, b.indices[0]);
        (p == s && b.parentID == owner) || OnFork(es, sid, w.forks, p, b.parentID)
    {
    }
  }

  // ----------------------------------------------------------- the walk, as code

  /** The children map, with a missing key standing for no children. */
  function KidsIn(children: map<string, seq<nat>>, u: string): seq<nat> {
    if u in children then children[u] else []
  }

  ghost predicate ChildrenOf(es: seq<Entry>, children: map<string, seq<nat>>, n: nat)
    requires n <= |es|
  {
    && "" !in children
    && (forall u: string | u != "" :: KidsIn(children, u) == KidsBelow(es, u, n))
  }

  class DagWalker {
    const es: seq<Entry>
    const sessionID: string
    const children: map<string, seq<nat>>
    var forkBranches: seq<Branch>

    ghost predicate Valid() {
      DistinctUuids(es) && ChildrenOf(es, children, |es|)
    }

    constructor (es: seq<Entry>, sessionID: string, children: map<string, seq<nat>>)
      requires DistinctUuids(es) && ChildrenOf(es, children, |es|)
      ensures Valid() && this.es == es && this.sessionID == sessionID && forkBranches == []
    {
      this.es, this.sessionID, this.children, forkBranches := es, sessionID, children, [];
    }

    /** Counts the user entries of a whole subtree with an explicit stack. */
    method CountUserTurns(startIdx: nat) returns (count: nat)
      requires Valid() && startIdx < |es| && Rooted(es, startIdx)
      ensures count == UserTurns(es, startIdx)
    {
      count := 0;
      var stack := [startIdx];
      ghost var done: set<nat> := {};
      while |stack| > 0
        invariant Frontier(es, startIdx, stack, done)
        invariant count == |UsersIn(es, done)|
        decreases Subtree(es, startIdx) - done
      {
        var current: nat := stack[|stack| - 1];
        FrontierStep(es, startIdx, stack, done);
        UsersStep(es, done, current);
        if es[current].entryType == User {
          count := count + 1;
        }
        stack := stack[..|stack| - 1] + KidsIn(children, es[current].uuid);
        done := done + {current};
      }
      assert done == Subtree(es, startIdx);
    }

    /**
     * Follows one branch from startIdx, recursing into the forks of every large gap.  Forks are
     * appended in the order in which their walks finish, nested ones first.
     */
    method WalkBranch(startIdx: nat, ownerID: string) returns (path: seq<nat>)
      requires Valid() && startIdx < |es| && Rooted(es, startIdx)
      modifies this`forkBranches
      ensures path == Walk(es, sessionID, startIdx, ownerID).path
      ensures forkBranches == old(forkBranches) + Walk(es, sessionID, startIdx, ownerID).forks
      decreases Subtree(es, startIdx), 2
    {
      ghost var whole := Walk(es, sessionID, startIdx, ownerID);
      path := [];
      var current: nat := startIdx;
      while true
        invariant current < |es| && Rooted(es, current)
        invariant Subtree(es, current) <= Subtree(es, startIdx)
        invariant path + Walk(es, sessionID, current, ownerID).path == whole.path
        invariant forkBranches + Walk(es, sessionID, current, ownerID).forks == old(forkBranches) + whole.forks
        decreases Subtree(es, current)
      {
        WalkGoesOn(es, sessionID, current, ownerID, path, forkBranches);
        path := path + [current];
        var kids: seq<nat> := KidsIn(children, es[current].uuid);
        assert kids == Kids(es, current);
        if |kids| == 0 {
          break;
        }
        current := TakeKid(current, kids, ownerID);
      }
    }

    /** Chooses the kid to go on with; after a large gap the later kids are walked as forks first. */
    method TakeKid(at: nat, kids: seq<nat>, ownerID: string) returns (next: nat)
      requires Valid() && at < |es| && Rooted(es, at) && kids == Kids(es, at) && kids != []
      modifies this`forkBranches
      ensures next == NextOnBranch(es, at)
      ensures forkBranches == old(forkBranches) + SplitHere(es, sessionID, at, ownerID)
      decreases Subtree(es, at), 1
    {
      KidIsSmaller(es, at, kids[0]);
      if |kids| == 1 {
        return kids[0];
      }
      var firstChildTurns := CountUserTurns(kids[0]);
      if firstChildTurns <= FORK_THRESHOLD {
        next := kids[|kids| - 1];
      } else {
        ForkOff(at, kids, ownerID);
        next := kids[0];
      }
    }

    /** The loop over the later kids of a large-gap fork point. */
    method ForkOff(at: nat, kids: seq<nat>, ownerID: string)
      requires Valid() && at < |es| && Rooted(es, at) && kids == Kids(es, at) && kids != []
      modifies this`forkBranches
      ensures forkBranches == old(forkBranches) + SplitOff(es, sessionID, at, kids[1..], ownerID).forks
      decreases Subtree(es, at), 0
    {
      var j := 1;
      while j < |kids|
        invariant 1 <= j <= |kids|
        invariant forkBranches == old(forkBranches) + SplitOff(es, sessionID, at, kids[1..j], ownerID).forks
      {
        var kid := kids[j];
        KidIsSmaller(es, at, kid);
        var forkSID := sessionID + "-" + es[kid].uuid;
        var forkPath := WalkBranch(kid, forkSID);
        forkBranches := forkBranches + [Branch(forkPath, ownerID)];
        SplitGrows(es, sessionID, at, kids, j, ownerID, old(forkBranches));
        j := j + 1;
      }
      assert kids[1..j] == kids[1..];
    }
  }

  /** One step of the fork loop, on top of the branches collected earlier. */
  lemma SplitGrows(es: seq<Entry>, sid: string, s: nat, kids: seq<nat>, j: nat, owner: string, seen: seq<Branch>)
    requires DistinctUuids(es) && s < |es| && Rooted(es, s) && kids == Kids(es, s) && 1 <= j < |kids|
    ensures kids[j] in kids && Rooted(es, kids[j]) && Subtree(es, kids[j]) < Subtree(es, s)
    ensures var r := Walk(es, sid, kids[j], ForkID(es, sid, kids[j]));
      seen + SplitOff(es, sid, s, kids[1..j + 1], owner).forks
      == seen + SplitOff(es, sid, s, kids[1..j], owner).forks + r.forks + [Branch(r.path, owner)]
  {
    KidIsSmaller(es, s, kids[j]);
    assert kids[1..j + 1][..j - 1] == kids[1..j] && kids[1..j + 1][j - 1] == kids[j];
    var before := SplitOff(es, sid, s, kids[1..j], owner).forks;
    var r := Walk(es, sid, kids[j], ForkID(es, sid, kids[j]));
    var own := [Branch(r.path, owner)];
    assert SplitOff(es, sid, s, kids[1..j + 1], owner).forks == before + r.forks + own;
    ConcatIsAssociative(seen, before + r.forks, own);
    ConcatIsAssociative(seen, before, r.forks);
  }

  /** One step of the branch loop, on top of the path and branches collected earlier. */
  lemma WalkGoesOn(es: seq<Entry>, sid: string, s: nat, owner: string, path: seq<nat>, seen: seq<Branch>)
    requires DistinctUuids(es) && s < |es| && Rooted(es, s)
    ensures var w := Walk(es, sid, s, owner);
      if Kids(es, s) == [] then w.path == [s] && w.forks == []
      else
        var c := NextOnBranch(es, s);
        && Rooted(es, c) && Subtree(es, c) < Subtree(es, s)
        && path + w.path == path + [s] + Walk(es, sid, c, owner).path
        && seen + w.forks == seen + SplitHere(es, sid, s, owner) + Walk(es, sid, c, owner).forks
  {
    var kids := Kids(es, s);
    if kids != [] {
      var c := NextOnBranch(es, s);
      KidIsSmaller(es, s, c);
      var r := Walk(es, sid, c, owner);
      var here := SplitHere(es, sid, s, owner);
      assert Walk(es, sid, s, owner).forks == here + r.forks;
      ConcatIsAssociative(path, [s], r.path);
      ConcatIsAssociative(seen, here, r.forks);
    }
  }

  /** The branches that split off at s itself. */
  ghost function SplitHere(es: seq<Entry>, sid: string, s: nat, owner: string): seq<Branch>
    requires DistinctUuids(es) && s < |es| && Rooted(es, s)
  {
    var kids := Kids(es, s);
    if |kids| < 2 || SmallGap(es, kids) then [] else SplitOff(es, sid, s, kids[1..], owner).forks
  }

  /** done and the subtrees of the stacked entries split the subtree of s into disjoint parts. */
  ghost predicate Frontier(es: seq<Entry>, s: nat, stack: seq<nat>, done: set<nat>) {
    && (forall j | 0 <= j < |stack| :: stack[j] < |es| && Rooted(es, stack[j]))
    && (forall j | 0 <= j < |stack| :: Subtree(es, stack[j]) !! done)
    && (forall j, k | 0 <= j < k < |stack| :: Subtree(es, stack[j]) !! Subtree(es, stack[k]))
    && (forall j | 0 <= j < |stack| :: Subtree(es, stack[j]) <= Subtree(es, s))
    && done <= Subtree(es, s)
    && (forall i | i in Subtree(es, s) :: i in done || UnderSome(es, stack, i))
  }

  lemma UsersStep(es: seq<Entry>, done: set<nat>, c: nat)
    requires c < |es| && c !in done
    ensures |UsersIn(es, done + {c})| == |UsersIn(es, done)| + OneIf(es[c].entryType == User)
  {
    assert UsersIn(es, done + {c}) == UsersIn(es, done) + if es[c].entryType == User then {c} else {};
  }

  lemma KidsFrontier(es: seq<Entry>, s: nat)
    requires DistinctUuids(es) && s < |es| && Rooted(es, s)
    ensures var kids := Kids(es, s);
      && (forall j | 0 <= j < |kids| :: kids[j] < |es| && Rooted(es, kids[j]))
      && (forall j | 0 <= j < |kids| :: Subtree(es, kids[j]) <= Subtree(es, s) && s !in Subtree(es, kids[j]))
      && (forall j, k | 0 <= j < k < |kids| :: Subtree(es, kids[j]) !! Subtree(es, kids[k]))
  {
    var kids := Kids(es, s);
    forall c | c in kids
      ensures Rooted(es, c) && Subtree(es, c) <= Subtree(es, s) && s !in Subtree(es, c)
    {
      KidIsSmaller(es, s, c);
      RootNotBelowKid(es, s, c);
    }
    forall j | 0 <= j < |kids|
      ensures kids[j] < |es| && Rooted(es, kids[j])
      ensures Subtree(es, kids[j]) <= Subtree(es, s) && s !in Subtree(es, kids[j])
    {
      assert kids[j] in kids;
    }
    KidsAreSiblings(es, s);
    forall j, k | 0 <= j < k < |kids|
      ensures Subtree(es, kids[j]) !! Subtree(es, kids[k])
    {
      assert kids[j] in kids && kids[k] in kids;
      KidsDisjoint(es, s, kids[j], kids[k]);
    }
  }

  lemma FrontierStep(es: seq<Entry>, s: nat, stack: seq<nat>, done: set<nat>)
    requires DistinctUuids(es) && stack != [] && Frontier(es, s, stack, done)
    ensures var current, rest := stack[|stack| - 1], stack[..|stack| - 1];
      && current in Subtree(es, s) && current !in done
      && Frontier(es, s, rest + Kids(es, current), done + {current})
  {
    var current, rest := stack[|stack| - 1], stack[..|stack| - 1];
    var kids := Kids(es, current);
    SubtreeHasRoot(es, current);
    KidsFrontier(es, current);
    assert stack == rest + [current];
    forall i | i in Subtree(es, s)
      ensures i in done + {current} || UnderSome(es, rest + kids, i)
    {
      if i !in done {
        StillUnderSome(es, rest, current, i);
      }
    }
    FrontierParts(es, s, rest, kids, current, done);
  }

  lemma StillUnderSome(es: seq<Entry>, rest: seq<nat>, current: nat, i: nat)
    requires DistinctUuids(es) && current < |es| && Rooted(es, current) && UnderSome(es, rest + [current], i)
    ensures i == current || UnderSome(es, rest + Kids(es, current), i)
  {
    var c :| c in rest + [current] && i in Subtree(es, c);
    if c == current {
      SubtreeUnfolds(es, current, i);
    } else {
      assert c in rest + Kids(es, current);
    }
  }

  lemma FrontierParts(es: seq<Entry>, s: nat, rest: seq<nat>, kids: seq<nat>, current: nat, done: set<nat>)
    requires current < |es| && Rooted(es, current) && current in Subtree(es, current)
    requires Frontier(es, s, rest + [current], done)
    requires forall j | 0 <= j < |kids| :: kids[j] < |es| && Rooted(es, kids[j])
    requires forall j | 0 <= j < |kids| :: Subtree(es, kids[j]) <= Subtree(es, current) && current !in Subtree(es, kids[j])
    requires forall j, k | 0 <= j < k < |kids| :: Subtree(es, kids[j]) !! Subtree(es, kids[k])
    requires forall i | i in Subtree(es, s) :: i in done + {current} || UnderSome(es, rest + kids, i)
    ensures Frontier(es, s, rest + kids, done + {current})
  {
    var was, now := rest + [current], rest + kids;
    assert was[|rest|] == current && forall j | 0 <= j < |rest| :: was[j] == rest[j];
    forall j | 0 <= j < |now|
      ensures now[j] < |es| && Rooted(es, now[j])
      ensures Subtree(es, now[j]) !! done + {current} && Subtree(es, now[j]) <= Subtree(es, s)
    {
      if j < |rest| {
        assert now[j] == was[j];
      } else {
        assert now[j] == kids[j - |rest|];
      }
    }
    forall j, k | 0 <= j < k < |now|
      ensures Subtree(es, now[j]) !! Subtree(es, now[k])
    {
      if k < |rest| {
        assert now[j] == was[j] && now[k] == was[k];
      } else if j < |rest| {
        assert now[j] == was[j] && now[k] == kids[k - |rest|];
      }
    }
  }

  // ------------------------------------------------------------- whole sessions

  /** One parsed session: its id, the id of the session it belongs to, and its entries in order. */
  datatype DagSession = DagSession(id: string, parentID: string, isFork: bool, indices: seq<nat>)

  datatype DagOutcome = Linear | Dag(sessions: seq<DagSession>)

  /** The two guards: exactly one root, and every parent uuid names some entry. */
  ghost predicate Connected(es: seq<Entry>) {
    && |KidsBelow(es, "", |es|)| == 1
    && (forall i | 0 <= i < |es| && es[i].parentUuid != "" :: exists j :: Names(es, j, i))
  }

  ghost function Root(es: seq<Entry>): (r: nat)
    requires Connected(es)
    ensures r < |es| && es[r].parentUuid == ""
  {
    assert KidsBelow(es, "", |es|)[0] in KidsBelow(es, "", |es|);
    KidsBelow(es, "", |es|)[0]
  }

  lemma RootIsRooted(es: seq<Entry>)
    requires Connected(es)
    ensures Rooted(es, Root(es))
  {
    var r := Root(es);
    assert Parent(es, r) == -1;
    assert Up(es, r, 1) == Up(es, -1, 0);
  }

  ghost function MainWalk(es: seq<Entry>, sid: string): WalkResult
    requires DistinctUuids(es) && Connected(es)
  {
    RootIsRooted(es);
    Walk(es, sid, Root(es), sid)
  }

  function ToSession(es: seq<Entry>, sid: string, b: Branch): DagSession
    requires b.indices != [] && b.indices[0] < |es|
  {
    DagSession(sid + "-" + es[b.indices[0]].uuid, b.parentID, true, b.indices)
  }

  /** out is the main session followed by one session per fork, in the order of the walk. */
  ghost predicate SessionsOf(es: seq<Entry>, sid: string, parentSID: string, r: WalkResult, out: seq<DagSession>) {
    && |out| == 1 + |r.forks|
    && out[0] == DagSession(sid, parentSID, false, r.path)
    && (forall k | 0 <= k < |r.forks| ::
          && r.forks[k].indices != [] && r.forks[k].indices[0] < |es|
          && out[k + 1] == ToSession(es, sid, r.forks[k]))
  }

  ghost predicate UuidsBelow(es: seq<Entry>, uuids: set<string>, n: nat)
    requires n <= |es|
  {
    && (forall j | 0 <= j < n :: es[j].uuid in uuids)
    && (forall u | u in uuids :: exists j | 0 <= j < n :: es[j].uuid == u)
  }

  /** Children lists keyed by parent uuid, the uuids seen, and the entries without a parent. */
  method IndexEntries(es: seq<Entry>)
    returns (children: map<string, seq<nat>>, uuidSet: set<string>, roots: seq<nat>)
    ensures ChildrenOf(es, children, |es|)
    ensures UuidsBelow(es, uuidSet, |es|)
    ensures roots == KidsBelow(es, "", |es|)
  {
    children, uuidSet, roots := map[], {}, [];
    for i := 0 to |es|
      invariant Indexed(es, children, uuidSet, roots, i)
    {
      IndexStep(es, children, uuidSet, roots, i);
      uuidSet := uuidSet + {es[i].uuid};
      if es[i].parentUuid == "" {
        roots := roots + [i];
      } else {
        children := children[es[i].parentUuid := KidsIn(children, es[i].parentUuid) + [i]];
      }
    }
  }

  /** What the index holds after the first i entries. */
  ghost predicate Indexed(es: seq<Entry>, children: map<string, seq<nat>>, uuids: set<string>, roots: seq<nat>, i: nat)
    requires i <= |es|
  {
    ChildrenOf(es, children, i) && UuidsBelow(es, uuids, i) && roots == KidsBelow(es, "", i)
  }

  lemma IndexStep(es: seq<Entry>, children: map<string, seq<nat>>, uuids: set<string>, roots: seq<nat>, i: nat)
    requires i < |es| && Indexed(es, children, uuids, roots, i)
    ensures var u, all := es[i].parentUuid, uuids + {es[i].uuid};
      && (u == "" ==> Indexed(es, children, all, roots + [i], i + 1))
      && (u != "" ==> Indexed(es, children[u := KidsIn(children, u) + [i]], all, roots, i + 1))
  {
    ChildrenStep(es, children, i);
    UuidsStep(es, uuids, i);
  }

  lemma UuidsStep(es: seq<Entry>, uuids: set<string>, i: nat)
    requires i < |es| && UuidsBelow(es, uuids, i)
    ensures UuidsBelow(es, uuids + {es[i].uuid}, i + 1)
  {
  }

  lemma ChildrenStep(es: seq<Entry>, children: map<string, seq<nat>>, i: nat)
    requires i < |es| && ChildrenOf(es, children, i)
    ensures es[i].parentUuid == "" ==> ChildrenOf(es, children, i + 1)
    ensures es[i].parentUuid != "" ==>
      ChildrenOf(es, children[es[i].parentUuid := KidsIn(children, es[i].parentUuid) + [i]], i + 1)
  {
    var v := es[i].parentUuid;
    var next := if v == "" then children else children[v := KidsIn(children, v) + [i]];
    forall u: string | u != ""
      ensures KidsIn(next, u) == KidsBelow(es, u, i + 1)
    {
      assert KidsIn(children, u) == KidsBelow(es, u, i);
    }
  }

  /** Whether every parent uuid was seen as a uuid. */
  method AllParentsKnown(es: seq<Entry>, uuidSet: set<string>) returns (known: bool)
    requires UuidsBelow(es, uuidSet, |es|)
    ensures known <==> forall i | 0 <= i < |es| && es[i].parentUuid != "" :: exists j :: Names(es, j, i)
  {
    for i := 0 to |es|
      invariant forall k | 0 <= k < i && es[k].parentUuid != "" :: exists j :: Names(es, j, k)
    {
      if es[i].parentUuid != "" {
        if es[i].parentUuid !in uuidSet {
          assert forall j :: !Names(es, j, i);
          return false;
        }
        ghost var j :| 0 <= j < |es| && es[j].uuid == es[i].parentUuid;
        assert Names(es, j, i);
      }
    }
    known := true;
  }

  /** Builds one session per branch; branches[0] is the main one. */
  method BuildSessions(es: seq<Entry>, sessionID: string, branches: seq<Branch>) returns (out: seq<DagSession>)
    requires branches != []
    requires forall k | 0 < k < |branches| :: branches[k].indices != [] && branches[k].indices[0] < |es|
    ensures |out| == |branches|
    ensures out[0] == DagSession(sessionID, branches[0].parentID, false, branches[0].indices)
    ensures forall k | 0 < k < |out| :: out[k] == ToSession(es, sessionID, branches[k])
  {
    out := [];
    for i := 0 to |branches|
      invariant |out| == i
      invariant i > 0 ==> out[0] == DagSession(sessionID, branches[0].parentID, false, branches[0].indices)
      invariant forall k | 0 < k < i :: out[k] == ToSession(es, sessionID, branches[k])
    {
      var b := branches[i];
      if i > 0 {
        var firstEntry := es[b.indices[0]];
        out := out + [DagSession(sessionID + "-" + firstEntry.uuid, b.parentID, true, b.indices)];
      } else {
        out := out + [DagSession(sessionID, b.parentID, false, b.indices)];
      }
    }
  }

  /** Falls back to linear parsing unless there is one root and every parent is known. */
  method ParseDag(es: seq<Entry>, sessionID: string, parentSessionID: string) returns (out: DagOutcome)
    requires DistinctUuids(es)
    ensures out.Dag? <==> Connected(es)
    ensures out.Dag? ==> SessionsOf(es, sessionID, parentSessionID, MainWalk(es, sessionID), out.sessions)
  {
    var children, uuidSet, roots := IndexEntries(es);
    if |roots| != 1 {
      return Linear;
    }
    var known := AllParentsKnown(es, uuidSet);
    if !known {
      return Linear;
    }
    var branches := Branches(es, sessionID, parentSessionID, children, roots[0]);
    ForksStartSomewhere(es, sessionID);
    var sessions := BuildSessions(es, sessionID, branches);
    out := Dag(sessions);
  }

  /** The main branch first, then the forks in the order of the walk. */
  method Branches(es: seq<Entry>, sessionID: string, parentSessionID: string, children: map<string, seq<nat>>, root: nat)
    returns (branches: seq<Branch>)
    requires DistinctUuids(es) && Connected(es) && ChildrenOf(es, children, |es|) && root == Root(es)
    ensures var r := MainWalk(es, sessionID);
      branches == [Branch(r.path, parentSessionID)] + r.forks
  {
    RootIsRooted(es);
    var walker := new DagWalker(es, sessionID, children);
    var mainPath := walker.WalkBranch(root, sessionID);
    branches := [Branch(mainPath, parentSessionID)] + walker.forkBranches;
  }

  lemma ForksStartSomewhere(es: seq<Entry>, sid: string)
    requires DistinctUuids(es) && Connected(es)
    ensures var forks := MainWalk(es, sid).forks;
      forall k | 0 <= k < |forks| :: forks[k].indices != [] && forks[k].indices[0] < |es|
  {
    RootIsRooted(es);
    WalkShape(es, sid, Root(es), sid);
    var forks := MainWalk(es, sid).forks;
    forall k | 0 <= k < |forks|
      ensures forks[k].indices != [] && forks[k].indices[0] < |es|
    {
      assert forks[k] in forks;
    }
  }

  /** An entry whose parent chain ends lies below the one root. */
  lemma {:induction false} RootedIsBelowRoot(es: seq<Entry>, i: nat, k: nat)
    requires DistinctUuids(es) && Connected(es) && i < |es| && Up(es, i, k) == -1
    ensures i in Subtree(es, Root(es))
    decreases k
  {
    var r := Root(es);
    var p := Parent(es, i);
    if p == -1 {
      assert i in KidsBelow(es, "", |es|);
      SubtreeHasRoot(es, r);
    } else {
      RootedIsBelowRoot(es, p, k - 1);
      var m: nat :| Up(es, p, m) == r;
      assert Up(es, i, m + 1) == r;
    }
  }

  lemma BelowRootIsRooted(es: seq<Entry>, i: nat)
    requires DistinctUuids(es) && Connected(es) && i < |es| && i in Subtree(es, Root(es))
    ensures Rooted(es, i)
  {
    RootIsRooted(es);
    var k: nat :| Up(es, i, k) == Root(es);
    var m: nat :| Up(es, Root(es), m) == -1;
    UpAdds(es, i, k, m);
  }

  /**
   * Exactly when the DAG path keeps track of an entry: it lies once on one branch, or below one
   * dropped kid, if its parent chain ends, and is lost altogether if its chain runs into a cycle.
   */
  lemma EntryIsKeptIffRooted(es: seq<Entry>, sid: string, i: nat)
    requires DistinctUuids(es) && Connected(es) && i < |es|
    ensures Tally(es, MainWalk(es, sid), i) == OneIf(Rooted(es, i))
  {
    RootIsRooted(es);
    WalkConserves(es, sid, Root(es), sid, i);
    if k: nat :| Up(es, i, k) == -1 {
      RootedIsBelowRoot(es, i, k);
    } else if i in Subtree(es, Root(es)) {
      BelowRootIsRooted(es, i);
    }
  }

  ghost predicate ParentsEarlier(es: seq<Entry>) {
    forall i, p | 0 <= i < |es| && Names(es, p, i) :: p < i
  }

  /** A file that was written front to back has no cycles, so nothing is lost. */
  lemma {:induction false} ParentsEarlierIsRooted(es: seq<Entry>, i: nat)
    requires ParentsEarlier(es) && i < |es|
    ensures Rooted(es, i)
  {
    var p := Parent(es, i);
    if p == -1 {
      assert Up(es, i, 1) == Up(es, -1, 0);
    } else {
      ParentsEarlierIsRooted(es, p);
      var m: nat :| Up(es, p, m) == -1;
      assert Up(es, i, m + 1) == -1;
    }
  }

  /** Conservation for a file written front to back: every entry, exactly once. */
  lemma NothingIsLost(es: seq<Entry>, sid: string)
    requires DistinctUuids(es) && Connected(es) && ParentsEarlier(es)
    ensures forall i: nat | i < |es| :: Tally(es, MainWalk(es, sid), i) == 1
  {
    forall i: nat | i < |es|
      ensures Tally(es, MainWalk(es, sid), i) == 1
    {
      ParentsEarlierIsRooted(es, i);
      EntryIsKeptIffRooted(es, sid, i);
    }
  }

  /** The guards let a cycle beside the root through, and the walk loses it. */
  lemma CycleIsLost(sid: string)
    ensures var es := [Entry("r", "", User), Entry("a", "b", User), Entry("b", "a", User)];
      DistinctUuids(es) && Connected(es) && Tally(es, MainWalk(es, sid), 1) == 0
  {
    var es := [Entry("r", "", User), Entry("a", "b", User), Entry("b", "a", User)];
    assert KidsBelow(es, "", 0) == [] && KidsBelow(es, "", 1) == [0] && KidsBelow(es, "", 2) == [0];
    assert Names(es, 2, 1) && Names(es, 1, 2);
    assert Parent(es, 1) == 2 && Parent(es, 2) == 1;
    forall k: nat
      ensures Up(es, 1, k) != -1
    {
      CycleGoesOn(es, k);
    }
    EntryIsKeptIffRooted(es, sid, 1);
  }

  lemma {:induction false} CycleGoesOn(es: seq<Entry>, k: nat)
    requires |es| == 3 && Parent(es, 1) == 2 && Parent(es, 2) == 1
    ensures Up(es, 1, k) > 0 && Up(es, 2, k) > 0
  {
    if k > 0 {
      CycleGoesOn(es, k - 1);
    }
  }

  /** Session ids are distinct, so a recorded parent id names one branch. */
  lemma SessionIDsDiffer(es: seq<Entry>, sid: string, parentSID: string, out: seq<DagSession>)
    requires DistinctUuids(es) && Connected(es)
    requires SessionsOf(es, sid, parentSID, MainWalk(es, sid), out)
    ensures forall j, k | 0 <= j < k < |out| :: out[j].id != out[k].id
  {
    var r := MainWalk(es, sid);
    forall j, k | 0 <= j < k < |r.forks|
      ensures HeadUuid(es, r.forks[j]) != HeadUuid(es, r.forks[k])
    {
      ForkHeadsDiffer(es, sid, j, k);
    }
    IDsFromHeads(es, sid, parentSID, r, out);
  }

  ghost function HeadUuid(es: seq<Entry>, b: Branch): string {
    if b.indices != [] && b.indices[0] < |es| then es[b.indices[0]].uuid else ""
  }

  lemma IDsFromHeads(es: seq<Entry>, sid: string, parentSID: string, r: WalkResult, out: seq<DagSession>)
    requires SessionsOf(es, sid, parentSID, r, out)
    requires forall j, k | 0 <= j < k < |r.forks| :: HeadUuid(es, r.forks[j]) != HeadUuid(es, r.forks[k])
    ensures forall j, k | 0 <= j < k < |out| :: out[j].id != out[k].id
  {
    forall j, k | 0 <= j < k < |out|
      ensures out[j].id != out[k].id
    {
      assert out[k] == ToSession(es, sid, r.forks[k - 1]);
      if j > 0 {
        assert out[j] == ToSession(es, sid, r.forks[j - 1]);
        ForkIDsDiffer(sid, HeadUuid(es, r.forks[j - 1]), HeadUuid(es, r.forks[k - 1]));
      }
    }
  }

  lemma ForkIDsDiffer(sid: string, u: string, v: string)
    requires u != v
    ensures sid + "-" + u != sid + "-" + v
  {
    assert (sid + "-" + u)[|sid| + 1..] == u;
    assert (sid + "-" + v)[|sid| + 1..] == v;
  }

  lemma ForkHeadsDiffer(es: seq<Entry>, sid: string, j: nat, k: nat)
    requires DistinctUuids(es) && Connected(es) && j < k < |MainWalk(es, sid).forks|
    ensures var forks := MainWalk(es, sid).forks;
      && forks[j].indices != [] && forks[k].indices != []
      && forks[j].indices[0] < |es| && forks[k].indices[0] < |es|
      && es[forks[j].indices[0]].uuid != es[forks[k].indices[0]].uuid
  {
    var forks := MainWalk(es, sid).forks;
    ForksStartSomewhere(es, sid);
    RootIsRooted(es);
    var h := forks[j].indices[0];
    WalkConserves(es, sid, Root(es), sid, h);
    if h == forks[k].indices[0] {
      TwoForks(forks, j, k, h);
    }
  }

  lemma {:induction false} TwoForks(forks: seq<Branch>, j: nat, k: nat, i: nat)
    requires j < k < |forks| && i in forks[j].indices && i in forks[k].indices
    ensures TallyBranches(forks, i) >= 2
  {
    var n := |forks| - 1;
    if k < n {
      TwoForks(forks[..n], j, k, i);
    } else {
      InOneFork(forks[..n], j, i);
    }
  }

  lemma {:induction false} InOneFork(forks: seq<Branch>, j: nat, i: nat)
    requires j < |forks| && i in forks[j].indices
    ensures TallyBranches(forks, i) >= 1
  {
    var n := |forks| - 1;
    if j < n {
      InOneFork(forks[..n], j, i);
    }
  }

  /** The session called id holds the entry p. */
  ghost predicate SessionHolds(out: seq<DagSession>, id: string, p: int) {
    exists j | 0 <= j < |out| :: out[j].id == id && p in out[j].indices
  }

  lemma BranchIsSession(es: seq<Entry>, sid: string, parentSID: string, r: WalkResult, out: seq<DagSession>, p: int, id: string)
    requires SessionsOf(es, sid, parentSID, r, out) && OnBranch(es, sid, r, sid, p, id)
    ensures SessionHolds(out, id, p)
  {
    if p in r.path && id == sid {
      assert out[0].id == id && p in out[0].indices;
    } else {
      var g :| g in r.forks && g.indices != [] && g.indices[0] < |es| && p in g.indices && id == ForkID(es, sid, g.indices[0]);
      var m :| 0 <= m < |r.forks| && r.forks[m] == g;
      assert out[m + 1] == ToSession(es, sid, g);
    }
  }

  /** A fork session's parent is the session holding the parent of the fork's first entry. */
  lemma ForkParentIsItsBranch(es: seq<Entry>, sid: string, parentSID: string, out: seq<DagSession>, k: nat)
    requires DistinctUuids(es) && Connected(es)
    requires SessionsOf(es, sid, parentSID, MainWalk(es, sid), out) && 0 < k < |out|
    ensures out[k].indices != [] && out[k].indices[0] < |es|
    ensures SessionHolds(out, out[k].parentID, Parent(es, out[k].indices[0]))
  {
    var r := MainWalk(es, sid);
    assert WellShaped(es, sid, Root(es), sid, r) by {
      RootIsRooted(es);
      WalkShape(es, sid, Root(es), sid);
    }
    var f := r.forks[k - 1];
    assert f in r.forks && out[k] == ToSession(es, sid, f);
    BranchIsSession(es, sid, parentSID, r, out, Parent(es, f.indices[0]), f.parentID);
  }

  // ------------------------------------------------------------ straight files

  /** Every entry continues the one right before it. */
  ghost predicate Chain(es: seq<Entry>) {
    && es != [] && es[0].parentUuid == ""
    && forall i | 0 < i < |es| :: es[i].parentUuid == es[i - 1].uuid
  }

  ghost function AllIndices(es: seq<Entry>): seq<nat> {
    seq(|es|, i requires 0 <= i => i)
  }

  lemma ChainIsConnected(es: seq<Entry>)
    requires DistinctUuids(es) && Chain(es)
    ensures Connected(es) && Root(es) == 0
  {
    forall i | 0 <= i < |es| && es[i].parentUuid != ""
      ensures exists j :: Names(es, j, i)
    {
      assert Names(es, i - 1, i);
    }
    OnlyFirstIsRoot(es, |es|);
  }

  lemma {:induction false} OnlyFirstIsRoot(es: seq<Entry>, n: nat)
    requires DistinctUuids(es) && Chain(es) && 0 < n <= |es|
    ensures KidsBelow(es, "", n) == [0]
  {
    if n > 1 {
      OnlyFirstIsRoot(es, n - 1);
      assert es[n - 1].parentUuid == es[n - 2].uuid;
    } else {
      assert KidsBelow(es, "", 0) == [];
    }
  }

  lemma FirstTwoDiffer(s: seq<nat>)
    requires Ascending(s)
    ensures |s| > 1 ==> s[0] < s[1]
  {
  }

  lemma ChainKid(es: seq<Entry>, i: nat)
    requires DistinctUuids(es) && Chain(es) && i < |es|
    ensures Kids(es, i) == if i + 1 < |es| then [i + 1] else []
  {
    var kids := Kids(es, i);
    KidsAscend(es, es[i].uuid, |es|);
    forall c | c in kids
      ensures c == i + 1
    {
      assert es[c].parentUuid == es[i].uuid != "";
      assert es[c - 1].uuid == es[i].uuid;
    }
    assert forall j | 0 <= j < |kids| :: kids[j] in kids;
    FirstTwoDiffer(kids);
    if i + 1 < |es| {
      assert i + 1 in kids;
    }
  }

  /** The walk of a chain takes everything in file order and splits nothing off. */
  lemma ChainWalksStraight(es: seq<Entry>, sid: string)
    requires DistinctUuids(es) && Chain(es)
    ensures Connected(es)
    ensures MainWalk(es, sid).path == AllIndices(es) && MainWalk(es, sid).forks == []
  {
    ChainIsConnected(es);
    RootIsRooted(es);
    WalkShape(es, sid, 0, sid);
    var r := MainWalk(es, sid);
    StraightPath(es, r.path, |r.path| - 1);
    ChainKid(es, r.path[|r.path| - 1]);
    forall j | 0 <= j < |r.path|
      ensures r.path[j] == j
    {
      StraightPath(es, r.path, j);
    }
    if r.forks != [] {
      var f := r.forks[0];
      assert f in r.forks && StartsFork(es, f.indices[0]);
      ChainKid(es, Parent(es, f.indices[0]));
    }
  }

  lemma {:induction false} StraightPath(es: seq<Entry>, path: seq<nat>, j: nat)
    requires DistinctUuids(es) && Chain(es) && FollowsRule(es, path) && path[0] == 0 && j < |path|
    ensures path[j] == j
  {
    if j > 0 {
      StraightPath(es, path, j - 1);
      assert path[(j - 1) + 1] == NextOnBranch(es, path[j - 1]);
      ChainKid(es, j - 1);
    }
  }

  /** An entry that does not continue the one right before it keeps the walk from taking everything in order. */
  lemma ForkIsNotStraight(es: seq<Entry>, sid: string, k: nat, c: nat)
    requires DistinctUuids(es) && Connected(es) && 0 < c < |es| && k < |es| && k != c - 1 && Names(es, k, c)
    ensures MainWalk(es, sid).path != AllIndices(es)
  {
    RootIsRooted(es);
    WalkShape(es, sid, Root(es), sid);
    var path := MainWalk(es, sid).path;
    if path == AllIndices(es) {
      StraightStep(es, path, c);
    }
    KidNamesParent(es, c - 1, c);
    KidNamesParent(es, k, c);
    assert c in Kids(es, k);
  }

  lemma StraightStep(es: seq<Entry>, path: seq<nat>, c: nat)
    requires FollowsRule(es, path) && path == AllIndices(es) && 0 < c < |es|
    ensures c in Kids(es, c - 1)
  {
    assert path[(c - 1) + 1] == NextOnBranch(es, path[c - 1]);
  }
}
