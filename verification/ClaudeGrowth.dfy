/** How the main branch grows when a file is appended to (internal/parser/claude.go). */
module ClaudeGrowth {
  // The walk follows the latest child after a small gap and the first one after a large gap.  A
  // tail that continues the end of the main branch changes neither choice, so the branch goes on with it.

  import opened Common
  import opened ClaudeDag

  /** Each entry of the tail continues the one before it. */
  ghost predicate Linked(tail: seq<Entry>) {
    forall i | 0 < i < |tail| :: tail[i].parentUuid == tail[i - 1].uuid
  }

  /** A file with a tail hung onto the entry leaf, which had no children. */
  ghost predicate Grown(es: seq<Entry>, tail: seq<Entry>, leaf: nat) {
    && DistinctUuids(es + tail) && Connected(es) && Linked(tail) && tail != []
    && leaf < |es| && Kids(es, leaf) == [] && tail[0].parentUuid == es[leaf].uuid
  }

  /** Entries i, i + 1, ..., n - 1. */
  ghost function UpTo(i: nat, n: nat): seq<nat>
    requires i <= n
  {
    seq(n - i, k requires 0 <= k => i + k)
  }

  // ---------------------------------------------------------------------- children

  lemma {:induction false} KidsInFront(es: seq<Entry>, tail: seq<Entry>, u: string, n: nat)
    requires n <= |es|
    ensures KidsBelow(es + tail, u, n) == KidsBelow(es, u, n)
  {
    if n > 0 {
      KidsInFront(es, tail, u, n - 1);
    }
  }

  /** Nobody in the tail is a child of u: the children are those of before. */
  lemma {:induction false} KidsUnlessNamed(es: seq<Entry>, tail: seq<Entry>, u: string, k: nat)
    requires k <= |tail| && forall i | 0 <= i < k :: tail[i].parentUuid != u
    ensures KidsBelow(es + tail, u, |es| + k) == KidsBelow(es, u, |es|)
  {
    if k == 0 {
      KidsInFront(es, tail, u, |es|);
    } else {
      KidsUnlessNamed(es, tail, u, k - 1);
      assert (es + tail)[|es| + k - 1] == tail[k - 1];
    }
  }

  /** The tail's parents are the leaf and the entries of the tail itself. */
  lemma TailNames(es: seq<Entry>, tail: seq<Entry>, leaf: nat, k: nat, j: nat)
    requires Grown(es, tail, leaf) && k < |tail| && j < |es + tail|
    ensures (es + tail)[j].uuid == tail[k].parentUuid <==> j == if k == 0 then leaf else |es| + k - 1
  {
    var all := es + tail;
    assert all[leaf] == es[leaf];
    assert k > 0 ==> all[|es| + k - 1] == tail[k - 1];
  }

  lemma OldKidsStay(es: seq<Entry>, tail: seq<Entry>, leaf: nat, i: nat)
    requires Grown(es, tail, leaf) && i < |es|
    ensures Kids(es + tail, i) == if i == leaf then [|es|] else Kids(es, i)
  {
    var all := es + tail;
    assert all[i] == es[i];
    forall k | 0 <= k < |tail| && (k > 0 || i != leaf)
      ensures tail[k].parentUuid != es[i].uuid
    {
      TailNames(es, tail, leaf, k, i);
    }
    if i == leaf {
      KidsOfOne(es, tail, es[i].uuid, 0, |tail|);
    } else {
      KidsUnlessNamed(es, tail, es[i].uuid, |tail|);
    }
  }

  /** The entry j of the tail is the only child of u in the whole file. */
  lemma {:induction false} KidsOfOne(es: seq<Entry>, tail: seq<Entry>, u: string, j: nat, k: nat)
    requires j < k <= |tail| && tail[j].parentUuid == u && KidsBelow(es, u, |es|) == []
    requires forall i | 0 <= i < k && i != j :: tail[i].parentUuid != u
    ensures KidsBelow(es + tail, u, |es| + k) == [|es| + j]
  {
    assert (es + tail)[|es| + k - 1] == tail[k - 1];
    if k - 1 == j {
      KidsUnlessNamed(es, tail, u, j);
    } else {
      KidsOfOne(es, tail, u, j, k - 1);
    }
  }

  lemma TailKids(es: seq<Entry>, tail: seq<Entry>, leaf: nat, k: nat)
    requires Grown(es, tail, leaf) && k < |tail|
    ensures Kids(es + tail, |es| + k) == if k + 1 < |tail| then [|es| + k + 1] else []
  {
    var all, u := es + tail, tail[k].uuid;
    assert all[|es| + k] == tail[k];
    NoOldKids(es, tail, u, k);
    forall i | 0 <= i < |tail| && i != k + 1
      ensures tail[i].parentUuid != u
    {
      TailNames(es, tail, leaf, i, |es| + k);
    }
    if k + 1 < |tail| {
      KidsOfOne(es, tail, u, k + 1, |tail|);
    } else {
      KidsUnlessNamed(es, tail, u, |tail|);
    }
  }

  lemma NoOldKids(es: seq<Entry>, tail: seq<Entry>, u: string, k: nat)
    requires DistinctUuids(es + tail) && Connected(es) && k < |tail| && u == tail[k].uuid
    ensures KidsBelow(es, u, |es|) == []
  {
    var all := es + tail;
    assert all[|es| + k] == tail[k];
    forall i | 0 <= i < |es|
      ensures es[i].parentUuid != u
    {
      if es[i].parentUuid != "" {
        var j :| Names(es, j, i);
        assert all[j] == es[j];
      }
    }
    if KidsBelow(es, u, |es|) != [] {
      assert KidsBelow(es, u, |es|)[0] in KidsBelow(es, u, |es|);
    }
  }

  // ----------------------------------------------------------------- parent chains

  lemma ParentsStay(es: seq<Entry>, tail: seq<Entry>, i: nat)
    requires DistinctUuids(es + tail) && Connected(es) && i < |es|
    ensures Parent(es + tail, i) == Parent(es, i)
  {
    var all := es + tail;
    assert forall j | 0 <= j < |es| :: all[j] == es[j];
    if es[i].parentUuid != "" {
      var j :| Names(es, j, i);
      assert Names(all, j, i);
    }
  }

  lemma {:induction false} ChainsStay(es: seq<Entry>, tail: seq<Entry>, i: int, k: nat)
    requires DistinctUuids(es + tail) && Connected(es) && -1 <= i < |es|
    ensures Up(es + tail, i, k) == Up(es, i, k)
    decreases k
  {
    if k > 0 && i != -1 {
      ParentsStay(es, tail, i);
      ChainsStay(es, tail, Parent(es, i), k - 1);
    }
  }

  lemma RootedStays(es: seq<Entry>, tail: seq<Entry>, i: nat)
    requires DistinctUuids(es + tail) && Connected(es) && i < |es| && Rooted(es, i)
    ensures Rooted(es + tail, i)
  {
    var k: nat :| Up(es, i, k) == -1;
    ChainsStay(es, tail, i, k);
    assert Up(es + tail, i, k) == -1;
  }

  lemma TailParent(es: seq<Entry>, tail: seq<Entry>, leaf: nat, k: nat)
    requires Grown(es, tail, leaf) && k < |tail|
    ensures Parent(es + tail, |es| + k) == if k == 0 then leaf else |es| + k - 1
  {
    var all := es + tail;
    var p := if k == 0 then leaf else |es| + k - 1;
    assert all[|es| + k] == tail[k];
    TailNames(es, tail, leaf, k, p);
    assert Names(all, p, |es| + k);
    var q := Parent(all, |es| + k);
    TailNames(es, tail, leaf, k, q);
  }

  /** From the tail every chain leads through the leaf. */
  lemma {:induction false} TailChain(es: seq<Entry>, tail: seq<Entry>, leaf: nat, k: nat)
    requires Grown(es, tail, leaf) && k < |tail|
    ensures Up(es + tail, |es| + k, k + 1) == leaf
  {
    var all := es + tail;
    TailParent(es, tail, leaf, k);
    if k == 0 {
      assert Up(all, |es|, 1) == Up(all, leaf, 0);
    } else {
      TailChain(es, tail, leaf, k - 1);
      assert Up(all, |es| + k, k + 1) == Up(all, |es| + (k - 1), k);
    }
  }

  /** Until then it stays in the tail. */
  lemma {:induction false} StaysInTail(es: seq<Entry>, tail: seq<Entry>, leaf: nat, k: nat, m: nat)
    requires Grown(es, tail, leaf) && m <= k < |tail|
    ensures Up(es + tail, |es| + k, m) == |es| + k - m
    decreases m
  {
    var all := es + tail;
    if m > 0 {
      TailParent(es, tail, leaf, k);
      StaysInTail(es, tail, leaf, k - 1, m - 1);
      assert Up(all, |es| + k, m) == Up(all, |es| + (k - 1), m - 1);
    }
  }

  lemma TailIsRooted(es: seq<Entry>, tail: seq<Entry>, leaf: nat, k: nat)
    requires Grown(es, tail, leaf) && k < |tail| && Rooted(es, leaf)
    ensures Rooted(es + tail, |es| + k)
  {
    RootedStays(es, tail, leaf);
    TailChain(es, tail, leaf, k);
    var m: nat :| Up(es + tail, leaf, m) == -1;
    UpAdds(es + tail, |es| + k, k + 1, m);
    assert Up(es + tail, |es| + k, k + 1 + m) == -1;
  }

  // ----------------------------------------------------------------------- subtrees

  /** The old entries below i are those of before; the tail comes below i exactly when the leaf is. */
  lemma SubtreeGrows(es: seq<Entry>, tail: seq<Entry>, leaf: nat, i: nat)
    requires Grown(es, tail, leaf) && i < |es|
    ensures Subtree(es, i) <= Subtree(es + tail, i)
    ensures leaf !in Subtree(es, i) ==> Subtree(es + tail, i) == Subtree(es, i)
  {
    var all := es + tail;
    forall x: nat | x < |es|
      ensures x in Subtree(all, i) <==> x in Subtree(es, i)
    {
      if k: nat :| Up(es, x, k) == i {
        ChainsStay(es, tail, x, k);
        assert Up(all, x, k) == i;
      }
      if k: nat :| Up(all, x, k) == i {
        ChainsStay(es, tail, x, k);
        assert Up(es, x, k) == i;
      }
    }
    forall x: nat | |es| <= x < |all| && x in Subtree(all, i)
      ensures leaf in Subtree(es, i)
    {
      TailBelow(es, tail, leaf, i, x - |es|);
    }
  }

  lemma TailBelow(es: seq<Entry>, tail: seq<Entry>, leaf: nat, i: nat, k: nat)
    requires Grown(es, tail, leaf) && i < |es| && k < |tail| && |es| + k in Subtree(es + tail, i)
    ensures leaf in Subtree(es, i)
  {
    var all := es + tail;
    var m: nat :| Up(all, |es| + k, m) == i;
    TailChain(es, tail, leaf, k);
    if m <= k {
      StaysInTail(es, tail, leaf, k, m);
    }
    UpAdds(all, |es| + k, k + 1, m - k - 1);
    ChainsStay(es, tail, leaf, m - k - 1);
    assert Up(es, leaf, m - k - 1) == i;
  }

  lemma TurnsGrow(es: seq<Entry>, tail: seq<Entry>, leaf: nat, i: nat)
    requires Grown(es, tail, leaf) && i < |es|
    ensures UserTurns(es, i) <= UserTurns(es + tail, i)
    ensures leaf !in Subtree(es, i) ==> UserTurns(es + tail, i) == UserTurns(es, i)
  {
    var all := es + tail;
    SubtreeGrows(es, tail, leaf, i);
    var was, now := UsersIn(es, Subtree(es, i)), UsersIn(all, Subtree(all, i));
    assert forall x: nat | x < |es| :: all[x] == es[x];
    assert was <= now;
    assert now == was + (now - was);
    if leaf !in Subtree(es, i) {
      assert now == was;
    }
  }

  // ----------------------------------------------------------------------- the walk

  lemma LeafIsBelow(es: seq<Entry>, sid: string, s: nat, owner: string, i: nat)
    requires DistinctUuids(es) && s < |es| && Rooted(es, s) && i in Walk(es, sid, s, owner).path
    ensures i in Subtree(es, s)
  {
    WalkConserves(es, sid, s, owner, i);
  }

  lemma {:induction false} TailIsWalked(es: seq<Entry>, tail: seq<Entry>, leaf: nat, sid: string, owner: string, k: nat)
    requires Grown(es, tail, leaf) && Rooted(es, leaf) && k < |tail|
    ensures Rooted(es + tail, |es| + k)
    ensures Walk(es + tail, sid, |es| + k, owner).path == UpTo(|es| + k, |es + tail|)
    decreases |tail| - k
  {
    var all, i := es + tail, |es| + k;
    TailIsRooted(es, tail, leaf, k);
    TailKids(es, tail, leaf, k);
    if k + 1 < |tail| {
      TailIsWalked(es, tail, leaf, sid, owner, k + 1);
      WalkOnward(all, sid, i, owner);
      assert NextOnBranch(all, i) == i + 1;
    }
    UpToStep(i, |all|);
  }

  lemma UpToStep(i: nat, n: nat)
    requires i < n
    ensures UpTo(i, n) == [i] + UpTo(i + 1, n)
  {
  }

  /** The choice at a fork point on the way to the leaf is the same as before. */
  lemma SameChoice(es: seq<Entry>, tail: seq<Entry>, leaf: nat, s: nat)
    requires Grown(es, tail, leaf) && DistinctUuids(es) && s < |es| && Rooted(es, s) && |Kids(es, s)| >= 2
    requires leaf in Subtree(es, NextOnBranch(es, s))
    ensures Kids(es + tail, s) == Kids(es, s)
    ensures NextOnBranch(es + tail, s) == NextOnBranch(es, s)
  {
    OldKidsStay(es, tail, leaf, s);
    SameGap(es, tail, leaf, s);
    KidsDecide(es, es + tail, s);
  }

  lemma KidsDecide(a: seq<Entry>, b: seq<Entry>, s: nat)
    requires s < |a| <= |b| && |Kids(a, s)| >= 2
    requires Kids(b, s) == Kids(a, s) && SmallGap(b, Kids(a, s)) == SmallGap(a, Kids(a, s))
    ensures NextOnBranch(b, s) == NextOnBranch(a, s)
  {
  }

  lemma SameGap(es: seq<Entry>, tail: seq<Entry>, leaf: nat, s: nat)
    requires Grown(es, tail, leaf) && DistinctUuids(es) && s < |es| && Rooted(es, s) && |Kids(es, s)| >= 2
    requires leaf in Subtree(es, NextOnBranch(es, s))
    ensures SmallGap(es + tail, Kids(es, s)) == SmallGap(es, Kids(es, s))
  {
    var kids := Kids(es, s);
    assert kids[0] in kids && kids[|kids| - 1] in kids;
    TurnsGrow(es, tail, leaf, kids[0]);
    if SmallGap(es, kids) {
      LatestIsElsewhere(es, s, leaf);
    }
  }

  lemma LatestIsElsewhere(es: seq<Entry>, s: nat, leaf: nat)
    requires DistinctUuids(es) && s < |es| && Rooted(es, s) && |Kids(es, s)| >= 2
    requires var kids := Kids(es, s); kids[|kids| - 1] < |es| && leaf in Subtree(es, kids[|kids| - 1])
    ensures Kids(es, s)[0] < |es| && leaf !in Subtree(es, Kids(es, s)[0])
  {
    var kids := Kids(es, s);
    assert kids[0] in kids && kids[|kids| - 1] in kids;
    KidsAreSiblings(es, s);
    KidsDisjoint(es, s, kids[0], kids[|kids| - 1]);
  }

  /** A branch that ends at the leaf goes on with the tail. */
  lemma {:induction false} WalkGrows(es: seq<Entry>, tail: seq<Entry>, leaf: nat, sid: string, s: nat, owner: string)
    requires Grown(es, tail, leaf) && DistinctUuids(es) && s < |es| && Rooted(es, s)
    requires EndsAt(Walk(es, sid, s, owner).path, leaf)
    ensures Rooted(es + tail, s)
    ensures Walk(es + tail, sid, s, owner).path == Walk(es, sid, s, owner).path + UpTo(|es|, |es + tail|)
    decreases Subtree(es, s)
  {
    var all := es + tail;
    RootedStays(es, tail, s);
    OldKidsStay(es, tail, leaf, s);
    if Kids(es, s) == [] {
      assert Walk(es, sid, s, owner).path == [s];
      assert Kids(all, s) == [|es|];
      KidIsSmaller(all, s, |es|);
      TailIsWalked(es, tail, leaf, sid, owner, 0);
    } else {
      var c := NextOnBranch(es, s);
      KidIsSmaller(es, s, c);
      WalkOnward(es, sid, s, owner);
      var p := Walk(es, sid, c, owner).path;
      assert p != [] && EndsAt(p, leaf) by {
        WalkShape(es, sid, c, owner);
      }
      LeafIsBelow(es, sid, c, owner, leaf);
      if |Kids(es, s)| >= 2 {
        SameChoice(es, tail, leaf, s);
      }
      assert NextOnBranch(all, s) == c;
      WalkGrows(es, tail, leaf, sid, c, owner);
      WalkOnward(all, sid, s, owner);
      ConcatIsAssociative([s], p, UpTo(|es|, |all|));
    }
  }

  ghost predicate EndsAt(p: seq<nat>, i: nat) {
    p != [] && p[|p| - 1] == i
  }

  lemma WalkOnward(es: seq<Entry>, sid: string, s: nat, owner: string)
    requires DistinctUuids(es) && s < |es| && Rooted(es, s) && Kids(es, s) != []
    ensures Rooted(es, NextOnBranch(es, s))
    ensures Walk(es, sid, s, owner).path == [s] + Walk(es, sid, NextOnBranch(es, s), owner).path
  {
    KidIsSmaller(es, s, NextOnBranch(es, s));
  }

  lemma GrownIsConnected(es: seq<Entry>, tail: seq<Entry>, leaf: nat)
    requires Grown(es, tail, leaf)
    ensures Connected(es + tail) && Root(es + tail) == Root(es)
  {
    var all := es + tail;
    forall k | 0 <= k < |tail|
      ensures tail[k].parentUuid != ""
    {
      var p := if k == 0 then leaf else |es| + k - 1;
      TailNames(es, tail, leaf, k, p);
      assert all[p].uuid != "";
    }
    KidsUnlessNamed(es, tail, "", |tail|);
    forall i | 0 <= i < |all| && all[i].parentUuid != ""
      ensures exists j :: Names(all, j, i)
    {
      if i < |es| {
        var j :| Names(es, j, i);
        assert all[j] == es[j] && all[i] == es[i];
        assert Names(all, j, i);
      } else {
        var p := if i == |es| then leaf else i - 1;
        TailNames(es, tail, leaf, i - |es|, p);
        assert Names(all, p, i);
      }
    }
  }

  /** The last entry of the main branch. */
  ghost function MainLeaf(es: seq<Entry>, sid: string): (leaf: nat)
    requires DistinctUuids(es) && Connected(es)
    ensures leaf < |es| && Rooted(es, leaf) && Kids(es, leaf) == []
  {
    RootIsRooted(es);
    WalkShape(es, sid, Root(es), sid);
    var path := MainWalk(es, sid).path;
    var leaf := path[|path| - 1];
    assert leaf in path;
    LeafIsBelow(es, sid, Root(es), sid, leaf);
    RootedIfBelow(es, Root(es), leaf);
    leaf
  }

  lemma MainLeafIsLast(es: seq<Entry>, sid: string)
    requires DistinctUuids(es) && Connected(es)
    ensures var path := MainWalk(es, sid).path;
      path != [] && MainLeaf(es, sid) == path[|path| - 1]
  {
    RootIsRooted(es);
    WalkShape(es, sid, Root(es), sid);
  }

  lemma RootedIfBelow(es: seq<Entry>, s: nat, i: nat)
    requires s < |es| && Rooted(es, s) && i in Subtree(es, s)
    ensures Rooted(es, i)
  {
    var k: nat :| Up(es, i, k) == s;
    var m: nat :| Up(es, s, m) == -1;
    UpAdds(es, i, k, m);
    assert Up(es, i, k + m) == -1;
  }

  /**
   * Appending to a file of any shape: the main branch goes on with the tail, entry for entry, exactly
   * when the tail continues the last entry of the main branch.
   */
  lemma MainGrowsIff(es: seq<Entry>, tail: seq<Entry>, sid: string)
    requires DistinctUuids(es) && DistinctUuids(es + tail) && Connected(es) && Linked(tail) && tail != []
    ensures Connected(es + tail) && MainWalk(es + tail, sid).path == MainWalk(es, sid).path + UpTo(|es|, |es + tail|)
       <==> tail[0].parentUuid == es[MainLeaf(es, sid)].uuid
  {
    var all, leaf := es + tail, MainLeaf(es, sid);
    RootIsRooted(es);
    if tail[0].parentUuid == es[leaf].uuid {
      GrownIsConnected(es, tail, leaf);
      WalkShape(es, sid, Root(es), sid);
      WalkGrows(es, tail, leaf, sid, Root(es), sid);
    }
    if Connected(all) && MainWalk(all, sid).path == MainWalk(es, sid).path + UpTo(|es|, |all|) {
      NextIsAChild(es, tail, sid);
    }
  }

  lemma NextIsAChild(es: seq<Entry>, tail: seq<Entry>, sid: string)
    requires DistinctUuids(es) && DistinctUuids(es + tail) && Connected(es) && Connected(es + tail) && tail != []
    requires MainWalk(es + tail, sid).path == MainWalk(es, sid).path + UpTo(|es|, |es + tail|)
    ensures tail[0].parentUuid == es[MainLeaf(es, sid)].uuid
  {
    var all, leaf := es + tail, MainLeaf(es, sid);
    RootIsRooted(es);
    RootIsRooted(all);
    WalkShape(es, sid, Root(es), sid);
    WalkShape(all, sid, Root(all), sid);
    var path, p := MainWalk(es, sid).path, MainWalk(all, sid).path;
    var n := |path| - 1;
    assert p[n] == path[n] == leaf && p[n + 1] == |es|;
    assert p[n + 1] == NextOnBranch(all, p[n]);
    assert |es| in Kids(all, leaf);
    assert all[|es|] == tail[0] && all[leaf] == es[leaf];
  }
}
