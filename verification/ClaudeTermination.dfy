/** When the walk of a transcript ends, whatever its uuids (internal/parser/claude.go). */
module ClaudeTermination {
  // The guards before the walk let repeated uuids through.  Here nothing is assumed about uuids but that
  // none is empty, and both loops are unrolled step by step: the stack loop of countUserTurns, and
  // the walk with everything it still has to do.

  import opened Common
  import opened Ordering
  import opened ClaudeDag

  // ------------------------------------------------------------- worklists over a graph

  /** For each index the indices that it leads to. */
  type Graph = seq<seq<nat>>

  ghost predicate Closed(g: Graph) {
    forall i, c | 0 <= i < |g| && c in g[i] :: c < |g|
  }

  ghost function Next(g: Graph, i: nat): seq<nat> {
    if i < |g| then g[i] else []
  }

  /** One turn of the loop: the last item goes, what it leads to comes. */
  ghost function Popped(g: Graph, stack: seq<nat>): seq<nat> {
    if stack == [] then [] else stack[..|stack| - 1] + Next(g, stack[|stack| - 1])
  }

  ghost function Repeated<T>(f: T -> T, x: T, n: nat): T {
    if n == 0 then x else f(Repeated(f, x, n - 1))
  }

  lemma {:induction false} RepeatedAdds<T>(f: T -> T, x: T, m: nat, n: nat)
    ensures Repeated(f, x, m + n) == Repeated(f, Repeated(f, x, m), n)
  {
    if n > 0 {
      RepeatedAdds(f, x, m, n - 1);
    }
  }

  ghost function Turn(g: Graph): seq<nat> -> seq<nat> {
    stack => Popped(g, stack)
  }

  /** The stack after n turns. */
  ghost function After(g: Graph, stack: seq<nat>, n: nat): seq<nat> {
    Repeated(Turn(g), stack, n)
  }

  lemma AfterStep(g: Graph, stack: seq<nat>, n: nat)
    ensures After(g, stack, n + 1) == After(g, Popped(g, stack), n)
  {
    RepeatedAdds(Turn(g), stack, 1, n);
    assert Repeated(Turn(g), stack, 1) == Turn(g)(Repeated(Turn(g), stack, 0));
  }

  lemma AfterAdds(g: Graph, stack: seq<nat>, m: nat, n: nat)
    ensures After(g, stack, m + n) == After(g, After(g, stack, m), n)
  {
    RepeatedAdds(Turn(g), stack, m, n);
  }

  ghost predicate Ends(g: Graph, stack: seq<nat>) {
    exists n: nat :: After(g, stack, n) == []
  }

  ghost predicate Path(g: Graph, p: seq<nat>) {
    p != [] && forall k | 0 <= k < |p| - 1 :: p[k + 1] in Next(g, p[k])
  }

  /** A path from s whose last item it has passed before. */
  ghost predicate Loops(g: Graph, s: nat, p: seq<nat>) {
    Path(g, p) && p[0] == s && p[|p| - 1] in p[..|p| - 1]
  }

  ghost predicate ComesBack(g: Graph, s: nat) {
    exists p :: Loops(g, s, p)
  }

  // --------------------------------------------------- whoever comes back keeps the loop busy

  /** If s can come back, one of the items after it can as well. */
  lemma BackGoesOn(g: Graph, s: nat)
    requires ComesBack(g, s)
    ensures exists c | c in Next(g, s) :: ComesBack(g, c)
  {
    var p :| Loops(g, s, p);
    var j :| 0 <= j < |p| - 1 && p[j] == p[|p| - 1];
    var q := p[1..];
    forall k | 0 <= k < |q| - 1
      ensures q[k + 1] in Next(g, q[k])
    {
      assert q[k] == p[k + 1] && q[k + 1] == p[k + 1 + 1];
    }
    if j > 0 {
      assert q[..|q| - 1][j - 1] == q[|q| - 1];
      assert Loops(g, p[1], q);
    } else {
      BackToSecond(g, p);
    }
    assert p[1] in Next(g, p[0]);
  }

  lemma BackToSecond(g: Graph, p: seq<nat>)
    requires Path(g, p) && |p| >= 2 && p[|p| - 1] == p[0]
    ensures ComesBack(g, p[1])
  {
    var r := p[1..] + [p[1]];
    forall k | 0 <= k < |r| - 1
      ensures r[k + 1] in Next(g, r[k])
    {
      assert r[k] == p[k + 1];
      if k + 1 < |r| - 1 {
        assert r[k + 1] == p[k + 2];
      }
    }
    assert r[..|r| - 1][0] == r[|r| - 1];
    assert Loops(g, p[1], r);
  }

  lemma {:induction false} BackNeverEnds(g: Graph, stack: seq<nat>, n: nat)
    requires exists i | i in stack :: ComesBack(g, i)
    ensures After(g, stack, n) != []
    decreases n
  {
    if n > 0 {
      var i :| i in stack && ComesBack(g, i);
      var top := stack[|stack| - 1];
      var next := Popped(g, stack);
      if i == top {
        BackGoesOn(g, top);
        var c :| c in Next(g, top) && ComesBack(g, c);
        assert c in next;
      } else {
        assert stack == stack[..|stack| - 1] + [top];
        assert i in next;
      }
      BackNeverEnds(g, next, n - 1);
      AfterStep(g, stack, n - 1);
    }
  }

  // --------------------------------------------------------- otherwise paths are short

  ghost predicate Short(g: Graph, i: nat, d: nat) {
    forall p | Path(g, p) && p[0] == i :: |p| <= d
  }

  lemma PigeonHole(p: seq<nat>, n: nat)
    requires |p| > n && forall x | x in p :: x < n
    ensures exists j, k :: 0 <= j < k < |p| && p[j] == p[k]
  {
    if NoDuplicates(p) {
      DistinctIsItsSet(p);
      SizeOfRange(n);
      SubsetIsSmaller((set x | x in p), Range(n));
    }
  }

  ghost function Range(n: nat): (r: set<nat>)
    ensures forall x: nat {:trigger x in r} :: x in r <==> x < n
  {
    if n == 0 then {} else Range(n - 1) + {n - 1}
  }

  lemma {:induction false} SizeOfRange(n: nat)
    ensures |Range(n)| == n
  {
    if n > 0 {
      SizeOfRange(n - 1);
    }
  }

  lemma SubsetIsSmaller(a: set<nat>, b: set<nat>)
    requires a <= b
    ensures |a| <= |b|
  {
    assert b == a + (b - a);
  }

  lemma {:induction false} PathStaysInside(g: Graph, p: seq<nat>, k: nat)
    requires Closed(g) && Path(g, p) && p[0] < |g| && k < |p|
    ensures p[k] < |g|
  {
    if k > 0 {
      PathStaysInside(g, p, k - 1);
      assert p[k - 1 + 1] in Next(g, p[k - 1]);
    }
  }

  /** A path longer than the graph comes back to something. */
  lemma WithoutLoopsPathsAreShort(g: Graph, s: nat)
    requires Closed(g) && s < |g| && !ComesBack(g, s)
    ensures Short(g, s, |g|)
  {
    forall p | Path(g, p) && p[0] == s
      ensures |p| <= |g|
    {
      if |p| > |g| {
        forall x | x in p
          ensures x < |g|
        {
          var k :| 0 <= k < |p| && p[k] == x;
          PathStaysInside(g, p, k);
        }
        PigeonHole(p, |g|);
        var j, k :| 0 <= j < k < |p| && p[j] == p[k];
        var q := p[..k + 1];
        assert q[..|q| - 1][j] == q[|q| - 1];
        assert Loops(g, s, q);
      }
    }
  }

  lemma NextIsShorter(g: Graph, i: nat, d: nat, c: nat)
    requires Short(g, i, d) && c in Next(g, i)
    ensures d >= 2 && Short(g, c, d - 1)
  {
    assert Path(g, [i, c]);
    forall p | Path(g, p) && p[0] == c
      ensures |p| <= d - 1
    {
      var q := [i] + p;
      forall k | 0 <= k < |q| - 1
        ensures q[k + 1] in Next(g, q[k])
      {
        if k > 0 {
          assert q[k] == p[k - 1] && q[k + 1] == p[k - 1 + 1];
        }
      }
      assert Path(g, q);
    }
  }

  /** What lies on top is worked off before what lies below is touched. */
  lemma PopOnTop(g: Graph, below: seq<nat>, top: seq<nat>)
    requires top != []
    ensures Popped(g, below + top) == below + Popped(g, top)
  {
    var k := |top| - 1;
    assert (below + top)[..|below + top| - 1] == below + top[..k];
    ConcatIsAssociative(below, top[..k], Next(g, top[k]));
  }

  lemma TopStep(g: Graph, below: seq<nat>, top: seq<nat>, k: nat)
    requires top != []
    ensures After(g, below + top, k + 1) == After(g, below + Popped(g, top), k)
  {
    AfterStep(g, below + top, k);
    PopOnTop(g, below, top);
  }

  lemma {:induction false} TopFirst(g: Graph, below: seq<nat>, top: seq<nat>, n: nat) returns (m: nat)
    requires After(g, top, n) == []
    ensures After(g, below + top, m) == below
    decreases n
  {
    if top == [] {
      m := 0;
      assert below + top == below;
    } else {
      AfterStep(g, top, n - 1);
      var k := TopFirst(g, below, Popped(g, top), n - 1);
      TopStep(g, below, top, k);
      m := k + 1;
    }
  }

  lemma OneAfterTheOther(g: Graph, rest: seq<nat>, top: nat)
    requires Ends(g, rest) && Ends(g, Next(g, top))
    ensures Ends(g, rest + [top])
  {
    var stack, kids := rest + [top], Next(g, top);
    var n: nat :| After(g, kids, n) == [];
    var k: nat :| After(g, rest, k) == [];
    var m := TopFirst(g, rest, kids, n);
    AfterAdds(g, rest + kids, m, k);
    assert stack[..|stack| - 1] == rest;
    AfterStep(g, stack, m + k);
    assert After(g, stack, m + k + 1) == [];
  }

  lemma NothingEnds(g: Graph)
    ensures Ends(g, [])
  {
    assert After(g, [], 0) == [];
  }

  lemma {:induction false} ShortEnds(g: Graph, stack: seq<nat>, d: nat)
    requires forall i | i in stack :: Short(g, i, d)
    ensures Ends(g, stack)
    decreases d, |stack|
  {
    NothingEnds(g);
    if stack != [] {
      var rest, top := stack[..|stack| - 1], stack[|stack| - 1];
      assert stack == rest + [top];
      assert top in stack;
      var kids := Next(g, top);
      forall c | c in kids
        ensures d >= 2 && Short(g, c, d - 1)
      {
        NextIsShorter(g, top, d, c);
      }
      if kids != [] {
        assert kids[0] in kids;
        ShortEnds(g, kids, d - 1);
      }
      ShortEnds(g, rest, d);
      OneAfterTheOther(g, rest, top);
    }
  }

  /** The loop that starts with s ends exactly when no path from s comes back to an item it has passed. */
  lemma EndsIff(g: Graph, s: nat)
    requires Closed(g) && s < |g|
    ensures Ends(g, [s]) <==> !ComesBack(g, s)
  {
    if ComesBack(g, s) {
      assert s in [s];
      forall n: nat
        ensures After(g, [s], n) != []
      {
        BackNeverEnds(g, [s], n);
      }
    } else {
      WithoutLoopsPathsAreShort(g, s);
      ShortEnds(g, [s], |g|);
    }
  }

  // --------------------------------------------------------------- counting user turns

  /** The caller takes this path only when every entry has a uuid. */
  ghost predicate AllHaveUuids(es: seq<Entry>) {
    forall i | 0 <= i < |es| :: es[i].uuid != ""
  }

  /** Child links, by uuid: entries with one uuid share their children. */
  ghost function ChildGraph(es: seq<Entry>): Graph {
    seq(|es|, i requires 0 <= i < |es| => Kids(es, i))
  }

  lemma ChildGraphIsClosed(es: seq<Entry>)
    ensures Closed(ChildGraph(es))
  {
    forall i, c | 0 <= i < |es| && c in ChildGraph(es)[i]
      ensures c < |es|
    {
      assert c in Kids(es, i);
    }
  }

  /** The stack loop from s comes to an end. */
  ghost predicate CountEnds(es: seq<Entry>, s: nat) {
    Ends(ChildGraph(es), [s])
  }

  /** Counting user turns ends exactly when no path of child links from s comes back to an entry it has passed. */
  lemma CountEndsIff(es: seq<Entry>, s: nat)
    requires AllHaveUuids(es) && s < |es|
    ensures CountEnds(es, s) <==> !ComesBack(ChildGraph(es), s)
  {
    ChildGraphIsClosed(es);
    EndsIff(ChildGraph(es), s);
  }

  /** User entries popped in the first n turns; a repeated uuid can make an entry count more than once. */
  ghost function UsersPopped(es: seq<Entry>, stack: seq<nat>, n: nat): nat
    decreases n
  {
    if n == 0 || stack == [] then 0
    else
      var top := stack[|stack| - 1];
      (if top < |es| && es[top].entryType == User then 1 else 0) + UsersPopped(es, Popped(ChildGraph(es), stack), n - 1)
  }

  ghost function TurnsFrom(es: seq<Entry>, s: nat): nat
    requires CountEnds(es, s)
  {
    var n: nat :| After(ChildGraph(es), [s], n) == [];
    UsersPopped(es, [s], n)
  }

  // -------------------------------------------------------------------------- the walk

  /**
   * Where the walk goes from an entry: nowhere at a leaf, to an only child, to the last child after a
   * small gap, to all children after a large one.  When the count at a fork point never ends the walk
   * stays where it is.
   */
  ghost function Onwards(es: seq<Entry>, i: nat): seq<nat>
    requires i < |es|
  {
    var kids := Kids(es, i);
    if |kids| < 2 then kids
    else if !CountEnds(es, kids[0]) then [i]
    else if TurnsFrom(es, kids[0]) <= FORK_THRESHOLD then [kids[|kids| - 1]]
    else kids
  }

  ghost function WalkGraph(es: seq<Entry>): Graph {
    seq(|es|, i requires 0 <= i < |es| => Onwards(es, i))
  }

  lemma OnwardsAreKids(es: seq<Entry>, i: nat)
    requires i < |es|
    ensures forall c | c in Onwards(es, i) :: c < |es|
    ensures |Kids(es, i)| < 2 || CountEnds(es, Kids(es, i)[0]) ==> forall c | c in Onwards(es, i) :: c in Kids(es, i)
  {
    var kids := Kids(es, i);
    assert forall c | c in kids :: c < |es|;
    if |kids| >= 2 {
      assert kids[|kids| - 1] in kids;
    }
  }

  /** All branches that start at s, and those split off on the way, come to an end. */
  ghost predicate WalkEnds(es: seq<Entry>, s: nat) {
    Ends(WalkGraph(es), [s])
  }

  lemma WalkEndsIff(es: seq<Entry>, s: nat)
    requires AllHaveUuids(es) && s < |es|
    ensures WalkEnds(es, s) <==> !ComesBack(WalkGraph(es), s)
  {
    forall i, c | 0 <= i < |es| && c in WalkGraph(es)[i]
      ensures c < |es|
    {
      OnwardsAreKids(es, i);
    }
    EndsIff(WalkGraph(es), s);
  }

  /** A path from s of entries that the walk passes through. */
  ghost predicate WalksTo(es: seq<Entry>, s: nat, p: seq<nat>, i: nat) {
    Path(WalkGraph(es), p) && p[0] == s && p[|p| - 1] == i
  }

  /** The walk gets to a fork point whose first child leads round in circles. */
  ghost predicate GetsStuck(es: seq<Entry>, s: nat) {
    exists p: seq<nat>, i: nat :: i < |es| && WalksTo(es, s, p, i) && StuckAt(es, i)
  }

  ghost predicate StuckAt(es: seq<Entry>, i: nat)
    requires i < |es|
  {
    |Kids(es, i)| >= 2 && ComesBack(ChildGraph(es), Kids(es, i)[0])
  }

  /** A walk that gets stuck does not end. */
  lemma StuckWalkNeverEnds(es: seq<Entry>, s: nat)
    requires AllHaveUuids(es) && s < |es| && GetsStuck(es, s)
    ensures !WalkEnds(es, s)
  {
    var p: seq<nat>, i: nat :| i < |es| && WalksTo(es, s, p, i) && StuckAt(es, i);
    assert Kids(es, i)[0] in Kids(es, i);
    CountEndsIff(es, Kids(es, i)[0]);
    var q := p + [i];
    assert Next(WalkGraph(es), i) == [i];
    forall k | 0 <= k < |q| - 1
      ensures q[k + 1] in Next(WalkGraph(es), q[k])
    {
      if k + 1 < |p| {
        assert q[k + 1] == p[k + 1] && q[k] == p[k];
      }
    }
    assert q[..|q| - 1][|p| - 1] == q[|q| - 1];
    assert Loops(WalkGraph(es), s, q);
    WalkEndsIff(es, s);
  }

  /** Where child links do not come back, the walk ends: it only ever follows child links. */
  lemma WalkEndsWithoutCycles(es: seq<Entry>, s: nat)
    requires AllHaveUuids(es) && s < |es| && !ComesBack(ChildGraph(es), s)
    ensures WalkEnds(es, s)
  {
    if p :| Loops(WalkGraph(es), s, p) {
      forall k | 0 <= k < |p| - 1
        ensures p[k + 1] in Next(ChildGraph(es), p[k])
      {
        FollowsChildLinks(es, s, p, k);
      }
      assert Loops(ChildGraph(es), s, p);
    }
    WalkEndsIff(es, s);
  }

  lemma {:induction false} FollowsChildLinks(es: seq<Entry>, s: nat, p: seq<nat>, k: nat)
    requires AllHaveUuids(es) && s < |es| && !ComesBack(ChildGraph(es), s)
    requires Path(WalkGraph(es), p) && p[0] == s && k + 1 < |p|
    ensures p[k] < |es| && p[k + 1] in Next(ChildGraph(es), p[k])
    ensures Path(ChildGraph(es), p[..k + 2])
  {
    var front := p[..k + 1];
    if k > 0 {
      FollowsChildLinks(es, s, p, k - 1);
      assert p[k - 1 + 1] in Next(WalkGraph(es), p[k - 1]);
      OnwardsAreKids(es, p[k - 1]);
      assert front == p[..k - 1 + 2];
    }
    assert p[k + 1] in Next(WalkGraph(es), p[k]);
    var i := p[k];
    if |Kids(es, i)| >= 2 {
      var c := Kids(es, i)[0];
      assert c in Kids(es, i);
      if ComesBack(ChildGraph(es), c) {
        ReachesLoop(ChildGraph(es), front, c);
      }
      CountEndsIff(es, c);
    }
    OnwardsAreKids(es, i);
    var q := p[..k + 2];
    forall j | 0 <= j < |q| - 1
      ensures q[j + 1] in Next(ChildGraph(es), q[j])
    {
      if j < k {
        assert q[j + 1] == front[j + 1] && q[j] == front[j];
      }
    }
  }

  /** A path to an item that leads on to one that comes back is the start of a path that comes back. */
  lemma ReachesLoop(g: Graph, front: seq<nat>, c: nat)
    requires Path(g, front) && c in Next(g, front[|front| - 1]) && ComesBack(g, c)
    ensures ComesBack(g, front[0])
  {
    var p :| Loops(g, c, p);
    var j :| 0 <= j < |p| - 1 && p[j] == p[|p| - 1];
    var q := front + p;
    forall k | 0 <= k < |q| - 1
      ensures q[k + 1] in Next(g, q[k])
    {
      if k + 1 < |front| {
        assert q[k + 1] == front[k + 1] && q[k] == front[k];
      } else if k >= |front| {
        assert q[k + 1] == p[k - |front| + 1] && q[k] == p[k - |front|];
      }
    }
    assert q[..|q| - 1][|front| + j] == q[|q| - 1];
    assert Loops(g, front[0], q);
  }

  /** With distinct uuids an entry whose parent chain ends is no danger. */
  lemma RootedNeverComesBack(es: seq<Entry>, s: nat)
    requires DistinctUuids(es) && s < |es| && Rooted(es, s)
    ensures !ComesBack(ChildGraph(es), s)
    ensures CountEnds(es, s) && WalkEnds(es, s)
  {
    if p :| Loops(ChildGraph(es), s, p) {
      var j :| 0 <= j < |p| - 1 && p[j] == p[|p| - 1];
      PathShrinks(es, p, j, |p| - 1);
    }
    CountEndsIff(es, s);
    WalkEndsWithoutCycles(es, s);
  }

  lemma {:induction false} PathShrinks(es: seq<Entry>, p: seq<nat>, j: nat, k: nat)
    requires DistinctUuids(es) && Path(ChildGraph(es), p) && p[0] < |es| && Rooted(es, p[0]) && j <= k < |p|
    ensures p[k] < |es| && Rooted(es, p[k])
    ensures j < k ==> p[j] < |es| && Subtree(es, p[k]) < Subtree(es, p[j])
    decreases k
  {
    if k > 0 {
      PathShrinks(es, p, if j < k then j else k - 1, k - 1);
      assert p[k - 1 + 1] in Next(ChildGraph(es), p[k - 1]);
      assert p[k] in Kids(es, p[k - 1]);
      KidIsSmaller(es, p[k - 1], p[k]);
    }
  }

  /** And then every user entry below it is counted once. */
  lemma TurnsAreUserTurns(es: seq<Entry>, s: nat)
    requires DistinctUuids(es) && s < |es| && Rooted(es, s) && CountEnds(es, s)
    ensures TurnsFrom(es, s) == UserTurns(es, s)
  {
    var n: nat :| After(ChildGraph(es), [s], n) == [] && TurnsFrom(es, s) == UsersPopped(es, [s], n);
    assert Frontier(es, s, [s], {}) by {
      assert s in [s];
    }
    CountsSubtree(es, s, [s], {}, n);
    assert UsersIn(es, {}) == {};
  }

  lemma {:induction false} CountsSubtree(es: seq<Entry>, s: nat, stack: seq<nat>, done: set<nat>, n: nat)
    requires DistinctUuids(es) && s < |es| && Frontier(es, s, stack, done) && After(ChildGraph(es), stack, n) == []
    ensures |UsersIn(es, done)| + UsersPopped(es, stack, n) == UserTurns(es, s)
    decreases n
  {
    if stack == [] {
      EmptyFrontier(es, s, done);
    } else {
      var top := stack[|stack| - 1];
      FrontierStep(es, s, stack, done);
      UsersStep(es, done, top);
      AfterStep(ChildGraph(es), stack, n - 1);
      CountsSubtree(es, s, Popped(ChildGraph(es), stack), done + {top}, n - 1);
    }
  }

  lemma EmptyFrontier(es: seq<Entry>, s: nat, done: set<nat>)
    requires Frontier(es, s, [], done)
    ensures done == Subtree(es, s)
  {
  }

  // ------------------------------------------------------------------------ an input

  /** The guards let this file through, and neither loop ever ends on it: there is always one entry left to do. */
  lemma RepeatedUuidWalksForever()
    ensures var es := [Entry("r", "", User), Entry("r", "r", User)];
      && Connected(es) && AllHaveUuids(es) && !DistinctUuids(es)
      && ComesBack(ChildGraph(es), 0)
      && (forall n: nat :: After(ChildGraph(es), [0], n) != []) && !CountEnds(es, 0)
      && (forall n: nat :: After(WalkGraph(es), [0], n) != []) && !WalkEnds(es, 0)
  {
    var es := [Entry("r", "", User), Entry("r", "r", User)];
    assert KidsBelow(es, "", 0) == [] && KidsBelow(es, "", 1) == [0];
    assert KidsBelow(es, "r", 0) == [] && KidsBelow(es, "r", 1) == [];
    assert Names(es, 0, 1);
    assert Kids(es, 0) == [1] && Kids(es, 1) == [1];
    AlwaysOneLeft(ChildGraph(es));
    assert Onwards(es, 0) == [1] && Onwards(es, 1) == [1];
    AlwaysOneLeft(WalkGraph(es));
  }

  lemma AlwaysOneLeft(g: Graph)
    requires g == [[1], [1]]
    ensures ComesBack(g, 0) && forall n: nat :: After(g, [0], n) != []
  {
    assert [0, 1, 1][..2] == [0, 1];
    assert Loops(g, 0, [0, 1, 1]);
    assert 0 in [0];
    forall n: nat
      ensures After(g, [0], n) != []
    {
      BackNeverEnds(g, [0], n);
    }
  }
}
