/**
 * The session filter with children (internal/db/sessions.go): qualifying roots, and everything below
 * them through parent links.
 */
module ChildClosure {
  import opened Common

  datatype Session = Session(
    messageCount: int, userMessageCount: int, deleted: bool, automated: bool, relationship: string, parent: Option<string>,
    rest: string)

  type Table = map<string, Session>

  /** accepts stands for the criteria on single columns: project, machine, agent, dates, outcome and so on. */
  datatype Filter = Filter(accepts: Session -> bool, includeChildren: bool, excludeOneShot: bool, excludeAutomated: bool)

  predicate Live(s: Session) {
    s.messageCount > 0 && !s.deleted
  }

  predicate IsChild(s: Session) {
    s.relationship == "subagent" || s.relationship == "fork"
  }

  predicate PassesOneShot(f: Filter, s: Session) {
    f.excludeOneShot ==> s.userMessageCount > 1 || (!f.excludeAutomated && s.automated)
  }

  predicate RootMatch(f: Filter, s: Session) {
    f.accepts(s) && (f.excludeAutomated ==> !s.automated) && PassesOneShot(f, s) && !IsChild(s)
  }

  function Roots(t: Table, f: Filter): set<string> {
    set id | id in t && Live(t[id]) && RootMatch(f, t[id])
  }

  /** The live rows whose parent is the given one. */
  function Children(t: Table, parent: string): set<string> {
    set id | id in t && t[id].parent == Some(parent) && Live(t[id])
  }

  // -------------------------------------------------------------------- the tree

  ghost predicate Closed(t: Table, s: set<string>) {
    forall id | id in s :: Children(t, id) <= s
  }

  ghost predicate IsLeastClosed(t: Table, roots: set<string>, s: set<string>) {
    && roots <= s && Closed(t, s)
    && forall other: set<string> | roots <= other && Closed(t, other) :: s <= other
  }

  /** A path of live rows from a root, each the parent of the next. */
  ghost predicate IsChain(t: Table, roots: set<string>, chain: seq<string>) {
    && chain != [] && chain[0] in roots
    && forall k | 0 < k < |chain| :: chain[k] in Children(t, chain[k - 1])
  }

  ghost predicate Reached(t: Table, roots: set<string>, within: set<string>, id: string) {
    exists chain :: ChainTo(t, roots, within, id, chain)
  }

  ghost predicate ChainTo(t: Table, roots: set<string>, within: set<string>, id: string, chain: seq<string>) {
    IsChain(t, roots, chain) && chain[|chain| - 1] == id && forall k | 0 <= k < |chain| :: chain[k] in within
  }

  ghost predicate AllReached(t: Table, roots: set<string>, s: set<string>) {
    forall id {:trigger Reached(t, roots, s, id)} | id in s :: Reached(t, roots, s, id)
  }

  lemma RootIsReached(t: Table, roots: set<string>, s: set<string>, id: string)
    requires id in roots && id in s
    ensures Reached(t, roots, s, id)
  {
    assert ChainTo(t, roots, s, id, [id]);
  }

  lemma ReachedGrows(t: Table, roots: set<string>, s: set<string>, more: set<string>, id: string)
    requires Reached(t, roots, s, id) && s <= more
    ensures Reached(t, roots, more, id)
  {
    var chain :| ChainTo(t, roots, s, id, chain);
    assert ChainTo(t, roots, more, id, chain);
  }

  lemma ChildIsReached(t: Table, roots: set<string>, s: set<string>, parent: string, id: string)
    requires Reached(t, roots, s, parent) && id in Children(t, parent)
    ensures Reached(t, roots, s + {id}, id)
  {
    var chain :| ChainTo(t, roots, s, parent, chain);
    assert ChainTo(t, roots, s + {id}, id, chain + [id]);
  }

  /** A chain never leaves a closed set that holds its root. */
  lemma {:induction false} ChainStaysIn(t: Table, roots: set<string>, s: set<string>, chain: seq<string>, k: nat)
    requires IsChain(t, roots, chain) && roots <= s && Closed(t, s) && k < |chain|
    ensures chain[k] in s
  {
    if k > 0 {
      ChainStaysIn(t, roots, s, chain, k - 1);
    }
  }

  lemma ReachedIsInEveryClosed(t: Table, roots: set<string>, s: set<string>)
    requires AllReached(t, roots, s)
    ensures forall other: set<string> | roots <= other && Closed(t, other) :: s <= other
  {
    forall other: set<string>, id | roots <= other && Closed(t, other) && id in s
      ensures id in other
    {
      assert Reached(t, roots, s, id);
      var chain :| ChainTo(t, roots, s, id, chain);
      ChainStaysIn(t, roots, other, chain, |chain| - 1);
    }
  }

  /**
   * The recursive query: rows come off a queue one at a time, and a row that was seen before is not
   * queued again, so cyclic parent links do no harm.
   */
  method Tree(t: Table, roots: set<string>) returns (tree: set<string>)
    requires roots <= t.Keys
    ensures IsLeastClosed(t, roots, tree)
    ensures forall id :: id in tree <==> Reached(t, roots, tree, id)
    ensures tree <= t.Keys
  {
    tree := roots;
    var queue := roots;
    RootsAreReached(t, roots);
    while queue != {}
      invariant queue <= tree <= t.Keys && roots <= tree
      invariant Explored(t, tree, queue) && AllReached(t, roots, tree)
      decreases |t.Keys - tree|, |queue|
    {
      var id :| id in queue;
      var added := Children(t, id) - tree;
      ExploreStep(t, tree, queue, id, added);
      Unseen(t.Keys, tree, added);
      ExpandStep(t, roots, tree, id, added);
      queue, tree := queue - {id} + added, tree + added;
    }
    ExploredIsLeast(t, roots, tree);
  }

  lemma RootsAreReached(t: Table, roots: set<string>)
    ensures AllReached(t, roots, roots)
  {
    forall id | id in roots
      ensures Reached(t, roots, roots, id)
    {
      RootIsReached(t, roots, roots, id);
    }
  }

  lemma ExploredIsLeast(t: Table, roots: set<string>, tree: set<string>)
    requires roots <= tree && Explored(t, tree, {}) && AllReached(t, roots, tree)
    ensures IsLeastClosed(t, roots, tree)
    ensures forall id :: id in tree <==> Reached(t, roots, tree, id)
  {
    ReachedIsInEveryClosed(t, roots, tree);
    forall id | Reached(t, roots, tree, id)
      ensures id in tree
    {
      var chain :| ChainTo(t, roots, tree, id, chain);
    }
  }

  /** Every row that is off the queue has its children in the tree. */
  ghost predicate Explored(t: Table, tree: set<string>, queue: set<string>) {
    forall id | id in tree && id !in queue :: Children(t, id) <= tree
  }

  lemma ExploreStep(t: Table, tree: set<string>, queue: set<string>, id: string, added: set<string>)
    requires Explored(t, tree, queue) && id in queue && queue <= tree && added == Children(t, id) - tree
    ensures Explored(t, tree + added, queue - {id} + added)
    ensures added == {} ==> |queue - {id} + added| < |queue| && tree + added == tree
  {
    forall x | x in tree + added && x !in queue - {id} + added
      ensures Children(t, x) <= tree + added
    {
    }
    if added == {} {
      OneLess(queue, id);
      assert queue - {id} + added == queue - {id};
    }
  }

  lemma OneLess<T>(s: set<T>, x: T)
    requires x in s
    ensures |s - {x}| < |s|
  {
    assert s == (s - {x}) + {x};
  }

  lemma Unseen(all: set<string>, seen: set<string>, added: set<string>)
    requires seen <= all && added <= all && added !! seen
    ensures |all - (seen + added)| == |all - seen| - |added|
    ensures added == {} <==> |added| == 0
  {
    assert all - seen == (all - (seen + added)) + added;
  }

  lemma ExpandStep(t: Table, roots: set<string>, tree: set<string>, id: string, added: set<string>)
    requires AllReached(t, roots, tree) && id in tree && added <= Children(t, id)
    ensures AllReached(t, roots, tree + added)
  {
    forall x | x in tree + added
      ensures Reached(t, roots, tree + added, x)
    {
      if x in tree {
        assert Reached(t, roots, tree, x);
        ReachedGrows(t, roots, tree, tree + added, x);
      } else {
        assert Reached(t, roots, tree, id);
        ChildIsReached(t, roots, tree, id, x);
        ReachedGrows(t, roots, tree + {x}, tree + added, x);
      }
    }
  }

  // ------------------------------------------------------------------ the filter

  /** The ids that the where clause selects. */
  method SelectSessions(t: Table, f: Filter) returns (ids: set<string>)
    ensures !f.includeChildren ==> ids == Roots(t, f)
    ensures f.includeChildren ==> IsLeastClosed(t, Roots(t, f), ids)
    ensures f.includeChildren ==> forall id :: id in ids <==> Reached(t, Roots(t, f), ids, id)
    ensures forall id | id in ids :: id in t && Live(t[id])
  {
    if !f.includeChildren {
      ids := set id | id in t && Live(t[id]) && !IsChild(t[id]) && f.accepts(t[id])
                      && PassesOneShot(f, t[id]) && (f.excludeAutomated ==> !t[id].automated);
      return;
    }
    var tree := Tree(t, Roots(t, f));
    ids := set id | id in t && Live(t[id]) && id in tree;
    TreeIsLive(t, Roots(t, f), tree);
    assert ids == tree;
  }

  lemma TreeIsLive(t: Table, roots: set<string>, tree: set<string>)
    requires IsLeastClosed(t, roots, tree) && forall id | id in roots :: id in t && Live(t[id])
    ensures forall id | id in tree :: id in t && Live(t[id])
  {
    var live := set id | id in t && Live(t[id]);
    assert Closed(t, live);
  }

  /** Asking for children only ever adds rows, and every row it adds hangs below one that was there. */
  lemma ChildrenOnlyAdd(t: Table, f: Filter, flat: set<string>, full: set<string>)
    requires flat == Roots(t, f) && IsLeastClosed(t, flat, full)
    ensures flat <= full
    ensures forall id | id in full - flat :: id in t && t[id].parent.Some? && t[id].parent.value in full && Live(t[id])
  {
    var kept := set id | id in full && (id in flat || (id in t && t[id].parent.Some? && t[id].parent.value in full && Live(t[id])));
    forall id | id in kept
      ensures Children(t, id) <= kept
    {
      assert Children(t, id) <= full;
    }
    assert Closed(t, kept);
  }

  /** A child never qualifies by itself: with no qualifying root above it, it stays out. */
  lemma StrayChildStaysOut(t: Table, f: Filter, full: set<string>, id: string)
    requires IsLeastClosed(t, Roots(t, f), full)
    requires id in t && IsChild(t[id]) && (t[id].parent.None? || t[id].parent.value !in full)
    ensures id !in full
  {
    ChildrenOnlyAdd(t, f, Roots(t, f), full);
  }

  // ---------------------------------------------------------------- in plain terms

  /**
   * What a session needs to be selected by itself.  A session of at most one prompt can be hidden, but not an
   * automated one while automated ones are shown; and sub-agents and forks are never selected by themselves.
   */
  predicate Qualifies(s: Session, f: Filter) {
    && s.messageCount > 0 && !s.deleted && s.relationship !in {"subagent", "fork"} && f.accepts(s)
    && !(f.excludeAutomated && s.automated)
    && !(f.excludeOneShot && s.userMessageCount <= 1 && !s.automated)
  }

  /** A qualifying session and its descendants down to id, none of them empty or deleted. */
  ghost predicate Descent(t: Table, f: Filter, line: seq<string>, id: string) {
    && line != [] && line[|line| - 1] == id && line[0] in t && Qualifies(t[line[0]], f)
    && forall k | 0 < k < |line| :: HangsOn(t, line[k], line[k - 1])
  }

  predicate HangsOn(t: Table, id: string, parent: string) {
    id in t && t[id].parent == Some(parent) && t[id].messageCount > 0 && !t[id].deleted
  }

  lemma RootsQualify(t: Table, f: Filter, id: string)
    ensures id in Roots(t, f) <==> id in t && Qualifies(t[id], f)
  {
  }

  lemma DescentIsChain(t: Table, f: Filter, line: seq<string>, id: string)
    ensures Descent(t, f, line, id) <==> IsChain(t, Roots(t, f), line) && line[|line| - 1] == id
  {
    if line != [] {
      RootsQualify(t, f, line[0]);
    }
    assert forall k | 0 < k < |line| :: HangsOn(t, line[k], line[k - 1]) <==> line[k] in Children(t, line[k - 1]);
  }

  /** Without children exactly the qualifying sessions are selected, with children exactly their descendants too. */
  lemma SelectedIff(t: Table, f: Filter, ids: set<string>, id: string)
    requires !f.includeChildren ==> ids == Roots(t, f)
    requires f.includeChildren ==> IsLeastClosed(t, Roots(t, f), ids) && forall x :: x in ids <==> Reached(t, Roots(t, f), ids, x)
    ensures !f.includeChildren ==> (id in ids <==> id in t && Qualifies(t[id], f))
    ensures f.includeChildren ==> (id in ids <==> exists line :: Descent(t, f, line, id))
  {
    RootsQualify(t, f, id);
    if f.includeChildren && id in ids {
      var line :| ChainTo(t, Roots(t, f), ids, id, line);
      DescentIsChain(t, f, line, id);
    }
    if line :| f.includeChildren && Descent(t, f, line, id) {
      DescentIsChain(t, f, line, id);
      ChainStaysIn(t, Roots(t, f), ids, line, |line| - 1);
    }
  }
}
