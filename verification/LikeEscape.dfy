/**
 * Literal matching through SQL LIKE (internal/db/sessions.go): escaped user text between wildcards,
 * as the search for sessions to prune uses it.
 */
module LikeEscape {
  import opened Common
  import opened Ordering

  // -------------------------------------------------------------------- LIKE

  /** SQLite folds ASCII letters only. */
  function Fold(c: char): char {
    if 'A' <= c <= 'Z' then (c as int + 32) as char else c
  }

  predicate Same(a: char, b: char) {
    Fold(a) == Fold(b)
  }

  /** The first is the capital of the second. */
  predicate Capital(a: char, b: char) {
    65 <= a as int <= 90 && b as int == a as int + 32
  }

  /** Characters are told apart unless they are the two cases of one ASCII letter. */
  lemma SameIff(a: char, b: char)
    ensures Same(a, b) <==> a == b || Capital(a, b) || Capital(b, a)
  {
  }

  const NUL: char := 0 as char

  /** The text as SQLite reads it for LIKE: up to the first NUL. */
  function Cut(s: string): string {
    if s == [] || s[0] == NUL then [] else [s[0]] + Cut(s[1..])
  }

  /** A text is read up to its first NUL. */
  lemma {:induction false} CutIs(s: string, rest: string)
    requires forall i | 0 <= i < |s| :: s[i] as int != 0
    ensures Cut(s) == s && Cut(s + [0 as char] + rest) == s
  {
    if s != [] {
      CutIs(s[1..], rest);
      assert (s + [0 as char] + rest)[1..] == s[1..] + [0 as char] + rest;
    }
  }

  /** t LIKE p ESCAPE '\'. */
  predicate SqlLike(p: string, t: string) {
    Like(Cut(p), Cut(t))
  }

  /** The matching itself, on texts without a NUL. */
  predicate Like(p: string, t: string)
    decreases |p| + |t|
  {
    if p == [] then t == []
    else if p[0] == '%' then Like(p[1..], t) || (t != [] && Like(p, t[1..]))
    else if p[0] == '_' then t != [] && Like(p[1..], t[1..])
    else if p[0] == '\\' then |p| >= 2 && t != [] && Same(p[1], t[0]) && Like(p[2..], t[1..])
    else t != [] && Same(p[0], t[0]) && Like(p[1..], t[1..])
  }

  // ------------------------------------------------------------------ escaping

  predicate Special(c: char) {
    c == '\\' || c == '%' || c == '_'
  }

  function EscapeLike(s: string): string {
    if s == [] then []
    else (if Special(s[0]) then ['\\', s[0]] else [s[0]]) + EscapeLike(s[1..])
  }

  /** The text, up to the case of ASCII letters, at one place. */
  predicate OccursAt(s: string, t: string, i: nat) {
    i + |s| <= |t| && forall k | 0 <= k < |s| :: Same(s[k], t[i + k])
  }

  predicate Contains(s: string, t: string) {
    exists i | 0 <= i <= |t| :: OccursAt(s, t, i)
  }

  /** Escaped text in front of a pattern consumes exactly itself. */
  lemma {:induction false} EscapedConsumesItself(s: string, p: string, t: string)
    ensures Like(EscapeLike(s) + p, t) <==> OccursAt(s, t, 0) && Like(p, t[|s|..])
  {
    if s == [] {
      assert EscapeLike(s) + p == p && t[0..] == t;
    } else {
      EscapedHead(s, p, t);
      if t != [] {
        EscapedConsumesItself(s[1..], p, t[1..]);
        OccursStep(s, t);
        if |s| <= |t| {
          assert t[1..][|s| - 1..] == t[|s|..];
        }
      }
    }
  }

  lemma EscapedHead(s: string, p: string, t: string)
    requires s != []
    ensures Like(EscapeLike(s) + p, t) <==> t != [] && Same(s[0], t[0]) && Like(EscapeLike(s[1..]) + p, t[1..])
  {
    var rest, full := EscapeLike(s[1..]) + p, EscapeLike(s) + p;
    var head := if Special(s[0]) then ['\\', s[0]] else [s[0]];
    ConcatIsAssociative(head, EscapeLike(s[1..]), p);
    assert full == head + rest;
    if Special(s[0]) {
      EscapedCharIsLiteral(s[0], rest, t);
    } else {
      PlainCharIsLiteral(s[0], rest, t);
    }
  }

  lemma EscapedCharIsLiteral(c: char, rest: string, t: string)
    ensures Like(['\\', c] + rest, t) <==> t != [] && Same(c, t[0]) && Like(rest, t[1..])
  {
    assert (['\\', c] + rest)[2..] == rest;
  }

  lemma PlainCharIsLiteral(c: char, rest: string, t: string)
    requires !Special(c)
    ensures Like([c] + rest, t) <==> t != [] && Same(c, t[0]) && Like(rest, t[1..])
  {
    assert ([c] + rest)[1..] == rest;
  }

  lemma OccursStep(s: string, t: string)
    requires s != [] && t != []
    ensures OccursAt(s, t, 0) <==> Same(s[0], t[0]) && OccursAt(s[1..], t[1..], 0)
  {
    if Same(s[0], t[0]) && OccursAt(s[1..], t[1..], 0) {
      forall k | 0 <= k < |s|
        ensures Same(s[k], t[k])
      {
        if k > 0 {
          assert Same(s[1..][k - 1], t[1..][0 + (k - 1)]);
        }
      }
    }
    if OccursAt(s, t, 0) {
      forall k | 0 <= k < |s| - 1
        ensures Same(s[1..][k], t[1..][0 + k])
      {
        assert Same(s[k + 1], t[0 + (k + 1)]);
      }
    }
  }

  lemma {:induction false} AnythingMatchesPercent(t: string)
    ensures Like("%", t)
  {
    if t == [] {
      assert "%"[1..] == "";
      assert Like("", t);
    } else {
      AnythingMatchesPercent(t[1..]);
    }
  }

  /** Escaped text and a wildcard match exactly the texts that start with it. */
  lemma EscapedPrefix(s: string, t: string)
    ensures Like(EscapeLike(s) + "%", t) <==> OccursAt(s, t, 0)
  {
    EscapedConsumesItself(s, "%", t);
    if OccursAt(s, t, 0) {
      AnythingMatchesPercent(t[|s|..]);
    }
  }

  /** Escaped text alone matches exactly itself. */
  lemma EscapedWhole(s: string, t: string)
    ensures Like(EscapeLike(s), t) <==> |s| == |t| && OccursAt(s, t, 0)
  {
    assert EscapeLike(s) + "" == EscapeLike(s);
    EscapedConsumesItself(s, "", t);
  }

  /** Escaped text between wildcards matches exactly the texts that contain it. */
  lemma {:induction false} EscapedContains(s: string, t: string)
    ensures Like("%" + EscapeLike(s) + "%", t) <==> Contains(s, t)
    decreases |t|
  {
    var p := "%" + EscapeLike(s) + "%";
    assert p[1..] == EscapeLike(s) + "%";
    EscapedPrefix(s, t);
    if t == [] {
      assert Contains(s, t) <==> OccursAt(s, t, 0);
    } else {
      EscapedContains(s, t[1..]);
      ContainsStep(s, t);
    }
  }

  /** Escaped text behind a wildcard matches exactly the texts that end with it. */
  lemma {:induction false} EscapedSuffix(s: string, t: string)
    ensures Like("%" + EscapeLike(s), t) <==> EndsIn(s, t)
    decreases |t|
  {
    var p := "%" + EscapeLike(s);
    assert p[1..] == EscapeLike(s);
    EscapedWhole(s, t);
    if t != [] {
      EscapedSuffix(s, t[1..]);
      EndsStep(s, t);
    }
  }

  predicate EndsIn(s: string, t: string) {
    |s| <= |t| && OccursAt(s, t, |t| - |s|)
  }

  lemma EndsStep(s: string, t: string)
    requires t != []
    ensures EndsIn(s, t) <==> (|s| == |t| && OccursAt(s, t, 0)) || EndsIn(s, t[1..])
  {
    if |s| < |t| {
      var i := |t| - |s|;
      if OccursAt(s, t[1..], i - 1) {
        forall k | 0 <= k < |s|
          ensures Same(s[k], t[i + k])
        {
          assert Same(s[k], t[1..][i - 1 + k]);
        }
      }
    }
  }

  // ------------------------------------------------------------------- up to a NUL

  lemma {:induction false} CutIsPlain(s: string)
    ensures NUL !in Cut(s) && (NUL !in s <==> Cut(s) == s)
  {
    if s != [] && s[0] != NUL {
      CutIsPlain(s[1..]);
      assert s == [s[0]] + s[1..];
    }
  }

  lemma {:induction false} CutJoins(a: string, b: string)
    ensures Cut(a + b) == if NUL in a then Cut(a) else a + Cut(b)
  {
    if a == [] {
      assert a + b == b;
    } else {
      RestOfBoth(a, b);
      CutJoins(a[1..], b);
    }
  }

  lemma RestOfBoth(a: string, b: string)
    requires a != []
    ensures (a + b)[0] == a[0] && (a + b)[1..] == a[1..] + b
  {
  }

  lemma {:induction false} CutEscaped(s: string)
    ensures Cut(EscapeLike(s)) == EscapeLike(Cut(s)) && (NUL in EscapeLike(s) <==> NUL in s)
  {
    if s != [] {
      CutEscaped(s[1..]);
      var head := if Special(s[0]) then ['\\', s[0]] else [s[0]];
      CutJoins(head, EscapeLike(s[1..]));
      assert s == [s[0]] + s[1..];
      assert s[0] == NUL ==> Cut(head) == [];
    }
  }

  /** What the search for a needle finds: what contains it, but with a NUL in the needle what ends before it. */
  predicate FoundIn(s: string, t: string) {
    if NUL in s then EndsIn(Cut(s), Cut(t)) else Contains(s, Cut(t))
  }

  /** And the search for a beginning: with a NUL in it, only what is that beginning up to there. */
  predicate FoundAtStart(s: string, t: string) {
    OccursAt(Cut(s), Cut(t), 0) && (NUL in s ==> |Cut(s)| == |Cut(t)|)
  }

  /** The exact meaning of the pattern with two wildcards, for all texts. */
  lemma ContainsPattern(s: string, t: string)
    ensures SqlLike("%" + EscapeLike(s) + "%", t) <==> FoundIn(s, t)
  {
    CutEscaped(s);
    CutIsPlain(s);
    var p := "%" + EscapeLike(s);
    CutJoins("%", EscapeLike(s));
    CutJoins(p, "%");
    assert Cut("%") == "%";
    if NUL in s {
      EscapedSuffix(Cut(s), Cut(t));
    } else {
      EscapedContains(s, Cut(t));
    }
  }

  /** The exact meaning of the pattern with one wildcard. */
  lemma PrefixPattern(s: string, t: string)
    ensures SqlLike(EscapeLike(s) + "%", t) <==> FoundAtStart(s, t)
  {
    CutEscaped(s);
    CutIsPlain(s);
    CutJoins(EscapeLike(s), "%");
    assert Cut("%") == "%";
    if NUL in s {
      EscapedWhole(Cut(s), Cut(t));
    } else {
      EscapedPrefix(s, Cut(t));
    }
  }

  /** On texts without a NUL, wildcards around escaped text find exactly what contains it, exactly for needles without one. */
  lemma ContainsIsLiteralIff(s: string)
    ensures (forall t | NUL !in t :: SqlLike("%" + EscapeLike(s) + "%", t) <==> Contains(s, t)) <==> NUL !in s
  {
    forall t | NUL !in t
      ensures SqlLike("%" + EscapeLike(s) + "%", t) <==> FoundIn(s, t)
      ensures NUL !in s ==> (FoundIn(s, t) <==> Contains(s, t))
    {
      ContainsPattern(s, t);
      CutIsPlain(t);
    }
    if NUL in s {
      CutIsPlain(s);
      CutIsPlain(Cut(s));
      NeverContained(s, Cut(s));
      assert EndsIn(Cut(s), Cut(Cut(s)));
    }
  }

  /** The same for beginnings. */
  lemma PrefixIsLiteralIff(s: string)
    ensures (forall t | NUL !in t :: SqlLike(EscapeLike(s) + "%", t) <==> OccursAt(s, t, 0)) <==> NUL !in s
  {
    CutIsPlain(s);
    forall t | NUL !in t
      ensures SqlLike(EscapeLike(s) + "%", t) <==> FoundAtStart(s, t)
      ensures NUL !in s ==> (FoundAtStart(s, t) <==> OccursAt(s, t, 0))
    {
      PrefixPattern(s, t);
      CutIsPlain(t);
    }
    if NUL in s {
      CutIsPlain(Cut(s));
      NeverContained(s, Cut(s));
      assert FoundAtStart(s, Cut(s));
      assert Contains(s, Cut(s)) <== OccursAt(s, Cut(s), 0);
    }
  }

  lemma NeverContained(s: string, t: string)
    requires NUL in s && NUL !in t
    ensures !Contains(s, t)
  {
    var k :| 0 <= k < |s| && s[k] == NUL;
    forall i | 0 <= i <= |t|
      ensures !OccursAt(s, t, i)
    {
      if i + |s| <= |t| {
        assert t[i + k] in t;
        assert !Same(s[k], t[i + k]);
      }
    }
  }

  /** A text with a NUL is read only up to there. */
  lemma HiddenTextExample()
    ensures Contains("y", ['x', NUL, 'y']) && !SqlLike("%" + EscapeLike("y") + "%", ['x', NUL, 'y'])
  {
    var t := ['x', NUL, 'y'];
    ContainsPattern("y", t);
    assert OccursAt("y", t, 2);
    assert t[1..] == [NUL, 'y'] && Cut(t[1..]) == [];
    assert Cut(t) == "x";
  }

  lemma ContainsStep(s: string, t: string)
    requires t != []
    ensures Contains(s, t) <==> OccursAt(s, t, 0) || Contains(s, t[1..])
  {
    if Contains(s, t) && !OccursAt(s, t, 0) {
      var i :| 0 <= i <= |t| && OccursAt(s, t, i);
      assert OccursAt(s, t[1..], i - 1) by {
        forall k | 0 <= k < |s|
          ensures Same(s[k], t[1..][i - 1 + k])
        {
          assert t[1..][i - 1 + k] == t[i + k];
        }
      }
    }
    if Contains(s, t[1..]) {
      var i :| 0 <= i <= |t[1..]| && OccursAt(s, t[1..], i);
      assert OccursAt(s, t, i + 1) by {
        forall k | 0 <= k < |s|
          ensures Same(s[k], t[i + 1 + k])
        {
          assert t[1..][i + k] == t[i + 1 + k];
        }
      }
    }
  }

  /** Text without the three special characters needs no escape, and no other text is left as it is. */
  lemma {:induction false} UnescapedIff(s: string)
    ensures EscapeLike(s) == s <==> forall k | 0 <= k < |s| :: !Special(s[k])
    ensures |EscapeLike(s)| >= |s|
  {
    if s != [] {
      UnescapedIff(s[1..]);
      var rest := EscapeLike(s[1..]);
      if Special(s[0]) {
        assert |EscapeLike(s)| > |s|;
      } else {
        assert EscapeLike(s)[1..] == rest;
        if forall k | 0 <= k < |s[1..]| :: !Special(s[1..][k]) {
          assert s == [s[0]] + s[1..];
          forall k | 0 <= k < |s|
            ensures !Special(s[k])
          {
            if k > 0 {
              assert s[1..][k - 1] == s[k];
            }
          }
        } else {
          var k :| 0 <= k < |s[1..]| && Special(s[1..][k]);
          assert Special(s[k + 1]);
          assert EscapeLike(s) != s;
        }
      }
    }
  }

  // ------------------------------------------------------------- prune candidates

  datatype Session = Session(
    project: string, firstMessage: Option<string>, activity: string, deleted: bool, parent: Option<string>, userMessages: nat)

  datatype PruneFilter = PruneFilter(project: string, maxMessages: Option<int>, before: string, firstMessage: string)

  predicate HasFilters(f: PruneFilter) {
    f.project != "" || f.maxMessages.Some? || f.before != "" || f.firstMessage != ""
  }

  /** The where clause, with its LIKE patterns. */
  predicate Selected(t: map<string, Session>, f: PruneFilter, id: string)
    requires id in t
  {
    && !t[id].deleted
    && (f.project != "" ==> SqlLike("%" + EscapeLike(f.project) + "%", t[id].project))
    && (f.maxMessages.Some? ==> t[id].userMessages <= f.maxMessages.value)
    && (f.before != "" ==> StringLT(t[id].activity, f.before))
    && (f.firstMessage != "" ==> t[id].firstMessage.Some? && SqlLike(EscapeLike(f.firstMessage) + "%", t[id].firstMessage.value))
    && !exists child | child in t :: t[child].parent == Some(id)
  }

  /** What the filter asks for: user text is taken literally up to a NUL, and parents of other sessions are spared. */
  ghost predicate Wanted(t: map<string, Session>, f: PruneFilter, id: string)
    requires id in t
  {
    && !t[id].deleted
    && FoundIn(f.project, t[id].project)
    && (f.maxMessages.Some? ==> t[id].userMessages <= f.maxMessages.value)
    && (f.before != "" ==> StringLT(t[id].activity, f.before))
    && (f.firstMessage != "" ==> t[id].firstMessage.Some? && FoundAtStart(f.firstMessage, t[id].firstMessage.value))
    && forall child | child in t :: t[child].parent != Some(id)
  }

  function FindPruneCandidates(t: map<string, Session>, f: PruneFilter): (found: Option<set<string>>)
    ensures found.None? <==> f == PruneFilter("", None, "", "")
    ensures found.Some? ==> forall id :: id in found.value <==> id in t && Wanted(t, f, id)
  {
    if !HasFilters(f) then None
    else
      assert forall id | id in t :: Selected(t, f, id) <==> Wanted(t, f, id) by {
        forall id | id in t
          ensures Selected(t, f, id) <==> Wanted(t, f, id)
        {
          SelectedIsWanted(t, f, id);
        }
      }
      Some(set id | id in t && Selected(t, f, id))
  }

  lemma SelectedIsWanted(t: map<string, Session>, f: PruneFilter, id: string)
    requires id in t
    ensures Selected(t, f, id) <==> Wanted(t, f, id)
  {
    ContainsPattern(f.project, t[id].project);
    if f.project == "" {
      assert OccursAt(f.project, Cut(t[id].project), 0);
    }
    if t[id].firstMessage.Some? {
      PrefixPattern(f.firstMessage, t[id].firstMessage.value);
    }
  }
}
