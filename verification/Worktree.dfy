/**
 * Sessions get the project of the longest matching path prefix (internal/db/worktree_mappings.go).
 * Strings are byte strings.
 */
module Worktree {
  import opened Common
  import opened Ordering

  datatype Mapping = Mapping(machine: string, prefix: string, project: string, enabled: bool)

  /** strings.TrimSpace and filepath.Clean. */
  datatype Paths = Paths(trim: string -> string, clean: string -> string)

  // -------------------------------------------------------------------- matching

  predicate IsRoot(path: string) {
    path == "/"
  }

  function TrimRightSlashes(s: string): string {
    if s != [] && s[|s| - 1] == '/' then TrimRightSlashes(s[..|s| - 1]) else s
  }

  predicate HasPrefix(s: string, p: string) {
    |p| <= |s| && s[..|p|] == p
  }

  predicate PathMatches(fs: Paths, prefix: string, cwd: string) {
    var trimmed := fs.trim(cwd);
    if trimmed == "" then false
    else
      var c := fs.clean(trimmed);
      c == prefix || HasPrefix(c, if IsRoot(prefix) then prefix else TrimRightSlashes(prefix) + "/")
  }

  /** What normalizing leaves: the root, or a path that does not end in a separator. */
  predicate Normalized(prefix: string) {
    IsRoot(prefix) || (prefix != "" && prefix[|prefix| - 1] != '/')
  }

  /** The prefix as it is stored; machine and project are cleaned up separately. */
  function NormalizePrefix(fs: Paths, prefix: string): Option<string> {
    var trimmed := fs.trim(prefix);
    if trimmed == "" then None
    else
      var c := fs.clean(trimmed);
      if c == "." then None
      else if IsRoot(c) then Some(c)
      else Some(TrimRightSlashes(c))
  }

  lemma {:induction false} TrimmedHasNoTrailingSlash(s: string)
    ensures TrimRightSlashes(s) == "" || TrimRightSlashes(s)[|TrimRightSlashes(s)| - 1] != '/'
    ensures HasPrefix(s, TrimRightSlashes(s))
    ensures TrimRightSlashes(s) == "" <==> forall i | 0 <= i < |s| :: s[i] == '/'
  {
    if s != [] && s[|s| - 1] == '/' {
      var front := s[..|s| - 1];
      TrimmedHasNoTrailingSlash(front);
      assert forall i | 0 <= i < |front| :: s[i] == front[i];
    } else if s != [] {
      assert s[|s| - 1] != '/';
    }
  }

  /** Stored prefixes are normalized exactly when cleaning leaves something besides separators, or the root. */
  lemma NormalizingIff(fs: Paths, prefix: string)
    requires NormalizePrefix(fs, prefix).Some?
    ensures var c := fs.clean(fs.trim(prefix));
      Normalized(NormalizePrefix(fs, prefix).value) <==> IsRoot(c) || exists i | 0 <= i < |c| :: c[i] != '/'
  {
    TrimmedHasNoTrailingSlash(fs.clean(fs.trim(prefix)));
  }

  /** The path p is q or one of the directories above it. */
  predicate Above(p: string, q: string) {
    p == q || (HasPrefix(q, p) && |p| < |q| && (IsRoot(p) || q[|p|] == '/'))
  }

  lemma MatchesIffAbove(fs: Paths, prefix: string, cwd: string)
    requires Normalized(prefix)
    ensures PathMatches(fs, prefix, cwd) <==> fs.trim(cwd) != "" && (Above(prefix, fs.clean(fs.trim(cwd))) || fs.clean(fs.trim(cwd)) == prefix)
  {
    var c := fs.clean(fs.trim(cwd));
    if !IsRoot(prefix) {
      assert TrimRightSlashes(prefix) == prefix;
      var p := prefix + "/";
      if HasPrefix(c, p) {
        assert c[..|prefix|] == p[..|prefix|] == prefix;
        assert c[|prefix|] == p[|prefix|];
      }
      if HasPrefix(c, prefix) && |prefix| < |c| && c[|prefix|] == '/' {
        assert c[..|p|] == p;
      }
    }
  }

  /** Matching prefixes of one path nest, so two of the same length are the same. */
  lemma MatchesNest(fs: Paths, p: string, q: string, cwd: string)
    requires Normalized(p) && Normalized(q) && PathMatches(fs, p, cwd) && PathMatches(fs, q, cwd) && |p| <= |q|
    ensures Above(p, q)
    ensures |p| == |q| ==> p == q
  {
    MatchesIffAbove(fs, p, cwd);
    MatchesIffAbove(fs, q, cwd);
    var c := fs.clean(fs.trim(cwd));
    assert p == c[..|p|] && q == c[..|q|];
    assert q[..|p|] == p;
    if |p| < |q| {
      assert q[|p|] == c[|p|];
    }
  }

  // ------------------------------------------------------------------- two orders

  const NUL: char := 0 as char

  predicate Lead(b: char) {
    0xC0 <= b as int
  }

  predicate Continuation(b: char) {
    0x80 <= b as int < 0xC0
  }

  /**
   * length() in SQL counts bytes up to the first NUL, except that a byte from 0xC0 on takes the
   * continuation bytes behind it along; inside says whether such a character is being read.
   */
  function CharsFrom(s: string, inside: bool): nat {
    if s == [] || s[0] == NUL then 0
    else if inside && Continuation(s[0]) then CharsFrom(s[1..], true)
    else 1 + CharsFrom(s[1..], Lead(s[0]))
  }

  function CharLength(s: string): nat {
    CharsFrom(s, false)
  }

  /** A text ends at its first NUL; before that, what is appended only adds to the count. */
  lemma {:induction false} CharsSplit(p: string, r: string, inside: bool)
    requires r != []
    ensures NUL in p ==> CharsFrom(p + r, inside) == CharsFrom(p, inside)
    ensures NUL !in p ==>
      CharsFrom(p + r, inside) == CharsFrom(p, inside) + CharsFrom(r, if p == [] then inside else Reading(p, inside))
  {
    if p == [] {
      assert p + r == r;
    } else {
      assert (p + r)[1..] == p[1..] + r;
      CharsSplit(p[1..], r, if inside && Continuation(p[0]) then true else Lead(p[0]));
    }
  }

  /** Whether a character is being read after p. */
  function Reading(p: string, inside: bool): bool {
    if p == [] then inside else Reading(p[1..], if inside && Continuation(p[0]) then true else Lead(p[0]))
  }

  /** A directory is shorter than what is below it in bytes; in characters only if no NUL comes before the difference. */
  lemma AboveIsShorter(p: string, q: string)
    requires Above(p, q) && p != q
    ensures |p| < |q| && CharLength(p) <= CharLength(q)
    ensures CharLength(p) < CharLength(q) <==> NUL !in q[..|p| + 1]
  {
    var r := q[|p|..];
    assert q == p + r && r[0] == q[|p|] && q[..|p| + 1] == p + [r[0]];
    CharsSplit(p, r, false);
    if IsRoot(p) {
      assert !Reading(p, false);
    }
  }

  /** The order of the program: longer prefixes first, by bytes. */
  predicate BytesLE(a: Mapping, b: Mapping) {
    if |a.prefix| != |b.prefix| then |a.prefix| > |b.prefix| else StringLE(a.prefix, b.prefix)
  }

  /** The order of the queries: by characters. */
  predicate CharsLE(a: Mapping, b: Mapping) {
    if CharLength(a.prefix) != CharLength(b.prefix) then CharLength(a.prefix) > CharLength(b.prefix)
    else StringLE(a.prefix, b.prefix)
  }

  /** And of the query over all machines. */
  predicate MachineLE(a: Mapping, b: Mapping) {
    if a.machine != b.machine then StringLE(a.machine, b.machine) else CharsLE(a, b)
  }

  lemma MappingOrders()
    ensures TotalOrder(BytesLE) && TotalOrder(CharsLE)
  {
    StringOrder();
  }

  lemma MachineOrder()
    ensures TotalOrder(MachineLE)
  {
    StringOrder();
    MappingOrders();
    forall a, b, c | MachineLE(a, b) && MachineLE(b, c)
      ensures MachineLE(a, c)
    {
      if a.machine == b.machine && b.machine == c.machine {
        assert CharsLE(a, c);
      } else if a.machine != b.machine && b.machine != c.machine {
        if a.machine == c.machine {
          StringIsAntisymmetric(a.machine, b.machine);
        }
      }
    }
  }

  // ------------------------------------------------------------------ the best one

  predicate Hits(fs: Paths, m: Mapping, cwd: string) {
    PathMatches(fs, m.prefix, cwd)
  }

  /** The first match in the list. */
  function Best(fs: Paths, mappings: seq<Mapping>, cwd: string): Option<Mapping> {
    if mappings == [] then None
    else if Hits(fs, mappings[0], cwd) then Some(mappings[0])
    else Best(fs, mappings[1..], cwd)
  }

  method BestMapping(fs: Paths, mappings: seq<Mapping>, cwd: string) returns (best: Option<Mapping>)
    ensures best == Best(fs, mappings, cwd)
  {
    for i := 0 to |mappings|
      invariant Best(fs, mappings, cwd) == Best(fs, mappings[i..], cwd)
    {
      if PathMatches(fs, mappings[i].prefix, cwd) {
        return Some(mappings[i]);
      }
      assert mappings[i..][1..] == mappings[i + 1..];
    }
    best := None;
  }

  /** The matching mapping with the longest prefix, or none if nothing matches. */
  ghost predicate IsLongest(fs: Paths, mappings: seq<Mapping>, cwd: string, best: Option<Mapping>) {
    match best
    case None => forall m | m in mappings :: !Hits(fs, m, cwd)
    case Some(b) => b in mappings && Hits(fs, b, cwd) && forall m | m in mappings && Hits(fs, m, cwd) :: |m.prefix| <= |b.prefix|
  }

  /** UNIQUE(machine, path_prefix). */
  ghost predicate Keyed(mappings: seq<Mapping>) {
    forall a, b | a in mappings && b in mappings && a.prefix == b.prefix && a.machine == b.machine :: a == b
  }

  /** The stored mappings: keyed, with prefixes that were normalized when they were written. */
  ghost predicate Stored(mappings: seq<Mapping>) {
    Keyed(mappings) && forall m | m in mappings :: Normalized(m.prefix)
  }

  /** Of two matching prefixes, the longer one has no NUL up to where the shorter one ends. */
  ghost predicate LengthsTell(fs: Paths, mappings: seq<Mapping>, cwd: string) {
    forall a, b | a in mappings && b in mappings && Hits(fs, a, cwd) && Hits(fs, b, cwd) && |a.prefix| < |b.prefix| ::
      NUL !in b.prefix[..|a.prefix| + 1]
  }

  ghost predicate OneMachine(mappings: seq<Mapping>) {
    forall a, b | a in mappings && b in mappings :: a.machine == b.machine
  }

  lemma LongestIsUnique(fs: Paths, mappings: seq<Mapping>, cwd: string, a: Option<Mapping>, b: Option<Mapping>)
    requires Stored(mappings) && OneMachine(mappings)
    requires IsLongest(fs, mappings, cwd, a) && IsLongest(fs, mappings, cwd, b)
    ensures a == b
  {
    if a.Some? && b.Some? {
      MatchesNest(fs, a.value.prefix, b.value.prefix, cwd);
    }
  }

  lemma {:induction false} BestIsFirst(fs: Paths, mappings: seq<Mapping>, cwd: string)
    ensures Best(fs, mappings, cwd).None? ==> forall m | m in mappings :: !Hits(fs, m, cwd)
    ensures Best(fs, mappings, cwd).Some? ==>
      exists k | 0 <= k < |mappings| :: Best(fs, mappings, cwd) == Some(mappings[k]) && FirstHit(fs, mappings, cwd, k)
  {
    if mappings != [] {
      if Hits(fs, mappings[0], cwd) {
        assert FirstHit(fs, mappings, cwd, 0);
      } else {
        BestIsFirst(fs, mappings[1..], cwd);
        assert mappings == [mappings[0]] + mappings[1..];
        if Best(fs, mappings, cwd).Some? {
          var k :| 0 <= k < |mappings[1..]| && Best(fs, mappings, cwd) == Some(mappings[1..][k]) && FirstHit(fs, mappings[1..], cwd, k);
          forall j | 0 <= j < k + 1
            ensures !Hits(fs, mappings[j], cwd)
          {
            assert j > 0 ==> mappings[j] == mappings[1..][j - 1];
          }
          assert FirstHit(fs, mappings, cwd, k + 1);
        }
      }
    }
  }

  ghost predicate FirstHit(fs: Paths, mappings: seq<Mapping>, cwd: string, k: nat)
    requires k < |mappings|
  {
    Hits(fs, mappings[k], cwd) && forall j | 0 <= j < k :: !Hits(fs, mappings[j], cwd)
  }

  /** A match that no other match precedes. */
  ghost predicate IsLeast(fs: Paths, mappings: seq<Mapping>, cwd: string, le: (Mapping, Mapping) -> bool, m: Mapping) {
    m in mappings && Hits(fs, m, cwd) && forall x | x in mappings && Hits(fs, x, cwd) :: le(m, x)
  }

  lemma BestIsLeast(fs: Paths, mappings: seq<Mapping>, cwd: string, le: (Mapping, Mapping) -> bool)
    requires TotalOrder(le) && SortedBy(mappings, le) && Best(fs, mappings, cwd).Some?
    ensures IsLeast(fs, mappings, cwd, le, Best(fs, mappings, cwd).value)
  {
    BestIsFirst(fs, mappings, cwd);
    var k :| 0 <= k < |mappings| && Best(fs, mappings, cwd) == Some(mappings[k]) && FirstHit(fs, mappings, cwd, k);
    forall m | m in mappings && Hits(fs, m, cwd)
      ensures le(mappings[k], m)
    {
      var j :| 0 <= j < |mappings| && mappings[j] == m;
      assert j >= k;
      assert j == k ==> le(m, m);
    }
  }

  /** Sorted by bytes, the first match is the longest one, whatever the list. */
  lemma BytesBestIsLongest(fs: Paths, mappings: seq<Mapping>, cwd: string)
    requires SortedBy(mappings, BytesLE)
    ensures IsLongest(fs, mappings, cwd, Best(fs, mappings, cwd))
  {
    BestIsFirst(fs, mappings, cwd);
    MappingOrders();
    if Best(fs, mappings, cwd).Some? {
      BestIsLeast(fs, mappings, cwd, BytesLE);
    }
  }

  /** A shorter match comes first in the order by characters exactly when a NUL hides what is longer. */
  lemma NestedOrderIff(fs: Paths, a: Mapping, b: Mapping, cwd: string)
    requires Normalized(a.prefix) && Normalized(b.prefix) && Hits(fs, a, cwd) && Hits(fs, b, cwd)
    requires |a.prefix| < |b.prefix|
    ensures CharsLE(a, b) <==> NUL in b.prefix[..|a.prefix| + 1]
  {
    MatchesNest(fs, a.prefix, b.prefix, cwd);
    AboveIsShorter(a.prefix, b.prefix);
    PrefixIsBefore(a.prefix, b.prefix);
  }

  lemma {:induction false} PrefixIsBefore(p: string, q: string)
    requires HasPrefix(q, p)
    ensures StringLE(p, q)
  {
    if p != [] {
      assert p[0] == q[0] && q[1..][..|p| - 1] == p[1..];
      PrefixIsBefore(p[1..], q[1..]);
    }
  }

  /** Sorted by characters, the first match is the longest one exactly when no NUL hides what is longer. */
  lemma CharsBestIsLongestIff(fs: Paths, mappings: seq<Mapping>, cwd: string)
    requires Stored(mappings) && SortedBy(mappings, CharsLE)
    ensures IsLongest(fs, mappings, cwd, Best(fs, mappings, cwd)) <==> LengthsTell(fs, mappings, cwd)
  {
    BestIsFirst(fs, mappings, cwd);
    MappingOrders();
    var best := Best(fs, mappings, cwd);
    if best.Some? {
      BestIsLeast(fs, mappings, cwd, CharsLE);
      var f := best.value;
      if LengthsTell(fs, mappings, cwd) {
        forall m | m in mappings && Hits(fs, m, cwd)
          ensures |m.prefix| <= |f.prefix|
        {
          if |f.prefix| < |m.prefix| {
            NestedOrderIff(fs, f, m, cwd);
          }
        }
      }
      if IsLongest(fs, mappings, cwd, best) {
        forall a, b | a in mappings && b in mappings && Hits(fs, a, cwd) && Hits(fs, b, cwd) && |a.prefix| < |b.prefix|
          ensures NUL !in b.prefix[..|a.prefix| + 1]
        {
          LongestIsFirst(fs, f, a, b, cwd);
        }
      }
    }
  }

  /** When the longest match is before a shorter one, the lengths of all matches between them tell. */
  lemma LongestIsFirst(fs: Paths, f: Mapping, a: Mapping, b: Mapping, cwd: string)
    requires Normalized(f.prefix) && Normalized(a.prefix) && Normalized(b.prefix)
    requires Hits(fs, f, cwd) && Hits(fs, a, cwd) && Hits(fs, b, cwd)
    requires |a.prefix| < |b.prefix| <= |f.prefix| && CharsLE(f, a)
    ensures NUL !in b.prefix[..|a.prefix| + 1]
  {
    NestedOrderIff(fs, a, f, cwd);
    MatchesNest(fs, b.prefix, f.prefix, cwd);
    assert f.prefix[..|a.prefix| + 1] == b.prefix[..|a.prefix| + 1];
    if CharsLE(a, f) {
      StringIsAntisymmetric(a.prefix, f.prefix);
    }
  }

  /** Without a NUL in any prefix the lengths tell for every path. */
  lemma PlainLengthsTell(fs: Paths, mappings: seq<Mapping>, cwd: string)
    requires forall m | m in mappings :: NUL !in m.prefix
    ensures LengthsTell(fs, mappings, cwd)
  {
  }

  /** With one they may not: the queries put a directory with a NUL before what is below it. */
  lemma HiddenPrefixExample(fs: Paths, a: Mapping, b: Mapping)
    requires a.prefix == ['/', NUL] && b.prefix == ['/', NUL, '/', 'x'] && a.machine == b.machine
    requires fs.trim(b.prefix) == b.prefix && fs.clean(b.prefix) == b.prefix
    ensures Stored([a, b]) && SortedBy([a, b], CharsLE)
    ensures Best(fs, [a, b], b.prefix) == Some(a) && !IsLongest(fs, [a, b], b.prefix, Some(a))
    ensures IsLongest(fs, [a, b], b.prefix, Some(b))
  {
    assert Above(a.prefix, b.prefix);
    MatchesIffAbove(fs, a.prefix, b.prefix);
    MatchesIffAbove(fs, b.prefix, b.prefix);
    NestedOrderIff(fs, a, b, b.prefix);
    assert b.prefix[..3][1] == NUL;
    assert Hits(fs, [a, b][0], b.prefix);
  }

  /** Two lists in the same order give the same mapping. */
  lemma SameOrderSameBest(fs: Paths, a: seq<Mapping>, b: seq<Mapping>, cwd: string, le: (Mapping, Mapping) -> bool)
    requires Keyed(a) && OneMachine(a) && forall m :: m in a <==> m in b
    requires (le == BytesLE || le == CharsLE) && SortedBy(a, le) && SortedBy(b, le)
    ensures Best(fs, a, cwd) == Best(fs, b, cwd)
  {
    BestIsFirst(fs, a, cwd);
    BestIsFirst(fs, b, cwd);
    MappingOrders();
    var x, y := Best(fs, a, cwd), Best(fs, b, cwd);
    if x.Some? && y.Some? {
      BestIsLeast(fs, a, cwd, le);
      BestIsLeast(fs, b, cwd, le);
      assert le(x.value, y.value) && le(y.value, x.value);
      StringIsAntisymmetric(x.value.prefix, y.value.prefix);
    }
  }

  /** The order in which mappings are loaded makes no difference exactly as long as the lengths tell. */
  lemma OrderIsIrrelevant(fs: Paths, a: seq<Mapping>, b: seq<Mapping>, cwd: string)
    requires Stored(a) && OneMachine(a) && forall m :: m in a <==> m in b
    requires SortedBy(a, BytesLE) && SortedBy(b, CharsLE)
    ensures Best(fs, a, cwd) == Best(fs, b, cwd) <==> LengthsTell(fs, a, cwd)
  {
    BytesBestIsLongest(fs, a, cwd);
    CharsBestIsLongestIff(fs, b, cwd);
    if LengthsTell(fs, a, cwd) {
      LongestIsUnique(fs, a, cwd, Best(fs, a, cwd), Best(fs, b, cwd));
    }
  }

  lemma SortKeepsMembers(s: seq<Mapping>, le: (Mapping, Mapping) -> bool)
    requires TotalOrder(le)
    ensures SortedBy(Sort(s, le), le) && forall m :: m in Sort(s, le) <==> m in s
  {
    SortSorts(s, le);
    forall m
      ensures m in Sort(s, le) <==> m in s
    {
      assert m in multiset(Sort(s, le)) <==> m in multiset(s);
    }
  }

  /** Whatever order the caller's list is in, the longest matching prefix decides. */
  method ResolveWorktreeProject(fs: Paths, mappings: seq<Mapping>, cwd: string, current: string) returns (project: string, ok: bool)
    ensures !ok ==> project == current && forall m | m in mappings :: !Hits(fs, m, cwd)
    ensures ok ==> exists m :: IsLongest(fs, mappings, cwd, Some(m)) && project == m.project
  {
    var sorted := Sort(mappings, BytesLE);
    MappingOrders();
    SortKeepsMembers(mappings, BytesLE);
    var best := BestMapping(fs, sorted, cwd);
    BytesBestIsLongest(fs, sorted, cwd);
    if best.Some? {
      assert IsLongest(fs, mappings, cwd, best);
      return best.value.project, true;
    }
    return current, false;
  }

  // ------------------------------------------------------------------------ apply

  datatype Session = Session(machine: string, project: string, cwd: string, filePath: string, deleted: bool, modified: nat)

  function Active(mappings: seq<Mapping>, machine: string): seq<Mapping> {
    if mappings == [] then []
    else (if mappings[0].machine == machine && mappings[0].enabled then [mappings[0]] else []) + Active(mappings[1..], machine)
  }

  lemma {:induction false} ActiveMembers(mappings: seq<Mapping>, machine: string)
    ensures forall m :: m in Active(mappings, machine) <==> m in mappings && m.machine == machine && m.enabled
  {
    if mappings != [] {
      ActiveMembers(mappings[1..], machine);
      assert mappings == [mappings[0]] + mappings[1..];
    }
  }

  /** SELECT ... WHERE machine = ? AND enabled = 1 ORDER BY length(path_prefix) DESC, path_prefix. */
  function LoadActive(mappings: seq<Mapping>, machine: string): seq<Mapping> {
    Sort(Active(mappings, machine), CharsLE)
  }

  lemma LoadedIsStored(mappings: seq<Mapping>, machine: string)
    requires Keyed(mappings)
    ensures Keyed(LoadActive(mappings, machine)) && OneMachine(LoadActive(mappings, machine))
    ensures SortedBy(LoadActive(mappings, machine), CharsLE)
    ensures forall m :: m in LoadActive(mappings, machine) <==> m in mappings && m.machine == machine && m.enabled
  {
    ActiveMembers(mappings, machine);
    MappingOrders();
    SortKeepsMembers(Active(mappings, machine), CharsLE);
  }

  /** The project that the mappings give a session, if any. */
  function Target(fs: Paths, mappings: seq<Mapping>, s: Session): Option<string> {
    var best := Best(fs, LoadActive(mappings, s.machine), s.cwd);
    if best.Some? then Some(best.value.project) else None
  }

  predicate NeedsMove(fs: Paths, mappings: seq<Mapping>, s: Session) {
    Target(fs, mappings, s).Some? && Target(fs, mappings, s).value != s.project
  }

  function Moved(fs: Paths, mappings: seq<Mapping>, s: Session, bump: bool): Session {
    if NeedsMove(fs, mappings, s)
    then s.(project := Target(fs, mappings, s).value, modified := if bump then s.modified + 1 else s.modified)
    else s
  }

  /** The chosen sessions moved, the others left alone. */
  function Applied(fs: Paths, mappings: seq<Mapping>, rows: map<string, Session>, chosen: set<string>, bump: bool): map<string, Session> {
    map id | id in rows :: if id in chosen then Moved(fs, mappings, rows[id], bump) else rows[id]
  }

  function MatchedAmong(fs: Paths, mappings: seq<Mapping>, rows: map<string, Session>, chosen: set<string>): set<string> {
    set id | id in chosen && id in rows && Target(fs, mappings, rows[id]).Some?
  }

  function MovesAmong(fs: Paths, mappings: seq<Mapping>, rows: map<string, Session>, chosen: set<string>): set<string> {
    set id | id in chosen && id in rows && NeedsMove(fs, mappings, rows[id])
  }

  datatype Update = Update(id: string, machine: string, cwd: string, currentProject: string, nextProject: string)

  datatype Decision = Decision(update: Option<Update>, matched: bool)

  method ApplyMappingToSessionRow(fs: Paths, loaded: seq<Mapping>, id: string, row: Session) returns (d: Decision)
    ensures var best := Best(fs, loaded, row.cwd);
      && (d.matched <==> best.Some?)
      && (d.update == if best.Some? && best.value.project != row.project
                      then Some(Update(id, row.machine, row.cwd, row.project, best.value.project)) else None)
  {
    var best := BestMapping(fs, loaded, row.cwd);
    if best.None? {
      return Decision(None, false);
    }
    if best.value.project == row.project {
      return Decision(None, true);
    }
    d := Decision(Some(Update(id, row.machine, row.cwd, row.project, best.value.project)), true);
  }

  datatype ApplyResult = ApplyResult(matchedSessions: nat, updatedSessions: nat)

  /** What one apply run reports. */
  ghost predicate Reports(r: ApplyResult, fs: Paths, mappings: seq<Mapping>, rows: map<string, Session>, chosen: set<string>) {
    && r.matchedSessions == |MatchedAmong(fs, mappings, rows, chosen)|
    && r.updatedSessions == |MovesAmong(fs, mappings, rows, chosen)|
  }

  /** The updates that the chosen sessions need, each once. */
  ghost predicate UpdatesFor(updates: seq<Update>, fs: Paths, mappings: seq<Mapping>, rows: map<string, Session>, chosen: set<string>) {
    ListsIDs(updates, MovesAmong(fs, mappings, rows, chosen)) && AllUpdates(updates, fs, mappings, rows)
  }

  ghost predicate AllUpdates(updates: seq<Update>, fs: Paths, mappings: seq<Mapping>, rows: map<string, Session>) {
    forall i | 0 <= i < |updates| :: IsUpdate(updates[i], fs, mappings, rows)
  }

  lemma AllUpdatesStep(updates: seq<Update>, fs: Paths, mappings: seq<Mapping>, rows: map<string, Session>, u: Update)
    requires AllUpdates(updates, fs, mappings, rows) && IsUpdate(u, fs, mappings, rows)
    ensures AllUpdates(updates + [u], fs, mappings, rows)
  {
  }

  /** One update for each of the ids. */
  ghost predicate ListsIDs(updates: seq<Update>, ids: set<string>) {
    && |updates| == |ids| && FirstIDs(updates, |updates|) == ids
    && forall i, j | 0 <= i < j < |updates| :: updates[i].id != updates[j].id
  }

  lemma ListsIDsStep(updates: seq<Update>, ids: set<string>, u: Update)
    requires ListsIDs(updates, ids) && u.id !in ids
    ensures ListsIDs(updates + [u], ids + {u.id})
  {
    AppendIDs(updates, u);
  }

  lemma MovesStep(fs: Paths, mappings: seq<Mapping>, rows: map<string, Session>, chosen: set<string>, id: string)
    requires id in rows && id !in chosen
    ensures id !in MovesAmong(fs, mappings, rows, chosen)
    ensures NeedsMove(fs, mappings, rows[id]) ==>
      MovesAmong(fs, mappings, rows, chosen + {id}) == MovesAmong(fs, mappings, rows, chosen) + {id}
    ensures !NeedsMove(fs, mappings, rows[id]) ==>
      MovesAmong(fs, mappings, rows, chosen + {id}) == MovesAmong(fs, mappings, rows, chosen)
  {
  }

  ghost predicate IsUpdate(u: Update, fs: Paths, mappings: seq<Mapping>, rows: map<string, Session>) {
    && u.id in rows && !rows[u.id].deleted && NeedsMove(fs, mappings, rows[u.id])
    && u == Update(u.id, rows[u.id].machine, rows[u.id].cwd, rows[u.id].project, Target(fs, mappings, rows[u.id]).value)
  }

  ghost function FirstIDs(updates: seq<Update>, n: nat): set<string>
    requires n <= |updates|
  {
    set i | 0 <= i < n :: updates[i].id
  }

  lemma UpdatesStep(
    updates: seq<Update>, fs: Paths, mappings: seq<Mapping>, rows: map<string, Session>, chosen: set<string>, id: string, u: Option<Update>)
    requires UpdatesFor(updates, fs, mappings, rows, chosen) && id in rows && id !in chosen
    requires u.None? <==> !NeedsMove(fs, mappings, rows[id])
    requires u.Some? ==> u.value.id == id && IsUpdate(u.value, fs, mappings, rows)
    ensures UpdatesFor(if u.Some? then updates + [u.value] else updates, fs, mappings, rows, chosen + {id})
  {
    MovesStep(fs, mappings, rows, chosen, id);
    if u.Some? {
      ListsIDsStep(updates, MovesAmong(fs, mappings, rows, chosen), u.value);
      AllUpdatesStep(updates, fs, mappings, rows, u.value);
    }
  }

  lemma AppendIDs(updates: seq<Update>, u: Update)
    requires u.id !in FirstIDs(updates, |updates|)
    ensures FirstIDs(updates + [u], |updates| + 1) == FirstIDs(updates, |updates|) + {u.id}
    ensures forall i | 0 <= i < |updates| :: updates[i].id != u.id
  {
    var next := updates + [u];
    forall i | 0 <= i < |updates|
      ensures next[i].id in FirstIDs(updates, |updates|)
    {
      assert next[i] == updates[i];
    }
    forall i | 0 <= i < |updates|
      ensures updates[i].id in FirstIDs(next, |next|)
    {
      assert next[i] == updates[i];
    }
    assert next[|updates|].id in FirstIDs(next, |next|);
  }

  lemma MatchedStep(fs: Paths, mappings: seq<Mapping>, rows: map<string, Session>, chosen: set<string>, id: string)
    requires id in rows && id !in chosen
    ensures |MatchedAmong(fs, mappings, rows, chosen + {id})|
         == |MatchedAmong(fs, mappings, rows, chosen)| + if Target(fs, mappings, rows[id]).Some? then 1 else 0
  {
    var was, now := MatchedAmong(fs, mappings, rows, chosen), MatchedAmong(fs, mappings, rows, chosen + {id});
    assert now == was + if Target(fs, mappings, rows[id]).Some? then {id} else {};
  }

  class Archive {
    const fs: Paths
    const mappings: seq<Mapping>
    var sessions: map<string, Session>

    constructor (fs: Paths, mappings: seq<Mapping>, sessions: map<string, Session>)
      ensures this.fs == fs && this.mappings == mappings && this.sessions == sessions
    {
      this.fs, this.mappings, this.sessions := fs, mappings, sessions;
    }

    /** UPDATE sessions SET project = ? ... guarded by everything the update was computed from. */
    method ExecUpdate(u: Update, bump: bool) returns (changed: nat)
      modifies this
      ensures u.id in old(sessions) && Guarded(u, old(sessions)[u.id]) ==>
        changed == 1
        && sessions == old(sessions)[u.id := old(sessions)[u.id].(
             project := u.nextProject,
             modified := if bump then old(sessions)[u.id].modified + 1 else old(sessions)[u.id].modified)]
      ensures !(u.id in old(sessions) && Guarded(u, old(sessions)[u.id])) ==> changed == 0 && sessions == old(sessions)
    {
      changed := 0;
      if u.id in sessions && Guarded(u, sessions[u.id]) {
        var s := sessions[u.id];
        sessions := sessions[u.id := s.(project := u.nextProject, modified := if bump then s.modified + 1 else s.modified)];
        changed := 1;
      }
    }

    /** Runs the updates one after the other. */
    method RunUpdates(updates: seq<Update>, ghost chosen: set<string>, bump: bool) returns (updated: nat)
      requires UpdatesFor(updates, fs, mappings, sessions, chosen)
      modifies this
      ensures sessions == Applied(fs, mappings, old(sessions), chosen, bump)
      ensures updated == |MovesAmong(fs, mappings, old(sessions), chosen)|
    {
      updated := 0;
      ghost var rows := sessions;
      assert sessions == Applied(fs, mappings, rows, FirstIDs(updates, 0), bump);
      for i := 0 to |updates|
        invariant updated == i
        invariant sessions == Applied(fs, mappings, rows, FirstIDs(updates, i), bump)
      {
        assert updates[i].id !in FirstIDs(updates, i);
        var changed := ExecUpdate(updates[i], bump);
        updated := updated + changed;
        FirstIDsStep(fs, mappings, rows, updates, i, bump);
      }
      AllMoved(updates, fs, mappings, rows, chosen, bump);
    }

    /** One machine's live sessions. */
    function OnMachine(machine: string): set<string>
      reads this
    {
      set id | id in sessions && sessions[id].machine == machine && sessions[id].cwd != "" && !sessions[id].deleted
    }

    method ApplyWorktreeProjectMappings(machine: string, bump: bool) returns (result: ApplyResult)
      modifies this
      ensures sessions == Applied(fs, mappings, old(sessions), old(OnMachine(fs.trim(machine))), bump)
      ensures Reports(result, fs, mappings, old(sessions), old(OnMachine(fs.trim(machine))))
    {
      var trimmed := fs.trim(machine);
      var loaded := LoadActive(mappings, trimmed);
      var chosen := OnMachine(trimmed);
      var todo := chosen;
      var updates: seq<Update>, matched := [], 0;
      while todo != {}
        invariant todo <= chosen && sessions == old(sessions)
        invariant UpdatesFor(updates, fs, mappings, sessions, chosen - todo)
        invariant matched == |MatchedAmong(fs, mappings, sessions, chosen - todo)|
      {
        var id :| id in todo;
        var d := ApplyMappingToSessionRow(fs, loaded, id, sessions[id]);
        UpdatesStep(updates, fs, mappings, sessions, chosen - todo, id, d.update);
        MatchedStep(fs, mappings, sessions, chosen - todo, id);
        assert chosen - (todo - {id}) == chosen - todo + {id};
        if d.matched {
          matched := matched + 1;
        }
        if d.update.Some? {
          updates := updates + [d.update.value];
        }
        todo := todo - {id};
      }
      assert chosen - todo == chosen;
      var updated := RunUpdates(updates, chosen, bump);
      result := ApplyResult(matched, updated);
    }

    /** The one session, if it is a live one of the machine. */
    function JustThis(machine: string, id: string): set<string>
      reads this
    {
      if id in sessions && sessions[id].machine == machine && !sessions[id].deleted then {id} else {}
    }

    /** The working directory that is passed in only has to be there: the stored one decides. */
    method ApplyWorktreeProjectMappingToSession(machine: string, sessionID: string, cwd: string, bump: bool) returns (changed: bool)
      modifies this
      ensures var m, id := fs.trim(machine), fs.trim(sessionID);
        var chosen := if m != "" && id != "" && fs.trim(cwd) != "" then old(JustThis(m, id)) else {};
        && sessions == Applied(fs, mappings, old(sessions), chosen, bump)
        && (changed <==> id in chosen && NeedsMove(fs, mappings, old(sessions)[id]))
    {
      var m, id := fs.trim(machine), fs.trim(sessionID);
      changed := false;
      if m == "" || id == "" || fs.trim(cwd) == "" {
        return;
      }
      var loaded := LoadActive(mappings, m);
      if id !in sessions || sessions[id].machine != m || sessions[id].deleted {
        return;
      }
      var d := ApplyMappingToSessionRow(fs, loaded, id, sessions[id]);
      if !d.matched || d.update.None? {
        return;
      }
      var n := ExecUpdate(d.update.value, bump);
      changed := n > 0;
    }

    function OfFile(filePath: string): set<string>
      reads this
    {
      set id | id in sessions && sessions[id].filePath == filePath && sessions[id].cwd != "" && !sessions[id].deleted
    }

    method ApplyWorktreeProjectMappingsByPath(filePath: string, bump: bool) returns (result: ApplyResult)
      requires Keyed(mappings)
      modifies this
      ensures var chosen := if filePath == "" then {} else old(OfFile(filePath));
        && sessions == Applied(fs, mappings, old(sessions), chosen, bump)
        && Reports(result, fs, mappings, old(sessions), chosen)
    {
      if filePath == "" {
        return ApplyResult(0, 0);
      }
      var chosen := OfFile(filePath);
      var loaded := Sort(mappings, MachineLE);
      var todo := chosen;
      var updates: seq<Update>, matched := [], 0;
      while todo != {}
        invariant todo <= chosen && sessions == old(sessions)
        invariant UpdatesFor(updates, fs, mappings, sessions, chosen - todo)
        invariant matched == |MatchedAmong(fs, mappings, sessions, chosen - todo)|
      {
        var id :| id in todo;
        var row := sessions[id];
        GlobalOrderAgrees(fs, mappings, row.machine, row.cwd);
        var d := ApplyMappingToSessionRow(fs, Active(loaded, row.machine), id, row);
        UpdatesStep(updates, fs, mappings, sessions, chosen - todo, id, d.update);
        MatchedStep(fs, mappings, sessions, chosen - todo, id);
        assert chosen - (todo - {id}) == chosen - todo + {id};
        if d.matched {
          matched := matched + 1;
        }
        if d.update.Some? {
          updates := updates + [d.update.value];
        }
        todo := todo - {id};
      }
      assert chosen - todo == chosen;
      var updated := RunUpdates(updates, chosen, bump);
      result := ApplyResult(matched, updated);
    }
  }

  predicate Guarded(u: Update, s: Session) {
    s.machine == u.machine && !s.deleted && s.cwd == u.cwd && s.project == u.currentProject
  }

  lemma FirstIDsStep(fs: Paths, mappings: seq<Mapping>, rows: map<string, Session>, updates: seq<Update>, i: nat, bump: bool)
    requires i < |updates| && IsUpdate(updates[i], fs, mappings, rows) && updates[i].id !in FirstIDs(updates, i)
    ensures var id := updates[i].id;
      Applied(fs, mappings, rows, FirstIDs(updates, i), bump)[id := Moved(fs, mappings, rows[id], bump)]
      == Applied(fs, mappings, rows, FirstIDs(updates, i + 1), bump)
  {
    assert FirstIDs(updates, i + 1) == FirstIDs(updates, i) + {updates[i].id};
  }

  lemma AllMoved(updates: seq<Update>, fs: Paths, mappings: seq<Mapping>, rows: map<string, Session>, chosen: set<string>, bump: bool)
    requires UpdatesFor(updates, fs, mappings, rows, chosen)
    ensures Applied(fs, mappings, rows, FirstIDs(updates, |updates|), bump) == Applied(fs, mappings, rows, chosen, bump)
  {
    forall id | id in rows
      ensures Moved(fs, mappings, rows[id], bump) == rows[id] || (id in chosen <==> id in FirstIDs(updates, |updates|))
    {
      assert id in chosen && NeedsMove(fs, mappings, rows[id]) <==> id in MovesAmong(fs, mappings, rows, chosen);
    }
  }

  /** Sorting all machines together and then picking one gives the same best mapping as loading that one. */
  lemma GlobalOrderAgrees(fs: Paths, mappings: seq<Mapping>, machine: string, cwd: string)
    requires Keyed(mappings)
    ensures Best(fs, Active(Sort(mappings, MachineLE), machine), cwd) == Best(fs, LoadActive(mappings, machine), cwd)
  {
    MachineOrder();
    SortKeepsMembers(mappings, MachineLE);
    var all := Sort(mappings, MachineLE);
    var picked, loaded := Active(all, machine), LoadActive(mappings, machine);
    ActiveMembers(all, machine);
    LoadedIsStored(mappings, machine);
    ActiveStaysSorted(all, machine);
    SameOrderSameBest(fs, loaded, picked, cwd, CharsLE);
  }

  lemma {:induction false} ActiveStaysSorted(mappings: seq<Mapping>, machine: string)
    requires SortedBy(mappings, MachineLE)
    ensures SortedBy(Active(mappings, machine), CharsLE)
  {
    if mappings != [] {
      ActiveStaysSorted(mappings[1..], machine);
      var rest := Active(mappings[1..], machine);
      ActiveMembers(mappings[1..], machine);
      if mappings[0].machine == machine && mappings[0].enabled {
        forall i | 0 <= i < |rest|
          ensures CharsLE(mappings[0], rest[i])
        {
          assert rest[i] in mappings[1..];
          var k :| 0 <= k < |mappings[1..]| && mappings[1..][k] == rest[i];
          assert MachineLE(mappings[0], mappings[k + 1]);
        }
        assert Active(mappings, machine) == [mappings[0]] + rest;
      }
    }
  }

  // ------------------------------------------------------------------ main results

  /** m is the longest matching prefix among the active mappings of its machine. */
  ghost predicate LongestActive(fs: Paths, mappings: seq<Mapping>, machine: string, cwd: string, m: Mapping) {
    && m in mappings && m.machine == machine && m.enabled && Hits(fs, m, cwd)
    && forall x | x in mappings && x.machine == machine && x.enabled && Hits(fs, x, cwd) :: |x.prefix| <= |m.prefix|
  }

  /** Where a session goes is the longest matching prefix among its machine's active mappings. */
  lemma TargetIsLongest(fs: Paths, mappings: seq<Mapping>, s: Session)
    requires Stored(mappings)
    ensures Target(fs, mappings, s).None? <==>
      forall m | m in mappings && m.machine == s.machine && m.enabled :: !Hits(fs, m, s.cwd)
    ensures Target(fs, mappings, s).Some? && LengthsTell(fs, Active(mappings, s.machine), s.cwd) ==>
      exists m :: LongestActive(fs, mappings, s.machine, s.cwd, m) && m.project == Target(fs, mappings, s).value
  {
    var loaded := LoadActive(mappings, s.machine);
    LoadedIsStored(mappings, s.machine);
    ActiveMembers(mappings, s.machine);
    BestIsFirst(fs, loaded, s.cwd);
    CharsBestIsLongestIff(fs, loaded, s.cwd);
    var best := Best(fs, loaded, s.cwd);
    if best.Some? && LengthsTell(fs, Active(mappings, s.machine), s.cwd) {
      assert LongestActive(fs, mappings, s.machine, s.cwd, best.value);
    }
  }

  /** A session that was moved stays where it is: applying again, to any sessions, changes nothing more. */
  lemma SecondApplyUpdatesNothing(fs: Paths, mappings: seq<Mapping>, rows: map<string, Session>, chosen: set<string>, again: set<string>, a: bool, b: bool)
    requires again <= chosen
    ensures var once := Applied(fs, mappings, rows, chosen, a);
      Applied(fs, mappings, once, again, b) == once && MovesAmong(fs, mappings, once, again) == {}
  {
    var once := Applied(fs, mappings, rows, chosen, a);
    forall id | id in once && id in chosen
      ensures !NeedsMove(fs, mappings, once[id])
    {
      assert Target(fs, mappings, once[id]) == Target(fs, mappings, rows[id]);
    }
  }

  /** A working directory that is blank is in no mapping. */
  lemma BlankMatchesNothing(fs: Paths, mappings: seq<Mapping>, s: Session)
    requires fs.trim(s.cwd) == ""
    ensures Target(fs, mappings, s).None?
  {
    BestIsFirst(fs, LoadActive(mappings, s.machine), s.cwd);
  }

  /** The project a session is left with when the chosen ones are moved. */
  function ProjectAfter(a: Archive, chosen: set<string>, id: string, bump: bool): string
    requires id in a.sessions
    reads a
  {
    Applied(a.fs, a.mappings, a.sessions, chosen, bump)[id].project
  }

  /**
   * Through its machine, by its id or through its file, a session ends up with the same project: that of the
   * mapping that applies to it if it is live and there is one, and the one it has otherwise.  A session
   * without a working directory, which only the second way looks at, is in no mapping.
   */
  lemma ThreeWaysAgree(a: Archive, id: string, x: bool, y: bool, z: bool)
    requires id in a.sessions && a.fs.trim("") == ""
    ensures var s := a.sessions[id];
      var target := Target(a.fs, a.mappings, s);
      && ProjectAfter(a, a.OnMachine(s.machine), id, x) == ProjectAfter(a, a.JustThis(s.machine, id), id, y)
      && ProjectAfter(a, a.JustThis(s.machine, id), id, y) == ProjectAfter(a, a.OfFile(s.filePath), id, z)
      && ProjectAfter(a, a.OnMachine(s.machine), id, x) == if target.Some? && !s.deleted then target.value else s.project
  {
    var s := a.sessions[id];
    if s.cwd == "" {
      BlankMatchesNothing(a.fs, a.mappings, s);
    }
  }

  /** Under another machine's name, or through another file, nothing happens to it. */
  lemma OtherWaysLeaveIt(a: Archive, id: string, machine: string, filePath: string, x: bool)
    requires id in a.sessions && machine != a.sessions[id].machine && filePath != a.sessions[id].filePath
    ensures ProjectAfter(a, a.OnMachine(machine), id, x) == a.sessions[id].project
    ensures ProjectAfter(a, a.JustThis(machine, id), id, x) == a.sessions[id].project
    ensures ProjectAfter(a, a.OfFile(filePath), id, x) == a.sessions[id].project
  {
  }

  // ---------------------------------------------------------------- in plain terms

  /** A session is in a mapping when its cleaned directory is the prefix or lies below it; all absolute ones lie below the root. */
  lemma MatchesIff(fs: Paths, prefix: string, cwd: string)
    requires Normalized(prefix)
    ensures PathMatches(fs, prefix, cwd) <==>
      && fs.trim(cwd) != ""
      && (fs.clean(fs.trim(cwd)) == prefix
          || (if prefix == "/" then "/" else prefix + "/") <= fs.clean(fs.trim(cwd)))
  {
    var c, p := fs.clean(fs.trim(cwd)), if prefix == "/" then "/" else prefix + "/";
    assert prefix != "/" ==> TrimRightSlashes(prefix) == prefix;
    assert HasPrefix(c, p) <==> p <= c;
  }

  predicate AllSlashes(s: string) {
    forall i | 0 <= i < |s| :: s[i] == '/'
  }

  lemma {:induction false} TrimmedIs(s: string)
    ensures exists n | 0 <= n <= |s| :: TrimRightSlashes(s) == s[..n] && AllSlashes(s[n..])
  {
    if s != [] && s[|s| - 1] == '/' {
      var front := s[..|s| - 1];
      TrimmedIs(front);
      var n :| 0 <= n <= |front| && TrimRightSlashes(front) == front[..n] && AllSlashes(front[n..]);
      assert front[..n] == s[..n] && s[n..] == front[n..] + ['/'];
    } else {
      assert TrimRightSlashes(s) == s[..|s|] && AllSlashes(s[|s|..]);
    }
  }

  /** Blank prefixes and the current directory are refused; else separators at the end go, but the root stays. */
  lemma NormalizedIs(fs: Paths, prefix: string)
    ensures var c := fs.clean(fs.trim(prefix));
      && (NormalizePrefix(fs, prefix).None? <==> fs.trim(prefix) == "" || c == ".")
      && (NormalizePrefix(fs, prefix).Some? && c == "/" ==> NormalizePrefix(fs, prefix).value == "/")
      && (NormalizePrefix(fs, prefix).Some? && c != "/" ==>
        exists n | 0 <= n <= |c| :: NormalizePrefix(fs, prefix).value == c[..n] && AllSlashes(c[n..]) && (n > 0 ==> c[n - 1] != '/'))
  {
    var c := fs.clean(fs.trim(prefix));
    TrimmedIs(c);
    TrimmedHasNoTrailingSlash(c);
  }

  /** Within a text without a NUL, the byte i belongs to a character that began before it. */
  ghost predicate GoesOn(s: string, i: nat)
    requires i < |s|
  {
    128 <= s[i] as int < 192 && Open(s, i)
  }

  /** A byte from 192 on was followed by nothing but continuation bytes up to i. */
  ghost predicate Open(s: string, i: nat)
    requires i <= |s|
  {
    exists j | 0 <= j < i :: s[j] as int >= 192 && forall k | j < k < i :: 128 <= s[k] as int < 192
  }

  ghost function Beginnings(s: string, k: nat): nat
    requires k <= |s|
    decreases |s| - k
  {
    if k == |s| then 0 else (if GoesOn(s, k) then 0 else 1) + Beginnings(s, k + 1)
  }

  lemma OpenStep(s: string, k: nat)
    requires k < |s|
    ensures Open(s, k + 1) <==> s[k] as int >= 192 || (128 <= s[k] as int < 192 && Open(s, k))
  {
    if Open(s, k + 1) && s[k] as int < 192 {
      var j :| 0 <= j < k + 1 && s[j] as int >= 192 && forall i | j < i < k + 1 :: 128 <= s[i] as int < 192;
      assert j < k && 128 <= s[k] as int < 192;
    }
    if s[k] as int >= 192 {
      assert Open(s, k + 1);
    }
  }

  lemma {:induction false} CharsFromBegin(s: string, k: nat)
    requires NUL !in s && k <= |s|
    ensures CharsFrom(s[k..], Open(s, k)) == Beginnings(s, k)
    decreases |s| - k
  {
    if k < |s| {
      CharsFromBegin(s, k + 1);
      OpenStep(s, k);
      assert s[k..][0] == s[k] && s[k..][1..] == s[k + 1..] && s[k] in s;
    }
  }

  /** Without a NUL, length() counts the bytes that do not go on with a character; a NUL hides all that follows. */
  lemma CharLengthIs(s: string, rest: string)
    requires forall i | 0 <= i < |s| :: s[i] as int != 0
    ensures CharLength(s) == Beginnings(s, 0) && CharLength(s + [0 as char] + rest) == Beginnings(s, 0)
  {
    assert NUL !in s && [0 as char] == [NUL];
    CharsFromBegin(s, 0);
    assert s[0..] == s;
    assert s + [NUL] + rest == s + ([NUL] + rest);
    CharsSplit(s, [NUL] + rest, false);
  }

  /** Only chosen sessions with another project than their mapping's change, and only in project and time of change. */
  lemma AppliedIs(fs: Paths, mappings: seq<Mapping>, rows: map<string, Session>, chosen: set<string>, bump: bool, id: string)
    requires id in rows
    ensures var s, target := rows[id], Target(fs, mappings, rows[id]);
      var t := Session(s.machine, if target.Some? then target.value else s.project, s.cwd, s.filePath, s.deleted, if bump then s.modified + 1 else s.modified);
      Applied(fs, mappings, rows, chosen, bump)[id] == if id in chosen && target.Some? && target.value != s.project then t else s
    ensures Applied(fs, mappings, rows, chosen, bump).Keys == rows.Keys
  {
  }

  /** An update goes through only while its session is live and still what the update was computed from. */
  lemma GuardedIff(u: Update, s: Session)
    ensures Guarded(u, s) <==> !s.deleted && (u.machine, u.cwd, u.currentProject) == (s.machine, s.cwd, s.project)
  {
  }

  /** Which sessions the three ways look at. */
  lemma LookedAt(a: Archive, id: string, machine: string, filePath: string)
    ensures id in a.OnMachine(machine) <==>
      id in a.sessions && !a.sessions[id].deleted && a.sessions[id].cwd != "" && a.sessions[id].machine == machine
    ensures id in a.OfFile(filePath) <==>
      id in a.sessions && !a.sessions[id].deleted && a.sessions[id].cwd != "" && a.sessions[id].filePath == filePath
    ensures id in a.JustThis(machine, id) <==> id in a.sessions && !a.sessions[id].deleted && a.sessions[id].machine == machine
    ensures a.JustThis(machine, id) <= {id}
  {
  }
}
