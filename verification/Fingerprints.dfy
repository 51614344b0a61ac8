/**
 * Change detectors (internal/db/messages.go, internal/db/classifier_hash.go): text encodings that
 * differ whenever what they stand for differs.  Strings are byte strings: |s| is a byte length.
 */
module Fingerprints {
  import opened Ordering

  // ---------------------------------------------------------------------- numbers

  function DecNat(n: nat): string {
    var digit := ['0' + (n % 10) as char];
    if n < 10 then digit else DecNat(n / 10) + digit
  }

  /** %d */
  function Dec(n: int): string {
    if n < 0 then "-" + DecNat(-n) else DecNat(n)
  }

  /** %t */
  function Bool(b: bool): string {
    if b then "true" else "false"
  }

  predicate IsDigit(c: char) { '0' <= c <= '9' }

  lemma {:induction false} DecNatIsDigits(n: nat)
    ensures DecNat(n) != [] && forall c | c in DecNat(n) :: IsDigit(c)
  {
    if n >= 10 {
      DecNatIsDigits(n / 10);
    }
  }

  lemma {:induction false} DecNatIsInjective(m: nat, n: nat)
    requires DecNat(m) == DecNat(n)
    ensures m == n
  {
    DecNatIsDigits(m / 10);
    DecNatIsDigits(n / 10);
    var a, b := DecNat(m), DecNat(n);
    assert a[|a| - 1] == b[|b| - 1];
    assert m % 10 == n % 10;
    if m >= 10 && n >= 10 {
      assert DecNat(m / 10) == a[..|a| - 1];
      assert DecNat(n / 10) == b[..|b| - 1];
      DecNatIsInjective(m / 10, n / 10);
    }
  }

  lemma DecShape(n: int)
    ensures Dec(n) != [] && (Dec(n)[0] == '-' <==> n < 0)
    ensures n < 0 ==> Dec(n)[1..] == DecNat(-n)
  {
    if n >= 0 {
      DecNatIsDigits(n);
      assert Dec(n)[0] in DecNat(n);
    } else {
      assert Dec(n)[0] == "-"[0];
    }
  }

  lemma DecIsInjective(m: int, n: int)
    requires Dec(m) == Dec(n)
    ensures m == n
  {
    DecShape(m);
    DecShape(n);
    if m < 0 {
      DecNatIsInjective(-m, -n);
    } else {
      DecNatIsInjective(m, n);
    }
  }

  lemma DecHasNo(n: int, sep: char)
    requires !IsDigit(sep) && sep != '-'
    ensures sep !in Dec(n)
  {
    DecNatIsDigits(if n < 0 then -n else n);
  }

  // ----------------------------------------------------------------------- fields

  /** A printed value and the character after it; Sized is printed behind its length and a mark. */
  datatype Field =
    | Num(n: int, sep: char)
    | Flag(b: bool, sep: char)
    | Raw(s: string, sep: char)
    | Sized(mark: char, s: string, sep: char)

  function Ended(s: string, sep: char, rest: string): string {
    s + ([sep] + rest)
  }

  function Printed(f: Field, rest: string): string {
    match f
    case Num(n, sep) => Ended(Dec(n), sep, rest)
    case Flag(b, sep) => Ended(Bool(b), sep, rest)
    case Raw(s, sep) => Ended(s, sep, rest)
    case Sized(mark, s, sep) => Ended(Dec(|s|), mark, Ended(s, sep, rest))
  }

  predicate SameKind(f: Field, g: Field) {
    match f
    case Num(_, sep) => g.Num? && g.sep == sep
    case Flag(_, sep) => g.Flag? && g.sep == sep
    case Raw(_, sep) => g.Raw? && g.sep == sep
    case Sized(mark, _, sep) => g.Sized? && g.sep == sep && g.mark == mark
  }

  predicate Mark(c: char) {
    c == '|' || c == ':' || c == ';' || c == '\t' || c == '\n'
  }

  /** Only raw text can hold its own separator. */
  predicate Clean(f: Field) {
    && Mark(f.sep) && (f.Sized? ==> Mark(f.mark))
    && (f.Raw? ==> f.sep !in f.s)
  }

  lemma EndedSplits(a: string, b: string, sep: char, x: string, y: string)
    requires sep !in a && sep !in b && Ended(a, sep, x) == Ended(b, sep, y)
    ensures a == b && x == y
  {
    var u, v := Ended(a, sep, x), Ended(b, sep, y);
    assert forall k | 0 <= k < |a| :: u[k] == a[k];
    assert forall k | 0 <= k < |b| :: v[k] == b[k];
    assert u[|a|] == sep && v[|b|] == sep;
    SameLengthSplits(a, b, sep, sep, x, y);
  }

  lemma SameLengthSplits(a: string, b: string, c: char, d: char, x: string, y: string)
    requires |a| == |b| && Ended(a, c, x) == Ended(b, d, y)
    ensures a == b && x == y
  {
    var u, v := Ended(a, c, x), Ended(b, d, y);
    assert a == u[..|a|] && b == v[..|b|];
    assert x == u[|a| + 1..] && y == v[|b| + 1..];
  }

  lemma NumSplits(m: int, n: int, sep: char, x: string, y: string)
    requires Mark(sep) && Ended(Dec(m), sep, x) == Ended(Dec(n), sep, y)
    ensures m == n && x == y
  {
    DecHasNo(m, sep);
    DecHasNo(n, sep);
    EndedSplits(Dec(m), Dec(n), sep, x, y);
    DecIsInjective(m, n);
  }

  lemma FlagSplits(a: bool, b: bool, sep: char, x: string, y: string)
    requires Mark(sep) && Ended(Bool(a), sep, x) == Ended(Bool(b), sep, y)
    ensures a == b && x == y
  {
    EndedSplits(Bool(a), Bool(b), sep, x, y);
    assert Bool(a)[0] == Bool(b)[0];
  }

  /** A printed field can be read back, whatever follows it. */
  lemma PrintedSplits(f: Field, g: Field, x: string, y: string)
    requires SameKind(f, g) && Clean(f) && Clean(g) && Printed(f, x) == Printed(g, y)
    ensures f == g && x == y
  {
    match f
    case Num(n, sep) => NumSplits(n, g.n, sep, x, y);
    case Flag(b, sep) => FlagSplits(b, g.b, sep, x, y);
    case Raw(s, sep) => EndedSplits(s, g.s, sep, x, y);
    case Sized(mark, s, sep) =>
      NumSplits(|s|, |g.s|, mark, Ended(s, sep, x), Ended(g.s, sep, y));
      SameLengthSplits(s, g.s, sep, sep, x, y);
  }

  lemma PrintedAppends(f: Field, a: string, b: string)
    ensures Printed(f, a) + b == Printed(f, a + b)
    ensures Printed(f, a) != ""
  {
    match f
    case Num(n, sep) => EndedAppends(Dec(n), sep, a, b);
    case Flag(v, sep) => EndedAppends(Bool(v), sep, a, b);
    case Raw(s, sep) => EndedAppends(s, sep, a, b);
    case Sized(mark, s, sep) =>
      EndedAppends(s, sep, a, b);
      EndedAppends(Dec(|s|), mark, Ended(s, sep, a), b);
  }

  lemma EndedAppends(s: string, sep: char, a: string, b: string)
    ensures Ended(s, sep, a) + b == Ended(s, sep, a + b)
    ensures Ended(s, sep, a) != ""
  {
  }

  // ---------------------------------------------------------------------- records

  /** The fields one after the other, in front of the rest. */
  function Written(fs: seq<Field>, rest: string): string {
    if fs == [] then rest else Printed(fs[0], Written(fs[1..], rest))
  }

  ghost predicate Alike(fs: seq<Field>, gs: seq<Field>) {
    |fs| == |gs| && forall i | 0 <= i < |fs| :: SameKind(fs[i], gs[i])
  }

  ghost predicate AllClean(fs: seq<Field>) {
    forall i | 0 <= i < |fs| :: Clean(fs[i])
  }

  lemma {:induction false} WrittenSplits(fs: seq<Field>, gs: seq<Field>, x: string, y: string)
    requires Alike(fs, gs) && AllClean(fs) && AllClean(gs) && Written(fs, x) == Written(gs, y)
    ensures fs == gs && x == y
  {
    if fs != [] {
      PrintedSplits(fs[0], gs[0], Written(fs[1..], x), Written(gs[1..], y));
      WrittenSplits(fs[1..], gs[1..], x, y);
      assert fs == [fs[0]] + fs[1..] && gs == [gs[0]] + gs[1..];
    }
  }

  lemma {:induction false} WrittenAppends(fs: seq<Field>, a: string, b: string)
    ensures Written(fs, a) + b == Written(fs, a + b)
    ensures fs != [] ==> Written(fs, a) != ""
  {
    if fs != [] {
      WrittenAppends(fs[1..], a, b);
      PrintedAppends(fs[0], Written(fs[1..], a), b);
    }
  }

  lemma {:induction false} WrittenInTwo(fs: seq<Field>, gs: seq<Field>, rest: string)
    ensures Written(fs + gs, rest) == Written(fs, Written(gs, rest))
  {
    if fs == [] {
      assert fs + gs == gs;
    } else {
      WrittenInTwo(fs[1..], gs, rest);
      HeadOfBoth(fs, gs);
    }
  }

  lemma HeadOfBoth(fs: seq<Field>, gs: seq<Field>)
    requires fs != []
    ensures (fs + gs)[1..] == fs[1..] + gs && (fs + gs)[0] == fs[0]
  {
  }

  /** A text of many records. */
  function Text(records: seq<seq<Field>>): string {
    if records == [] then "" else Written(records[0], Text(records[1..]))
  }

  ghost predicate Uniform(records: seq<seq<Field>>, shape: seq<Field>) {
    forall i | 0 <= i < |records| :: Alike(records[i], shape) && AllClean(records[i])
  }

  lemma TextStep(records: seq<seq<Field>>, i: nat, b: string)
    requires i < |records|
    ensures b + Text(records[i..]) == b + Written(records[i], "") + Text(records[i + 1..])
  {
    WrittenAppends(records[i], "", Text(records[i + 1..]));
    assert records[i..][1..] == records[i + 1..];
    assert "" + Text(records[i + 1..]) == Text(records[i + 1..]);
  }

  /** Records of one shape with clean fields can all be read back. */
  lemma {:induction false} TextIsInjective(a: seq<seq<Field>>, b: seq<seq<Field>>, shape: seq<Field>)
    requires Uniform(a, shape) && Uniform(b, shape) && shape != [] && Text(a) == Text(b)
    ensures a == b
  {
    if a == [] || b == [] {
      if a != [] {
        WrittenAppends(a[0], Text(a[1..]), "");
      }
      if b != [] {
        WrittenAppends(b[0], Text(b[1..]), "");
      }
    } else {
      AlikeBoth(a[0], b[0], shape);
      WrittenSplits(a[0], b[0], Text(a[1..]), Text(b[1..]));
      TextIsInjective(a[1..], b[1..], shape);
      assert a == [a[0]] + a[1..] && b == [b[0]] + b[1..];
    }
  }

  lemma AlikeBoth(fs: seq<Field>, gs: seq<Field>, shape: seq<Field>)
    requires Alike(fs, shape) && Alike(gs, shape)
    ensures Alike(fs, gs)
  {
  }

  // --------------------------------------------------------------- token fingerprint

  datatype Row = Row(
    ordinal: int, model: string, tokenUsage: string, contextTokens: int, outputTokens: int,
    hasContextTokens: bool, hasOutputTokens: bool, claudeMessageID: string, claudeRequestID: string,
    sourceType: string, sourceSubtype: string, sourceUUID: string, sourceParentUUID: string,
    isSidechain: bool, isCompactBoundary: bool)

  function HeadFields(r: Row): seq<Field> {
    [Num(r.ordinal, '|'), Sized(':', r.model, '|'), Sized(':', r.tokenUsage, '|'), Num(r.contextTokens, '|'),
     Num(r.outputTokens, '|'), Flag(r.hasContextTokens, '|'), Flag(r.hasOutputTokens, '|')]
  }

  function TailFields(r: Row): seq<Field> {
    [Sized(':', r.sourceType, '|'), Sized(':', r.sourceSubtype, '|'), Sized(':', r.sourceUUID, '|'),
     Sized(':', r.sourceParentUUID, '|'), Flag(r.isSidechain, '|'), Flag(r.isCompactBoundary, ';')]
  }

  /** The two Claude ids are the only text written without its length. */
  function IDFields(r: Row): seq<Field> {
    [Raw(r.claudeMessageID, '|'), Raw(r.claudeRequestID, '|')]
  }

  function Fields(r: Row): seq<Field> {
    HeadFields(r) + (IDFields(r) + TailFields(r))
  }

  function Records(rows: seq<Row>): seq<seq<Field>> {
    seq(|rows|, i requires 0 <= i < |rows| => Fields(rows[i]))
  }

  function Fingerprint(rows: seq<Row>): string {
    Text(Records(rows))
  }

  /** Rows are appended to the builder one by one. */
  method MessageTokenFingerprint(rows: seq<Row>) returns (b: string)
    ensures b == Fingerprint(rows)
  {
    b := "";
    var records := Records(rows);
    for i := 0 to |rows|
      invariant b + Text(records[i..]) == Text(records)
    {
      TextStep(records, i, b);
      b := b + Written(records[i], "");
    }
  }

  /** The guard that the writer does not check: neither id holds the separator. */
  predicate CleanIDs(r: Row) {
    '|' !in r.claudeMessageID && '|' !in r.claudeRequestID
  }

  lemma FieldsAreAlike(r: Row, s: Row)
    ensures Alike(Fields(r), Fields(s))
    ensures CleanIDs(r) ==> AllClean(Fields(r))
  {
    assert Alike(HeadFields(r), HeadFields(s)) && Alike(IDFields(r), IDFields(s)) && Alike(TailFields(r), TailFields(s));
    assert AllClean(HeadFields(r)) && AllClean(TailFields(r));
  }

  lemma FieldsAreInjective(r: Row, s: Row)
    requires Fields(r) == Fields(s)
    ensures r == s
  {
    var a, b := Fields(r), Fields(s);
    assert a[0] == b[0] && a[1] == b[1] && a[2] == b[2] && a[3] == b[3] && a[4] == b[4];
    assert a[5] == b[5] && a[6] == b[6] && a[7] == b[7] && a[8] == b[8] && a[9] == b[9];
    assert a[10] == b[10] && a[11] == b[11] && a[12] == b[12] && a[13] == b[13] && a[14] == b[14];
  }

  /** With clean ids, fingerprints are equal only for equal rows in equal order. */
  lemma FingerprintIsInjective(a: seq<Row>, b: seq<Row>)
    requires (forall r | r in a :: CleanIDs(r)) && (forall r | r in b :: CleanIDs(r))
    requires Fingerprint(a) == Fingerprint(b)
    ensures a == b
  {
    var x, y := Records(a), Records(b);
    var shape := Fields(Row(0, "", "", 0, 0, false, false, "", "", "", "", "", "", false, false));
    RecordsAreUniform(a);
    RecordsAreUniform(b);
    TextIsInjective(x, y, shape);
    assert |a| == |x| && |b| == |y|;
    forall i | 0 <= i < |a|
      ensures a[i] == b[i]
    {
      assert x[i] == y[i];
      FieldsAreInjective(a[i], b[i]);
    }
  }

  lemma RecordsAreUniform(rows: seq<Row>)
    requires forall r | r in rows :: CleanIDs(r)
    ensures Uniform(Records(rows), Fields(Row(0, "", "", 0, 0, false, false, "", "", "", "", "", "", false, false)))
  {
    forall i | 0 <= i < |rows|
      ensures Alike(Records(rows)[i], Fields(Row(0, "", "", 0, 0, false, false, "", "", "", "", "", "", false, false)))
      ensures AllClean(Records(rows)[i])
    {
      assert rows[i] in rows;
      FieldsAreAlike(rows[i], Row(0, "", "", 0, 0, false, false, "", "", "", "", "", "", false, false));
    }
  }

  /** Another row that differs in its ids alone and still prints the same. */
  ghost predicate Collides(r: Row, s: Row) {
    && r != s && s == r.(claudeMessageID := s.claudeMessageID, claudeRequestID := s.claudeRequestID)
    && Written(Fields(r), "") == Written(Fields(s), "")
  }

  function IDText(r: Row): string {
    r.claudeMessageID + (['|'] + r.claudeRequestID)
  }

  lemma IDsPrinted(r: Row, rest: string)
    ensures Written(IDFields(r), rest) == Ended(IDText(r), '|', rest)
  {
    var fs := IDFields(r);
    assert Written(fs[1..][1..], rest) == rest;
    assert Written(fs[1..], rest) == Ended(r.claudeRequestID, '|', rest);
    assert Written(fs, rest) == Ended(r.claudeMessageID, '|', Ended(r.claudeRequestID, '|', rest));
  }

  /** Rows that differ in their ids alone print the same exactly when the joined ids are the same text. */
  lemma PrintsSameIff(r: Row, s: Row)
    requires s == r.(claudeMessageID := s.claudeMessageID, claudeRequestID := s.claudeRequestID)
    ensures Written(Fields(r), "") == Written(Fields(s), "") <==> IDText(r) == IDText(s)
  {
    var rest := Written(TailFields(r), "");
    assert TailFields(s) == TailFields(r) && HeadFields(s) == HeadFields(r);
    InThree(r);
    InThree(s);
    IDsPrinted(r, rest);
    IDsPrinted(s, rest);
    var x, y := Ended(IDText(r), '|', rest), Ended(IDText(s), '|', rest);
    if Written(Fields(r), "") == Written(Fields(s), "") {
      WrittenSplits(HeadFields(r), HeadFields(s), x, y);
      assert |IDText(r)| == |IDText(s)| by {
        assert |x| == |IDText(r)| + 1 + |rest| && |y| == |IDText(s)| + 1 + |rest|;
      }
      SameLengthSplits(IDText(r), IDText(s), '|', '|', rest, rest);
    }
  }

  lemma InThree(r: Row)
    ensures Written(Fields(r), "") == Written(HeadFields(r), Written(IDFields(r), Written(TailFields(r), "")))
  {
    WrittenInTwo(HeadFields(r), IDFields(r) + TailFields(r), "");
    WrittenInTwo(IDFields(r), TailFields(r), "");
  }

  lemma FirstBar(s: string) returns (k: nat)
    requires '|' in s
    ensures k < |s| && s[k] == '|' && s == s[..k] + (['|'] + s[k + 1..])
  {
    k :| 0 <= k < |s| && s[k] == '|';
  }

  /** A change of ids alone can go unnoticed exactly when one of the ids holds the separator. */
  lemma CollidesIff(r: Row)
    ensures (exists s :: Collides(r, s)) <==> !CleanIDs(r)
  {
    if !CleanIDs(r) {
      var s := CollisionFor(r);
      PrintsSameIff(r, s);
      assert Collides(r, s);
    }
    forall s | Collides(r, s)
      ensures !CleanIDs(r)
    {
      PrintsSameIff(r, s);
      if CleanIDs(r) {
        BarIsAt(r, s);
      }
    }
  }

  lemma CollisionFor(r: Row) returns (s: Row)
    requires !CleanIDs(r)
    ensures s != r && s == r.(claudeMessageID := s.claudeMessageID, claudeRequestID := s.claudeRequestID)
    ensures IDText(r) == IDText(s)
  {
    var m, q := r.claudeMessageID, r.claudeRequestID;
    if '|' in m {
      var k := FirstBar(m);
      s := r.(claudeMessageID := m[..k], claudeRequestID := m[k + 1..] + (['|'] + q));
      assert |s.claudeMessageID| < |m|;
    } else {
      var k := FirstBar(q);
      s := r.(claudeMessageID := m + (['|'] + q[..k]), claudeRequestID := q[k + 1..]);
      assert |s.claudeMessageID| > |m|;
    }
  }

  lemma BarIsAt(r: Row, s: Row)
    requires CleanIDs(r) && IDText(r) == IDText(s)
    ensures r.claudeMessageID == s.claudeMessageID && r.claudeRequestID == s.claudeRequestID
  {
    var n := |r.claudeMessageID|;
    assert forall k | 0 <= k < n :: IDText(r)[k] == r.claudeMessageID[k];
    assert forall k | n < k < |IDText(r)| :: IDText(r)[k] == r.claudeRequestID[k - n - 1];
    assert IDText(s)[|s.claudeMessageID|] == '|';
    SameLengthSplits(r.claudeMessageID, s.claudeMessageID, '|', '|', r.claudeRequestID, s.claudeRequestID);
  }

  // -------------------------------------------------------------- classifier preimage

  const CLASSIFIER_ALGORITHM_VERSION: nat := 2

  const VERSION_LINE: string := "v2\n"

  /** tag TAB length TAB text NEWLINE */
  function LineOf(tag: char, text: string): seq<Field> {
    [Raw([tag], '\t'), Sized('\t', text, '\n')]
  }

  function Lines(tag: char, texts: seq<string>): seq<seq<Field>> {
    seq(|texts|, i requires 0 <= i < |texts| => LineOf(tag, texts[i]))
  }

  function SortedLines(tag: char, items: seq<string>): seq<seq<Field>> {
    Lines(tag, Sort(items, StringLE))
  }

  lemma {:induction false} TextsAppend(a: seq<seq<Field>>, b: seq<seq<Field>>)
    ensures Text(a + b) == Text(a) + Text(b)
  {
    if a == [] {
      assert a + b == b;
    } else {
      TextsAppend(a[1..], b);
      assert (a + b)[1..] == a[1..] + b;
      WrittenAppends(a[0], Text(a[1..]), Text(b));
    }
  }

  /** Writes the items in sorted order into the hash input h. */
  method WriteSorted(h: string, tag: char, items: seq<string>) returns (out: string)
    ensures out == h + Text(SortedLines(tag, items))
  {
    var sorted := Sort(items, StringLE);
    var lines := Lines(tag, sorted);
    out := h;
    for i := 0 to |sorted|
      invariant out + Text(lines[i..]) == h + Text(lines)
    {
      TextStep(lines, i, out);
      out := out + Written(lines[i], "");
    }
  }

  datatype Patterns = Patterns(prefixes: seq<string>, substrings: seq<string>, exact: seq<string>, user: seq<string>)

  /** All the lines, tag by tag. */
  ghost function PatternLines(p: Patterns): seq<seq<Field>> {
    SortedLines('P', p.prefixes) + (SortedLines('S', p.substrings) + (SortedLines('E', p.exact) + SortedLines('U', p.user)))
  }

  ghost function Preimage(p: Patterns): string {
    VERSION_LINE + Text(PatternLines(p))
  }

  /** The bytes that go into the hash. */
  method ClassifierPreimage(p: Patterns) returns (h: string)
    ensures h == Preimage(p)
  {
    h := "v" + Dec(CLASSIFIER_ALGORITHM_VERSION) + "\n";
    assert h == VERSION_LINE;
    h := WriteSorted(h, 'P', p.prefixes);
    h := WriteSorted(h, 'S', p.substrings);
    h := WriteSorted(h, 'E', p.exact);
    h := WriteSorted(h, 'U', p.user);
    var a, b, c, d := SortedLines('P', p.prefixes), SortedLines('S', p.substrings), SortedLines('E', p.exact), SortedLines('U', p.user);
    TextsAppend(a, b + (c + d));
    TextsAppend(b, c + d);
    TextsAppend(c, d);
    FourParts(VERSION_LINE, Text(a), Text(b), Text(c), Text(d));
  }

  lemma FourParts(h: string, a: string, b: string, c: string, d: string)
    ensures h + a + b + c + d == h + (a + (b + (c + d)))
  {
  }

  ghost predicate SamePatterns(p: Patterns, q: Patterns) {
    && multiset(p.prefixes) == multiset(q.prefixes) && multiset(p.substrings) == multiset(q.substrings)
    && multiset(p.exact) == multiset(q.exact) && multiset(p.user) == multiset(q.user)
  }

  lemma SortedLinesIff(tag: char, a: seq<string>, b: seq<string>)
    ensures SortedLines(tag, a) == SortedLines(tag, b) <==> multiset(a) == multiset(b)
  {
    StringOrder();
    SortSorts(a, StringLE);
    SortSorts(b, StringLE);
    var x, y := Sort(a, StringLE), Sort(b, StringLE);
    if multiset(a) == multiset(b) {
      assert NoTies(x, StringLE);
      SortedIsUnique(x, y, StringLE);
    }
    if Lines(tag, x) == Lines(tag, y) {
      assert |x| == |Lines(tag, x)| == |y|;
      forall i | 0 <= i < |x|
        ensures x[i] == y[i]
      {
        assert Lines(tag, x)[i] == Lines(tag, y)[i];
        assert LineOf(tag, x[i])[1] == LineOf(tag, y[i])[1];
      }
      assert x == y;
    }
  }

  ghost predicate AllTagged(tag: char, lines: seq<seq<Field>>) {
    forall i | 0 <= i < |lines| :: lines[i] != [] && lines[i][0] == Raw([tag], '\t')
  }

  ghost predicate NoneTagged(tag: char, lines: seq<seq<Field>>) {
    forall i | 0 <= i < |lines| :: lines[i] != [] && lines[i][0] != Raw([tag], '\t')
  }

  lemma NotShorter(tag: char, a: seq<seq<Field>>, b: seq<seq<Field>>, x: seq<seq<Field>>, y: seq<seq<Field>>)
    requires AllTagged(tag, b) && NoneTagged(tag, x) && a + x == b + y
    ensures |a| >= |b|
  {
    var u := a + x;
    assert forall k | 0 <= k < |b| :: u[k] == b[k];
    assert forall k | |a| <= k < |u| :: u[k] == x[k - |a|];
    assert |u| >= |b|;
    assert forall k | 0 <= k < |b| :: u[k][0] == Raw([tag], '\t');
    assert |a| < |u| ==> u[|a|] == x[0];
  }

  /** Where the lines of a tag end. */
  lemma TagSplits(tag: char, a: seq<seq<Field>>, b: seq<seq<Field>>, x: seq<seq<Field>>, y: seq<seq<Field>>)
    requires AllTagged(tag, a) && AllTagged(tag, b) && NoneTagged(tag, x) && NoneTagged(tag, y)
    requires a + x == b + y
    ensures a == b && x == y
  {
    var u, v := a + x, b + y;
    NotShorter(tag, a, b, x, y);
    NotShorter(tag, b, a, y, x);
    assert a == u[..|a|] && b == v[..|b|] && x == u[|a|..] && y == v[|b|..];
  }

  lemma SortedLinesAreUniform(tag: char, items: seq<string>)
    requires tag != '\t'
    ensures Uniform(SortedLines(tag, items), LineOf('P', ""))
  {
    forall i | 0 <= i < |SortedLines(tag, items)|
      ensures Alike(SortedLines(tag, items)[i], LineOf('P', "")) && AllClean(SortedLines(tag, items)[i])
    {
      assert SortedLines(tag, items)[i] == LineOf(tag, Sort(items, StringLE)[i]);
    }
  }

  lemma UniformAppends(a: seq<seq<Field>>, b: seq<seq<Field>>, shape: seq<Field>)
    requires Uniform(a, shape) && Uniform(b, shape)
    ensures Uniform(a + b, shape)
  {
  }

  lemma LinesAreUniform(p: Patterns)
    ensures Uniform(PatternLines(p), LineOf('P', ""))
  {
    var a, b, c, d := SortedLines('P', p.prefixes), SortedLines('S', p.substrings), SortedLines('E', p.exact), SortedLines('U', p.user);
    var shape := LineOf('P', "");
    SortedLinesAreUniform('P', p.prefixes);
    SortedLinesAreUniform('S', p.substrings);
    SortedLinesAreUniform('E', p.exact);
    SortedLinesAreUniform('U', p.user);
    UniformAppends(c, d, shape);
    UniformAppends(b, c + d, shape);
    UniformAppends(a, b + (c + d), shape);
  }

  /** Two configurations give the same preimage exactly when they hold the same patterns, in any order, under each tag. */
  lemma PreimageIff(p: Patterns, q: Patterns)
    ensures Preimage(p) == Preimage(q) <==> SamePatterns(p, q)
  {
    SortedLinesIff('P', p.prefixes, q.prefixes);
    SortedLinesIff('S', p.substrings, q.substrings);
    SortedLinesIff('E', p.exact, q.exact);
    SortedLinesIff('U', p.user, q.user);
    var a, b := PatternLines(p), PatternLines(q);
    if Preimage(p) == Preimage(q) {
      assert Text(a) == Preimage(p)[|VERSION_LINE|..] && Text(b) == Preimage(q)[|VERSION_LINE|..];
      LinesAreUniform(p);
      LinesAreUniform(q);
      TextIsInjective(a, b, LineOf('P', ""));
      PartsAreEqual(p, q);
    }
  }

  lemma SortedLinesAreTagged(tag: char, other: char, items: seq<string>)
    requires tag != other
    ensures AllTagged(tag, SortedLines(tag, items)) && NoneTagged(other, SortedLines(tag, items))
  {
  }

  lemma NoneTaggedAppends(tag: char, a: seq<seq<Field>>, b: seq<seq<Field>>)
    requires NoneTagged(tag, a) && NoneTagged(tag, b)
    ensures NoneTagged(tag, a + b)
  {
  }

  /** The lines under the other tags hold none under this one. */
  lemma OthersAreNotTagged(p: Patterns)
    ensures var s, e, u := SortedLines('S', p.substrings), SortedLines('E', p.exact), SortedLines('U', p.user);
      NoneTagged('P', s + (e + u)) && NoneTagged('S', e + u) && NoneTagged('E', u)
  {
    var s, e, u := SortedLines('S', p.substrings), SortedLines('E', p.exact), SortedLines('U', p.user);
    SortedLinesAreTagged('S', 'P', p.substrings);
    SortedLinesAreTagged('E', 'P', p.exact);
    SortedLinesAreTagged('E', 'S', p.exact);
    SortedLinesAreTagged('U', 'P', p.user);
    SortedLinesAreTagged('U', 'S', p.user);
    SortedLinesAreTagged('U', 'E', p.user);
    NoneTaggedAppends('P', e, u);
    NoneTaggedAppends('P', s, e + u);
    NoneTaggedAppends('S', e, u);
  }

  lemma PartsAreEqual(p: Patterns, q: Patterns)
    requires PatternLines(p) == PatternLines(q)
    ensures SortedLines('P', p.prefixes) == SortedLines('P', q.prefixes)
    ensures SortedLines('S', p.substrings) == SortedLines('S', q.substrings)
    ensures SortedLines('E', p.exact) == SortedLines('E', q.exact)
    ensures SortedLines('U', p.user) == SortedLines('U', q.user)
  {
    OthersAreNotTagged(p);
    OthersAreNotTagged(q);
    var s, e, u := SortedLines('S', p.substrings), SortedLines('E', p.exact), SortedLines('U', p.user);
    var s', e', u' := SortedLines('S', q.substrings), SortedLines('E', q.exact), SortedLines('U', q.user);
    SameTagSplits('P', p.prefixes, q.prefixes, s + (e + u), s' + (e' + u'));
    SameTagSplits('S', p.substrings, q.substrings, e + u, e' + u');
    SameTagSplits('E', p.exact, q.exact, u, u');
  }

  lemma SameTagSplits(tag: char, a: seq<string>, b: seq<string>, x: seq<seq<Field>>, y: seq<seq<Field>>)
    requires NoneTagged(tag, x) && NoneTagged(tag, y) && SortedLines(tag, a) + x == SortedLines(tag, b) + y
    ensures SortedLines(tag, a) == SortedLines(tag, b) && x == y
  {
    TagSplits(tag, SortedLines(tag, a), SortedLines(tag, b), x, y);
  }

  // ---------------------------------------------------------------- in plain terms

  /** The number that a text of digits stands for. */
  function NumberOf(s: string): int {
    if s == [] then 0 else 10 * NumberOf(s[..|s| - 1]) + (s[|s| - 1] as int - '0' as int)
  }

  /** Numbers are printed in base ten, without leading zeros. */
  lemma {:induction false} DecNatIs(n: nat)
    ensures NumberOf(DecNat(n)) == n && DecNat(n) != [] && (n > 0 ==> DecNat(n)[0] != '0')
    ensures forall c | c in DecNat(n) :: IsDigit(c)
  {
    DecNatIsDigits(n);
    if n >= 10 {
      DecNatIs(n / 10);
      assert DecNat(n)[..|DecNat(n)| - 1] == DecNat(n / 10);
    } else {
      assert DecNat(n)[..0] == [];
    }
  }

  lemma Prints(f: Field, rest: string)
    ensures f.Num? ==> Printed(f, rest) == Dec(f.n) + [f.sep] + rest
    ensures f.Flag? ==> Printed(f, rest) == (if f.b then "true" else "false") + [f.sep] + rest
    ensures f.Raw? ==> Printed(f, rest) == f.s + [f.sep] + rest
    ensures f.Sized? ==> Printed(f, rest) == Dec(|f.s|) + [f.mark] + f.s + [f.sep] + rest
  {
    if f.Num? {
      EndedIs(Dec(f.n), f.sep, rest);
    }
    if f.Sized? {
      assert Printed(f, rest) == Dec(|f.s|) + ([f.mark] + (f.s + ([f.sep] + rest)));
      Regroup(Dec(|f.s|), [f.mark], f.s, [f.sep], rest);
    }
  }

  lemma EndedIs(s: string, sep: char, rest: string)
    ensures Ended(s, sep, rest) == s + [sep] + rest
  {
  }

  lemma Regroup(a: string, b: string, c: string, d: string, e: string)
    ensures a + (b + (c + (d + e))) == a + b + c + d + e
  {
  }

  /** A line of the classifier's text: the tag, the length and the item between tabs, and the end of the line. */
  lemma LineIs(tag: char, item: string)
    ensures Written(LineOf(tag, item), "") == [tag] + "\t" + Dec(|item|) + "\t" + item + "\n"
  {
    var fs := LineOf(tag, item);
    assert fs[1..] == [fs[1]] && fs[1..][1..] == [];
    assert Written(fs[1..], "") == Printed(fs[1], "");
    Prints(fs[1], "");
    Prints(fs[0], Printed(fs[1], ""));
    assert [tag] + ['\t'] + (Dec(|item|) + ['\t'] + item + ['\n'] + "") == [tag] + "\t" + Dec(|item|) + "\t" + item + "\n";
  }

  /** A row prints its fifteen columns in the order of the query; all texts but the two Claude ids behind their lengths. */
  lemma RowFieldsAre(r: Row)
    ensures Fields(r) == [
      Num(r.ordinal, '|'), Sized(':', r.model, '|'), Sized(':', r.tokenUsage, '|'), Num(r.contextTokens, '|'),
      Num(r.outputTokens, '|'), Flag(r.hasContextTokens, '|'), Flag(r.hasOutputTokens, '|'),
      Raw(r.claudeMessageID, '|'), Raw(r.claudeRequestID, '|'), Sized(':', r.sourceType, '|'),
      Sized(':', r.sourceSubtype, '|'), Sized(':', r.sourceUUID, '|'), Sized(':', r.sourceParentUUID, '|'),
      Flag(r.isSidechain, '|'), Flag(r.isCompactBoundary, ';')]
  {
  }

  /** The lines of some items, one after the other. */
  function Listed(tag: char, items: seq<string>): string {
    if items == [] then ""
    else [tag] + "\t" + Dec(|items[0]|) + "\t" + items[0] + "\n" + Listed(tag, items[1..])
  }

  lemma {:induction false} LinesAreListed(tag: char, items: seq<string>)
    ensures Text(Lines(tag, items)) == Listed(tag, items)
  {
    if items != [] {
      LinesAreListed(tag, items[1..]);
      LineIs(tag, items[0]);
      assert Lines(tag, items)[1..] == Lines(tag, items[1..]);
      WrittenAppends(LineOf(tag, items[0]), "", Text(Lines(tag, items[1..])));
      assert "" + Text(Lines(tag, items[1..])) == Text(Lines(tag, items[1..]));
    }
  }

  /** The classifier's text: the version, and the items of each kind in ascending order. */
  lemma PreimageIs(p: Patterns)
    ensures exists a, b, c, d ::
      && Ascends(a, p.prefixes) && Ascends(b, p.substrings) && Ascends(c, p.exact) && Ascends(d, p.user)
      && Preimage(p) == "v2\n" + (Listed('P', a) + (Listed('S', b) + (Listed('E', c) + Listed('U', d))))
  {
    var a, b, c, d := Sort(p.prefixes, StringLE), Sort(p.substrings, StringLE), Sort(p.exact, StringLE), Sort(p.user, StringLE);
    SortAscends(p.prefixes);
    SortAscends(p.substrings);
    SortAscends(p.exact);
    SortAscends(p.user);
    LinesAreListed('P', a);
    LinesAreListed('S', b);
    LinesAreListed('E', c);
    LinesAreListed('U', d);
    TextsAppend(Lines('P', a), Lines('S', b) + (Lines('E', c) + Lines('U', d)));
    TextsAppend(Lines('S', b), Lines('E', c) + Lines('U', d));
    TextsAppend(Lines('E', c), Lines('U', d));
  }

  ghost predicate Ascends(sorted: seq<string>, items: seq<string>) {
    multiset(sorted) == multiset(items) && forall i, j | 0 <= i < j < |sorted| :: StringLE(sorted[i], sorted[j])
  }

  lemma SortAscends(items: seq<string>)
    ensures Ascends(Sort(items, StringLE), items)
  {
    StringOrder();
    SortSorts(items, StringLE);
  }
}
