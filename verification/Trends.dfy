/**
 * Counting terms in messages (internal/db/trends.go): occurrences of several matchers, overlapping
 * ones counted once, and the date buckets that they are counted into.  Strings are byte strings.
 */
module Trends {
  import opened Common
  import opened Ordering

  datatype Span = Span(start: nat, end: nat)

  // ------------------------------------------------------------------- matching

  predicate OccursAt(needle: string, haystack: string, i: nat) {
    i + |needle| <= |haystack| && haystack[i..i + |needle|] == needle
  }

  predicate IsWordByte(b: char) {
    'a' <= b <= 'z' || 'A' <= b <= 'Z' || '0' <= b <= '9' || b == '_'
  }

  predicate HasWordBoundaries(text: string, start: nat, end: nat)
    requires start <= |text|
  {
    !(start > 0 && IsWordByte(text[start - 1])) && !(end < |text| && IsWordByte(text[end]))
  }

  predicate IsSingleWordMatcher(m: string) {
    m != "" && forall i | 0 <= i < |m| :: IsWordByte(m[i])
  }

  /** Where the needle stands, as a whole word if that is asked for. */
  predicate Matches(haystack: string, needle: string, wordBounded: bool, i: nat) {
    OccursAt(needle, haystack, i) && (wordBounded ==> HasWordBoundaries(haystack, i, i + |needle|))
  }

  /** The first place from the offset on, if any. */
  method Index(haystack: string, needle: string, offset: nat) returns (found: Option<nat>)
    requires offset <= |haystack|
    ensures found.Some? ==> found.value >= offset && OccursAt(needle, haystack, found.value)
    ensures forall i | offset <= i && (found.Some? ==> i < found.value) :: !OccursAt(needle, haystack, i)
  {
    for i := offset to |haystack| + 1
      invariant forall k | offset <= k < i :: !OccursAt(needle, haystack, k)
    {
      if OccursAt(needle, haystack, i) {
        return Some(i);
      }
    }
    found := None;
  }

  ghost predicate Ascending(spans: seq<Span>) {
    forall i, j | 0 <= i < j < |spans| :: spans[i].start < spans[j].start
  }

  /** The search steps one byte on from every hit, so that overlapping hits are all found. */
  method CollectTrendSpans(text: string, matcher: string, wordBounded: bool, lower: string -> string) returns (spans: seq<Span>)
    ensures Ascending(spans)
    ensures lower(matcher) == "" ==> spans == []
    ensures lower(matcher) != "" ==> forall s :: s in spans <==>
      s.end == s.start + |lower(matcher)| && Matches(lower(text), lower(matcher), wordBounded, s.start)
  {
    var needle, haystack := lower(matcher), lower(text);
    spans := [];
    if needle == "" || haystack == "" {
      return;
    }
    var offset := 0;
    while offset < |haystack|
      invariant 0 <= offset <= |haystack|
      invariant Ascending(spans) && forall s | s in spans :: s.start < offset
      invariant forall s :: s in spans <==>
        s.end == s.start + |needle| && s.start < offset && Matches(haystack, needle, wordBounded, s.start)
    {
      var found := Index(haystack, needle, offset);
      if found.None? {
        break;
      }
      var start := found.value;
      var end := start + |needle|;
      if !wordBounded || HasWordBoundaries(haystack, start, end) {
        spans := spans + [Span(start, end)];
      }
      offset := start + 1;
    }
  }

  // --------------------------------------------------------------------- merging

  predicate SpanLE(a: Span, b: Span) {
    if a.start == b.start then a.end <= b.end else a.start < b.start
  }

  lemma SpanOrder()
    ensures TotalOrder(SpanLE)
  {
  }

  ghost predicate Proper(spans: seq<Span>) {
    forall s | s in spans :: s.start < s.end
  }

  ghost predicate Inside(p: nat, spans: seq<Span>) {
    exists s | s in spans :: s.start < p < s.end
  }

  /** The starts that no other span strictly covers: one for each cluster of overlapping spans. */
  ghost function Heads(spans: seq<Span>): set<nat> {
    set s | s in spans && !Inside(s.start, spans) :: s.start
  }

  method MergeCountSpans(spans: seq<Span>) returns (count: nat)
    requires Proper(spans)
    ensures count == |Heads(spans)|
  {
    count := 0;
    if |spans| == 0 {
      assert Heads(spans) == {};
      return;
    }
    var sorted := Sort(spans, SpanLE);
    SortedSpans(spans);
    var mergedEnd: int := -1;
    for i := 0 to |sorted|
      invariant count == |Heads(sorted[..i])|
      invariant IsFarthestEnd(mergedEnd, sorted[..i])
    {
      var span := sorted[i];
      MergeStep(sorted, i, mergedEnd);
      if span.start >= mergedEnd {
        count := count + 1;
        mergedEnd := span.end;
        continue;
      }
      if span.end > mergedEnd {
        mergedEnd := span.end;
      }
    }
    assert sorted[..|sorted|] == sorted;
  }

  lemma SortedSpans(spans: seq<Span>)
    requires Proper(spans)
    ensures var sorted := Sort(spans, SpanLE);
      SortedBy(sorted, SpanLE) && Proper(sorted) && Heads(sorted) == Heads(spans)
  {
    SpanOrder();
    SortSorts(spans, SpanLE);
    SameMembers(spans, Sort(spans, SpanLE));
    HeadsDependOnMembers(spans, Sort(spans, SpanLE));
  }

  ghost predicate IsFarthestEnd(e: int, spans: seq<Span>) {
    && (forall s | s in spans :: s.end <= e)
    && (if spans == [] then e == -1 else exists s | s in spans :: s.end == e)
  }

  lemma SameMembers(a: seq<Span>, b: seq<Span>)
    requires multiset(a) == multiset(b)
    ensures forall s :: s in a <==> s in b
  {
    forall s
      ensures s in a <==> s in b
    {
      assert s in multiset(a) <==> s in multiset(b);
    }
  }

  /** The order of the spans and repeated ones make no difference. */
  lemma HeadsDependOnMembers(a: seq<Span>, b: seq<Span>)
    requires forall s :: s in a <==> s in b
    ensures Heads(a) == Heads(b)
  {
    forall p
      ensures Inside(p, a) <==> Inside(p, b)
    {
    }
  }

  lemma MergeStep(sorted: seq<Span>, i: nat, mergedEnd: int)
    requires i < |sorted| && SortedBy(sorted, SpanLE) && Proper(sorted) && IsFarthestEnd(mergedEnd, sorted[..i])
    ensures var span := sorted[i];
      Heads(sorted[..i + 1]) == Heads(sorted[..i]) + (if span.start >= mergedEnd then {span.start} else {})
    ensures sorted[i].start >= mergedEnd ==> sorted[i].start !in Heads(sorted[..i])
    ensures IsFarthestEnd(if sorted[i].end > mergedEnd then sorted[i].end else mergedEnd, sorted[..i + 1])
  {
    var span, was, now := sorted[i], sorted[..i], sorted[..i + 1];
    assert now == was + [span];
    forall s | s in was
      ensures s.start <= span.start && s.start < s.end && SpanLE(s, span)
    {
      var k :| 0 <= k < i && was[k] == s;
      assert SpanLE(sorted[k], sorted[i]);
    }
    forall p: nat | p <= span.start
      ensures Inside(p, now) <==> Inside(p, was)
    {
    }
    HeadStep(was, span, mergedEnd);
  }

  /** A span in start order opens a new cluster exactly when it begins at or after every end so far. */
  lemma HeadStep(was: seq<Span>, span: Span, mergedEnd: int)
    requires IsFarthestEnd(mergedEnd, was) && forall s | s in was :: s.start <= span.start && s.start < s.end && SpanLE(s, span)
    requires forall p: nat | p <= span.start :: Inside(p, was + [span]) <==> Inside(p, was)
    ensures Heads(was + [span]) == Heads(was) + (if span.start >= mergedEnd then {span.start} else {})
    ensures span.start >= mergedEnd ==> span.start !in Heads(was)
  {
    if span.start >= mergedEnd {
      assert !Inside(span.start, was);
    } else {
      var s :| s in was && s.end == mergedEnd;
      if s.start == span.start {
        assert !Inside(span.start, was) ==> span.start in Heads(was);
      } else {
        assert Inside(span.start, was);
      }
    }
  }

  // -------------------------------------------------------------------- the count

  /** Some matcher, as the term uses it, stands at this place with this end. */
  ghost predicate TermSpan(text: string, matchers: seq<string>, lower: string -> string, trim: string -> string, s: Span) {
    exists m | m in matchers :: MatcherSpan(text, m, lower, trim, s)
  }

  ghost predicate MatcherSpan(text: string, m: string, lower: string -> string, trim: string -> string, s: Span) {
    && trim(m) != "" && lower(trim(m)) != ""
    && s.end == s.start + |lower(trim(m))|
    && Matches(lower(text), lower(trim(m)), IsSingleWordMatcher(trim(m)), s.start)
  }

  ghost predicate IsTermCount(count: nat, text: string, matchers: seq<string>, lower: string -> string, trim: string -> string) {
    exists spans :: count == |Heads(spans)| && Collects(spans, text, matchers, lower, trim)
  }

  ghost predicate Collects(spans: seq<Span>, text: string, matchers: seq<string>, lower: string -> string, trim: string -> string) {
    forall s {:trigger s in spans} :: s in spans <==> TermSpan(text, matchers, lower, trim, s)
  }

  method CountTrendOccurrences(text: string, matchers: seq<string>, lower: string -> string, trim: string -> string)
    returns (count: nat)
    ensures IsTermCount(count, text, matchers, lower, trim)
  {
    var spans: seq<Span> := [];
    for i := 0 to |matchers|
      invariant Proper(spans) && Collects(spans, text, matchers[..i], lower, trim)
    {
      var matcher := trim(matchers[i]);
      ghost var was := spans;
      assert matchers[..i + 1] == matchers[..i] + [matchers[i]];
      if matcher != "" {
        var more := CollectTrendSpans(text, matcher, IsSingleWordMatcher(matcher), lower);
        spans := spans + more;
      }
      CollectStep(was, spans, text, matchers[..i], matchers[i], lower, trim);
    }
    assert matchers[..|matchers|] == matchers;
    count := MergeCountSpans(spans);
  }

  lemma CollectStep(
    was: seq<Span>, now: seq<Span>, text: string, matchers: seq<string>, m: string, lower: string -> string, trim: string -> string)
    requires Collects(was, text, matchers, lower, trim)
    requires forall s :: s in now <==> s in was || MatcherSpan(text, m, lower, trim, s)
    ensures Collects(now, text, matchers + [m], lower, trim)
  {
    forall s
      ensures s in now <==> TermSpan(text, matchers + [m], lower, trim, s)
    {
      if TermSpan(text, matchers, lower, trim, s) {
        var x :| x in matchers && MatcherSpan(text, x, lower, trim, s);
        assert x in matchers + [m];
      }
      if MatcherSpan(text, m, lower, trim, s) {
        assert m in matchers + [m];
      }
    }
  }

  /** The count depends neither on the order of the matchers nor on repeated ones. */
  lemma MatcherOrderIsIrrelevant(
    a: nat, b: nat, text: string, p: seq<string>, q: seq<string>, lower: string -> string, trim: string -> string)
    requires IsTermCount(a, text, p, lower, trim) && IsTermCount(b, text, q, lower, trim)
    requires forall m :: m in p <==> m in q
    ensures a == b
  {
    var x :| a == |Heads(x)| && Collects(x, text, p, lower, trim);
    var y :| b == |Heads(y)| && Collects(y, text, q, lower, trim);
    forall s
      ensures s in x <==> s in y
    {
      if TermSpan(text, p, lower, trim, s) {
        var m :| m in p && MatcherSpan(text, m, lower, trim, s);
        assert m in q;
      }
      if TermSpan(text, q, lower, trim, s) {
        var m :| m in q && MatcherSpan(text, m, lower, trim, s);
        assert m in p;
      }
    }
    HeadsDependOnMembers(x, y);
  }

  // --------------------------------------------------------------------- buckets

  datatype Granularity = ByDay | ByWeek | ByMonth

  /** Days are numbered from 1970-01-01, months from the first one; first gives the day a month begins. */
  datatype Calendar = Calendar(monthOf: int -> int, first: int -> int)

  ghost predicate IsCalendar(c: Calendar) {
    && (forall d :: c.first(c.monthOf(d)) <= d < c.first(c.monthOf(d) + 1))
    && (forall m, n | m < n :: c.first(m) < c.first(n))
  }

  /** 1970-01-01 was a Thursday; a week begins on Monday. */
  function BucketDate(c: Calendar, g: Granularity, day: int): int {
    match g
    case ByDay => day
    case ByWeek => day - (day + 3) % 7
    case ByMonth => c.first(c.monthOf(day))
  }

  function NextBucket(c: Calendar, g: Granularity, day: int): int {
    match g
    case ByDay => day + 1
    case ByWeek => day + 7
    case ByMonth => c.first(c.monthOf(day) + 1)
  }

  lemma MonthOfFirst(c: Calendar, m: int)
    requires IsCalendar(c)
    ensures c.monthOf(c.first(m)) == m
  {
    var n := c.monthOf(c.first(m));
    assert n < m ==> n + 1 == m || c.first(n + 1) < c.first(m);
    assert m < n ==> c.first(m) < c.first(n);
  }

  lemma WeekHolds(bucket: int, day: int)
    requires (bucket + 3) % 7 == 0
    ensures day - (day + 3) % 7 == bucket <==> bucket <= day < bucket + 7
  {
  }

  lemma MonthHolds(c: Calendar, m: int, day: int)
    requires IsCalendar(c)
    ensures c.first(c.monthOf(day)) == c.first(m) <==> c.first(m) <= day < c.first(m + 1)
    ensures c.first(m) < c.first(m + 1)
  {
    var n := c.monthOf(day);
    assert m < n ==> m + 1 == n || c.first(m + 1) < c.first(n);
    assert n < m ==> n + 1 == m || c.first(n + 1) < c.first(m);
    assert n < m ==> c.first(n) < c.first(m);
  }

  /** Taking the bucket of a bucket changes nothing. */
  lemma BucketOfBucket(c: Calendar, g: Granularity, day: int)
    requires IsCalendar(c)
    ensures BucketDate(c, g, BucketDate(c, g, day)) == BucketDate(c, g, day) <= day
    ensures BucketDate(c, g, day) == day ==> BucketDate(c, g, NextBucket(c, g, day)) == NextBucket(c, g, day)
  {
    if g.ByMonth? {
      MonthOfFirst(c, c.monthOf(day));
      MonthOfFirst(c, c.monthOf(day) + 1);
    } else if g.ByWeek? {
      WeekOfWeek(c, day);
    }
  }

  lemma WeekOfWeek(c: Calendar, day: int)
    ensures var w := BucketDate(c, ByWeek, day);
      BucketDate(c, ByWeek, w) == w <= day && (w == day ==> BucketDate(c, ByWeek, day + 7) == day + 7)
  {
  }

  /** A bucket holds the days from its date up to the next one, and no others. */
  lemma BucketHolds(c: Calendar, g: Granularity, bucket: int, day: int)
    requires IsCalendar(c) && BucketDate(c, g, bucket) == bucket
    ensures BucketDate(c, g, day) == bucket <==> bucket <= day < NextBucket(c, g, bucket)
    ensures bucket < NextBucket(c, g, bucket)
  {
    match g
    case ByDay =>
    case ByWeek => WeekHolds(bucket, day);
    case ByMonth => MonthHolds(c, c.monthOf(bucket), day);
  }

  /** The buckets from the one of the first day up to, but not including, the day end. */
  ghost predicate Buckets(buckets: seq<int>, c: Calendar, g: Granularity, first: int, end: int) {
    && (forall i, j | 0 <= i < j < |buckets| :: buckets[i] < buckets[j])
    && (forall b {:trigger b in buckets} :: b in buckets <==> BucketDate(c, g, b) == b && first <= b < end)
  }

  lemma BucketsStep(buckets: seq<int>, c: Calendar, g: Granularity, first: int, cur: int)
    requires IsCalendar(c) && Buckets(buckets, c, g, first, cur) && BucketDate(c, g, cur) == cur && first <= cur
    ensures Buckets(buckets + [cur], c, g, first, NextBucket(c, g, cur))
    ensures cur < NextBucket(c, g, cur)
  {
    var next := NextBucket(c, g, cur);
    BucketHolds(c, g, cur, cur);
    assert forall i | 0 <= i < |buckets| :: buckets[i] in buckets;
    forall b
      ensures b in buckets + [cur] <==> BucketDate(c, g, b) == b && first <= b < next
    {
      BucketHolds(c, g, cur, b);
    }
  }

  method TrendBucketRange(c: Calendar, g: Granularity, from: int, to: int) returns (buckets: seq<int>)
    requires IsCalendar(c)
    ensures Buckets(buckets, c, g, BucketDate(c, g, from), BucketDate(c, g, to) + 1)
  {
    var first, last := BucketDate(c, g, from), BucketDate(c, g, to);
    BucketOfBucket(c, g, from);
    BucketOfBucket(c, g, to);
    var cur := first;
    buckets := [];
    while cur <= last
      invariant BucketDate(c, g, cur) == cur && first <= cur
      invariant Buckets(buckets, c, g, first, cur)
      invariant if first > last then buckets == [] else cur > last ==> Buckets(buckets, c, g, first, last + 1)
      decreases last - cur
    {
      BucketsStep(buckets, c, g, first, cur);
      BucketOfBucket(c, g, cur);
      NothingBetween(buckets + [cur], c, g, first, cur, last);
      buckets := buckets + [cur];
      cur := NextBucket(c, g, cur);
    }
  }

  /** When the last bucket is reached, the range up to it is complete. */
  lemma NothingBetween(buckets: seq<int>, c: Calendar, g: Granularity, first: int, cur: int, last: int)
    requires IsCalendar(c) && Buckets(buckets, c, g, first, NextBucket(c, g, cur)) && first <= cur <= last
    requires BucketDate(c, g, cur) == cur && BucketDate(c, g, last) == last
    ensures NextBucket(c, g, cur) > last ==> Buckets(buckets, c, g, first, last + 1)
  {
    if NextBucket(c, g, cur) > last {
      BucketHolds(c, g, cur, last);
      forall b
        ensures b in buckets <==> BucketDate(c, g, b) == b && first <= b < last + 1
      {
        BucketHolds(c, g, cur, b);
      }
    }
  }

  /** Every day of the range falls in exactly one bucket of the range: the one it is counted under. */
  lemma EveryDayHasItsBucket(c: Calendar, g: Granularity, from: int, to: int, buckets: seq<int>, day: int)
    requires IsCalendar(c) && from <= day <= to
    requires Buckets(buckets, c, g, BucketDate(c, g, from), BucketDate(c, g, to) + 1)
    ensures BucketDate(c, g, day) in buckets
    ensures forall b | b in buckets && b <= day < NextBucket(c, g, b) :: b == BucketDate(c, g, day)
  {
    BucketsAreMonotone(c, g, from, day);
    BucketsAreMonotone(c, g, day, to);
    forall b | b in buckets && b <= day < NextBucket(c, g, b)
      ensures b == BucketDate(c, g, day)
    {
      BucketHolds(c, g, b, day);
    }
  }

  lemma BucketsAreMonotone(c: Calendar, g: Granularity, a: int, b: int)
    requires IsCalendar(c) && a <= b
    ensures BucketDate(c, g, a) <= BucketDate(c, g, b)
    ensures BucketDate(c, g, BucketDate(c, g, b)) == BucketDate(c, g, b)
  {
    BucketOfBucket(c, g, b);
    if g.ByMonth? {
      MonthsAreMonotone(c, a, b);
    } else if g.ByWeek? {
      WeeksAreMonotone(a, b);
    }
  }

  lemma MonthsAreMonotone(c: Calendar, a: int, b: int)
    requires IsCalendar(c) && a <= b
    ensures c.first(c.monthOf(a)) <= c.first(c.monthOf(b))
  {
    var m, n := c.monthOf(a), c.monthOf(b);
    assert n < m ==> n + 1 == m || c.first(n + 1) < c.first(m);
    assert m < n ==> c.first(m) < c.first(n);
  }

  lemma WeeksAreMonotone(a: int, b: int)
    requires a <= b
    ensures a - (a + 3) % 7 <= b - (b + 3) % 7
  {
  }

  // ---------------------------------------------------------------- in plain terms

  /** An ASCII letter, a digit or an underscore, by its code. */
  predicate IsWord(c: char) {
    var n := c as int;
    48 <= n < 58 || 65 <= n < 91 || n == 95 || 97 <= n < 123
  }

  /** The needle stands between two texts; as a whole word, neither may touch it with a word character. */
  ghost predicate StandsBetween(before: string, needle: string, after: string, haystack: string, wordBounded: bool) {
    && haystack == before + needle + after
    && (wordBounded ==>
      && (before != [] ==> !IsWord(before[|before| - 1]))
      && (after != [] ==> !IsWord(after[0])))
  }

  lemma MatchesIff(haystack: string, needle: string, wordBounded: bool, i: nat)
    ensures Matches(haystack, needle, wordBounded, i)
        <==> exists before, after :: |before| == i && StandsBetween(before, needle, after, haystack, wordBounded)
  {
    var end := i + |needle|;
    if OccursAt(needle, haystack, i) {
      assert haystack == haystack[..i] + haystack[i..end] + haystack[end..];
    }
    if Matches(haystack, needle, wordBounded, i) {
      assert StandsBetween(haystack[..i], needle, haystack[end..], haystack, wordBounded);
    }
    if before, after :| |before| == i && StandsBetween(before, needle, after, haystack, wordBounded) {
      assert haystack[i..end] == needle;
      assert i > 0 ==> haystack[i - 1] == before[|before| - 1];
      assert end < |haystack| ==> haystack[end] == after[0];
    }
  }

  /** Words are looked for as whole words, anything else wherever it stands. */
  lemma SingleWordIff(m: string)
    ensures IsSingleWordMatcher(m) <==> |m| > 0 && forall c | c in m :: IsWord(c)
  {
    assert forall i | 0 <= i < |m| :: m[i] in m && (IsWordByte(m[i]) <==> IsWord(m[i]));
  }

  /** A day is its own bucket; a week begins on a Monday, as 2024-01-01 was one; a month on its first day. */
  lemma BucketDateIs(c: Calendar, day: int)
    requires IsCalendar(c)
    ensures BucketDate(c, ByDay, day) == day && NextBucket(c, ByDay, day) == day + 1
    ensures (BucketDate(c, ByWeek, day) - 19723) % 7 == 0 && 0 <= day - BucketDate(c, ByWeek, day) <= 6
    ensures NextBucket(c, ByWeek, day) == day + 7
    ensures exists m :: BucketDate(c, ByMonth, day) == c.first(m) <= day < c.first(m + 1) == NextBucket(c, ByMonth, day)
  {
    assert c.first(c.monthOf(day)) <= day < c.first(c.monthOf(day) + 1);
  }
}
