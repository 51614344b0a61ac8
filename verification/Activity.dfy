/**
 * Message counts over time (internal/db/activity.go): the width of the time buckets, and the buckets.
 * Epochs are seconds, with their fractions.
 */
module Activity {
  import opened Common

  const MAX_BUCKETS: int := 50
  const INTERVAL_STEPS: seq<int> := [60, 120, 300, 600, 900, 1800, 3600, 7200]

  // ------------------------------------------------------------------ the interval

  function Abs(x: int): int {
    if x < 0 then -x else x
  }

  /** The preferred width that is nearest to the target, the wider one on a tie. */
  ghost predicate IsNearest(best: int, target: int, steps: seq<int>) {
    best in steps && forall s | s in steps ::
      Abs(best - target) < Abs(s - target) || (Abs(best - target) == Abs(s - target) && s <= best)
  }

  method NearestStep(target: int) returns (best: int)
    ensures IsNearest(best, target, INTERVAL_STEPS)
  {
    best := INTERVAL_STEPS[0];
    var bestDist := Abs(INTERVAL_STEPS[0] - target);
    for i := 0 to |INTERVAL_STEPS|
      invariant bestDist == Abs(best - target) && best in INTERVAL_STEPS
      invariant i == 0 ==> best == INTERVAL_STEPS[0]
      invariant forall k | 0 <= k < i ::
        bestDist < Abs(INTERVAL_STEPS[k] - target) || (bestDist == Abs(INTERVAL_STEPS[k] - target) && INTERVAL_STEPS[k] <= best)
    {
      var step := INTERVAL_STEPS[i];
      var d := Abs(step - target);
      if d < bestDist || (d == bestDist && step > best) {
        bestDist := d;
        best := step;
      }
    }
  }

  lemma StepsAreWide(best: int)
    requires best in INTERVAL_STEPS
    ensures best >= 60
  {
    var k :| 0 <= k < |INTERVAL_STEPS| && INTERVAL_STEPS[k] == best;
  }

  /** Too many buckets at this width. */
  predicate Overflows(durationSec: int, interval: int)
    requires interval > 0
  {
    durationSec / interval + 1 > MAX_BUCKETS
  }

  /** The width for a duration: the nearest step, or the smallest width with at most forty-nine full buckets. */
  ghost predicate IsInterval(durationSec: int, interval: int) {
    && interval >= 60
    && (durationSec >= 0 ==> durationSec / interval + 1 <= MAX_BUCKETS)
    && (durationSec < 61 * 30 ==> interval == 60)
    && (durationSec >= 61 * 30 ==> exists nearest :: Snaps(durationSec, nearest, interval))
  }

  ghost predicate Snaps(durationSec: int, nearest: int, interval: int) {
    && nearest >= 60 && IsNearest(nearest, durationSec / 30, INTERVAL_STEPS)
    && (if Overflows(durationSec, nearest) then 49 * (interval - 1) < durationSec <= 49 * interval else interval == nearest)
  }

  /** A duration has one width. */
  lemma IntervalIsUnique(durationSec: int, a: int, b: int)
    requires IsInterval(durationSec, a) && IsInterval(durationSec, b)
    ensures a == b
  {
    if durationSec >= 61 * 30 {
      var m :| Snaps(durationSec, m, a);
      var n :| Snaps(durationSec, n, b);
      assert m in INTERVAL_STEPS && n in INTERVAL_STEPS;
      assert m == n;
    }
  }

  /** Go divides toward zero; the duration is positive where it is divided. */
  method SnapInterval(durationSec: int) returns (interval: int)
    ensures IsInterval(durationSec, interval)
  {
    if durationSec <= 0 {
      return INTERVAL_STEPS[0];
    }
    var target := durationSec / 30;
    if target <= INTERVAL_STEPS[0] {
      return INTERVAL_STEPS[0];
    }
    var best := NearestStep(target);
    StepsAreWide(best);
    if durationSec / best + 1 > MAX_BUCKETS {
      WideAndFull(durationSec, best);
      interval := (durationSec + MAX_BUCKETS - 2) / (MAX_BUCKETS - 1);
      QuotientAtMost(durationSec, interval, 49);
    } else {
      interval := best;
    }
    assert Snaps(durationSec, best, interval);
  }

  lemma WideAndFull(a: int, i: int)
    requires i >= 60 && a / i >= 50
    ensures a >= 3000
  {
    var q := a / i;
    assert a >= i * q;
    assert i * q >= 60 * 50;
  }

  lemma QuotientAtMost(a: int, i: int, n: nat)
    requires i > 0 && a <= n * i
    ensures a / i <= n
  {
    var q := a / i;
    assert a >= i * q;
    assert q >= n + 1 ==> i * q >= i * (n + 1);
  }

  /** Scaling sets in well below fifty buckets of the widest step: for 100 minutes two-minute buckets are too many. */
  lemma ScalingSetsInEarly()
    ensures IsNearest(120, 6000 / 30, INTERVAL_STEPS) && Overflows(6000, 120)
  {
    assert INTERVAL_STEPS[1] == 120;
  }

  // ------------------------------------------------------------------- the buckets

  /** visible and at stand for the filters on the row: not a system message, a readable timestamp. */
  datatype Message = Message(role: string, ordinal: int, visible: bool, at: Option<real>)

  predicate Shown(m: Message) {
    m.visible && m.at.Some?
  }

  datatype Bucket = Bucket(start: int, end: int, userCount: nat, assistantCount: nat, firstOrdinal: Option<int>)

  datatype Response = Response(buckets: seq<Bucket>, intervalSeconds: int, totalMessages: nat)

  /** Conversion to an integer drops the fraction. */
  function Trunc(x: real): int {
    if x >= 0.0 then x.Floor else -((-x).Floor)
  }

  function IndexOf(m: Message, epochMin: int, interval: int): int
    requires m.at.Some? && interval > 0
  {
    Trunc((m.at.value - epochMin as real) / interval as real)
  }

  predicate Falls(m: Message, epochMin: int, interval: int, idx: int)
    requires interval > 0
  {
    Shown(m) && IndexOf(m, epochMin, interval) == idx
  }

  function CountIn(ms: seq<Message>, role: string, epochMin: int, interval: int, idx: int): nat
    requires interval > 0
  {
    if ms == [] then 0
    else
      var m := ms[|ms| - 1];
      CountIn(ms[..|ms| - 1], role, epochMin, interval, idx)
      + if m.role == role && Falls(m, epochMin, interval, idx) then 1 else 0
  }

  function CountAll(ms: seq<Message>, role: string): nat {
    if ms == [] then 0
    else CountAll(ms[..|ms| - 1], role) + if ms[|ms| - 1].role == role && Shown(ms[|ms| - 1]) then 1 else 0
  }

  ghost predicate IsRange(ms: seq<Message>, range: Option<(real, real)>) {
    match range
    case None => forall m | m in ms :: !Shown(m)
    case Some((lo, hi)) =>
      && (forall m | m in ms && Shown(m) :: lo <= m.at.value <= hi)
      && (exists m | m in ms :: Shown(m) && m.at.value == lo)
      && (exists m | m in ms :: Shown(m) && m.at.value == hi)
  }

  method TimestampRange(ms: seq<Message>) returns (range: Option<(real, real)>)
    ensures IsRange(ms, range)
  {
    range := None;
    for i := 0 to |ms|
      invariant IsRange(ms[..i], range)
    {
      assert ms[..i + 1] == ms[..i] + [ms[i]];
      assert ms[i] in ms[..i + 1];
      if ms[i].visible && ms[i].at.Some? {
        var t := ms[i].at.value;
        match range {
          case None => range := Some((t, t));
          case Some((lo, hi)) => range := Some((if t < lo then t else lo, if t > hi then t else hi));
        }
      }
    }
    assert ms[..|ms|] == ms;
  }

  /** Nothing falls before the first bucket, and none after the fifty-first. */
  lemma IndexIsBounded(m: Message, lo: real, hi: real, interval: int)
    requires Shown(m) && lo <= m.at.value <= hi && interval >= 60
    requires Trunc(hi - lo) / interval + 1 <= MAX_BUCKETS
    ensures 0 <= IndexOf(m, Trunc(lo), interval) <= MAX_BUCKETS
  {
    var d := Trunc(hi - lo);
    QuotientBelow(d, interval, 50);
    OffsetIsBounded(m.at.value, lo, hi, d);
    assert (d + 2) as real <= (50 * interval + 1) as real;
    QuotientIsBounded(m.at.value - Trunc(lo) as real, interval as real);
  }

  ghost predicate AllBelow(ms: seq<Message>, epochMin: int, interval: int, n: int)
    requires interval > 0
  {
    forall m | m in ms && Shown(m) :: 0 <= IndexOf(m, epochMin, interval) < n
  }

  lemma AllAreBounded(ms: seq<Message>, lo: real, hi: real, interval: int)
    requires IsRange(ms, Some((lo, hi))) && IsInterval(Trunc(hi - lo), interval)
    ensures AllBelow(ms, Trunc(lo), interval, MAX_BUCKETS + 1)
  {
    assert hi >= lo;
    forall m | m in ms && Shown(m)
      ensures 0 <= IndexOf(m, Trunc(lo), interval) <= MAX_BUCKETS
    {
      IndexIsBounded(m, lo, hi, interval);
    }
  }

  lemma QuotientBelow(a: int, i: int, n: nat)
    requires i > 0 && a / i < n
    ensures a < n * i
  {
    var q := a / i;
    assert a < i * q + i;
    assert i * (q + 1) <= i * n;
  }

  lemma OffsetIsBounded(t: real, lo: real, hi: real, d: int)
    requires lo <= t <= hi && d == Trunc(hi - lo)
    ensures -1.0 < t - Trunc(lo) as real < (d + 2) as real
  {
    assert hi - lo < (d + 1) as real;
    assert -1.0 < lo - Trunc(lo) as real < 1.0;
  }

  lemma QuotientIsBounded(x: real, i: real)
    requires i >= 60.0 && -1.0 < x < 50.0 * i + 1.0
    ensures 0 <= Trunc(x / i) <= 50
  {
    var q := x / i;
    assert q * i == x;
    assert q >= 51.0 ==> q * i >= 51.0 * i;
    assert q <= -1.0 ==> q * i <= -1.0 * i;
  }

  /** One row of the grouped query. */
  datatype BucketRow = BucketRow(userCount: nat, assistantCount: nat, firstOrdinal: int)

  ghost predicate IsRow(row: BucketRow, ms: seq<Message>, epochMin: int, interval: int, idx: int)
    requires interval > 0
  {
    && row.userCount == CountIn(ms, "user", epochMin, interval, idx)
    && row.assistantCount == CountIn(ms, "assistant", epochMin, interval, idx)
    && IsFirst(row.firstOrdinal, ms, epochMin, interval, idx)
  }

  ghost predicate IsFirst(ordinal: int, ms: seq<Message>, epochMin: int, interval: int, idx: int)
    requires interval > 0
  {
    && (exists m | m in ms :: Falls(m, epochMin, interval, idx) && m.ordinal == ordinal)
    && (forall m | m in ms && Falls(m, epochMin, interval, idx) :: ordinal <= m.ordinal)
  }

  ghost predicate IsGrouped(rows: map<int, BucketRow>, ms: seq<Message>, epochMin: int, interval: int)
    requires interval > 0
  {
    && (forall idx | idx in rows :: IsRow(rows[idx], ms, epochMin, interval, idx))
    && (forall m | m in ms && Shown(m) :: IndexOf(m, epochMin, interval) in rows)
  }

  lemma {:induction false} NoneFall(ms: seq<Message>, role: string, epochMin: int, interval: int, idx: int)
    requires interval > 0 && forall m | m in ms :: !Falls(m, epochMin, interval, idx)
    ensures CountIn(ms, role, epochMin, interval, idx) == 0
  {
    if ms != [] {
      assert ms[|ms| - 1] in ms;
      NoneFall(ms[..|ms| - 1], role, epochMin, interval, idx);
    }
  }

  function WithMessage(rows: map<int, BucketRow>, m: Message, idx: int): map<int, BucketRow> {
    var row := if idx in rows then rows[idx] else BucketRow(0, 0, m.ordinal);
    rows[idx := BucketRow(
      row.userCount + (if m.role == "user" then 1 else 0),
      row.assistantCount + (if m.role == "assistant" then 1 else 0),
      if m.ordinal < row.firstOrdinal then m.ordinal else row.firstOrdinal)]
  }

  lemma GroupStep(rows: map<int, BucketRow>, ms: seq<Message>, m: Message, epochMin: int, interval: int)
    requires interval > 0 && IsGrouped(rows, ms, epochMin, interval) && Shown(m)
    ensures IsGrouped(WithMessage(rows, m, IndexOf(m, epochMin, interval)), ms + [m], epochMin, interval)
  {
    var all, at := ms + [m], IndexOf(m, epochMin, interval);
    var next := WithMessage(rows, m, at);
    assert all[..|ms|] == ms;
    forall idx | idx in next
      ensures IsRow(next[idx], all, epochMin, interval, idx)
    {
      if idx in rows {
        var first :| first in ms && Falls(first, epochMin, interval, idx) && first.ordinal == rows[idx].firstOrdinal;
        assert first in all && m in all;
      } else {
        NoneFall(ms, "user", epochMin, interval, idx);
        NoneFall(ms, "assistant", epochMin, interval, idx);
        assert m in all;
      }
    }
  }

  lemma HiddenStep(rows: map<int, BucketRow>, ms: seq<Message>, m: Message, epochMin: int, interval: int)
    requires interval > 0 && IsGrouped(rows, ms, epochMin, interval) && !Shown(m)
    ensures IsGrouped(rows, ms + [m], epochMin, interval)
  {
    var all := ms + [m];
    assert all[..|ms|] == ms;
    forall idx | idx in rows
      ensures IsRow(rows[idx], all, epochMin, interval, idx)
    {
      var first :| first in ms && Falls(first, epochMin, interval, idx) && first.ordinal == rows[idx].firstOrdinal;
      assert first in all;
    }
  }

  method GroupedRows(ms: seq<Message>, epochMin: int, interval: int) returns (rows: map<int, BucketRow>)
    requires interval > 0
    ensures IsGrouped(rows, ms, epochMin, interval)
  {
    rows := map[];
    for i := 0 to |ms|
      invariant IsGrouped(rows, ms[..i], epochMin, interval)
    {
      var m := ms[i];
      assert ms[..i + 1] == ms[..i] + [m];
      if m.visible && m.at.Some? {
        GroupStep(rows, ms[..i], m, epochMin, interval);
        rows := WithMessage(rows, m, IndexOf(m, epochMin, interval));
      } else {
        HiddenStep(rows, ms[..i], m, epochMin, interval);
      }
    }
    assert ms[..|ms|] == ms;
  }

  lemma AnElement<T>(s: set<T>) returns (x: T)
    requires s != {}
    ensures x in s
  {
    x :| x in s;
  }

  method LargestIndex(rows: map<int, BucketRow>) returns (maxIdx: nat)
    ensures forall idx | idx in rows :: idx <= maxIdx
    ensures maxIdx == 0 || maxIdx in rows
  {
    maxIdx := 0;
    var todo := rows.Keys;
    while todo != {}
      invariant todo <= rows.Keys
      invariant forall idx | idx in rows && idx !in todo :: idx <= maxIdx
      invariant maxIdx == 0 || maxIdx in rows
    {
      ghost var some := AnElement(todo);
      var idx: int :| idx in todo;
      if idx > maxIdx {
        maxIdx := idx;
      }
      todo := todo - {idx};
    }
  }

  ghost predicate Populated(ms: seq<Message>, epochMin: int, interval: int, idx: int)
    requires interval > 0
  {
    exists m | m in ms :: Falls(m, epochMin, interval, idx)
  }

  lemma LastIsPopulated(rows: map<int, BucketRow>, ms: seq<Message>, epochMin: int, interval: int, maxIdx: nat)
    requires interval > 0 && IsGrouped(rows, ms, epochMin, interval) && (exists m | m in ms :: Shown(m))
    requires AllBelow(ms, epochMin, interval, MAX_BUCKETS + 1)
    requires (forall idx | idx in rows :: idx <= maxIdx) && (maxIdx == 0 || maxIdx in rows)
    ensures Populated(ms, epochMin, interval, maxIdx) && maxIdx <= MAX_BUCKETS
    ensures AllBelow(ms, epochMin, interval, maxIdx + 1)
  {
    var m :| m in ms && Shown(m);
    assert 0 <= IndexOf(m, epochMin, interval) <= maxIdx;
    assert maxIdx in rows && IsRow(rows[maxIdx], ms, epochMin, interval, maxIdx);
  }

  /** A bucket shows what falls into it, and nothing when nothing does. */
  ghost predicate IsBucket(b: Bucket, ms: seq<Message>, epochMin: int, interval: int, i: int)
    requires interval > 0
  {
    && b.start == epochMin + i * interval && b.end == b.start + interval
    && b.userCount == CountIn(ms, "user", epochMin, interval, i)
    && b.assistantCount == CountIn(ms, "assistant", epochMin, interval, i)
    && (match b.firstOrdinal
        case None => forall m | m in ms :: !Falls(m, epochMin, interval, i)
        case Some(o) => IsFirst(o, ms, epochMin, interval, i))
  }

  method FillBuckets(rows: map<int, BucketRow>, ghost ms: seq<Message>, epochMin: int, interval: int, n: nat) returns (buckets: seq<Bucket>)
    requires interval > 0 && IsGrouped(rows, ms, epochMin, interval)
    ensures |buckets| == n && forall i | 0 <= i < n :: IsBucket(buckets[i], ms, epochMin, interval, i)
  {
    var filled := new Bucket[n](_ => Bucket(0, 0, 0, 0, None));
    for i := 0 to n
      invariant forall k | 0 <= k < i :: IsBucket(filled[k], ms, epochMin, interval, k)
    {
      var start := epochMin + i * interval;
      var bucket := Bucket(start, start + interval, 0, 0, None);
      if i in rows {
        bucket := bucket.(userCount := rows[i].userCount, assistantCount := rows[i].assistantCount,
                          firstOrdinal := Some(rows[i].firstOrdinal));
      } else {
        NoneFall(ms, "user", epochMin, interval, i);
        NoneFall(ms, "assistant", epochMin, interval, i);
      }
      filled[i] := bucket;
    }
    buckets := filled[..];
  }

  /**
   * The whole response for messages from lo to hi: the width that the duration prescribes, and buckets
   * from the second of the first message to the bucket of the last, at most fifty-one of them.
   */
  ghost predicate IsActivity(r: Response, ms: seq<Message>, lo: real, hi: real) {
    && IsRange(ms, Some((lo, hi))) && IsInterval(Trunc(hi - lo), r.intervalSeconds)
    && r.totalMessages == |ms| && 0 < |r.buckets| <= MAX_BUCKETS + 1
    && (forall i | 0 <= i < |r.buckets| :: IsBucket(r.buckets[i], ms, Trunc(lo), r.intervalSeconds, i))
    && AllBelow(ms, Trunc(lo), r.intervalSeconds, |r.buckets|)
    && Populated(ms, Trunc(lo), r.intervalSeconds, |r.buckets| - 1)
  }

  method GetSessionActivity(ms: seq<Message>) returns (r: Response)
    ensures (forall m | m in ms :: !Shown(m)) ==> r == Response([], 0, |ms|)
    ensures (exists m :: m in ms && Shown(m)) ==> exists lo, hi :: IsActivity(r, ms, lo, hi)
  {
    var range := TimestampRange(ms);
    match range {
      case None =>
        return Response([], 0, |ms|);
      case Some((minEpoch, maxEpoch)) =>
        var epochMin := Trunc(minEpoch);
        var interval := SnapInterval(Trunc(maxEpoch - minEpoch));
        assert maxEpoch >= minEpoch;
        AllAreBounded(ms, minEpoch, maxEpoch, interval);
        var rows := GroupedRows(ms, epochMin, interval);
        var maxIdx := LargestIndex(rows);
        LastIsPopulated(rows, ms, epochMin, interval, maxIdx);
        var buckets := FillBuckets(rows, ms, epochMin, interval, maxIdx + 1);
        r := Response(buckets, interval, |ms|);
        assert IsActivity(r, ms, minEpoch, maxEpoch);
    }
  }

  // ------------------------------------------------------------------ main results

  ghost function Total(buckets: seq<Bucket>, user: bool): nat {
    if buckets == [] then 0
    else
      var b := buckets[|buckets| - 1];
      Total(buckets[..|buckets| - 1], user) + if user then b.userCount else b.assistantCount
  }

  /** Messages of a role that fall into the first n buckets. */
  function CountBelow(ms: seq<Message>, role: string, epochMin: int, interval: int, n: int): nat
    requires interval > 0
  {
    if ms == [] then 0
    else
      var m := ms[|ms| - 1];
      CountBelow(ms[..|ms| - 1], role, epochMin, interval, n)
      + if m.role == role && Shown(m) && 0 <= IndexOf(m, epochMin, interval) < n then 1 else 0
  }

  lemma {:induction false} BelowStep(ms: seq<Message>, role: string, epochMin: int, interval: int, n: nat)
    requires interval > 0
    ensures CountBelow(ms, role, epochMin, interval, n + 1)
         == CountBelow(ms, role, epochMin, interval, n) + CountIn(ms, role, epochMin, interval, n)
    ensures CountBelow(ms, role, epochMin, interval, 0) == 0
  {
    if ms != [] {
      BelowStep(ms[..|ms| - 1], role, epochMin, interval, n);
    }
  }

  lemma {:induction false} BelowAll(ms: seq<Message>, role: string, epochMin: int, interval: int, n: nat)
    requires interval > 0 && forall m | m in ms && Shown(m) :: 0 <= IndexOf(m, epochMin, interval) < n
    ensures CountBelow(ms, role, epochMin, interval, n) == CountAll(ms, role)
  {
    if ms != [] {
      assert ms[|ms| - 1] in ms;
      BelowAll(ms[..|ms| - 1], role, epochMin, interval, n);
    }
  }

  lemma {:induction false} FirstBucketsAddUp(buckets: seq<Bucket>, ms: seq<Message>, epochMin: int, interval: int, user: bool)
    requires interval > 0 && forall i | 0 <= i < |buckets| :: IsBucket(buckets[i], ms, epochMin, interval, i)
    ensures Total(buckets, user) == CountBelow(ms, if user then "user" else "assistant", epochMin, interval, |buckets|)
  {
    var role := if user then "user" else "assistant";
    if buckets == [] {
      BelowStep(ms, role, epochMin, interval, 0);
    } else {
      var n := |buckets| - 1;
      FirstBucketsAddUp(buckets[..n], ms, epochMin, interval, user);
      BelowStep(ms, role, epochMin, interval, n);
    }
  }

  /** The buckets together count every visible, timestamped message of the role, once. */
  lemma BucketsAddUp(r: Response, ms: seq<Message>, lo: real, hi: real, user: bool)
    requires IsActivity(r, ms, lo, hi)
    ensures Total(r.buckets, user) == CountAll(ms, if user then "user" else "assistant")
  {
    FirstBucketsAddUp(r.buckets, ms, Trunc(lo), r.intervalSeconds, user);
    BelowAll(ms, if user then "user" else "assistant", Trunc(lo), r.intervalSeconds, |r.buckets|);
  }

  /** Fifty-one is not too careful: fractions of a second can push the last message one bucket further. */
  lemma FiftyOneIsReached(m: Message)
    requires m.visible && m.at == Some(360000.0)
    ensures Trunc(360000.0 - 0.9) / 7200 + 1 == MAX_BUCKETS
    ensures IndexOf(m, Trunc(0.9), 7200) == MAX_BUCKETS
    ensures IsNearest(7200, Trunc(360000.0 - 0.9) / 30, INTERVAL_STEPS)
  {
    assert (360000.0 - 0.9).Floor == 359999;
    assert 0.9.Floor == 0;
    assert 360000.0 / 7200.0 == 50.0;
    assert INTERVAL_STEPS[7] == 7200;
  }

  // ---------------------------------------------------------------- in plain terms

  /** The message lies in the bucket; what comes before the first whole second still falls into the first bucket. */
  predicate Within(m: Message, b: Bucket, first: bool) {
    m.visible && m.at.Some? && (first || b.start as real <= m.at.value) && m.at.value < b.end as real
  }

  lemma TruncIs(q: real, i: nat)
    requires q > -1.0
    ensures Trunc(q) == i <==> (i == 0 || i as real <= q) && q < (i + 1) as real
  {
  }

  lemma Scales(x: real, y: real, w: real)
    requires w > 0.0
    ensures x < y <==> x * w < y * w
  {
    assert x < y ==> (y - x) * w > 0.0;
    assert x >= y ==> (x - y) * w >= 0.0;
  }

  lemma Quotient(x: real, y: real, w: real)
    requires w > 0.0
    ensures x / w < y <==> x < y * w
    ensures x / w > y <==> x > y * w
  {
    var q := x / w;
    assert q * w == x;
    Scales(q, y, w);
    Scales(y, q, w);
  }

  lemma QuotientIs(x: real, w: real, i: nat)
    requires w > 0.0 && x > -w
    ensures Trunc(x / w) == i <==> (i == 0 || i as real * w <= x) && x < (i + 1) as real * w
  {
    Quotient(x, -1.0, w);
    Quotient(x, i as real, w);
    Quotient(x, (i + 1) as real, w);
    TruncIs(x / w, i);
  }

  lemma BoundsAre(i: nat, w: int, start: int)
    requires start == i * w
    ensures i as real * w as real == start as real && (i + 1) as real * w as real == (start + w) as real
  {
    assert (i + 1) as real * w as real == i as real * w as real + w as real;
  }

  lemma FallsIff(m: Message, b: Bucket, lo: real, w: int, i: nat)
    requires w >= 60 && (Shown(m) ==> lo <= m.at.value) && b.start == Trunc(lo) + i * w && b.end == b.start + w
    ensures Falls(m, Trunc(lo), w, i) <==> Within(m, b, i == 0)
  {
    if m.visible && m.at.Some? {
      var x := m.at.value - Trunc(lo) as real;
      assert x > -1.0;
      QuotientIs(x, w as real, i);
      BoundsAre(i, w, i * w);
    }
  }

  function Holding(ms: seq<Message>, role: string, b: Bucket, first: bool): nat {
    if ms == [] then 0
    else Holding(ms[..|ms| - 1], role, b, first) + if ms[|ms| - 1].role == role && Within(ms[|ms| - 1], b, first) then 1 else 0
  }

  lemma {:induction false} CountIsHolding(ms: seq<Message>, role: string, b: Bucket, epochMin: int, w: int, i: nat)
    requires w > 0 && forall m | m in ms :: Falls(m, epochMin, w, i) <==> Within(m, b, i == 0)
    ensures CountIn(ms, role, epochMin, w, i) == Holding(ms, role, b, i == 0)
  {
    if ms != [] {
      assert ms[|ms| - 1] in ms;
      CountIsHolding(ms[..|ms| - 1], role, b, epochMin, w, i);
    }
  }

  /** Buckets follow each other without a gap from the second of the first message, and each counts what lies in it. */
  lemma BucketHolds(r: Response, ms: seq<Message>, lo: real, hi: real, i: nat)
    requires IsActivity(r, ms, lo, hi) && i < |r.buckets|
    ensures var b := r.buckets[i];
      && b.end == b.start + r.intervalSeconds
      && (if i > 0 then b.start == r.buckets[i - 1].end else lo - 1.0 < b.start as real < lo + 1.0 && (lo >= 0.0 ==> b.start as real <= lo))
      && b.userCount == Holding(ms, "user", b, i == 0)
      && b.assistantCount == Holding(ms, "assistant", b, i == 0)
      && (b.firstOrdinal.None? <==> forall m | m in ms :: !Within(m, b, i == 0))
      && (b.firstOrdinal.Some? ==>
        && (exists m | m in ms :: Within(m, b, i == 0) && m.ordinal == b.firstOrdinal.value)
        && forall m | m in ms && Within(m, b, i == 0) :: b.firstOrdinal.value <= m.ordinal)
      && (i == |r.buckets| - 1 ==> exists m | m in ms :: Within(m, b, i == 0))
  {
    var b, w := r.buckets[i], r.intervalSeconds;
    assert IsBucket(b, ms, Trunc(lo), w, i);
    forall m | m in ms
      ensures Falls(m, Trunc(lo), w, i) <==> Within(m, b, i == 0)
    {
      FallsIff(m, b, lo, w, i);
    }
    CountIsHolding(ms, "user", b, Trunc(lo), w, i);
    CountIsHolding(ms, "assistant", b, Trunc(lo), w, i);
    if i > 0 {
      assert IsBucket(r.buckets[i - 1], ms, Trunc(lo), w, i - 1);
      assert i * w == (i - 1) * w + w;
    }
  }

  /**
   * Up to half an hour the width is a minute.  Beyond, it is the preferred width nearest to a thirtieth of the duration
   * if fifty buckets of it hold the duration, and else the smallest that keeps to forty-nine full buckets.
   */
  lemma WidthIs(durationSec: int, interval: int)
    requires IsInterval(durationSec, interval)
    ensures durationSec < 1830 ==> interval == 60
    ensures durationSec >= 1830 ==> exists w ::
      && w in {60, 120, 300, 600, 900, 1800, 3600, 7200} && IsNearest(w, durationSec / 30, INTERVAL_STEPS)
      && if durationSec < 50 * w then interval == w else 49 * (interval - 1) < durationSec <= 49 * interval
  {
    if durationSec >= 1830 {
      var w :| Snaps(durationSec, w, interval);
      var k :| 0 <= k < |INTERVAL_STEPS| && INTERVAL_STEPS[k] == w;
      assert w in {60, 120, 300, 600, 900, 1800, 3600, 7200};
      assert durationSec / w < 50 <==> durationSec < 50 * w;
    }
  }

  /** Thirty buckets are aimed at: a duration of thirty times a preferred width gets that width. */
  lemma PreferredIsTaken(w: int)
    requires w in {60, 120, 300, 600, 900, 1800, 3600, 7200}
    ensures IsInterval(30 * w, w)
  {
    assert 30 * w / w == 30;
    if w > 60 {
      assert w == INTERVAL_STEPS[1] || w == INTERVAL_STEPS[2] || w == INTERVAL_STEPS[3] || w == INTERVAL_STEPS[4]
          || w == INTERVAL_STEPS[5] || w == INTERVAL_STEPS[6] || w == INTERVAL_STEPS[7];
      assert w in INTERVAL_STEPS && 30 * w / 30 == w;
      assert Snaps(30 * w, w, w);
    }
  }
}
