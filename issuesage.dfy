/** The IssuesAge generator: walks the event stream day by day and, for
    every day, reports how many backlog and work-in-progress issues of each
    segment fall in each age bucket. */
module IssuesAgeMetric {
  import opened Store
  import opened Sums
  import Sink

  datatype AgeBucket = AgeBucket(name: string, maxAge: int)

  /** The age buckets, by ascending maximum age; "more" is bounded by the
      largest duration. */
  const AGE_BUCKETS: seq<AgeBucket> := [
    AgeBucket("1d", 24 * HOUR),
    AgeBucket("1w", 7 * 24 * HOUR),
    AgeBucket("1m", 730 * HOUR),
    AgeBucket("more", MAX_DURATION)
  ]

  const BUCKET_NAMES: set<string> := {"1d", "1w", "1m", "more"}

  /** The table is ordered by strictly ascending maximum age, which the
      first-match search relies on. */
  lemma AgeBucketsAscending()
    ensures forall i, j :: 0 <= i < j < |AGE_BUCKETS| ==> AGE_BUCKETS[i].maxAge < AGE_BUCKETS[j].maxAge
  {
  }

  /** The table names exactly the buckets of BUCKET_NAMES. */
  lemma AgeBucketNames()
    ensures forall i :: 0 <= i < |AGE_BUCKETS| ==> AGE_BUCKETS[i].name in BUCKET_NAMES
    ensures forall name :: name in BUCKET_NAMES ==> exists i :: 0 <= i < |AGE_BUCKETS| && AGE_BUCKETS[i].name == name
  {
    assert AGE_BUCKETS[0].name == "1d" && AGE_BUCKETS[1].name == "1w";
    assert AGE_BUCKETS[2].name == "1m" && AGE_BUCKETS[3].name == "more";
  }

  /** Bucket `i` is the first whose maximum age exceeds `age`. */
  ghost predicate FirstBucket(age: int, i: int)
  {
    && 0 <= i < |AGE_BUCKETS|
    && age < AGE_BUCKETS[i].maxAge
    && forall j :: 0 <= j < i ==> age >= AGE_BUCKETS[j].maxAge
  }

  /** The bucket an age falls in, none for an age saturated at the largest
      duration. */
  function BucketOf(age: int): (r: Option<string>)
    ensures r.Some? ==> r.value in BUCKET_NAMES
  {
    if age < 24 * HOUR then Some("1d")
    else if age < 7 * 24 * HOUR then Some("1w")
    else if age < 730 * HOUR then Some("1m")
    else if age < MAX_DURATION then Some("more")
    else None
  }

  /** An age falls in the first bucket whose maximum age exceeds it, and in
      none when no bucket's maximum age does. */
  lemma BucketOfFirstMatch(age: int)
    ensures forall i :: FirstBucket(age, i) ==> BucketOf(age) == Some(AGE_BUCKETS[i].name)
    ensures BucketOf(age) == None <==> forall i :: 0 <= i < |AGE_BUCKETS| ==> age >= AGE_BUCKETS[i].maxAge
  {
    assert AGE_BUCKETS[0] == AgeBucket("1d", 24 * HOUR) && AGE_BUCKETS[1] == AgeBucket("1w", 7 * 24 * HOUR);
    assert AGE_BUCKETS[2] == AgeBucket("1m", 730 * HOUR) && AGE_BUCKETS[3] == AgeBucket("more", MAX_DURATION);
  }

  /** The inner loop over the age buckets, which stops at the first bucket
      whose maximum age exceeds `age`. */
  method BucketFor(age: int) returns (r: Option<string>)
    ensures r == BucketOf(age)
  {
    var i := 0;
    while i < |AGE_BUCKETS|
      invariant 0 <= i <= |AGE_BUCKETS|
      invariant forall j :: 0 <= j < i ==> age >= AGE_BUCKETS[j].maxAge
    {
      if age < AGE_BUCKETS[i].maxAge {
        assert FirstBucket(age, i);
        BucketOfFirstMatch(age);
        return Some(AGE_BUCKETS[i].name);
      }
      i := i + 1;
    }
    BucketOfFirstMatch(age);
    return None;
  }

  /** An issue being aged (`issueAge`): when its age starts, its type and
      its segment. */
  datatype IssueAge = IssueAge(start: Time, issueType: string, segment: string)

  /** The name of the counter of the issues at `stage` in bucket `bucket`. */
  function CounterName(stage: string, bucket: string): string
  {
    stage + "_" + bucket
  }

  /** The issues of `issues` that are in bucket `bucket` on `day` and belong
      to segment `segment`. */
  ghost function Members(issues: map<string, IssueAge>, day: Time, bucket: string, segment: string): set<string>
  {
    set k | k in issues && BucketOf(Sub(day, issues[k].start)) == Some(bucket) && issues[k].segment == segment
  }

  ghost function Segments(issues: map<string, IssueAge>): set<string>
  {
    set k | k in issues :: issues[k].segment
  }

  /** The counts of one bucket, by segment: only segments with at least one
      issue in the bucket appear. */
  ghost function SegmentCounts(issues: map<string, IssueAge>, day: Time, bucket: string): map<string, int>
  {
    map segment | segment in Segments(issues) && Members(issues, day, bucket, segment) != {} ::
      |Members(issues, day, bucket, segment)|
  }

  lemma MembersAdd(issues: map<string, IssueAge>, k: string, v: IssueAge, day: Time, bucket: string, segment: string)
    requires k !in issues
    ensures k !in Members(issues, day, bucket, segment)
    ensures Members(issues[k := v], day, bucket, segment)
         == Members(issues, day, bucket, segment)
          + (if BucketOf(Sub(day, v.start)) == Some(bucket) && v.segment == segment then {k} else {})
  {
  }

  /** A segment is counted in a bucket exactly when some issue of that
      segment is in the bucket, and its count is the number of such issues. */
  lemma SegmentCountsAt(issues: map<string, IssueAge>, day: Time, bucket: string, segment: string)
    ensures segment in SegmentCounts(issues, day, bucket) <==> Members(issues, day, bucket, segment) != {}
    ensures Get(SegmentCounts(issues, day, bucket), segment) == |Members(issues, day, bucket, segment)|
  {
    var members := Members(issues, day, bucket, segment);
    if members != {} {
      var k :| k in members;
      assert segment in Segments(issues);
    }
  }

  lemma SegmentCountAdd(issues: map<string, IssueAge>, k: string, v: IssueAge, day: Time, bucket: string, segment: string)
    requires k !in issues
    ensures
      var hit := BucketOf(Sub(day, v.start)) == Some(bucket) && v.segment == segment;
      && ((segment in SegmentCounts(issues[k := v], day, bucket)) <==> (hit || segment in SegmentCounts(issues, day, bucket)))
      && Get(SegmentCounts(issues[k := v], day, bucket), segment)
           == Get(SegmentCounts(issues, day, bucket), segment) + (if hit then 1 else 0)
  {
    MembersAdd(issues, k, v, day, bucket, segment);
    SegmentCountsAt(issues, day, bucket, segment);
    SegmentCountsAt(issues[k := v], day, bucket, segment);
  }

  /** Counting one more issue adds one to its segment in its bucket, and
      changes nothing else. */
  lemma SegmentCountsAdd(issues: map<string, IssueAge>, k: string, v: IssueAge, day: Time, bucket: string)
    requires k !in issues
    ensures SegmentCounts(issues[k := v], day, bucket)
         == if BucketOf(Sub(day, v.start)) == Some(bucket)
            then SegmentCounts(issues, day, bucket)[v.segment := Get(SegmentCounts(issues, day, bucket), v.segment) + 1]
            else SegmentCounts(issues, day, bucket)
  {
    var before, after := SegmentCounts(issues, day, bucket), SegmentCounts(issues[k := v], day, bucket);
    var hit := BucketOf(Sub(day, v.start)) == Some(bucket);
    forall segment
      ensures segment in after <==> (hit && segment == v.segment) || segment in before
      ensures Get(after, segment) == Get(before, segment) + (if hit && segment == v.segment then 1 else 0)
    {
      SegmentCountAdd(issues, k, v, day, bucket, segment);
    }
    BumpedFromGets(before, after, v.segment, hit);
  }

  /** `name` is the counter of `stage` for one of the buckets. */
  predicate IsStageCounter(name: string, stage: string)
  {
    |name| >= |stage| + 1 && name[..|stage| + 1] == stage + "_" && name[|stage| + 1..] in BUCKET_NAMES
  }

  lemma StageCounterName(stage: string, bucket: string)
    ensures IsStageCounter(CounterName(stage, bucket), stage) <==> bucket in BUCKET_NAMES
  {
    var name := CounterName(stage, bucket);
    assert name[..|stage| + 1] == stage + "_" && name[|stage| + 1..] == bucket;
  }

  lemma StageCounterSplit(name: string, stage: string)
    requires IsStageCounter(name, stage)
    ensures name == CounterName(stage, name[|stage| + 1..])
  {
    assert name == name[..|stage| + 1] + name[|stage| + 1..];
  }

  lemma CounterNameInjective(stage: string, a: string, b: string)
    ensures CounterName(stage, a) == CounterName(stage, b) ==> a == b
  {
    PrefixInjective(stage + "_", a, b);
  }

  lemma SegmentCountsEmpty(issues: map<string, IssueAge>, day: Time, bucket: string)
    requires issues == map[]
    ensures SegmentCounts(issues, day, bucket) == map[]
  {
    assert Segments(issues) == {};
  }

  /** Adding one issue to the counters of its stage. */
  ghost function Counted(counters: map<string, map<string, int>>, stage: string, issue: IssueAge, day: Time): map<string, map<string, int>>
    requires forall bucket :: bucket in BUCKET_NAMES ==> CounterName(stage, bucket) in counters
  {
    match BucketOf(Sub(day, issue.start))
    case None => counters
    case Some(bucket) =>
      var name := CounterName(stage, bucket);
      counters[name := counters[name][issue.segment := Get(counters[name], issue.segment) + 1]]
  }

  /** The counters of `stage` hold the segment counts of `issues`. */
  ghost predicate Tallies(counters: map<string, map<string, int>>, stage: string, issues: map<string, IssueAge>, day: Time)
  {
    forall bucket :: bucket in BUCKET_NAMES ==>
      CounterName(stage, bucket) in counters && counters[CounterName(stage, bucket)] == SegmentCounts(issues, day, bucket)
  }

  /** The counters outside `stage` are those of `counters`. */
  ghost predicate OthersKept(result: map<string, map<string, int>>, counters: map<string, map<string, int>>, stage: string)
  {
    && result.Keys == counters.Keys
    && forall name :: name in counters && !IsStageCounter(name, stage) ==> result[name] == counters[name]
  }

  lemma CountOneBucket(counters: map<string, map<string, int>>, done: map<string, IssueAge>, k: string, issue: IssueAge, stage: string, day: Time, bucket: string)
    requires k !in done && Tallies(counters, stage, done, day) && bucket in BUCKET_NAMES
    ensures CounterName(stage, bucket) in Counted(counters, stage, issue, day)
    ensures Counted(counters, stage, issue, day)[CounterName(stage, bucket)] == SegmentCounts(done[k := issue], day, bucket)
  {
    SegmentCountsAdd(done, k, issue, day, bucket);
    var hit := BucketOf(Sub(day, issue.start));
    if hit.Some? {
      CounterNameInjective(stage, hit.value, bucket);
    }
  }

  lemma CountOne(counters: map<string, map<string, int>>, done: map<string, IssueAge>, k: string, issue: IssueAge, stage: string, day: Time)
    requires k !in done && Tallies(counters, stage, done, day)
    ensures Tallies(Counted(counters, stage, issue, day), stage, done[k := issue], day)
    ensures OthersKept(Counted(counters, stage, issue, day), counters, stage)
  {
    forall bucket | bucket in BUCKET_NAMES
      ensures CounterName(stage, bucket) in Counted(counters, stage, issue, day)
      ensures Counted(counters, stage, issue, day)[CounterName(stage, bucket)] == SegmentCounts(done[k := issue], day, bucket)
    {
      CountOneBucket(counters, done, k, issue, stage, day, bucket);
    }
    var hit := BucketOf(Sub(day, issue.start));
    if hit.Some? {
      StageCounterName(stage, hit.value);
    }
  }

  lemma OthersKeptTrans(a: map<string, map<string, int>>, b: map<string, map<string, int>>, c: map<string, map<string, int>>, stage: string)
    requires OthersKept(b, a, stage) && OthersKept(c, b, stage)
    ensures OthersKept(c, a, stage)
  {
  }

  /** The counters after counting the issues `order`, in that order. */
  ghost function CountAll(counters: map<string, map<string, int>>, stage: string, issues: map<string, IssueAge>, order: seq<string>, day: Time)
    : (r: map<string, map<string, int>>)
    requires forall bucket :: bucket in BUCKET_NAMES ==> CounterName(stage, bucket) in counters
    requires forall k :: k in order ==> k in issues
    ensures r.Keys == counters.Keys
    decreases |order|
  {
    if order == [] then counters
    else Counted(CountAll(counters, stage, issues, order[..|order| - 1], day), stage, issues[order[|order| - 1]], day)
  }

  /** The issues of `order`. */
  ghost function Restrict(issues: map<string, IssueAge>, order: seq<string>): map<string, IssueAge>
  {
    map k | k in issues && k in order :: issues[k]
  }

  lemma RestrictAppend(issues: map<string, IssueAge>, order: seq<string>)
    requires order != [] && order[|order| - 1] in issues
    requires forall i, j :: 0 <= i < j < |order| ==> order[i] != order[j]
    ensures order[|order| - 1] !in Restrict(issues, order[..|order| - 1])
    ensures Restrict(issues, order) == Restrict(issues, order[..|order| - 1])[order[|order| - 1] := issues[order[|order| - 1]]]
  {
    var init, k := order[..|order| - 1], order[|order| - 1];
    assert forall i :: 0 <= i < |init| ==> init[i] == order[i];
    assert k !in init;
    assert forall j :: j in order <==> j in init || j == k;
  }

  /** Counting each issue once, in any order, gives the segment counts of
      those issues and leaves the other counters alone. */
  lemma {:induction false} CountAllTallies(counters: map<string, map<string, int>>, stage: string, issues: map<string, IssueAge>, order: seq<string>, day: Time)
    requires Tallies(counters, stage, map[], day)
    requires forall k :: k in order ==> k in issues
    requires forall i, j :: 0 <= i < j < |order| ==> order[i] != order[j]
    ensures Tallies(CountAll(counters, stage, issues, order, day), stage, Restrict(issues, order), day)
    ensures OthersKept(CountAll(counters, stage, issues, order, day), counters, stage)
    decreases |order|
  {
    if order == [] {
      assert Restrict(issues, order) == map[];
    } else {
      var init, k := order[..|order| - 1], order[|order| - 1];
      CountAllTallies(counters, stage, issues, init, day);
      var before := CountAll(counters, stage, issues, init, day);
      RestrictAppend(issues, order);
      CountOne(before, Restrict(issues, init), k, issues[k], stage, day);
      OthersKeptTrans(counters, before, CountAll(counters, stage, issues, order, day), stage);
    }
  }

  /** The body of that loop: finds the issue's bucket and increments its
      segment in the counter of that bucket; an issue in no bucket is not
      counted. */
  method CountIssue(counters: map<string, map<string, int>>, stage: string, issue: IssueAge, day: Time)
    returns (result: map<string, map<string, int>>)
    requires forall bucket :: bucket in BUCKET_NAMES ==> CounterName(stage, bucket) in counters
    ensures result == Counted(counters, stage, issue, day)
  {
    result := counters;
    var bucket := BucketFor(Sub(day, issue.start));
    if bucket.Some? {
      var name := CounterName(stage, bucket.value);
      result := result[name := result[name][issue.segment := Get(result[name], issue.segment) + 1]];
    }
  }

  /** One of the loops of `calculateAndPushMetricsForDay` over the issues of
      a stage: visits them in an unspecified order and adds each one to the
      counter of its bucket, under its segment. The counters of the stage then
      hold the segment counts of `issues`; the other counters are untouched. */
  method CountStage(counters: map<string, map<string, int>>, issues: map<string, IssueAge>, stage: string, day: Time)
    returns (result: map<string, map<string, int>>)
    requires Tallies(counters, stage, map[], day)
    ensures Tallies(result, stage, issues, day)
    ensures OthersKept(result, counters, stage)
  {
    result := counters;
    var left := issues.Keys;
    ghost var order: seq<string> := [];
    while left != {}
      invariant left <= issues.Keys
      invariant Visits(order, issues, left)
      invariant result == CountAll(counters, stage, issues, order, day)
      decreases |left|
    {
      var k :| k in left;
      var issue := issues[k];
      result := CountIssue(result, stage, issue, day);
      VisitsSnoc(order, issues, left, k);
      CountAllSnoc(counters, stage, issues, order, k, day);
      order := order + [k];
      left := left - {k};
    }
    CountAllTallies(counters, stage, issues, order, day);
    assert Restrict(issues, order) == issues;
  }

  /** `order` lists, once each, the issues of `issues` outside `left`. */
  ghost predicate Visits(order: seq<string>, issues: map<string, IssueAge>, left: set<string>)
  {
    && (forall k :: k in order <==> k in issues && k !in left)
    && (forall i, j :: 0 <= i < j < |order| ==> order[i] != order[j])
  }

  lemma VisitsSnoc(order: seq<string>, issues: map<string, IssueAge>, left: set<string>, k: string)
    requires Visits(order, issues, left) && k in left && left <= issues.Keys
    ensures Visits(order + [k], issues, left - {k})
  {
  }

  /** Counting one more issue is one more step of `CountAll`. */
  lemma CountAllSnoc(counters: map<string, map<string, int>>, stage: string, issues: map<string, IssueAge>, order: seq<string>, k: string, day: Time)
    requires forall bucket :: bucket in BUCKET_NAMES ==> CounterName(stage, bucket) in counters
    requires forall j :: j in order ==> j in issues
    requires k in issues
    ensures forall j :: j in order + [k] ==> j in issues
    ensures CountAll(counters, stage, issues, order + [k], day)
         == Counted(CountAll(counters, stage, issues, order, day), stage, issues[k], day)
  {
    assert (order + [k])[..|order|] == order;
  }

  /** The metric reporting one segment of one counter. */
  function AgeMetric(day: Time, name: string, segmentPrefix: string, segment: string, count: int): Metric
  {
    Metric(day, "issuesAge/" + name, segmentPrefix + "/" + segment, count as real, "")
  }

  lemma AgeMetricInjective(day: Time, segmentPrefix: string, n1: string, s1: string, c1: int, n2: string, s2: string, c2: int)
    requires AgeMetric(day, n1, segmentPrefix, s1, c1) == AgeMetric(day, n2, segmentPrefix, s2, c2)
    ensures n1 == n2 && s1 == s2
  {
    PrefixInjective("issuesAge/", n1, n2);
    PrefixInjective(segmentPrefix + "/", s1, s2);
  }

  /** The metrics of one counter: one per segment it holds. */
  ghost function CounterMetrics(name: string, counts: map<string, int>, day: Time, segmentPrefix: string): set<Metric>
  {
    set segment | segment in counts :: AgeMetric(day, name, segmentPrefix, segment, counts[segment])
  }

  /** The metrics of the counters `names`. */
  ghost function TableMetrics(counters: map<string, map<string, int>>, names: set<string>, day: Time, segmentPrefix: string): set<Metric>
    requires names <= counters.Keys
  {
    set name, segment | name in names && segment in counters[name] ::
      AgeMetric(day, name, segmentPrefix, segment, counters[name][segment])
  }

  lemma CounterMetricsAdd(name: string, counts: map<string, int>, segment: string, count: int, day: Time, segmentPrefix: string)
    requires segment !in counts
    ensures AgeMetric(day, name, segmentPrefix, segment, count) !in CounterMetrics(name, counts, day, segmentPrefix)
    ensures CounterMetrics(name, counts[segment := count], day, segmentPrefix)
         == CounterMetrics(name, counts, day, segmentPrefix) + {AgeMetric(day, name, segmentPrefix, segment, count)}
  {
    forall other | other in counts
      ensures AgeMetric(day, name, segmentPrefix, other, counts[other]) != AgeMetric(day, name, segmentPrefix, segment, count)
    {
      if AgeMetric(day, name, segmentPrefix, other, counts[other]) == AgeMetric(day, name, segmentPrefix, segment, count) {
        AgeMetricInjective(day, segmentPrefix, name, other, counts[other], name, segment, count);
      }
    }
    var more := counts[segment := count];
    forall other | other in more
      ensures AgeMetric(day, name, segmentPrefix, other, more[other])
           in CounterMetrics(name, counts, day, segmentPrefix) + {AgeMetric(day, name, segmentPrefix, segment, count)}
    {
      if other != segment {
        assert more[other] == counts[other];
      }
    }
    forall other | other in counts
      ensures AgeMetric(day, name, segmentPrefix, other, counts[other]) in CounterMetrics(name, more, day, segmentPrefix)
    {
      assert more[other] == counts[other];
    }
    assert more[segment] == count;
  }

  /** The inner emission loop: one metric per segment of the counter. */
  method EmitCounter(name: string, counts: map<string, int>, day: Time, segmentPrefix: string) returns (out: seq<Metric>)
    ensures multiset(out) == multiset(CounterMetrics(name, counts, day, segmentPrefix))
  {
    out := [];
    var left := counts.Keys;
    while left != {}
      invariant left <= counts.Keys
      invariant multiset(out) == multiset(CounterMetrics(name, counts - left, day, segmentPrefix))
      decreases |left|
    {
      var segment :| segment in left;
      ghost var done := counts - left;
      var m := AgeMetric(day, name, segmentPrefix, segment, counts[segment]);
      assert counts - (left - {segment}) == done[segment := counts[segment]];
      CounterMetricsAdd(name, done, segment, counts[segment], day, segmentPrefix);
      out := out + [m];
      left := left - {segment};
    }
    assert counts - {} == counts;
  }

  /** The outer emission loop: visits the counters in an unspecified order
      and reports each segment of each counter once. */
  method EmitCounters(counters: map<string, map<string, int>>, day: Time, segmentPrefix: string) returns (out: seq<Metric>)
    ensures multiset(out) == multiset(TableMetrics(counters, counters.Keys, day, segmentPrefix))
  {
    out := [];
    var left := counters.Keys;
    ghost var done: set<string> := {};
    while left != {}
      invariant left <= counters.Keys && done == counters.Keys - left
      invariant multiset(out) == multiset(TableMetrics(counters, done, day, segmentPrefix))
      decreases |left|
    {
      var name :| name in left;
      var more := EmitCounter(name, counters[name], day, segmentPrefix);
      TableMetricsAdd(counters, done, name, day, segmentPrefix);
      out := out + more;
      left := left - {name};
      done := done + {name};
    }
    assert done == counters.Keys;
  }

  lemma TableMetricsAdd(counters: map<string, map<string, int>>, names: set<string>, name: string, day: Time, segmentPrefix: string)
    requires names <= counters.Keys && name in counters && name !in names
    ensures multiset(TableMetrics(counters, names + {name}, day, segmentPrefix))
         == multiset(TableMetrics(counters, names, day, segmentPrefix)) + multiset(CounterMetrics(name, counters[name], day, segmentPrefix))
  {
    var before, added := TableMetrics(counters, names, day, segmentPrefix), CounterMetrics(name, counters[name], day, segmentPrefix);
    forall m | m in before && m in added
      ensures false
    {
      var n1, s1 :| n1 in names && s1 in counters[n1] && m == AgeMetric(day, n1, segmentPrefix, s1, counters[n1][s1]);
      var s2 :| s2 in counters[name] && m == AgeMetric(day, name, segmentPrefix, s2, counters[name][s2]);
      AgeMetricInjective(day, segmentPrefix, n1, s1, counters[n1][s1], name, s2, counters[name][s2]);
    }
    assert TableMetrics(counters, names + {name}, day, segmentPrefix) == before + added;
    MultisetOfDisjointUnion(before, added);
  }

  /** The counters of one stage are not counters of the other. */
  lemma StagesApart(bucket: string)
    ensures !IsStageCounter(CounterName(WIP, bucket), BACKLOG)
    ensures !IsStageCounter(CounterName(BACKLOG, bucket), WIP)
  {
    assert CounterName(WIP, bucket)[0] == 'w' && (BACKLOG + "_")[0] == 'b';
    assert CounterName(BACKLOG, bucket)[0] == 'b' && (WIP + "_")[0] == 'w';
  }

  /** The first loop of `calculateAndPushMetricsForDay`: an empty counter
      per stage and bucket, and no other counter. */
  method NewCounters() returns (counters: map<string, map<string, int>>)
    ensures forall bucket :: bucket in BUCKET_NAMES ==>
      && CounterName(BACKLOG, bucket) in counters && counters[CounterName(BACKLOG, bucket)] == map[]
      && CounterName(WIP, bucket) in counters && counters[CounterName(WIP, bucket)] == map[]
    ensures forall name :: name in counters ==> IsStageCounter(name, BACKLOG) || IsStageCounter(name, WIP)
  {
    counters := map[];
    for i := 0 to |AGE_BUCKETS|
      invariant forall j :: 0 <= j < i ==> EmptyCounters(counters, AGE_BUCKETS[j].name)
      invariant forall name :: name in counters ==> IsStageCounter(name, BACKLOG) || IsStageCounter(name, WIP)
    {
      var bucket := AGE_BUCKETS[i].name;
      assert bucket in BUCKET_NAMES;
      StageCounterName(BACKLOG, bucket);
      StageCounterName(WIP, bucket);
      counters := counters[CounterName(BACKLOG, bucket) := map[]];
      counters := counters[CounterName(WIP, bucket) := map[]];
    }
    AgeBucketNames();
    forall bucket | bucket in BUCKET_NAMES
      ensures EmptyCounters(counters, bucket)
    {
      var j :| 0 <= j < |AGE_BUCKETS| && AGE_BUCKETS[j].name == bucket;
    }
  }

  /** Both stages have an empty table for `bucket`. */
  ghost predicate EmptyCounters(counters: map<string, map<string, int>>, bucket: string)
  {
    && CounterName(BACKLOG, bucket) in counters && counters[CounterName(BACKLOG, bucket)] == map[]
    && CounterName(WIP, bucket) in counters && counters[CounterName(WIP, bucket)] == map[]
  }

  /** The snapshot of one stage on `day`: for each bucket and each segment
      with issues in it, one metric whose value is the number of those
      issues. */
  ghost function StageSnapshot(issues: map<string, IssueAge>, stage: string, day: Time, segmentPrefix: string): set<Metric>
  {
    set bucket, segment | bucket in BUCKET_NAMES && segment in SegmentCounts(issues, day, bucket) ::
      AgeMetric(day, CounterName(stage, bucket), segmentPrefix, segment, SegmentCounts(issues, day, bucket)[segment])
  }

  /** The metrics reported for `day`. */
  ghost function DaySnapshot(backlog: map<string, IssueAge>, wip: map<string, IssueAge>, day: Time, segmentPrefix: string): set<Metric>
  {
    StageSnapshot(backlog, BACKLOG, day, segmentPrefix) + StageSnapshot(wip, WIP, day, segmentPrefix)
  }

  /** The metrics of the filled counter table are the day's snapshot. */
  lemma TableIsSnapshot(counters: map<string, map<string, int>>, backlog: map<string, IssueAge>, wip: map<string, IssueAge>, day: Time, segmentPrefix: string)
    requires Tallies(counters, BACKLOG, backlog, day) && Tallies(counters, WIP, wip, day)
    requires forall name :: name in counters ==> IsStageCounter(name, BACKLOG) || IsStageCounter(name, WIP)
    ensures TableMetrics(counters, counters.Keys, day, segmentPrefix) == DaySnapshot(backlog, wip, day, segmentPrefix)
  {
    var table, snapshot := TableMetrics(counters, counters.Keys, day, segmentPrefix), DaySnapshot(backlog, wip, day, segmentPrefix);
    forall m | m in table
      ensures m in snapshot
    {
      var name, segment :| name in counters && segment in counters[name]
        && m == AgeMetric(day, name, segmentPrefix, segment, counters[name][segment]);
      if IsStageCounter(name, BACKLOG) {
        StageCounterSplit(name, BACKLOG);
        var bucket := name[|BACKLOG| + 1..];
        assert m in StageSnapshot(backlog, BACKLOG, day, segmentPrefix);
      } else {
        StageCounterSplit(name, WIP);
        var bucket := name[|WIP| + 1..];
        assert m in StageSnapshot(wip, WIP, day, segmentPrefix);
      }
    }
    forall bucket, segment | bucket in BUCKET_NAMES && segment in SegmentCounts(backlog, day, bucket)
      ensures AgeMetric(day, CounterName(BACKLOG, bucket), segmentPrefix, segment, SegmentCounts(backlog, day, bucket)[segment]) in table
    {
      var name := CounterName(BACKLOG, bucket);
      assert name in counters && segment in counters[name];
    }
    forall bucket, segment | bucket in BUCKET_NAMES && segment in SegmentCounts(wip, day, bucket)
      ensures AgeMetric(day, CounterName(WIP, bucket), segmentPrefix, segment, SegmentCounts(wip, day, bucket)[segment]) in table
    {
      var name := CounterName(WIP, bucket);
      assert name in counters && segment in counters[name];
    }
  }

  /** `calculateAndPushMetricsForDay`, without the writes: builds the
      counter table for `day` from the backlog and wip issues and returns
      the metrics it reports, in an unspecified order, each once. */
  method MetricsForDay(backlog: map<string, IssueAge>, wip: map<string, IssueAge>, day: Time, segmentPrefix: string)
    returns (out: seq<Metric>)
    ensures multiset(out) == multiset(DaySnapshot(backlog, wip, day, segmentPrefix))
  {
    var counters := NewCounters();
    forall bucket | bucket in BUCKET_NAMES
      ensures SegmentCounts(map[], day, bucket) == map[]
      ensures !IsStageCounter(CounterName(WIP, bucket), BACKLOG) && !IsStageCounter(CounterName(BACKLOG, bucket), WIP)
    {
      SegmentCountsEmpty(map[], day, bucket);
      StagesApart(bucket);
    }
    var counted := CountStage(counters, backlog, BACKLOG, day);
    ghost var backlogCounted := counted;
    counted := CountStage(counted, wip, WIP, day);
    assert Tallies(counted, BACKLOG, backlog, day) by {
      assert OthersKept(counted, backlogCounted, WIP);
    }
    TableIsSnapshot(counted, backlog, wip, day, segmentPrefix);
    out := EmitCounters(counted, day, segmentPrefix);
  }

  /** A stage's snapshot holds, for every bucket and segment, a metric
      counting the issues in them exactly when there is at least one. */
  lemma StageSnapshotExact(issues: map<string, IssueAge>, stage: string, day: Time, segmentPrefix: string, bucket: string, segment: string)
    requires bucket in BUCKET_NAMES
    ensures Members(issues, day, bucket, segment) != {}
        <==> AgeMetric(day, CounterName(stage, bucket), segmentPrefix, segment, |Members(issues, day, bucket, segment)|)
               in StageSnapshot(issues, stage, day, segmentPrefix)
  {
    var m := AgeMetric(day, CounterName(stage, bucket), segmentPrefix, segment, |Members(issues, day, bucket, segment)|);
    SegmentCountsAt(issues, day, bucket, segment);
    if m in StageSnapshot(issues, stage, day, segmentPrefix) {
      var b, seg :| b in BUCKET_NAMES && seg in SegmentCounts(issues, day, b)
        && m == AgeMetric(day, CounterName(stage, b), segmentPrefix, seg, SegmentCounts(issues, day, b)[seg]);
      AgeMetricInjective(day, segmentPrefix, CounterName(stage, bucket), segment, |Members(issues, day, bucket, segment)|,
        CounterName(stage, b), seg, SegmentCounts(issues, day, b)[seg]);
      CounterNameInjective(stage, bucket, b);
    }
  }

  /** Every metric of a stage's snapshot is dated `day` and counts the
      issues, at least one, of one bucket and one segment. */
  lemma StageSnapshotShape(issues: map<string, IssueAge>, stage: string, day: Time, segmentPrefix: string, m: Metric)
    requires m in StageSnapshot(issues, stage, day, segmentPrefix)
    ensures m.time == day && m.value >= 1.0
    ensures exists bucket, segment ::
      && bucket in BUCKET_NAMES
      && Members(issues, day, bucket, segment) != {}
      && m == AgeMetric(day, CounterName(stage, bucket), segmentPrefix, segment, |Members(issues, day, bucket, segment)|)
  {
    var bucket, segment :| bucket in BUCKET_NAMES && segment in SegmentCounts(issues, day, bucket)
      && m == AgeMetric(day, CounterName(stage, bucket), segmentPrefix, segment, SegmentCounts(issues, day, bucket)[segment]);
    SegmentCountsAt(issues, day, bucket, segment);
  }

  /** The issues in bucket `bucket` on `day`. */
  ghost function InBucket(issues: map<string, IssueAge>, day: Time, bucket: string): set<string>
  {
    set k | k in issues && BucketOf(Sub(day, issues[k].start)) == Some(bucket)
  }

  /** The counts of a bucket, over all segments, add up to the issues in it. */
  lemma {:induction false} BucketTotal(issues: map<string, IssueAge>, day: Time, bucket: string)
    ensures Sum(SegmentCounts(issues, day, bucket)) == |InBucket(issues, day, bucket)|
    decreases |issues|
  {
    if issues == map[] {
      SegmentCountsEmpty(issues, day, bucket);
      SumEmpty(SegmentCounts(issues, day, bucket));
      assert InBucket(issues, day, bucket) == {};
    } else {
      var k :| k in issues;
      BucketTotal(issues - {k}, day, bucket);
      BucketTotalRestore(issues, k, day, bucket);
    }
  }

  /** Putting back the issue taken out keeps the counts in step. */
  lemma BucketTotalRestore(issues: map<string, IssueAge>, k: string, day: Time, bucket: string)
    requires k in issues
    requires Sum(SegmentCounts(issues - {k}, day, bucket)) == |InBucket(issues - {k}, day, bucket)|
    ensures Sum(SegmentCounts(issues, day, bucket)) == |InBucket(issues, day, bucket)|
  {
    RestoreKey(issues, k);
    BucketTotalStep(issues - {k}, k, issues[k], day, bucket);
  }

  /** Adding one issue keeps the counts of a bucket in step with its issues. */
  lemma BucketTotalStep(issues: map<string, IssueAge>, k: string, v: IssueAge, day: Time, bucket: string)
    requires k !in issues
    requires Sum(SegmentCounts(issues, day, bucket)) == |InBucket(issues, day, bucket)|
    ensures Sum(SegmentCounts(issues[k := v], day, bucket)) == |InBucket(issues[k := v], day, bucket)|
  {
    SegmentCountsAdd(issues, k, v, day, bucket);
    InBucketAdd(issues, k, v, day, bucket);
    SumBump(SegmentCounts(issues, day, bucket), SegmentCounts(issues[k := v], day, bucket),
      v.segment, BucketOf(Sub(day, v.start)) == Some(bucket));
  }

  lemma InBucketAdd(issues: map<string, IssueAge>, k: string, v: IssueAge, day: Time, bucket: string)
    requires k !in issues
    ensures |InBucket(issues[k := v], day, bucket)|
         == |InBucket(issues, day, bucket)| + (if BucketOf(Sub(day, v.start)) == Some(bucket) then 1 else 0)
  {
    if BucketOf(Sub(day, v.start)) == Some(bucket) {
      assert InBucket(issues[k := v], day, bucket) == InBucket(issues, day, bucket) + {k};
    } else {
      assert InBucket(issues[k := v], day, bucket) == InBucket(issues, day, bucket);
    }
  }

  /** The issues that fall in some bucket on `day`: all those whose age
      is below the largest duration. */
  ghost function Bucketed(issues: map<string, IssueAge>, day: Time): set<string>
  {
    set k | k in issues && Sub(day, issues[k].start) < MAX_DURATION
  }

  lemma BucketedSplit(issues: map<string, IssueAge>, day: Time)
    ensures Bucketed(issues, day)
         == InBucket(issues, day, "1d") + InBucket(issues, day, "1w") + InBucket(issues, day, "1m") + InBucket(issues, day, "more")
  {
    forall k | k in issues
      ensures k in Bucketed(issues, day) <==>
        k in InBucket(issues, day, "1d") || k in InBucket(issues, day, "1w")
        || k in InBucket(issues, day, "1m") || k in InBucket(issues, day, "more")
    {
      var age := Sub(day, issues[k].start);
      if age < 24 * HOUR {
        assert BucketOf(age) == Some("1d");
      } else if age < 7 * 24 * HOUR {
        assert BucketOf(age) == Some("1w");
      } else if age < 730 * HOUR {
        assert BucketOf(age) == Some("1m");
      } else if age < MAX_DURATION {
        assert BucketOf(age) == Some("more");
      } else {
        assert BucketOf(age) == None;
      }
    }
  }

  /** Each issue whose age is below the largest duration is counted in
      exactly one bucket, so the values reported for a stage add up to the
      number of such issues; an issue aged beyond that (its age saturates at
      the largest duration, which no bucket exceeds) is not reported. */
  lemma StageTotal(issues: map<string, IssueAge>, day: Time)
    ensures Sum(SegmentCounts(issues, day, "1d")) + Sum(SegmentCounts(issues, day, "1w"))
          + Sum(SegmentCounts(issues, day, "1m")) + Sum(SegmentCounts(issues, day, "more"))
         == |Bucketed(issues, day)|
  {
    BucketTotal(issues, day, "1d");
    BucketTotal(issues, day, "1w");
    BucketTotal(issues, day, "1m");
    BucketTotal(issues, day, "more");
    var d, w, m, more := InBucket(issues, day, "1d"), InBucket(issues, day, "1w"), InBucket(issues, day, "1m"), InBucket(issues, day, "more");
    BucketedSplit(issues, day);
    assert |d + w| == |d| + |w| by {
      assert d !! w;
    }
    assert |d + w + m| == |d + w| + |m| by {
      assert d !! m && w !! m;
    }
    assert |d + w + m + more| == |d + w + m| + |more| by {
      assert d !! more && w !! more && m !! more;
    }
  }

  /** `updateIssuesLists` on the list of one stage: an issue leaving the
      stage is removed, an issue entering it is (re)recorded with the given
      start. */
  function ListAfter(issues: map<string, IssueAge>, stage: string, evt: Event, start: Time): map<string, IssueAge>
  {
    var kept := if evt.valueFrom == stage then issues - {evt.issueKey} else issues;
    if evt.valueTo == stage then kept[evt.issueKey := IssueAge(start, evt.issueType, evt.segment)] else kept
  }

  /** What `ListAfter` does to each key: the event's issue is recorded
      with the given start when it enters the stage, dropped when it leaves
      it, kept as it was otherwise; every other issue is untouched. */
  lemma ListAfterKeys(issues: map<string, IssueAge>, stage: string, evt: Event, start: Time)
    ensures var r := ListAfter(issues, stage, evt, start);
      && (evt.valueTo == stage ==> evt.issueKey in r && r[evt.issueKey] == IssueAge(start, evt.issueType, evt.segment))
      && (evt.valueTo != stage && evt.valueFrom == stage ==> evt.issueKey !in r)
      && (evt.valueTo != stage && evt.valueFrom != stage ==> r == issues)
      && (forall k :: k != evt.issueKey ==> (k in r <==> k in issues) && (k in r ==> r[k] == issues[k]))
  {
  }

  /** The backlog list ages issues from their creation, the wip list from
      the event that moved them to wip. */
  function BacklogAfter(backlog: map<string, IssueAge>, evt: Event): (r: map<string, IssueAge>)
    ensures evt.valueTo == BACKLOG ==> evt.issueKey in r && r[evt.issueKey].start == evt.issueCreatedAt
    ensures evt.valueTo != BACKLOG && evt.valueFrom == BACKLOG ==> evt.issueKey !in r
    ensures forall k :: k != evt.issueKey ==> (k in r <==> k in backlog) && (k in r ==> r[k] == backlog[k])
  {
    ListAfterKeys(backlog, BACKLOG, evt, evt.issueCreatedAt);
    ListAfter(backlog, BACKLOG, evt, evt.issueCreatedAt)
  }

  function WipAfter(wip: map<string, IssueAge>, evt: Event): (r: map<string, IssueAge>)
    ensures evt.valueTo == WIP ==> evt.issueKey in r && r[evt.issueKey].start == evt.time
    ensures evt.valueTo != WIP && evt.valueFrom == WIP ==> evt.issueKey !in r
    ensures forall k :: k != evt.issueKey ==> (k in r <==> k in wip) && (k in r ==> r[k] == wip[k])
  {
    ListAfterKeys(wip, WIP, evt, evt.time);
    ListAfter(wip, WIP, evt, evt.time)
  }

  /** What the generator carries from one event to the next. */
  datatype Tracker = Tracker(currentDay: Time, backlog: map<string, IssueAge>, wip: map<string, IssueAge>)

  /** A snapshot taken: its day and the lists it was computed from. */
  datatype Snap = Snap(day: Time, backlog: map<string, IssueAge>, wip: map<string, IssueAge>)

  const ORDER_ERROR: string := "received an event that happened before the day being processed: events should be ordered by time ascending!"

  /** The days from `from` (included) to `to` (excluded), a day apart. */
  function DaysFrom(from: Time, to: Time): (days: seq<Time>)
    decreases if from < to then to - from else 0
  {
    if from < to then [from] + DaysFrom(from + DAY, to) else []
  }

  /** The days from `from` up to `to` are exactly the instants a whole
      number of days after `from` and before `to`. */
  lemma {:induction false} DaysFromSpec(from: Time, to: Time)
    ensures var days := DaysFrom(from, to);
      && (forall i :: 0 <= i < |days| ==> days[i] == from + i * DAY && days[i] < to)
      && (from < to ==> from + |days| * DAY >= to)
    decreases if from < to then to - from else 0
  {
    if from < to {
      DaysFromSpec(from + DAY, to);
    }
  }

  /** The snapshots of the lists of `t` on each of `days`. */
  ghost function DaysSnaps(days: seq<Time>, t: Tracker): (snaps: seq<Snap>)
    ensures |snaps| == |days|
  {
    seq(|days|, i requires 0 <= i < |days| => Snap(days[i], t.backlog, t.wip))
  }

  lemma DaysSnapsAppend(days1: seq<Time>, days2: seq<Time>, t: Tracker)
    ensures DaysSnaps(days1 + days2, t) == DaysSnaps(days1, t) + DaysSnaps(days2, t)
  {
    assert forall i :: 0 <= i < |days1 + days2| ==>
      (days1 + days2)[i] == if i < |days1| then days1[i] else days2[i - |days1|];
  }

  /** One event: the first event (the cursor still at Go's zero time) or an
      event of the cursor's day only updates the lists; an event of a later
      day first takes one snapshot per day from the cursor up to that day,
      excluded, then moves the cursor; an event of an earlier day is fatal. */
  ghost function Step(t: Tracker, evt: Event): (r: Result<(Tracker, seq<Snap>)>)
    ensures r.Fatal? ==> r.message == ORDER_ERROR
    ensures r.Ok? ==> forall i :: 0 <= i < |r.value.1| ==>
      && r.value.1[i].backlog == t.backlog && r.value.1[i].wip == t.wip
      && t.currentDay <= r.value.1[i].day < DayOf(evt.time)
  {
    var evtDay := DayOf(evt.time);
    DaysFromSpec(t.currentDay, evtDay);
    var next := Tracker(evtDay, BacklogAfter(t.backlog, evt), WipAfter(t.wip, evt));
    if t.currentDay == ZERO_TIME || evtDay == t.currentDay then Ok((next, []))
    else if evtDay > t.currentDay then
      Ok((next, DaysSnaps(DaysFrom(t.currentDay, evtDay), t)))
    else Fatal(ORDER_ERROR)
  }

  /** The state after `events` and the snapshots taken on the way. */
  ghost function Trace(t: Tracker, events: seq<Event>): (r: Result<(Tracker, seq<Snap>)>)
    ensures r.Fatal? ==> r.message == ORDER_ERROR
    decreases |events|
  {
    if events == [] then Ok((t, []))
    else
      match Trace(t, events[..|events| - 1])
      case Fatal(message) => Fatal(message)
      case Ok((before, snaps)) =>
        match Step(before, events[|events| - 1])
        case Fatal(message) => Fatal(message)
        case Ok((after, more)) => Ok((after, snaps + more))
  }

  lemma TraceNext(t: Tracker, events: seq<Event>, i: nat, before: Tracker, snaps: seq<Snap>, after: Tracker, more: seq<Snap>)
    requires i < |events|
    requires Trace(t, events[..i]) == Ok((before, snaps))
    requires Step(before, events[i]) == Ok((after, more))
    ensures Trace(t, events[..i + 1]) == Ok((after, snaps + more))
  {
    assert events[..i + 1][..i] == events[..i];
  }

  /** An event the tracker refuses makes the whole trace fail. */
  lemma TraceFailsAt(t: Tracker, events: seq<Event>, i: nat, before: Tracker, snaps: seq<Snap>)
    requires i < |events|
    requires Trace(t, events[..i]) == Ok((before, snaps))
    requires Step(before, events[i]).Fatal?
    ensures Trace(t, events).Fatal?
  {
    assert events[..i + 1][..i] == events[..i];
    TraceFatalSticks(t, events, i + 1);
  }

  /** Once the trace has failed, later events do not revive it. */
  lemma {:induction false} TraceFatalSticks(t: Tracker, events: seq<Event>, n: nat)
    requires n <= |events| && Trace(t, events[..n]).Fatal?
    ensures Trace(t, events).Fatal?
    decreases |events|
  {
    if n < |events| {
      var init := events[..|events| - 1];
      assert init[..n] == events[..n];
      TraceFatalSticks(t, init, n);
    } else {
      assert events[..n] == events;
    }
  }

  /** `f` applied to each element of `s`. */
  ghost function Mapped<A, B>(s: seq<A>, f: A -> B): (r: seq<B>)
    ensures |r| == |s|
    decreases |s|
  {
    if s == [] then [] else Mapped(s[..|s| - 1], f) + [f(s[|s| - 1])]
  }

  lemma MappedSnoc<A, B>(s: seq<A>, x: A, f: A -> B)
    ensures Mapped(s + [x], f) == Mapped(s, f) + [f(x)]
  {
    assert (s + [x])[..|s|] == s;
  }

  lemma {:induction false} MappedConcat<A, B>(s1: seq<A>, s2: seq<A>, f: A -> B)
    ensures Mapped(s1 + s2, f) == Mapped(s1, f) + Mapped(s2, f)
    decreases |s2|
  {
    if s2 == [] {
      assert s1 + s2 == s1;
    } else {
      var n := |s2| - 1;
      var init, last := s2[..n], s2[n];
      var m1, m2 := Mapped(s1, f), Mapped(init, f);
      assert Mapped(s1 + s2, f) == Mapped(s1 + init, f) + [f(last)] by {
        assert s1 + s2 == (s1 + init) + [last];
        MappedSnoc(s1 + init, last, f);
      }
      assert Mapped(s1 + init, f) == m1 + m2 by {
        MappedConcat(s1, init, f);
      }
      assert Mapped(s2, f) == m2 + [f(last)] by {
        assert s2 == init + [last];
        MappedSnoc(init, last, f);
      }
      ConcatAssoc(m1, m2, [f(last)]);
    }
  }

  lemma {:induction false} MappedAt<A, B>(s: seq<A>, f: A -> B, j: nat)
    requires j < |s|
    ensures Mapped(s, f)[j] == f(s[j])
    decreases |s|
  {
    if j < |s| - 1 {
      MappedAt(s[..|s| - 1], f, j);
    }
  }

  /** The metrics the snapshot `snap` defines. */
  ghost function SnapshotOf(segmentPrefix: string): Snap -> set<Metric>
  {
    (snap: Snap) => DaySnapshot(snap.backlog, snap.wip, snap.day, segmentPrefix)
  }

  /** The metrics each of `snaps` defines. */
  ghost function Expected(snaps: seq<Snap>, segmentPrefix: string): (r: seq<set<Metric>>)
    ensures |r| == |snaps|
  {
    Mapped(snaps, SnapshotOf(segmentPrefix))
  }

  /** The metrics written for each snapshot are, in some order, the ones it
      defines. */
  ghost predicate Reported(reports: seq<seq<Metric>>, expected: seq<set<Metric>>)
  {
    && |reports| == |expected|
    && forall j :: 0 <= j < |reports| ==> multiset(reports[j]) == multiset(expected[j])
  }

  lemma ReportedConcat(r1: seq<seq<Metric>>, e1: seq<set<Metric>>, r2: seq<seq<Metric>>, e2: seq<set<Metric>>)
    requires Reported(r1, e1) && Reported(r2, e2)
    ensures Reported(r1 + r2, e1 + e2)
  {
    forall j | 0 <= j < |r1 + r2|
      ensures multiset((r1 + r2)[j]) == multiset((e1 + e2)[j])
    {
      if j >= |r1| {
        assert (r1 + r2)[j] == r2[j - |r1|] && (e1 + e2)[j] == e2[j - |r1|];
      }
    }
  }

  lemma ReportedDay(reports: seq<seq<Metric>>, days: seq<Time>, t: Tracker, d: Time, report: seq<Metric>, segmentPrefix: string)
    requires Reported(reports, Expected(DaysSnaps(days, t), segmentPrefix))
    requires multiset(report) == multiset(DaySnapshot(t.backlog, t.wip, d, segmentPrefix))
    ensures Reported(reports + [report], Expected(DaysSnaps(days + [d], t), segmentPrefix))
  {
    DaysSnapsAppend(days, [d], t);
    MappedSnoc(DaysSnaps(days, t), Snap(d, t.backlog, t.wip), SnapshotOf(segmentPrefix));
    ReportedConcat(reports, Expected(DaysSnaps(days, t), segmentPrefix), [report], [DaySnapshot(t.backlog, t.wip, d, segmentPrefix)]);
  }

  lemma DaysFromStep(days: seq<Time>, from: Time, d: Time, to: Time)
    requires d < to && days + DaysFrom(d, to) == DaysFrom(from, to)
    ensures (days + [d]) + DaysFrom(d + DAY, to) == DaysFrom(from, to)
  {
    assert DaysFrom(d, to) == [d] + DaysFrom(d + DAY, to);
    ConcatAssoc(days, [d], DaysFrom(d + DAY, to));
  }

  lemma AppendReport(emitted: seq<Metric>, reports: seq<seq<Metric>>, report: seq<Metric>)
    ensures emitted + Sink.Flatten(reports) + report == emitted + Sink.Flatten(reports + [report])
    ensures |Sink.Flatten(reports)| + |report| == |Sink.Flatten(reports + [report])|
  {
    Sink.FlattenAppend(reports, report);
  }

  lemma AppendReports(emitted: seq<Metric>, reports: seq<seq<Metric>>, more: seq<seq<Metric>>)
    ensures emitted + Sink.Flatten(reports) + Sink.Flatten(more) == emitted + Sink.Flatten(reports + more)
    ensures |Sink.Flatten(reports)| + |Sink.Flatten(more)| == |Sink.Flatten(reports + more)|
  {
    Sink.FlattenConcat(reports, more);
  }

  lemma ReportsExtend(emitted: seq<Metric>, reports: seq<seq<Metric>>, written: seq<seq<Metric>>, snaps: seq<Snap>, more: seq<Snap>, segmentPrefix: string)
    requires Reported(reports, Expected(snaps, segmentPrefix)) && Reported(written, Expected(more, segmentPrefix))
    ensures Reported(reports + written, Expected(snaps + more, segmentPrefix))
    ensures emitted + Sink.Flatten(reports) + Sink.Flatten(written) == emitted + Sink.Flatten(reports + written)
    ensures |Sink.Flatten(reports)| + |Sink.Flatten(written)| == |Sink.Flatten(reports + written)|
  {
    AppendReports(emitted, reports, written);
    MappedConcat(snaps, more, SnapshotOf(segmentPrefix));
    ReportedConcat(reports, Expected(snaps, segmentPrefix), written, Expected(more, segmentPrefix));
  }

  lemma ReportedOne(report: seq<Metric>, snap: Snap, segmentPrefix: string)
    requires multiset(report) == multiset(DaySnapshot(snap.backlog, snap.wip, snap.day, segmentPrefix))
    ensures Reported([report], Expected([snap], segmentPrefix))
    ensures Sink.Flatten([report]) == report
  {
    MappedSnoc([], snap, SnapshotOf(segmentPrefix));
    assert [] + [snap] == [snap];
    assert [report][1..] == [];
  }

  /** Event days never decrease. */
  ghost predicate DaysAscending(events: seq<Event>)
  {
    forall i, j :: 0 <= i < j < |events| ==> DayOf(events[i].time) <= DayOf(events[j].time)
  }

  /** No event falls on the day of Go's zero time, which the cursor uses as
      "not set". */
  ghost predicate AfterZeroDay(events: seq<Event>)
  {
    forall i :: 0 <= i < |events| ==> DayOf(events[i].time) != ZERO_TIME
  }

  /** From a fresh generator, the run is fatal exactly when the events are
      not in ascending order of day; otherwise the cursor ends on the last
      event's day. */
  lemma {:induction false} TraceOk(t: Tracker, events: seq<Event>)
    requires t.currentDay == ZERO_TIME && AfterZeroDay(events)
    ensures Trace(t, events).Ok? <==> DaysAscending(events)
    ensures Trace(t, events).Fatal? ==> Trace(t, events).message == ORDER_ERROR
    ensures Trace(t, events).Ok? ==>
      Trace(t, events).value.0.currentDay == if events == [] then ZERO_TIME else DayOf(events[|events| - 1].time)
    decreases |events|
  {
    if events != [] {
      var n := |events| - 1;
      var init, last := events[..n], events[n];
      assert AfterZeroDay(init) by {
        assert forall i :: 0 <= i < n ==> init[i] == events[i];
      }
      TraceOk(t, init);
      TraceSnoc(t, events);
      if Trace(t, init).Ok? {
        StepOk(Trace(t, init).value.0, last);
      }
      if !DaysAscending(init) {
        var i, j :| 0 <= i < j < n && DayOf(init[i].time) > DayOf(init[j].time);
        assert init[i] == events[i] && init[j] == events[j];
      } else if n > 0 {
        var d0 := DayOf(init[n - 1].time);
        assert d0 != ZERO_TIME by {
          assert init[n - 1] == events[n - 1];
        }
        if DayOf(last.time) < d0 {
          assert events[n - 1] == init[n - 1];
        } else {
          forall i, j | 0 <= i < j < |events|
            ensures DayOf(events[i].time) <= DayOf(events[j].time)
          {
            assert i < n ==> events[i] == init[i];
            assert j < n ==> events[j] == init[j];
            if j == n && i < n - 1 {
              assert DayOf(init[i].time) <= DayOf(init[n - 1].time);
            }
          }
        }
      }
    }
  }

  /** What one accepted event does: the cursor moves to the event's day and
      the lists take the event in; the first event and an event of the
      cursor's day take no snapshot, an event of a later day takes one per
      day from the cursor up to the event's day, excluded, in ascending
      order and all of the lists as they were before the event. */
  lemma StepSnapshots(t: Tracker, evt: Event)
    requires Step(t, evt).Ok?
    ensures Step(t, evt).value.0 == Tracker(DayOf(evt.time), BacklogAfter(t.backlog, evt), WipAfter(t.wip, evt))
    ensures t.currentDay == ZERO_TIME || DayOf(evt.time) == t.currentDay ==> Step(t, evt).value.1 == []
    ensures t.currentDay != ZERO_TIME && DayOf(evt.time) != t.currentDay ==>
      var snaps := Step(t, evt).value.1;
      && snaps != []
      && (forall i :: 0 <= i < |snaps| ==>
            snaps[i] == Snap(t.currentDay + i * DAY, t.backlog, t.wip) && snaps[i].day < DayOf(evt.time))
      && t.currentDay + |snaps| * DAY >= DayOf(evt.time)
  {
    DaysFromSpec(t.currentDay, DayOf(evt.time));
  }

  /** With both lists empty, as before any event, a snapshot reports nothing. */
  lemma EmptySnapshot(day: Time, segmentPrefix: string)
    ensures DaySnapshot(map[], map[], day, segmentPrefix) == {}
  {
    forall bucket | bucket in BUCKET_NAMES
      ensures SegmentCounts(map[], day, bucket) == map[]
    {
      SegmentCountsEmpty(map[], day, bucket);
    }
  }

  /** A step fails exactly when the event's day is before the cursor's, with
      the ordering message; otherwise the cursor moves to the event's day. */
  lemma StepOk(t: Tracker, evt: Event)
    ensures Step(t, evt).Ok? <==> t.currentDay == ZERO_TIME || DayOf(evt.time) >= t.currentDay
    ensures Step(t, evt).Ok? ==> Step(t, evt).value.0.currentDay == DayOf(evt.time)
    ensures Step(t, evt).Fatal? ==> Step(t, evt).message == ORDER_ERROR
  {
  }

  /** The trace of a non-empty stream: that of all but the last event, then
      one step. */
  lemma TraceSnoc(t: Tracker, events: seq<Event>)
    requires events != []
    ensures var init, last := Trace(t, events[..|events| - 1]), events[|events| - 1];
      && (Trace(t, events).Ok? <==> init.Ok? && Step(init.value.0, last).Ok?)
      && (Trace(t, events).Ok? ==> Trace(t, events).value.0 == Step(init.value.0, last).value.0)
      && (Trace(t, events).Fatal? ==>
            Trace(t, events).message == if init.Fatal? then init.message else Step(init.value.0, last).message)
  {
  }

  /** The days from `a` to `b` then from `b` to `c` are the days from `a`
      to `c`, when `b` is a whole number of days after `a`. */
  lemma {:induction false} DaysFromJoin(a: Time, b: Time, c: Time)
    requires a <= b <= c && (b - a) % DAY == 0
    ensures DaysFrom(a, b) + DaysFrom(b, c) == DaysFrom(a, c)
    decreases b - a
  {
    if a < b {
      DaysFromJoin(a + DAY, b, c);
      assert DaysFrom(a, b) + DaysFrom(b, c) == [a] + (DaysFrom(a + DAY, b) + DaysFrom(b, c));
    }
  }

  /** Between two midnights there are as many days as their distance says. */
  lemma {:induction false} DaysFromCount(a: Time, b: Time)
    requires a <= b && (b - a) % DAY == 0
    ensures |DaysFrom(a, b)| == (b - a) / DAY
    decreases b - a
  {
    if a < b {
      DaysFromCount(a + DAY, b);
    }
  }

  lemma MidnightsApart(a: Time, b: Time)
    requires a % DAY == 0 && b % DAY == 0
    ensures (b - a) % DAY == 0
  {
    assert b - a == (b / DAY - a / DAY) * DAY;
  }

  ghost function DayOfSnap(snap: Snap): Time
  {
    snap.day
  }

  /** From a fresh generator and ascending events, the snapshots taken
      while reading the events are one per day, from the first event's day
      up to the last event's, excluded. */
  lemma {:induction false} TraceDays(t: Tracker, events: seq<Event>)
    requires t.currentDay == ZERO_TIME && AfterZeroDay(events) && DaysAscending(events) && events != []
    ensures Trace(t, events).Ok?
    ensures Trace(t, events).Ok? && Mapped(Trace(t, events).value.1, DayOfSnap) == DaysFrom(DayOf(events[0].time), DayOf(events[|events| - 1].time))
    decreases |events|
  {
    TraceOk(t, events);
    var n := |events| - 1;
    var init, last := events[..n], events[n];
    var first := DayOf(events[0].time);
    var lastDay := DayOf(last.time);
    if n == 0 {
      assert Trace(t, init) == Ok((t, []));
      assert Trace(t, events).value.1 == [];
    } else {
      assert AfterZeroDay(init) && DaysAscending(init) by {
        assert forall i :: 0 <= i < n ==> init[i] == events[i];
      }
      TraceDays(t, init);
      TraceOk(t, init);
      var (before, snaps) := Trace(t, init).value;
      var d0 := DayOf(init[n - 1].time);
      assert before.currentDay == d0 && init[0] == events[0] && init[n - 1] == events[n - 1];
      assert d0 != ZERO_TIME && first <= d0 <= lastDay;
      MidnightsApart(first, d0);
      var more := Step(before, last).value.1;
      assert Trace(t, events).value.1 == snaps + more;
      MappedConcat(snaps, more, DayOfSnap);
      if lastDay == d0 {
        assert more == [];
        assert DaysFrom(d0, lastDay) == [];
        DaysFromJoin(first, d0, lastDay);
      } else {
        assert more == DaysSnaps(DaysFrom(d0, lastDay), before);
        assert Mapped(more, DayOfSnap) == DaysFrom(d0, lastDay) by {
          forall i | 0 <= i < |more|
            ensures Mapped(more, DayOfSnap)[i] == DaysFrom(d0, lastDay)[i]
          {
            MappedAt(more, DayOfSnap, i);
          }
        }
        DaysFromJoin(first, d0, lastDay);
      }
    }
  }

  /** A run over ascending events writes one snapshot per day from the first
      event's day to the last event's, both included. */
  lemma SnapshotCount(t: Tracker, events: seq<Event>)
    requires t.currentDay == ZERO_TIME && AfterZeroDay(events) && DaysAscending(events) && events != []
    ensures Trace(t, events).Ok?
    ensures Trace(t, events).Ok? && |Trace(t, events).value.1| + 1 == (DayOf(events[|events| - 1].time) - DayOf(events[0].time)) / DAY + 1
  {
    var first, last := DayOf(events[0].time), DayOf(events[|events| - 1].time);
    TraceDays(t, events);
    var snaps := Trace(t, events).value.1;
    assert |snaps| == |DaysFrom(first, last)| by {
      assert |Mapped(snaps, DayOfSnap)| == |snaps|;
    }
    assert first <= last by {
      assert DaysAscending(events);
      if |events| > 1 {
        assert DayOf(events[0].time) <= DayOf(events[|events| - 1].time);
      }
    }
    MidnightsApart(first, last);
    DaysFromCount(first, last);
  }

  /** `IssuesAge`: the cursor day and the backlog and wip lists; the
      metrics it writes are appended to `emitted`. */
  class IssuesAge {
    var currentDay: Time
    var backlogIssues: map<string, IssueAge>
    var wipIssues: map<string, IssueAge>
    var emitted: seq<Metric>

    ghost function State(): Tracker
      reads this
    {
      Tracker(currentDay, backlogIssues, wipIssues)
    }

    /** `NewIssuesAge`: empty lists, the cursor at Go's zero time. */
    constructor ()
      ensures State() == Tracker(ZERO_TIME, map[], map[]) && emitted == []
    {
      currentDay := ZERO_TIME;
      backlogIssues := map[];
      wipIssues := map[];
      emitted := [];
    }

    /** `updateIssuesLists`. */
    method UpdateIssuesLists(evt: Event)
      modifies this`backlogIssues, this`wipIssues
      ensures backlogIssues == BacklogAfter(old(backlogIssues), evt)
      ensures wipIssues == WipAfter(old(wipIssues), evt)
    {
      if evt.valueFrom == BACKLOG {
        backlogIssues := backlogIssues - {evt.issueKey};
      } else if evt.valueFrom == WIP {
        wipIssues := wipIssues - {evt.issueKey};
      }
      if evt.valueTo == BACKLOG {
        backlogIssues := backlogIssues[evt.issueKey := IssueAge(evt.issueCreatedAt, evt.issueType, evt.segment)];
      } else if evt.valueTo == WIP {
        wipIssues := wipIssues[evt.issueKey := IssueAge(evt.time, evt.issueType, evt.segment)];
      }
    }

    /** `calculateAndPushMetricsForDay`: writes the snapshot of `day` and
        returns the number of metrics written. */
    method CalculateAndPushMetricsForDay(day: Time, segmentPrefix: string) returns (count: nat, report: seq<Metric>)
      modifies this`emitted
      ensures emitted == old(emitted) + report && count == |report|
      ensures multiset(report) == multiset(DaySnapshot(backlogIssues, wipIssues, day, segmentPrefix))
    {
      report := MetricsForDay(backlogIssues, wipIssues, day, segmentPrefix);
      emitted := emitted + report;
      count := |report|;
    }

    /** Writes the snapshot of every day from `from` up to `to`, excluded:
        the loop of `Generate` that catches up with a later event's day. */
    method PushDays(from: Time, to: Time, segmentPrefix: string) returns (count: nat, ghost reports: seq<seq<Metric>>)
      modifies this`emitted
      ensures emitted == old(emitted) + Sink.Flatten(reports) && count == |Sink.Flatten(reports)|
      ensures Reported(reports, Expected(DaysSnaps(DaysFrom(from, to), State()), segmentPrefix))
    {
      ghost var t := State();
      ghost var days: seq<Time> := [];
      reports := [];
      count := 0;
      var d := from;
      while d < to
        invariant t.backlog == backlogIssues && t.wip == wipIssues
        invariant days + DaysFrom(d, to) == DaysFrom(from, to)
        invariant emitted == old(emitted) + Sink.Flatten(reports) && count == |Sink.Flatten(reports)|
        invariant Reported(reports, Expected(DaysSnaps(days, t), segmentPrefix))
        decreases if d < to then to - d else 0
      {
        var n, report := CalculateAndPushMetricsForDay(d, segmentPrefix);
        AppendReport(old(emitted), reports, report);
        ReportedDay(reports, days, t, d, report, segmentPrefix);
        DaysFromStep(days, from, d, to);
        reports := reports + [report];
        count := count + n;
        days := days + [d];
        d := d + DAY;
      }
      assert days == DaysFrom(from, to) by {
        assert days + DaysFrom(d, to) == days;
      }
      assert State() == t;
    }

    /** The body of `Generate`'s loop: one event. `ok` is false for an
        event older than the cursor's day, which is fatal. `more` are the
        snapshots taken and `written` their metrics. */
    method ProcessEvent(evt: Event, segmentPrefix: string) returns (ok: bool, count: nat, ghost written: seq<seq<Metric>>, ghost more: seq<Snap>)
      modifies this
      ensures ok <==> Step(old(State()), evt).Ok?
      ensures ok ==> Step(old(State()), evt).value == (State(), more)
      ensures !ok ==> written == [] && State() == old(State())
      ensures emitted == old(emitted) + Sink.Flatten(written) && count == |Sink.Flatten(written)|
      ensures Reported(written, Expected(more, segmentPrefix))
    {
      ghost var before := State();
      var evtDay := DayOf(evt.time);
      written, more := [], [];
      count := 0;
      ok := true;
      if currentDay == ZERO_TIME {
        currentDay := evtDay;
        UpdateIssuesLists(evt);
      } else if evtDay == currentDay {
        UpdateIssuesLists(evt);
      } else if evtDay > currentDay {
        count, written := PushDays(currentDay, evtDay, segmentPrefix);
        more := DaysSnaps(DaysFrom(before.currentDay, evtDay), before);
        currentDay := evtDay;
        UpdateIssuesLists(evt);
      } else {
        ok := false;
      }
    }

    /** The loop of `Generate` over the events: `ok` is false when an event
        is older than the cursor's day; the loop then stops at that event,
        `stop`, having written only the snapshots of the events before it. */
    method ProcessEvents(events: seq<Event>, segmentPrefix: string)
      returns (ok: bool, count: nat, ghost reports: seq<seq<Metric>>, ghost snaps: seq<Snap>, ghost stop: nat)
      modifies this
      ensures ok <==> Trace(old(State()), events).Ok?
      ensures ok ==> Trace(old(State()), events).value == (State(), snaps)
      ensures !ok ==>
        && stop < |events|
        && Trace(old(State()), events[..stop]) == Ok((State(), snaps))
        && Trace(old(State()), events[..stop + 1]).Fatal?
      ensures emitted == old(emitted) + Sink.Flatten(reports) && count == |Sink.Flatten(reports)|
      ensures Reported(reports, Expected(snaps, segmentPrefix))
    {
      ghost var start := State();
      snaps := [];
      reports := [];
      count := 0;
      for i := 0 to |events|
        invariant Trace(start, events[..i]) == Ok((State(), snaps))
        invariant emitted == old(emitted) + Sink.Flatten(reports) && count == |Sink.Flatten(reports)|
        invariant Reported(reports, Expected(snaps, segmentPrefix))
      {
        ghost var before := State();
        var stepOk, n, written, more := ProcessEvent(events[i], segmentPrefix);
        if !stepOk {
          TraceFailsAt(start, events, i, before, snaps);
          assert events[..i + 1][..i] == events[..i];
          return false, count, reports, snaps, i;
        }
        assert Trace(start, events[..i + 1]) == Ok((State(), snaps + more)) by {
          TraceNext(start, events, i, before, snaps, State(), more);
        }
        assert && Reported(reports + written, Expected(snaps + more, segmentPrefix))
               && emitted == old(emitted) + Sink.Flatten(reports + written)
               && count + n == |Sink.Flatten(reports + written)| by {
          ReportsExtend(old(emitted), reports, written, snaps, more, segmentPrefix);
        }
        reports := reports + written;
        snaps := snaps + more;
        count := count + n;
      }
      assert events[..|events|] == events;
      ok, stop := true, |events|;
    }

    /** `Generate`: processes the events, taking the snapshots the days
        require, then a last snapshot for the cursor's day. Returns the
        number of metrics written, or the fatal error of an event older than
        the cursor's day. `reports` holds the metrics of each snapshot. */
    method Generate(events: seq<Event>, segmentPrefix: string)
      returns (r: Result<nat>, ghost reports: seq<seq<Metric>>, ghost stop: nat)
      modifies this
      ensures r.Fatal? <==> Trace(old(State()), events).Fatal?
      ensures r.Fatal? ==> r.message == ORDER_ERROR
      ensures r.Fatal? ==>
        && stop < |events|
        && Trace(old(State()), events[..stop]).Ok?
        && Trace(old(State()), events[..stop + 1]).Fatal?
        && emitted == old(emitted) + Sink.Flatten(reports)
        && Reported(reports, Expected(Trace(old(State()), events[..stop]).value.1, segmentPrefix))
      ensures r.Ok? ==>
        var (final, snaps) := Trace(old(State()), events).value;
        && State() == final
        && emitted == old(emitted) + Sink.Flatten(reports)
        && r.value == |Sink.Flatten(reports)|
        && Reported(reports, Expected(snaps + [Snap(final.currentDay, final.backlog, final.wip)], segmentPrefix))
    {
      var ok, countMetrics;
      ghost var snaps;
      ok, countMetrics, reports, snaps, stop := ProcessEvents(events, segmentPrefix);
      if !ok {
        return Fatal(ORDER_ERROR), reports, stop;
      }
      var n, report := CalculateAndPushMetricsForDay(currentDay, segmentPrefix);
      ReportedOne(report, Snap(currentDay, backlogIssues, wipIssues), segmentPrefix);
      ReportsExtend(old(emitted), reports, [report], snaps, [Snap(currentDay, backlogIssues, wipIssues)], segmentPrefix);
      reports := reports + [report];
      countMetrics := countMetrics + n;
      r := Ok(countMetrics);
    }
  }
}
