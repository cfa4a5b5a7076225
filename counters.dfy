/** The Counters generator: counts unresolved issues by stage (the
    cumulative flow diagram: `cfd_backlog`, `cfd_wip`) and work-in-progress
    issues by type (`wip_<type>`), and after every event reports the whole
    counter table. */
module CountersMetric {
  import opened Store
  import opened Sums

  const CFD_BACKLOG: string := "cfd_backlog"
  const CFD_WIP: string := "cfd_wip"

  /** The counter of work-in-progress issues of one type. */
  function WipCounter(issueType: string): (name: string)
    ensures IsWipCounter(name) && name[4..] == issueType
  {
    "wip_" + issueType
  }

  predicate IsWipCounter(name: string)
  {
    |name| >= 4 && name[..4] == "wip_"
  }

  lemma WipCounterIsNotCfd(name: string)
    requires IsWipCounter(name)
    ensures name != CFD_BACKLOG && name != CFD_WIP
  {
    assert name[0] == 'w';
    assert CFD_BACKLOG[0] == 'c' && CFD_WIP[0] == 'c';
  }

  /** The counters an issue of type `issueType` is counted in while at `stage`:
      done, resolved and the empty stage are counted nowhere. */
  function CountedIn(stage: string, issueType: string): set<string>
  {
    if stage == BACKLOG then {CFD_BACKLOG}
    else if stage == WIP then {CFD_WIP, WipCounter(issueType)}
    else {}
  }

  function CountsAt(stage: string, issueType: string, name: string): int
  {
    if name in CountedIn(stage, issueType) then 1 else 0
  }

  /** Every counter an issue at `stage` is counted in, moved by `delta`;
      a counter touched for the first time starts from zero. */
  ghost function Moved(counters: map<string, int>, stage: string, issueType: string, delta: int): (r: map<string, int>)
    ensures r.Keys == counters.Keys + CountedIn(stage, issueType)
    ensures forall name :: Get(r, name) == Get(counters, name) + delta * CountsAt(stage, issueType, name)
  {
    map name | name in counters.Keys + CountedIn(stage, issueType) ::
      Get(counters, name) + delta * CountsAt(stage, issueType, name)
  }

  /** The two updates `updateCounters` makes for one stage. */
  lemma MovedBacklog(counters: map<string, int>, issueType: string, delta: int)
    ensures Moved(counters, BACKLOG, issueType, delta) == counters[CFD_BACKLOG := Get(counters, CFD_BACKLOG) + delta]
  {
  }

  lemma MovedWip(counters: map<string, int>, issueType: string, delta: int)
    ensures
      var bumped := counters[CFD_WIP := Get(counters, CFD_WIP) + delta];
      Moved(counters, WIP, issueType, delta)
        == bumped[WipCounter(issueType) := Get(bumped, WipCounter(issueType)) + delta]
  {
    WipCounterIsNotCfd(WipCounter(issueType));
  }

  lemma MovedElsewhere(counters: map<string, int>, stage: string, issueType: string, delta: int)
    requires stage != BACKLOG && stage != WIP
    ensures Moved(counters, stage, issueType, delta) == counters
  {
  }

  /** The counter table after an issue of type `issueType` leaves `from` and
      enters `to`: each counter it leaves loses one, each it enters gains one. */
  ghost function CountersAfter(counters: map<string, int>, from: string, to: string, issueType: string): map<string, int>
  {
    Moved(Moved(counters, from, issueType, -1), to, issueType, 1)
  }

  /** The generator's state: the counter table and each issue's last status. */
  datatype State = State(counters: map<string, int>, statuses: map<string, string>)

  /** The status recorded for an issue, "" if it was never seen. */
  function StatusWas(statuses: map<string, string>, issueKey: string): (r: string)
    ensures issueKey in statuses ==> r == statuses[issueKey]
    ensures issueKey !in statuses ==> r == ""
  {
    if issueKey in statuses then statuses[issueKey] else ""
  }

  /** One event: the counters move from the recorded status (not the event's
      `valueFrom`) to the event's `valueTo`, which becomes the recorded status. */
  ghost function Step(s: State, evt: Event): (r: State)
    ensures r.counters.Keys ==
      s.counters.Keys + CountedIn(StatusWas(s.statuses, evt.issueKey), evt.issueType) + CountedIn(evt.valueTo, evt.issueType)
    ensures r.statuses.Keys == s.statuses.Keys + {evt.issueKey} && r.statuses[evt.issueKey] == evt.valueTo
  {
    State(
      CountersAfter(s.counters, StatusWas(s.statuses, evt.issueKey), evt.valueTo, evt.issueType),
      s.statuses[evt.issueKey := evt.valueTo])
  }

  ghost function Run(s: State, events: seq<Event>): (r: State)
    ensures r.statuses.Keys == s.statuses.Keys + IssueKeys(events)
    decreases |events|
  {
    if events == [] then s else IssueKeysSnoc(events); Step(Run(s, events[..|events| - 1]), events[|events| - 1])
  }

  /** The number of metrics reported while processing `events`: after each
      event, one per counter then in the table. */
  ghost function Pushed(s: State, events: seq<Event>): nat
    decreases |events|
  {
    if events == [] then 0 else Pushed(s, events[..|events| - 1]) + |Run(s, events).counters|
  }

  /** `Run` and `Pushed` unfold by one event at a time. */
  lemma RunSnoc(s: State, events: seq<Event>, i: nat)
    requires i < |events|
    ensures Run(s, events[..i + 1]) == Step(Run(s, events[..i]), events[i])
    ensures Pushed(s, events[..i + 1]) == Pushed(s, events[..i]) + |Run(s, events[..i + 1]).counters|
  {
    assert events[..i + 1][..i] == events[..i];
  }

  /** The issues whose recorded status is `stage`. */
  ghost function InStage(statuses: map<string, string>, stage: string): set<string>
  {
    set k | k in statuses && statuses[k] == stage
  }

  /** The per-type work-in-progress counters. */
  ghost function WipCounters(counters: map<string, int>): map<string, int>
  {
    counters - {CFD_BACKLOG, CFD_WIP}
  }

  /** What the counters mean: `cfd_backlog` and `cfd_wip` count the issues
      recorded in backlog and in wip, the per-type counters add up to
      `cfd_wip`, and no other counter exists. */
  ghost predicate Invariant(s: State)
  {
    && Get(s.counters, CFD_BACKLOG) == |InStage(s.statuses, BACKLOG)|
    && Get(s.counters, CFD_WIP) == |InStage(s.statuses, WIP)|
    && Sum(WipCounters(s.counters)) == Get(s.counters, CFD_WIP)
    && forall name :: name in s.counters ==> name == CFD_BACKLOG || name == CFD_WIP || IsWipCounter(name)
  }

  lemma InStageUpdate(statuses: map<string, string>, key: string, to: string, stage: string)
    requires stage != ""
    ensures |InStage(statuses[key := to], stage)|
         == |InStage(statuses, stage)| - (if StatusWas(statuses, key) == stage then 1 else 0) + (if to == stage then 1 else 0)
  {
    var before, after := InStage(statuses, stage), InStage(statuses[key := to], stage);
    var others := before - {key};
    assert key !in others;
    assert after - {key} == others;
    if to == stage {
      assert key in after;
      assert after == others + {key};
    } else {
      assert after == others;
    }
    if StatusWas(statuses, key) == stage {
      assert key in before;
      assert before == others + {key};
    } else {
      assert before == others;
    }
  }

  /** The per-type counters move exactly as `cfd_wip` does. */
  lemma WipCountersMoved(counters: map<string, int>, stage: string, issueType: string, delta: int)
    ensures Sum(WipCounters(Moved(counters, stage, issueType, delta)))
         == Sum(WipCounters(counters)) + (if stage == WIP then delta else 0)
  {
    var after := Moved(counters, stage, issueType, delta);
    var name := WipCounter(issueType);
    WipCounterIsNotCfd(name);
    if stage == WIP {
      var v := Get(counters, name) + delta;
      assert WipCounters(after) == WipCounters(counters)[name := v];
      SumUpdate(WipCounters(counters), name, v);
      assert Get(WipCounters(counters), name) == Get(counters, name);
    } else {
      assert WipCounters(after) == WipCounters(counters);
    }
  }

  /** A stage counter follows the number of issues recorded at its stage. */
  lemma StepKeepsStageCount(s: State, evt: Event, stage: string, counter: string)
    requires (stage, counter) == (BACKLOG, CFD_BACKLOG) || (stage, counter) == (WIP, CFD_WIP)
    requires Get(s.counters, counter) == |InStage(s.statuses, stage)|
    ensures Get(Step(s, evt).counters, counter) == |InStage(Step(s, evt).statuses, stage)|
  {
    var was := StatusWas(s.statuses, evt.issueKey);
    var left := Moved(s.counters, was, evt.issueType, -1);
    assert Get(left, counter) == Get(s.counters, counter) - (if was == stage then 1 else 0) by {
      WipCounterIsNotCfd(WipCounter(evt.issueType));
      assert CountsAt(was, evt.issueType, counter) == (if was == stage then 1 else 0);
    }
    assert Get(Step(s, evt).counters, counter) == Get(left, counter) + (if evt.valueTo == stage then 1 else 0) by {
      WipCounterIsNotCfd(WipCounter(evt.issueType));
      assert CountsAt(evt.valueTo, evt.issueType, counter) == (if evt.valueTo == stage then 1 else 0);
    }
    InStageUpdate(s.statuses, evt.issueKey, evt.valueTo, stage);
  }

  lemma StepKeepsWipSum(s: State, evt: Event)
    requires Sum(WipCounters(s.counters)) == Get(s.counters, CFD_WIP)
    ensures Sum(WipCounters(Step(s, evt).counters)) == Get(Step(s, evt).counters, CFD_WIP)
  {
    var was := StatusWas(s.statuses, evt.issueKey);
    var left := Moved(s.counters, was, evt.issueType, -1);
    WipCounterIsNotCfd(WipCounter(evt.issueType));
    WipCountersMoved(s.counters, was, evt.issueType, -1);
    WipCountersMoved(left, evt.valueTo, evt.issueType, 1);
  }

  lemma StepKeepsCounterNames(s: State, evt: Event)
    requires forall name :: name in s.counters ==> name == CFD_BACKLOG || name == CFD_WIP || IsWipCounter(name)
    ensures forall name :: name in Step(s, evt).counters ==> name == CFD_BACKLOG || name == CFD_WIP || IsWipCounter(name)
  {
    var was := StatusWas(s.statuses, evt.issueKey);
    var left := Moved(s.counters, was, evt.issueType, -1);
    assert Step(s, evt).counters.Keys == s.counters.Keys + CountedIn(was, evt.issueType) + CountedIn(evt.valueTo, evt.issueType);
  }

  /** Every event keeps the meaning of the counters. */
  lemma StepPreservesInvariant(s: State, evt: Event)
    requires Invariant(s)
    ensures Invariant(Step(s, evt))
  {
    StepKeepsStageCount(s, evt, BACKLOG, CFD_BACKLOG);
    StepKeepsStageCount(s, evt, WIP, CFD_WIP);
    StepKeepsWipSum(s, evt);
    StepKeepsCounterNames(s, evt);
  }

  /** From the empty tables, and after any events, `cfd_backlog` and
      `cfd_wip` count the issues recorded in those stages (so they are never
      negative) and the per-type counters add up to `cfd_wip`. */
  lemma {:induction false} RunPreservesInvariant(s: State, events: seq<Event>)
    requires Invariant(s)
    ensures Invariant(Run(s, events))
    ensures Get(Run(s, events).counters, CFD_BACKLOG) >= 0 && Get(Run(s, events).counters, CFD_WIP) >= 0
    decreases |events|
  {
    if events != [] {
      RunPreservesInvariant(s, events[..|events| - 1]);
      StepPreservesInvariant(Run(s, events[..|events| - 1]), events[|events| - 1]);
    }
  }

  lemma InitialInvariant()
    ensures Invariant(State(map[], map[]))
  {
    SumEmpty(WipCounters(map[]));
  }

  /** Counters are created on first use and never removed, so a counter
      that drops to zero keeps being reported. */
  lemma {:induction false} RunKeepsCounters(s: State, events: seq<Event>)
    ensures s.counters.Keys <= Run(s, events).counters.Keys
    decreases |events|
  {
    if events != [] {
      RunKeepsCounters(s, events[..|events| - 1]);
    }
  }

  /** A per-type counter is decremented with the type of the event that takes
      the issue out of wip: an issue whose type changed while in wip drives
      the counter of its new type below zero. */
  lemma WipTypeCounterCanGoNegative()
    ensures
      var start := Event(0, "status_changed", "X", "bug", "tribe_a", BACKLOG, WIP, 0);
      var finish := Event(DAY, "status_changed", "X", "product", "tribe_a", WIP, DONE, 0);
      Get(Run(State(map[], map[]), [start, finish]).counters, WipCounter("product")) == -1
  {
    var start := Event(0, "status_changed", "X", "bug", "tribe_a", BACKLOG, WIP, 0);
    var finish := Event(DAY, "status_changed", "X", "product", "tribe_a", WIP, DONE, 0);
    var s1 := Step(State(map[], map[]), start);
    assert [start, finish][..1] == [start];
    assert [start][..0] == [];
    WipCounterIsNotCfd(WipCounter("product"));
    WipCounterIsNotCfd(WipCounter("bug"));
    assert WipCounter("product") != WipCounter("bug") by {
      assert WipCounter("product")[4..] != WipCounter("bug")[4..];
    }
    assert Run(State(map[], map[]), [start]) == s1;
    assert Run(State(map[], map[]), [start, finish]) == Step(s1, finish);
    assert StatusWas(s1.statuses, "X") == WIP;
    var left := Moved(map[], "", "bug", -1);
    assert Get(left, WipCounter("product")) == 0;
    assert Get(s1.counters, WipCounter("product")) == 0;
    var s2 := Step(s1, finish);
    assert Get(Moved(s1.counters, WIP, "product", -1), WipCounter("product")) == -1;
  }

  /** The metric reporting one counter. */
  function CounterMetric(name: string, count: int, t: Time, segment: string): Metric
  {
    Metric(t, "counter/" + name, segment, count as real, "")
  }

  /** The metrics reporting the counters `names` of the table. */
  ghost function SnapshotOf(counters: map<string, int>, names: set<string>, t: Time, segment: string): set<Metric>
    requires names <= counters.Keys
  {
    set name | name in names :: CounterMetric(name, counters[name], t, segment)
  }

  /** The full snapshot of the counter table: one metric per counter. */
  ghost function Snapshot(counters: map<string, int>, t: Time, segment: string): set<Metric>
  {
    SnapshotOf(counters, counters.Keys, t, segment)
  }

  /** Everything reported while processing `events`: after each event, the
      snapshot of the counter table at that event's time. */
  ghost function Reports(s: State, events: seq<Event>, segment: string): multiset<Metric>
    decreases |events|
  {
    if events == [] then multiset{}
    else
      var last := events[|events| - 1];
      Reports(s, events[..|events| - 1], segment) + multiset(Snapshot(Run(s, events).counters, last.time, segment))
  }

  lemma ReportsSnoc(s: State, events: seq<Event>, i: nat, segment: string)
    requires i < |events|
    ensures Reports(s, events[..i + 1], segment)
         == Reports(s, events[..i], segment) + multiset(Snapshot(Run(s, events[..i + 1]).counters, events[i].time, segment))
  {
    assert events[..i + 1][..i] == events[..i];
  }

  lemma SnapshotAdd(counters: map<string, int>, names: set<string>, name: string, t: Time, segment: string)
    requires names <= counters.Keys && name in counters && name !in names
    ensures CounterMetric(name, counters[name], t, segment) !in SnapshotOf(counters, names, t, segment)
    ensures SnapshotOf(counters, names + {name}, t, segment)
         == SnapshotOf(counters, names, t, segment) + {CounterMetric(name, counters[name], t, segment)}
  {
    forall other | other in names
      ensures CounterMetric(other, counters[other], t, segment) != CounterMetric(name, counters[name], t, segment)
    {
      PrefixInjective("counter/", other, name);
    }
  }

  /** The loop of `pushMetrics`: visits the counter table in an unspecified
      order and reports each counter exactly once, zero-valued ones included. */
  method CounterMetrics(counters: map<string, int>, t: Time, segment: string) returns (out: seq<Metric>)
    ensures multiset(out) == multiset(Snapshot(counters, t, segment))
    ensures |out| == |counters|
  {
    out := [];
    var left := counters.Keys;
    ghost var done: set<string> := {};
    while left != {}
      invariant left <= counters.Keys && done == counters.Keys - left
      invariant multiset(out) == multiset(SnapshotOf(counters, done, t, segment))
      invariant |out| + |left| == |counters|
      decreases |left|
    {
      var name :| name in left;
      SnapshotAdd(counters, done, name, t, segment);
      out := out + [CounterMetric(name, counters[name], t, segment)];
      left := left - {name};
      done := done + {name};
    }
    assert done == counters.Keys;
  }

  /** `Counters`: the counter table and each issue's last status; the
      metrics it writes are appended to `emitted`. */
  class Counters {
    var counters: map<string, int>
    var statuses: map<string, string>
    var emitted: seq<Metric>

    constructor ()
      ensures counters == map[] && statuses == map[] && emitted == []
      ensures Invariant(State(counters, statuses))
    {
      counters := map[];
      statuses := map[];
      emitted := [];
      InitialInvariant();
    }

    /** `Generate`: for each event, records its status, moves the counters
        and reports the whole table; returns the number of metrics written. */
    method Generate(events: seq<Event>, segmentPrefix: string) returns (countMetrics: nat)
      modifies this
      ensures State(counters, statuses) == Run(old(State(counters, statuses)), events)
      ensures countMetrics == Pushed(old(State(counters, statuses)), events)
      ensures |emitted| == |old(emitted)| + countMetrics && emitted[..|old(emitted)|] == old(emitted)
      ensures multiset(emitted[|old(emitted)|..]) == Reports(old(State(counters, statuses)), events, segmentPrefix)
    {
      ghost var start := State(counters, statuses);
      ghost var pushed: seq<Metric> := [];
      countMetrics := 0;
      for i := 0 to |events|
        invariant State(counters, statuses) == Run(start, events[..i])
        invariant countMetrics == Pushed(start, events[..i])
        invariant emitted == old(emitted) + pushed && |pushed| == countMetrics
        invariant multiset(pushed) == Reports(start, events[..i], segmentPrefix)
      {
        RunSnoc(start, events, i);
        ReportsSnoc(start, events, i, segmentPrefix);
        var n;
        ghost var written;
        n, written := ProcessEvent(events[i], segmentPrefix);
        ConcatAssoc(old(emitted), pushed, written);
        pushed := pushed + written;
        countMetrics := countMetrics + n;
      }
      assert events[..|events|] == events;
      assert emitted[..|old(emitted)|] == old(emitted);
      assert emitted[|old(emitted)|..] == pushed;
    }

    /** The body of the event loop of `Generate`. */
    method ProcessEvent(evt: Event, segmentPrefix: string) returns (n: nat, ghost written: seq<Metric>)
      modifies this
      ensures State(counters, statuses) == Step(old(State(counters, statuses)), evt)
      ensures n == |counters| == |written| && emitted == old(emitted) + written
      ensures multiset(written) == multiset(Snapshot(counters, evt.time, segmentPrefix))
    {
      var statusWas := if evt.issueKey in statuses then statuses[evt.issueKey] else "";
      statuses := statuses[evt.issueKey := evt.valueTo];
      UpdateCounters(statusWas, evt.valueTo, evt.issueType);
      n := PushMetrics(evt.time, segmentPrefix);
      written := emitted[|old(emitted)|..];
      assert emitted == old(emitted) + written;
    }

    /** `updateCounters`: decrements the counters of the stage left and
        increments those of the stage entered. */
    method UpdateCounters(from: string, to: string, issueType: string)
      modifies this`counters
      ensures counters == CountersAfter(old(counters), from, to, issueType)
    {
      Shift(from, issueType, -1);
      Shift(to, issueType, 1);
    }

    /** One of the two symmetric branches of `updateCounters`: moves the
        counters of `stage` by `delta`. */
    method Shift(stage: string, issueType: string, delta: int)
      modifies this`counters
      ensures counters == Moved(old(counters), stage, issueType, delta)
    {
      if stage == BACKLOG {
        MovedBacklog(counters, issueType, delta);
        counters := counters[CFD_BACKLOG := Get(counters, CFD_BACKLOG) + delta];
      } else if stage == WIP {
        MovedWip(counters, issueType, delta);
        counters := counters[CFD_WIP := Get(counters, CFD_WIP) + delta];
        counters := counters[WipCounter(issueType) := Get(counters, WipCounter(issueType)) + delta];
      } else {
        MovedElsewhere(counters, stage, issueType, delta);
      }
    }

    /** `pushMetrics`: writes one metric per counter. */
    method PushMetrics(t: Time, segment: string) returns (count: nat)
      modifies this`emitted
      ensures count == |counters|
      ensures |emitted| == |old(emitted)| + count && emitted[..|old(emitted)|] == old(emitted)
      ensures multiset(emitted[|old(emitted)|..]) == multiset(Snapshot(counters, t, segment))
    {
      var out := CounterMetrics(counters, t, segment);
      emitted := emitted + out;
      assert emitted[|old(emitted)|..] == out;
      count := |out|;
    }
  }
}
