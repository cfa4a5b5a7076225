/** The LeadAndCycleTime generator: records, for every issue, a lead period
    (first event to "resolved") and a cycle period ("wip" to "done"), and
    reports the length of each complete period once the stream has ended. */
module LeadAndCycleTimeMetric {
  import opened Store
  import Sink

  const LEAD_TIME: string := "lead_time"
  const CYCLE_TIME: string := "cycle_time"

  /** A period whose ends may not be known yet. */
  datatype Period = Period(startSet: bool, endSet: bool, start: Time, end: Time)

  /** The zero period: neither end known. */
  const NO_PERIOD: Period := Period(false, false, ZERO_TIME, ZERO_TIME)

  /** The cycle and lead periods of every issue seen. */
  datatype Periods = Periods(cycle: map<string, Period>, lead: map<string, Period>)

  /** Reading a period of an issue absent from the map gives the zero period. */
  function PeriodOf(m: map<string, Period>, key: string): Period
  {
    if key in m then m[key] else NO_PERIOD
  }

  /** Both maps hold the same issues, and every lead period has its start. */
  ghost predicate WellFormed(p: Periods)
  {
    && p.cycle.Keys == p.lead.Keys
    && forall k :: k in p.lead ==> p.lead[k].startSet
  }

  /** An issue seen for the first time gets an empty cycle period and a lead
      period starting at the event. */
  function FirstSight(p: Periods, evt: Event): (r: Periods)
    ensures evt.issueKey in p.cycle ==> r == p
    ensures evt.issueKey !in p.cycle ==>
      && r.cycle == p.cycle[evt.issueKey := NO_PERIOD]
      && r.lead.Keys == p.lead.Keys + {evt.issueKey}
      && r.lead[evt.issueKey].startSet && !r.lead[evt.issueKey].endSet && r.lead[evt.issueKey].start == evt.time
  {
    var key := evt.issueKey;
    if key !in p.cycle
    then Periods(p.cycle[key := NO_PERIOD], p.lead[key := Period(true, false, evt.time, ZERO_TIME)])
    else p
  }

  /** The stage the event moves to updates the periods of its issue. */
  function ApplyStage(p: Periods, evt: Event): (r: Periods)
    ensures p.cycle.Keys <= r.cycle.Keys <= p.cycle.Keys + {evt.issueKey}
    ensures p.lead.Keys <= r.lead.Keys <= p.lead.Keys + {evt.issueKey}
    ensures forall k :: k != evt.issueKey ==>
      PeriodOf(r.cycle, k) == PeriodOf(p.cycle, k) && PeriodOf(r.lead, k) == PeriodOf(p.lead, k)
  {
    var key := evt.issueKey;
    var c := PeriodOf(p.cycle, key);
    var l := PeriodOf(p.lead, key);
    if evt.valueTo == WIP then
      if !c.startSet then p.(cycle := p.cycle[key := c.(startSet := true, start := evt.time)]) else p
    else if evt.valueTo == DONE then
      p.(cycle := p.cycle[key := c.(endSet := true, end := evt.time)])
    else if evt.valueTo == RESOLVED then
      p.(lead := p.lead[key := l.(endSet := true, end := evt.time)])
    else
      p
  }

  /** One event: first sight of its issue, then its stage. */
  function Absorb(p: Periods, evt: Event): (r: Periods)
    ensures r.cycle.Keys == p.cycle.Keys + {evt.issueKey}
    ensures forall k :: k != evt.issueKey ==>
      PeriodOf(r.cycle, k) == PeriodOf(p.cycle, k) && PeriodOf(r.lead, k) == PeriodOf(p.lead, k)
  {
    ApplyStage(FirstSight(p, evt), evt)
  }

  function Fold(p: Periods, events: seq<Event>): (r: Periods)
    ensures r.cycle.Keys == p.cycle.Keys + IssueKeys(events)
    decreases |events|
  {
    if events == [] then p else IssueKeysSnoc(events); Absorb(Fold(p, events[..|events| - 1]), events[|events| - 1])
  }

  /** `periodDurationInDays`: the length of a period in days, when both ends
      are known. */
  function PeriodDurationInDays(p: Period): (r: (bool, real))
    ensures r.0 <==> p.startSet && p.endSet
    ensures !r.0 ==> r.1 == 0.0
    ensures r.0 ==> r.1 * (DAY as real) == Sub(p.end, p.start) as real
  {
    if !p.startSet || !p.endSet then (false, 0.0)
    else (true, (Sub(p.end, p.start) as real) / (DAY as real))
  }

  /** True when `ms` holds a metric of the given name about the given issue. */
  ghost predicate Reports(ms: seq<Metric>, name: string, key: string)
  {
    exists i :: 0 <= i < |ms| && ms[i].name == name && ms[i].comment == key
  }

  /** The metrics written for one issue at the end of the stream: its lead
      time, then its cycle time, each only when the period is complete. */
  function KeyMetrics(p: Periods, key: string, segmentPrefix: string): (ms: seq<Metric>)
    ensures forall i :: 0 <= i < |ms| ==>
      ms[i].comment == key && ms[i].segment == segmentPrefix && (ms[i].name == LEAD_TIME || ms[i].name == CYCLE_TIME)
    ensures forall i :: 0 <= i < |ms| && ms[i].name == LEAD_TIME ==>
      ms[i].time == PeriodOf(p.lead, key).end && ms[i].value == PeriodDurationInDays(PeriodOf(p.lead, key)).1
    ensures forall i :: 0 <= i < |ms| && ms[i].name == CYCLE_TIME ==>
      ms[i].time == PeriodOf(p.cycle, key).end && ms[i].value == PeriodDurationInDays(PeriodOf(p.cycle, key)).1
    ensures Reports(ms, LEAD_TIME, key) <==> PeriodOf(p.lead, key).startSet && PeriodOf(p.lead, key).endSet
    ensures Reports(ms, CYCLE_TIME, key) <==> PeriodOf(p.cycle, key).startSet && PeriodOf(p.cycle, key).endSet
  {
    var lead, cycle := PeriodOf(p.lead, key), PeriodOf(p.cycle, key);
    var (leadOk, leadDays) := PeriodDurationInDays(lead);
    var (cycleOk, cycleDays) := PeriodDurationInDays(cycle);
    var ms := (if leadOk then [Metric(lead.end, LEAD_TIME, segmentPrefix, leadDays, key)] else []) +
      (if cycleOk then [Metric(cycle.end, CYCLE_TIME, segmentPrefix, cycleDays, key)] else []);
    assert LEAD_TIME != CYCLE_TIME by { assert LEAD_TIME[0] != CYCLE_TIME[0]; }
    assert leadOk ==> ms[0].name == LEAD_TIME;
    assert cycleOk ==> ms[|ms| - 1].name == CYCLE_TIME;
    ms
  }

  /** The metrics written for the issues taken in the given order. */
  function Emissions(p: Periods, order: seq<string>, segmentPrefix: string): seq<Metric>
    decreases |order|
  {
    if order == [] then []
    else Emissions(p, order[..|order| - 1], segmentPrefix) + KeyMetrics(p, order[|order| - 1], segmentPrefix)
  }

  lemma EmissionsSnoc(p: Periods, order: seq<string>, key: string, segmentPrefix: string)
    ensures Emissions(p, order + [key], segmentPrefix) == Emissions(p, order, segmentPrefix) + KeyMetrics(p, key, segmentPrefix)
  {
    assert (order + [key])[..|order|] == order;
  }

  /** `order` lists every key of `keys` exactly once: one iteration order of
      a Go map. */
  ghost predicate Enumerates(order: seq<string>, keys: set<string>)
  {
    (forall k :: k in keys <==> k in order) && Distinct(order)
  }

  ghost predicate Distinct(order: seq<string>)
  {
    forall i, j :: 0 <= i < j < |order| ==> order[i] != order[j]
  }

  /** `todo` holds the keys not yet listed in `order`, which lists each of
      the others once. */
  ghost predicate Remaining(todo: set<string>, order: seq<string>, keys: set<string>)
  {
    && todo <= keys
    && (forall k :: k in keys ==> (k in todo <==> k !in order))
    && (forall k :: k in order ==> k in keys)
    && Distinct(order)
  }

  lemma RemainingStep(todo: set<string>, order: seq<string>, keys: set<string>, k: string)
    requires Remaining(todo, order, keys) && k in todo
    ensures Remaining(todo - {k}, order + [k], keys)
  {
  }

  lemma RemainingDone(order: seq<string>, keys: set<string>)
    requires Remaining({}, order, keys)
    ensures Enumerates(order, keys)
  {
  }

  /** The per-stage effect of an event on an issue already seen: wip starts
      the cycle only if it has not started, done ends the cycle and resolved
      ends the lead period (both overwriting an earlier end), and any other
      stage changes nothing. */
  lemma AbsorbStages(p: Periods, evt: Event)
    requires WellFormed(p) && evt.issueKey in p.cycle
    ensures var k, r := evt.issueKey, Absorb(p, evt);
      && r.cycle.Keys == p.cycle.Keys && r.lead.Keys == p.lead.Keys
      && (evt.valueTo == WIP ==>
            r.lead == p.lead &&
            r.cycle[k] == (if p.cycle[k].startSet then p.cycle[k] else p.cycle[k].(startSet := true, start := evt.time)))
      && (evt.valueTo == DONE ==> r.lead == p.lead && r.cycle[k] == p.cycle[k].(endSet := true, end := evt.time))
      && (evt.valueTo == RESOLVED ==> r.cycle == p.cycle && r.lead[k] == p.lead[k].(endSet := true, end := evt.time))
      && (evt.valueTo !in {WIP, DONE, RESOLVED} ==> r == p)
      && (forall j :: j != k ==> PeriodOf(r.cycle, j) == PeriodOf(p.cycle, j) && PeriodOf(r.lead, j) == PeriodOf(p.lead, j))
  {
  }

  /** On first sight the cycle period is empty and the lead period starts at
      the event, before the stage of the event is applied. */
  lemma AbsorbFirstSight(p: Periods, evt: Event)
    requires WellFormed(p) && evt.issueKey !in p.cycle
    ensures var k, r := evt.issueKey, Absorb(p, evt);
      && r.cycle.Keys == p.cycle.Keys + {k}
      && r.lead[k].startSet && r.lead[k].start == evt.time
      && r.lead[k].endSet == (evt.valueTo == RESOLVED)
      && r.cycle[k].startSet == (evt.valueTo == WIP)
      && r.cycle[k].endSet == (evt.valueTo == DONE)
  {
    assert WIP != DONE by { assert WIP[0] != DONE[0]; }
    assert WIP != RESOLVED by { assert WIP[0] != RESOLVED[0]; }
    assert DONE != RESOLVED by { assert DONE[0] != RESOLVED[0]; }
  }

  /** True when some event of the stream is about the issue. */
  ghost predicate Seen(events: seq<Event>, key: string)
  {
    exists i :: 0 <= i < |events| && events[i].issueKey == key
  }

  /** True when some event of the stream moves the issue to the stage. */
  ghost predicate Reached(events: seq<Event>, key: string, stage: string)
  {
    exists i :: 0 <= i < |events| && events[i].issueKey == key && events[i].valueTo == stage
  }

  lemma ReachedSnoc(events: seq<Event>, key: string)
    requires events != []
    ensures var init, last := events[..|events| - 1], events[|events| - 1];
      && (Seen(events, key) <==> Seen(init, key) || last.issueKey == key)
      && forall stage :: Reached(events, key, stage) <==>
           Reached(init, key, stage) || (last.issueKey == key && last.valueTo == stage)
  {
    var init := events[..|events| - 1];
    assert forall i :: 0 <= i < |init| ==> events[i] == init[i];
    if Seen(events, key) {
      var i :| 0 <= i < |events| && events[i].issueKey == key;
      if i < |init| {
        assert init[i] == events[i];
      }
    }
    forall stage | Reached(events, key, stage)
      ensures Reached(init, key, stage) || (events[|events| - 1].issueKey == key && events[|events| - 1].valueTo == stage)
    {
      var i :| 0 <= i < |events| && events[i].issueKey == key && events[i].valueTo == stage;
      if i < |init| {
        assert init[i] == events[i];
      }
    }
  }

  /** One event keeps the periods well formed, adds its issue, and sets the
      flag of the stage it moves its issue to. */
  lemma AbsorbFlags(q: Periods, evt: Event, key: string)
    requires WellFormed(q)
    ensures var r := Absorb(q, evt);
      && WellFormed(r)
      && (key in r.cycle <==> key in q.cycle || evt.issueKey == key)
      && (PeriodOf(r.cycle, key).startSet <==> PeriodOf(q.cycle, key).startSet || (evt.issueKey == key && evt.valueTo == WIP))
      && (PeriodOf(r.cycle, key).endSet <==> PeriodOf(q.cycle, key).endSet || (evt.issueKey == key && evt.valueTo == DONE))
      && (PeriodOf(r.lead, key).endSet <==> PeriodOf(q.lead, key).endSet || (evt.issueKey == key && evt.valueTo == RESOLVED))
  {
    assert WIP != DONE by { assert WIP[0] != DONE[0]; }
    assert WIP != RESOLVED by { assert WIP[0] != RESOLVED[0]; }
    assert DONE != RESOLVED by { assert DONE[0] != RESOLVED[0]; }
    if evt.issueKey in q.cycle {
      AbsorbStages(q, evt);
    } else {
      AbsorbFirstSight(q, evt);
    }
  }

  /** After a stream, the periods are well formed, the issues are those seen
      before or in the stream, and each flag is set exactly when it was set
      before or an event of the stream moved the issue to its stage. */
  lemma {:induction false} FoldFlags(p: Periods, events: seq<Event>, key: string)
    requires WellFormed(p)
    ensures var r := Fold(p, events);
      && WellFormed(r)
      && (key in r.cycle <==> key in p.cycle || Seen(events, key))
      && (PeriodOf(r.cycle, key).startSet <==> PeriodOf(p.cycle, key).startSet || Reached(events, key, WIP))
      && (PeriodOf(r.cycle, key).endSet <==> PeriodOf(p.cycle, key).endSet || Reached(events, key, DONE))
      && (PeriodOf(r.lead, key).endSet <==> PeriodOf(p.lead, key).endSet || Reached(events, key, RESOLVED))
  {
    if events != [] {
      var init := events[..|events| - 1];
      FoldFlags(p, init, key);
      ReachedSnoc(events, key);
      AbsorbFlags(Fold(p, init), events[|events| - 1], key);
    }
  }

  lemma ReportsConcat(a: seq<Metric>, b: seq<Metric>, name: string, key: string)
    ensures Reports(a + b, name, key) <==> Reports(a, name, key) || Reports(b, name, key)
  {
    if Reports(a + b, name, key) {
      var i :| 0 <= i < |a + b| && (a + b)[i].name == name && (a + b)[i].comment == key;
      if i >= |a| {
        assert b[i - |a|] == (a + b)[i];
      }
    }
    if Reports(a, name, key) {
      var i :| 0 <= i < |a| && a[i].name == name && a[i].comment == key;
      assert (a + b)[i] == a[i];
    }
    if Reports(b, name, key) {
      var i :| 0 <= i < |b| && b[i].name == name && b[i].comment == key;
      assert (a + b)[|a| + i] == b[i];
    }
  }

  /** The metrics written for a list of issues report a lead (cycle) time
      for an issue exactly when the issue is listed and its lead (cycle)
      period is complete. */
  lemma {:induction false} EmissionsReport(p: Periods, order: seq<string>, segmentPrefix: string, key: string)
    ensures Reports(Emissions(p, order, segmentPrefix), LEAD_TIME, key) <==>
      key in order && PeriodOf(p.lead, key).startSet && PeriodOf(p.lead, key).endSet
    ensures Reports(Emissions(p, order, segmentPrefix), CYCLE_TIME, key) <==>
      key in order && PeriodOf(p.cycle, key).startSet && PeriodOf(p.cycle, key).endSet
  {
    if order != [] {
      var init := order[..|order| - 1];
      var last := order[|order| - 1];
      EmissionsReport(p, init, segmentPrefix, key);
      var before := Emissions(p, init, segmentPrefix);
      var ms := KeyMetrics(p, last, segmentPrefix);
      assert key in order <==> key in init || key == last by {
        assert order == init + [last];
      }
      ReportsConcat(before, ms, LEAD_TIME, key);
      ReportsConcat(before, ms, CYCLE_TIME, key);
      if key != last {
        assert !Reports(ms, LEAD_TIME, key) && !Reports(ms, CYCLE_TIME, key);
      }
    }
  }

  /** For a generator that starts empty, the end of the stream reports a
      lead time for an issue exactly when some event resolved it, and a
      cycle time exactly when some event moved it to wip and some event
      moved it to done. */
  lemma EndOfStreamReports(events: seq<Event>, segmentPrefix: string, order: seq<string>, key: string)
    requires Enumerates(order, Fold(Periods(map[], map[]), events).cycle.Keys)
    ensures var ms := Emissions(Fold(Periods(map[], map[]), events), order, segmentPrefix);
      && (Reports(ms, LEAD_TIME, key) <==> Reached(events, key, RESOLVED))
      && (Reports(ms, CYCLE_TIME, key) <==> Reached(events, key, WIP) && Reached(events, key, DONE))
  {
    var p0 := Periods(map[], map[]);
    var r := Fold(p0, events);
    FoldFlags(p0, events, key);
    EmissionsReport(r, order, segmentPrefix, key);
    if Reached(events, key, RESOLVED) || Reached(events, key, WIP) {
      assert Seen(events, key);
    }
  }

  /** `LeadAndCycleTime`: the periods of every issue seen so far. */
  class LeadAndCycleTime {
    var cyclePeriods: map<string, Period>
    var leadPeriods: map<string, Period>

    ghost function State(): Periods
      reads this
    {
      Periods(cyclePeriods, leadPeriods)
    }

    ghost predicate Valid()
      reads this
    {
      WellFormed(State())
    }

    /** `NewLeadAndCycleTime`: no issue seen yet. */
    constructor()
      ensures Valid() && State() == Periods(map[], map[])
    {
      cyclePeriods := map[];
      leadPeriods := map[];
    }

    /** `Generate`: absorbs the whole stream without writing anything, then
        writes the complete periods of every issue, in map order. */
    method Generate(events: seq<Event>, segmentPrefix: string, s: Sink.PGStore)
      returns (countIssues: nat, countMetrics: nat, ghost order: seq<string>)
      requires Valid() && s.Valid() && !s.closed
      modifies this, s, s.batch
      ensures Valid() && State() == Fold(old(State()), events)
      ensures s.Valid() && !s.closed && s.batch == old(s.batch)
      ensures old(cyclePeriods.Keys) <= cyclePeriods.Keys
      ensures countIssues == |cyclePeriods| - old(|cyclePeriods|)
      ensures Enumerates(order, cyclePeriods.Keys)
      ensures s.accepted == old(s.accepted) + Emissions(State(), order, segmentPrefix)
      ensures countMetrics == |Emissions(State(), order, segmentPrefix)|
    {
      countIssues := AbsorbEvents(events);
      countMetrics, order := PushPeriods(segmentPrefix, s);
    }

    /** The event loop of `Generate`: updates the periods and writes nothing. */
    method AbsorbEvents(events: seq<Event>) returns (countIssues: nat)
      requires Valid()
      modifies this
      ensures Valid() && State() == Fold(old(State()), events)
      ensures old(cyclePeriods.Keys) <= cyclePeriods.Keys
      ensures countIssues == |cyclePeriods| - old(|cyclePeriods|)
    {
      countIssues := 0;
      for i := 0 to |events|
        invariant Valid() && State() == Fold(old(State()), events[..i])
        invariant old(cyclePeriods.Keys) <= cyclePeriods.Keys
        invariant countIssues == |cyclePeriods| - old(|cyclePeriods|)
      {
        var evt := events[i];
        assert events[..i + 1][..i] == events[..i];
        AbsorbFlags(State(), evt, evt.issueKey);
        var isNew := SeeIssue(evt);
        if isNew {
          countIssues := countIssues + 1;
        }
        ApplyStageOf(evt);
      }
      assert events[..|events|] == events;
    }

    /** The first-sight block of the event loop. */
    method SeeIssue(evt: Event) returns (isNew: bool)
      modifies this
      ensures State() == FirstSight(old(State()), evt)
      ensures isNew <==> evt.issueKey !in old(cyclePeriods)
      ensures cyclePeriods.Keys == old(cyclePeriods.Keys) + {evt.issueKey}
      ensures |cyclePeriods| == old(|cyclePeriods|) + (if isNew then 1 else 0)
    {
      var ik := evt.issueKey;
      isNew := ik !in cyclePeriods;
      if isNew {
        cyclePeriods := cyclePeriods[ik := NO_PERIOD];
        leadPeriods := leadPeriods[ik := Period(true, false, evt.time, ZERO_TIME)];
      }
    }

    /** The stage switch of the event loop. */
    method ApplyStageOf(evt: Event)
      requires evt.issueKey in cyclePeriods && evt.issueKey in leadPeriods
      modifies this
      ensures State() == ApplyStage(old(State()), evt)
      ensures cyclePeriods.Keys == old(cyclePeriods.Keys)
    {
      var ik, to := evt.issueKey, evt.valueTo;
      if to == BACKLOG {
      } else if to == WIP {
        var p := cyclePeriods[ik];
        if !p.startSet {
          p := p.(startSet := true, start := evt.time);
          cyclePeriods := cyclePeriods[ik := p];
        }
      } else if to == DONE {
        var p := cyclePeriods[ik];
        p := p.(endSet := true, end := evt.time);
        cyclePeriods := cyclePeriods[ik := p];
      } else if to == RESOLVED {
        var p := leadPeriods[ik];
        p := p.(endSet := true, end := evt.time);
        leadPeriods := leadPeriods[ik := p];
      }
    }

    /** The emission loop of `Generate`: for every issue, in map order,
        writes its lead time and then its cycle time when complete. */
    method PushPeriods(segmentPrefix: string, s: Sink.PGStore) returns (countMetrics: nat, ghost order: seq<string>)
      requires Valid() && s.Valid() && !s.closed
      modifies s, s.batch
      ensures s.Valid() && !s.closed && s.batch == old(s.batch)
      ensures Enumerates(order, cyclePeriods.Keys)
      ensures s.accepted == old(s.accepted) + Emissions(State(), order, segmentPrefix)
      ensures countMetrics == |Emissions(State(), order, segmentPrefix)|
    {
      ghost var p := State();
      var todo := cyclePeriods.Keys;
      order := [];
      countMetrics := 0;
      while todo != {}
        invariant s.Valid() && !s.closed && s.batch == old(s.batch)
        invariant Remaining(todo, order, p.cycle.Keys)
        invariant s.accepted == old(s.accepted) + Emissions(p, order, segmentPrefix)
        invariant countMetrics == |Emissions(p, order, segmentPrefix)|
        decreases |todo|
      {
        var k :| k in todo;
        var n := PushIssue(k, segmentPrefix, s);
        countMetrics := countMetrics + n;
        EmissionsSnoc(p, order, k, segmentPrefix);
        ConcatAssoc(old(s.accepted), Emissions(p, order, segmentPrefix), KeyMetrics(p, k, segmentPrefix));
        RemainingStep(todo, order, p.cycle.Keys, k);
        order := order + [k];
        todo := todo - {k};
      }
      RemainingDone(order, p.cycle.Keys);
    }

    /** One turn of the emission loop: the lead time, then the cycle time, of
        one issue, each when its period is complete. */
    method PushIssue(k: string, segmentPrefix: string, s: Sink.PGStore) returns (n: nat)
      requires Valid() && k in cyclePeriods && s.Valid() && !s.closed
      modifies s, s.batch
      ensures s.Valid() && !s.closed && s.batch == old(s.batch)
      ensures s.accepted == old(s.accepted) + KeyMetrics(State(), k, segmentPrefix)
      ensures n == |KeyMetrics(State(), k, segmentPrefix)|
    {
      n := 0;
      var leadPeriod, cyclePeriod := leadPeriods[k], cyclePeriods[k];
      var (leadOk, leadDays) := PeriodDurationInDays(leadPeriod);
      if leadOk {
        n := n + 1;
        s.WriteMetric(Metric(leadPeriod.end, LEAD_TIME, segmentPrefix, leadDays, k));
      }
      var (cycleOk, cycleDays) := PeriodDurationInDays(cyclePeriod);
      if cycleOk {
        n := n + 1;
        s.WriteMetric(Metric(cyclePeriod.end, CYCLE_TIME, segmentPrefix, cycleDays, k));
      }
    }
  }
}
