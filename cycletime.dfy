/** The CycleTime generator: follows every issue through its events and,
    when an issue reaches "done", reports the whole days elapsed since it
    entered "wip" (or since its first event, when it never did). */
module CycleTimeMetric {
  import opened Store
  import Sink

  const CYCLE_TIME: string := "cycle_time"

  /** What is known of one issue's cycle. */
  datatype Bounds = Bounds(wipSeen: bool, doneSeen: bool, start: Time, end: Time)

  /** The effect of one event: the new bounds of every issue and the metric
      written, if any. */
  datatype Outcome = Outcome(bounds: map<string, Bounds>, emitted: Option<Metric>)

  /** The bounds after a prefix of the stream and the metrics written so far. */
  datatype Tally = Tally(bounds: map<string, Bounds>, metrics: seq<Metric>)

  /** The metric reported for an issue whose cycle ends at `end`. */
  function CycleMetric(key: string, segmentPrefix: string, start: Time, end: Time): (r: Metric)
    ensures r.name == CYCLE_TIME && r.time == end && r.segment == segmentPrefix + "/" + key
    ensures r.value == WholeDays(Sub(end, start)) as real
    ensures start <= end ==> r.value >= 0.0
  {
    Metric(end, CYCLE_TIME, segmentPrefix + "/" + key, WholeDays(Sub(end, start)) as real, "")
  }

  /** One turn of the event loop: first sight, entry into wip, or first
      arrival in done, tried in that order; anything else is ignored. */
  function Step(m: map<string, Bounds>, evt: Event, segmentPrefix: string): (o: Outcome)
    ensures o.bounds.Keys == m.Keys + {evt.issueKey}
    ensures o.emitted.Some? ==>
      && evt.valueTo == DONE
      && o.emitted.value.name == CYCLE_TIME && o.emitted.value.time == evt.time
  {
    var key := evt.issueKey;
    if key !in m then
      Outcome(m[key := Bounds(false, false, evt.time, ZERO_TIME)], None)
    else if !m[key].wipSeen && evt.valueTo == WIP then
      Outcome(m[key := Bounds(true, false, evt.time, ZERO_TIME)], None)
    else if !m[key].doneSeen && evt.valueTo == DONE then
      Outcome(m[key := Bounds(m[key].wipSeen, true, m[key].start, evt.time)],
              Some(CycleMetric(key, segmentPrefix, m[key].start, evt.time)))
    else
      Outcome(m, None)
  }

  function Run(events: seq<Event>, segmentPrefix: string): (r: Tally)
    ensures |r.metrics| <= |events|
    ensures forall i :: 0 <= i < |r.metrics| ==> r.metrics[i].name == CYCLE_TIME
    decreases |events|
  {
    if events == [] then Tally(map[], [])
    else
      var before := Run(events[..|events| - 1], segmentPrefix);
      var o := Step(before.bounds, events[|events| - 1], segmentPrefix);
      Tally(o.bounds, before.metrics + AsSeq(o.emitted))
  }

  /** `Generate`: feeds every event to the loop, writes each metric to the
      store as soon as it is computed, and counts events, issues and metrics. */
  method Generate(events: seq<Event>, segmentPrefix: string, s: Sink.PGStore)
    returns (countIssues: nat, countEvts: nat, countMetrics: nat)
    requires s.Valid() && !s.closed
    modifies s, s.batch
    ensures s.Valid() && !s.closed && s.batch == old(s.batch)
    ensures s.accepted == old(s.accepted) + Run(events, segmentPrefix).metrics
    ensures countEvts == |events|
    ensures countIssues == |Run(events, segmentPrefix).bounds|
    ensures countMetrics == |Run(events, segmentPrefix).metrics|
  {
    var m: map<string, Bounds> := map[];
    ghost var metrics: seq<Metric> := [];
    countIssues, countEvts, countMetrics := 0, 0, 0;
    for i := 0 to |events|
      invariant s.Valid() && !s.closed && s.batch == old(s.batch)
      invariant Run(events[..i], segmentPrefix) == Tally(m, metrics)
      invariant s.accepted == old(s.accepted) + metrics
      invariant countEvts == i && countIssues == |m| && countMetrics == |metrics|
    {
      var evt := events[i];
      assert events[..i + 1][..i] == events[..i];
      ghost var o := Step(m, evt, segmentPrefix);
      ghost var before := metrics;
      countEvts := countEvts + 1;
      var key := evt.issueKey;
      if key !in m {
        countIssues := countIssues + 1;
        m := m[key := Bounds(false, false, evt.time, ZERO_TIME)];
      } else if !m[key].wipSeen && evt.valueTo == WIP {
        m := m[key := Bounds(true, false, evt.time, ZERO_TIME)];
      } else if !m[key].doneSeen && evt.valueTo == DONE {
        var b := Bounds(m[key].wipSeen, true, m[key].start, evt.time);
        m := m[key := b];
        var metric := Metric(evt.time, CYCLE_TIME, segmentPrefix + "/" + key, WholeDays(Sub(b.end, b.start)) as real, "");
        countMetrics := countMetrics + 1;
        s.WriteMetric(metric);
        ConcatAssoc(old(s.accepted), metrics, [metric]);
        metrics := metrics + [metric];
      }
      assert m == o.bounds && metrics == before + AsSeq(o.emitted);
    }
    assert events[..|events|] == events;
  }

  /** The first event of an issue records its start and both flags unset,
      and never reports, whatever stage it moves to. */
  lemma FirstSightRecordsStart(m: map<string, Bounds>, evt: Event, segmentPrefix: string)
    requires evt.issueKey !in m
    ensures var o := Step(m, evt, segmentPrefix);
      o.emitted == None && evt.issueKey in o.bounds &&
      o.bounds[evt.issueKey] == Bounds(false, false, evt.time, ZERO_TIME)
  {
  }

  /** A step reports exactly when the issue was already known, has not
      reached done, and moves to done; the metric measures from the recorded
      start to the event. */
  lemma StepEmitsIff(m: map<string, Bounds>, evt: Event, segmentPrefix: string)
    ensures var o := Step(m, evt, segmentPrefix);
      o.emitted.Some? <==> evt.issueKey in m && !m[evt.issueKey].doneSeen && evt.valueTo == DONE
    ensures var o := Step(m, evt, segmentPrefix);
      o.emitted.Some? ==>
        o.emitted.value == CycleMetric(evt.issueKey, segmentPrefix, m[evt.issueKey].start, evt.time) &&
        o.bounds[evt.issueKey].doneSeen && o.bounds[evt.issueKey].end == evt.time &&
        o.bounds[evt.issueKey].wipSeen == m[evt.issueKey].wipSeen
  {
    assert DONE != WIP by { assert DONE[0] != WIP[0]; }
  }

  /** Entering wip before any wip was seen restarts the cycle: start moves to
      the event, done is forgotten and the end is dropped. */
  lemma WipRestartsCycle(m: map<string, Bounds>, evt: Event, segmentPrefix: string)
    requires evt.issueKey in m && !m[evt.issueKey].wipSeen && evt.valueTo == WIP
    ensures var o := Step(m, evt, segmentPrefix);
      o.emitted == None && o.bounds[evt.issueKey] == Bounds(true, false, evt.time, ZERO_TIME)
  {
  }

  /** Once wip was seen the start of the cycle is frozen, and so is the flag. */
  lemma StartFrozenAfterWip(m: map<string, Bounds>, evt: Event, segmentPrefix: string, key: string)
    requires key in m && m[key].wipSeen
    ensures var o := Step(m, evt, segmentPrefix);
      key in o.bounds && o.bounds[key].wipSeen && o.bounds[key].start == m[key].start
  {
  }

  /** An issue that has seen both wip and done ignores all later events. */
  lemma BothSeenIgnores(m: map<string, Bounds>, evt: Event, segmentPrefix: string)
    requires evt.issueKey in m && m[evt.issueKey].wipSeen && m[evt.issueKey].doneSeen
    ensures Step(m, evt, segmentPrefix) == Outcome(m, None)
  {
  }

  /** An event touches the bounds of its own issue only. */
  lemma StepTouchesOwnIssue(m: map<string, Bounds>, evt: Event, segmentPrefix: string, key: string)
    requires key != evt.issueKey
    ensures var o := Step(m, evt, segmentPrefix);
      (key in o.bounds <==> key in m) && (key in m ==> o.bounds[key] == m[key])
  {
  }

  /** The issues tracked are exactly those that have an event. */
  lemma {:induction false} RunTracksEventIssues(events: seq<Event>, segmentPrefix: string)
    ensures Run(events, segmentPrefix).bounds.Keys == IssueKeys(events)
  {
    if events != [] {
      RunTracksEventIssues(events[..|events| - 1], segmentPrefix);
      IssueKeysSnoc(events);
    }
  }

  /** Along the whole stream, once an issue has seen wip its start is that
      of the end of the stream. */
  lemma {:induction false} RunStartFrozen(events: seq<Event>, segmentPrefix: string, n: nat, key: string)
    requires n <= |events|
    requires key in Run(events[..n], segmentPrefix).bounds && Run(events[..n], segmentPrefix).bounds[key].wipSeen
    ensures key in Run(events, segmentPrefix).bounds && Run(events, segmentPrefix).bounds[key].wipSeen
    ensures Run(events, segmentPrefix).bounds[key].start == Run(events[..n], segmentPrefix).bounds[key].start
  {
    if n == |events| {
      assert events[..n] == events;
    } else {
      var init := events[..|events| - 1];
      assert init[..n] == events[..n];
      RunStartFrozen(init, segmentPrefix, n, key);
      StartFrozenAfterWip(Run(init, segmentPrefix).bounds, events[|events| - 1], segmentPrefix, key);
    }
  }

  /** The metric reports the issue of a done event of the stream, at that
      event's time. */
  ghost predicate ReportsDoneEvent(m: Metric, events: seq<Event>, segmentPrefix: string)
  {
    exists i :: 0 <= i < |events| && events[i].valueTo == DONE &&
      m.time == events[i].time && m.segment == segmentPrefix + "/" + events[i].issueKey
  }

  /** Every metric reports `cycle_time` for the issue of a done event, at
      that event's time. */
  lemma {:induction false} RunMetricsComeFromDone(events: seq<Event>, segmentPrefix: string)
    ensures forall m :: m in Run(events, segmentPrefix).metrics ==>
      m.name == CYCLE_TIME && ReportsDoneEvent(m, events, segmentPrefix)
  {
    if events != [] {
      var init := events[..|events| - 1];
      var last := events[|events| - 1];
      RunMetricsComeFromDone(init, segmentPrefix);
      StepEmitsIff(Run(init, segmentPrefix).bounds, last, segmentPrefix);
      forall m | m in Run(events, segmentPrefix).metrics
        ensures m.name == CYCLE_TIME && ReportsDoneEvent(m, events, segmentPrefix)
      {
        if m in Run(init, segmentPrefix).metrics {
          var i :| 0 <= i < |init| && init[i].valueTo == DONE &&
            m.time == init[i].time && m.segment == segmentPrefix + "/" + init[i].issueKey;
          assert events[i] == init[i];
        } else {
          assert events[|events| - 1] == last;
          assert ReportsDoneEvent(m, events, segmentPrefix) by {
            assert events[|events| - 1].valueTo == DONE;
          }
        }
      }
    }
  }

  /** With events in ascending time order, every start recorded lies at or
      before the latest event, so every reported cycle time is non-negative. */
  lemma {:induction false} RunValuesNonNegative(events: seq<Event>, segmentPrefix: string)
    requires Ascending(Times(events))
    ensures events != [] ==> forall k :: k in Run(events, segmentPrefix).bounds ==>
      Run(events, segmentPrefix).bounds[k].start <= events[|events| - 1].time
    ensures forall m :: m in Run(events, segmentPrefix).metrics ==> m.value >= 0.0
  {
    if events != [] {
      var init := events[..|events| - 1];
      var last := events[|events| - 1];
      assert Times(init) == Times(events)[..|events| - 1];
      RunValuesNonNegative(init, segmentPrefix);
      var before := Run(init, segmentPrefix).bounds;
      if init != [] {
        assert Times(events)[|init| - 1] <= Times(events)[|events| - 1];
      }
      assert forall k :: k in before ==> before[k].start <= last.time;
      StepEmitsIff(before, last, segmentPrefix);
    }
  }

  /** An issue that reaches done before entering wip is reported twice: once
      then, and again when it later goes through wip and done. */
  lemma DoneBeforeWipReportsTwice()
    ensures var evts := [
        Event(0, "status", "K-1", "Bug", "", "", BACKLOG, 0),
        Event(DAY, "status", "K-1", "Bug", "", BACKLOG, DONE, 0),
        Event(2 * DAY, "status", "K-1", "Bug", "", DONE, WIP, 0),
        Event(5 * DAY, "status", "K-1", "Bug", "", WIP, DONE, 0)];
      Run(evts, "p").metrics == [
        Metric(DAY, CYCLE_TIME, "p/K-1", 1.0, ""),
        Metric(5 * DAY, CYCLE_TIME, "p/K-1", 3.0, "")]
  {
    var evts := [
        Event(0, "status", "K-1", "Bug", "", "", BACKLOG, 0),
        Event(DAY, "status", "K-1", "Bug", "", BACKLOG, DONE, 0),
        Event(2 * DAY, "status", "K-1", "Bug", "", DONE, WIP, 0),
        Event(5 * DAY, "status", "K-1", "Bug", "", WIP, DONE, 0)];
    assert DONE != WIP by { assert DONE[0] != WIP[0]; }
    assert evts[..3][..2] == evts[..2];
    assert evts[..2][..1] == evts[..1];
    assert evts[..1][..0] == [];
    assert evts[..4] == evts;
    assert "p" + "/" + "K-1" == "p/K-1";
    assert WholeDays(Sub(DAY, 0)) == 1;
    assert WholeDays(Sub(5 * DAY, 2 * DAY)) == 3;
    assert Run(evts[..1], "p") == Tally(map["K-1" := Bounds(false, false, 0, ZERO_TIME)], []);
    assert Run(evts[..2], "p").metrics == [Metric(DAY, CYCLE_TIME, "p/K-1", 1.0, "")];
    assert Run(evts[..3], "p").metrics == [Metric(DAY, CYCLE_TIME, "p/K-1", 1.0, "")];
  }
}
