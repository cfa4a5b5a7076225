/** The LeadTime generator: reports, for every issue, the whole days from its
    first event to its first arrival in "done", and notes the issues that
    still change after that. */
module LeadTimeMetric {
  import opened Store
  import Sink

  const LEAD_TIME: string := "lead_time"

  /** What is known of one issue's lead time. */
  datatype Bounds = Bounds(complete: bool, start: Time, end: Time)

  /** The state of the loop: the bounds of every issue seen and the issues
      that changed after they were complete. */
  datatype Tracker = Tracker(bounds: map<string, Bounds>, reopened: set<string>)

  /** The effect of one event: the new state and the metric written, if any. */
  datatype Outcome = Outcome(next: Tracker, emitted: Option<Metric>)

  /** The state after a prefix of the stream and the metrics written so far. */
  datatype Tally = Tally(state: Tracker, metrics: seq<Metric>)

  /** The metric reported for an issue completed at `end`. */
  function LeadMetric(key: string, segmentPrefix: string, start: Time, end: Time): (r: Metric)
    ensures r.name == LEAD_TIME && r.time == end && r.segment == segmentPrefix + "/" + key
    ensures r.value == WholeDays(Sub(end, start)) as real
    ensures start <= end ==> r.value >= 0.0
  {
    Metric(end, LEAD_TIME, segmentPrefix + "/" + key, WholeDays(Sub(end, start)) as real, "")
  }

  /** One turn of the event loop. */
  function Step(t: Tracker, evt: Event, segmentPrefix: string): (o: Outcome)
    ensures o.next.bounds.Keys == t.bounds.Keys + {evt.issueKey}
    ensures t.reopened <= o.next.reopened <= t.reopened + {evt.issueKey}
    ensures o.next.reopened != t.reopened ==> evt.issueKey in t.bounds
    ensures o.emitted.Some? ==>
      && evt.valueTo == DONE
      && o.emitted.value.name == LEAD_TIME && o.emitted.value.time == evt.time
  {
    var key := evt.issueKey;
    if key !in t.bounds then
      Outcome(Tracker(t.bounds[key := Bounds(false, evt.time, ZERO_TIME)], t.reopened), None)
    else if t.bounds[key].complete then
      Outcome(Tracker(t.bounds, t.reopened + {key}), None)
    else if evt.valueTo == DONE then
      Outcome(Tracker(t.bounds[key := Bounds(true, t.bounds[key].start, evt.time)], t.reopened),
              Some(LeadMetric(key, segmentPrefix, t.bounds[key].start, evt.time)))
    else
      Outcome(t, None)
  }

  function Run(events: seq<Event>, segmentPrefix: string): (r: Tally)
    ensures r.state.reopened <= r.state.bounds.Keys
    ensures |r.metrics| <= |events|
    ensures forall i :: 0 <= i < |r.metrics| ==> r.metrics[i].name == LEAD_TIME
    decreases |events|
  {
    if events == [] then Tally(Tracker(map[], {}), [])
    else
      var before := Run(events[..|events| - 1], segmentPrefix);
      var o := Step(before.state, events[|events| - 1], segmentPrefix);
      Tally(o.next, before.metrics + AsSeq(o.emitted))
  }

  /** `Run` unfolds by one event at a time. */
  lemma RunSnoc(events: seq<Event>, i: nat, segmentPrefix: string)
    requires i < |events|
    ensures var before := Run(events[..i], segmentPrefix);
      var o := Step(before.state, events[i], segmentPrefix);
      Run(events[..i + 1], segmentPrefix) == Tally(o.next, before.metrics + AsSeq(o.emitted))
  {
    assert events[..i + 1][..i] == events[..i];
  }

  /** `LeadTime`: feeds every event to the loop and writes each metric to the
      store as soon as it is computed. The counts and the reopened issues are
      what the closing log line reports. */
  method LeadTime(s: Sink.PGStore, events: seq<Event>, segmentPrefix: string)
    returns (countIssues: nat, countEvts: nat, countMetrics: nat, reopenedIssues: set<string>)
    requires s.Valid() && !s.closed
    modifies s, s.batch
    ensures s.Valid() && !s.closed && s.batch == old(s.batch)
    ensures s.accepted == old(s.accepted) + Run(events, segmentPrefix).metrics
    ensures countEvts == |events|
    ensures countIssues == |Run(events, segmentPrefix).state.bounds|
    ensures countMetrics == |Run(events, segmentPrefix).metrics|
    ensures reopenedIssues == Run(events, segmentPrefix).state.reopened
  {
    var m: map<string, Bounds> := map[];
    ghost var metrics: seq<Metric> := [];
    countIssues, countEvts, countMetrics := 0, 0, 0;
    reopenedIssues := {};
    for i := 0 to |events|
      invariant s.Valid() && !s.closed && s.batch == old(s.batch)
      invariant Run(events[..i], segmentPrefix) == Tally(Tracker(m, reopenedIssues), metrics)
      invariant s.accepted == old(s.accepted) + metrics
      invariant countEvts == i && countIssues == |m| && countMetrics == |metrics|
    {
      var evt := events[i];
      RunSnoc(events, i, segmentPrefix);
      ghost var o := Step(Tracker(m, reopenedIssues), evt, segmentPrefix);
      ghost var before := metrics;
      countEvts := countEvts + 1;
      var key := evt.issueKey;
      if key !in m {
        countIssues := countIssues + 1;
        m := m[key := Bounds(false, evt.time, ZERO_TIME)];
      } else {
        if m[key].complete {
          reopenedIssues := reopenedIssues + {key};
        } else {
          if evt.valueTo == DONE {
            var b := Bounds(true, m[key].start, evt.time);
            m := m[key := b];
            var metric := Metric(evt.time, LEAD_TIME, segmentPrefix + "/" + key, WholeDays(Sub(b.end, b.start)) as real, "");
            countMetrics := countMetrics + 1;
            s.WriteMetric(metric);
            ConcatAssoc(old(s.accepted), metrics, [metric]);
            metrics := metrics + [metric];
          }
        }
      }
      assert Tracker(m, reopenedIssues) == o.next && metrics == before + AsSeq(o.emitted);
    }
    assert events[..|events|] == events;
  }

  /** The first event of an issue records its start, incomplete, and never
      reports. */
  lemma FirstSightRecordsStart(t: Tracker, evt: Event, segmentPrefix: string)
    requires evt.issueKey !in t.bounds
    ensures var o := Step(t, evt, segmentPrefix);
      o.emitted == None && o.next.reopened == t.reopened &&
      o.next.bounds == t.bounds[evt.issueKey := Bounds(false, evt.time, ZERO_TIME)]
  {
  }

  /** A step reports exactly when a known, incomplete issue moves to done;
      the issue is then complete, ends at the event and keeps its start. */
  lemma StepEmitsIff(t: Tracker, evt: Event, segmentPrefix: string)
    ensures var o := Step(t, evt, segmentPrefix);
      o.emitted.Some? <==> evt.issueKey in t.bounds && !t.bounds[evt.issueKey].complete && evt.valueTo == DONE
    ensures var o := Step(t, evt, segmentPrefix);
      o.emitted.Some? ==>
        o.emitted.value == LeadMetric(evt.issueKey, segmentPrefix, t.bounds[evt.issueKey].start, evt.time) &&
        o.next.bounds[evt.issueKey] == Bounds(true, t.bounds[evt.issueKey].start, evt.time)
  {
  }

  /** An incomplete issue ignores every event that does not move it to done. */
  lemma NonDoneIgnored(t: Tracker, evt: Event, segmentPrefix: string)
    requires evt.issueKey in t.bounds && !t.bounds[evt.issueKey].complete && evt.valueTo != DONE
    ensures Step(t, evt, segmentPrefix) == Outcome(t, None)
  {
  }

  /** A complete issue only joins the reopened issues. */
  lemma CompleteOnlyReopens(t: Tracker, evt: Event, segmentPrefix: string)
    requires evt.issueKey in t.bounds && t.bounds[evt.issueKey].complete
    ensures Step(t, evt, segmentPrefix) == Outcome(Tracker(t.bounds, t.reopened + {evt.issueKey}), None)
  {
  }

  /** The issues that reached done. */
  ghost function CompleteKeys(bounds: map<string, Bounds>): set<string>
  {
    set k | k in bounds && bounds[k].complete
  }

  /** The metrics written so far are one per complete issue, for that
      issue's segment. */
  ghost predicate OnePerCompleteIssue(t: Tally, segmentPrefix: string)
  {
    && |t.metrics| == |CompleteKeys(t.state.bounds)|
    && (forall i :: 0 <= i < |t.metrics| ==>
          exists k :: k in CompleteKeys(t.state.bounds) && t.metrics[i].segment == segmentPrefix + "/" + k)
    && (forall i, j :: 0 <= i < j < |t.metrics| ==> t.metrics[i].segment != t.metrics[j].segment)
  }

  /** Every step keeps one metric per complete issue, and only complete
      issues are ever reopened. */
  lemma StepKeepsOnePerIssue(before: Tally, evt: Event, segmentPrefix: string)
    requires OnePerCompleteIssue(before, segmentPrefix)
    requires before.state.reopened <= CompleteKeys(before.state.bounds)
    ensures var o := Step(before.state, evt, segmentPrefix);
      var after := Tally(o.next, before.metrics + AsSeq(o.emitted));
      OnePerCompleteIssue(after, segmentPrefix) && after.state.reopened <= CompleteKeys(after.state.bounds)
  {
    var key := evt.issueKey;
    var b := before.state.bounds;
    var o := Step(before.state, evt, segmentPrefix);
    var after := Tally(o.next, before.metrics + AsSeq(o.emitted));
    if key !in b {
      assert CompleteKeys(o.next.bounds) == CompleteKeys(b);
    } else if b[key].complete {
    } else if evt.valueTo == DONE {
      var seg := segmentPrefix + "/" + key;
      assert CompleteKeys(o.next.bounds) == CompleteKeys(b) + {key};
      assert key !in CompleteKeys(b);
      forall i | 0 <= i < |before.metrics|
        ensures before.metrics[i].segment != seg
      {
        var k :| k in CompleteKeys(b) && before.metrics[i].segment == segmentPrefix + "/" + k;
        PrefixInjective(segmentPrefix + "/", k, key);
      }
      assert after.metrics[|before.metrics|].segment == seg;
    }
  }

  /** Over the whole stream there is at most one `lead_time` metric per
      issue: the metrics name pairwise distinct segments, one per complete
      issue, so there are no more metrics than issues; and only complete
      issues are counted as reopened. */
  lemma {:induction false} RunOnePerIssue(events: seq<Event>, segmentPrefix: string)
    ensures OnePerCompleteIssue(Run(events, segmentPrefix), segmentPrefix)
    ensures Run(events, segmentPrefix).state.reopened <= CompleteKeys(Run(events, segmentPrefix).state.bounds)
    ensures |Run(events, segmentPrefix).metrics| <= |Run(events, segmentPrefix).state.bounds|
  {
    var r := Run(events, segmentPrefix);
    if events != [] {
      var init := events[..|events| - 1];
      RunOnePerIssue(init, segmentPrefix);
      StepKeepsOnePerIssue(Run(init, segmentPrefix), events[|events| - 1], segmentPrefix);
    }
    assert CompleteKeys(r.state.bounds) <= r.state.bounds.Keys;
    SubsetCard(CompleteKeys(r.state.bounds), r.state.bounds.Keys);
  }

  lemma SubsetCard(a: set<string>, b: set<string>)
    requires a <= b
    ensures |a| <= |b|
  {
    assert b == a + (b - a);
  }

  /** No event moves the start of an issue already seen. */
  lemma StepKeepsStart(t: Tracker, evt: Event, segmentPrefix: string, key: string)
    requires key in t.bounds
    ensures var o := Step(t, evt, segmentPrefix);
      key in o.next.bounds && o.next.bounds[key].start == t.bounds[key].start
  {
  }

  /** Along the whole stream, the start of an issue never changes after its
      first event. */
  lemma {:induction false} RunStartNeverChanges(events: seq<Event>, segmentPrefix: string, n: nat, key: string)
    requires n <= |events|
    requires key in Run(events[..n], segmentPrefix).state.bounds
    ensures key in Run(events, segmentPrefix).state.bounds
    ensures Run(events, segmentPrefix).state.bounds[key].start == Run(events[..n], segmentPrefix).state.bounds[key].start
  {
    if n == |events| {
      assert events[..n] == events;
    } else {
      var init := events[..|events| - 1];
      assert init[..n] == events[..n];
      RunStartNeverChanges(init, segmentPrefix, n, key);
      StepKeepsStart(Run(init, segmentPrefix).state, events[|events| - 1], segmentPrefix, key);
    }
  }

  /** With events in ascending time order every lead time is non-negative. */
  lemma {:induction false} RunValuesNonNegative(events: seq<Event>, segmentPrefix: string)
    requires Ascending(Times(events))
    ensures events != [] ==> forall k :: k in Run(events, segmentPrefix).state.bounds ==>
      Run(events, segmentPrefix).state.bounds[k].start <= events[|events| - 1].time
    ensures forall m :: m in Run(events, segmentPrefix).metrics ==> m.value >= 0.0
  {
    if events != [] {
      var init := events[..|events| - 1];
      var last := events[|events| - 1];
      assert Times(init) == Times(events)[..|events| - 1];
      RunValuesNonNegative(init, segmentPrefix);
      var before := Run(init, segmentPrefix).state;
      if init != [] {
        assert Times(events)[|init| - 1] <= Times(events)[|events| - 1];
      }
      assert forall k :: k in before.bounds ==> before.bounds[k].start <= last.time;
      StepEmitsIff(before, last, segmentPrefix);
    }
  }
}
