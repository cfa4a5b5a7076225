/** Shared types of the metrics pipeline: the events read from the issue
    history, the metrics written to the `metrics` table, and the time
    arithmetic the generators use. */
module Store {

  /** A point in time, as nanoseconds since the Unix epoch (UTC). */
  type Time = int

  const HOUR: int := 3_600_000_000_000
  const DAY: int := 24 * HOUR

  /** Go's zero `time.Time` (January 1st of year 1, UTC). */
  const ZERO_TIME: Time := -62_135_596_800 * 1_000_000_000

  /** Canonical stages an event moves an issue between. */
  const BACKLOG: string := "backlog"
  const WIP: string := "wip"
  const DONE: string := "done"
  const RESOLVED: string := "resolved"

  /** An issue lifecycle change (`store.Event`). */
  datatype Event = Event(
    time: Time,
    kind: string,
    issueKey: string,
    issueType: string,
    segment: string,
    valueFrom: string,
    valueTo: string,
    issueCreatedAt: Time)

  /** A metric record (`store.Metric`). */
  datatype Metric = Metric(time: Time, name: string, segment: string, value: real, comment: string)

  datatype Option<T> = None | Some(value: T)

  /** The metrics a step writes: none, or the one it computed. */
  function AsSeq<T>(o: Option<T>): (s: seq<T>)
    ensures o.Some? ==> s == [o.value]
    ensures o.None? ==> s == []
  {
    if o.Some? then [o.value] else []
  }

  /** The outcome of an operation that the program aborts with `log.Fatal`. */
  datatype Result<T> = Ok(value: T) | Fatal(message: string)

  /** Midnight (UTC) of the day holding `t`. */
  function DayOf(t: Time): (d: Time)
    ensures d <= t < d + DAY
    ensures d % DAY == 0
  {
    t - t % DAY
  }

  /** Bounds of a Go `time.Duration` (nanoseconds on 64 bits). */
  const MAX_DURATION: int := 0x7fff_ffff_ffff_ffff
  const MIN_DURATION: int := -0x8000_0000_0000_0000

  /** `t.Sub(u)`: the duration between two instants, saturated to the
      bounds of a `time.Duration`. */
  function Sub(t: Time, u: Time): (d: int)
    ensures MIN_DURATION <= d <= MAX_DURATION
    ensures MIN_DURATION <= t - u <= MAX_DURATION ==> d == t - u
    ensures t - u > MAX_DURATION ==> d == MAX_DURATION
    ensures t - u < MIN_DURATION ==> d == MIN_DURATION
  {
    if t - u > MAX_DURATION then MAX_DURATION
    else if t - u < MIN_DURATION then MIN_DURATION
    else t - u
  }

  /** `span / (24 * time.Hour)` on a Go `Duration`: whole days, truncated toward zero. */
  function WholeDays(span: int): (n: int)
    ensures span >= 0 ==> 0 <= n && n * DAY <= span < (n + 1) * DAY
    ensures span < 0 ==> n <= 0 && (n - 1) * DAY < span <= n * DAY
  {
    if span >= 0 then span / DAY else -((-span) / DAY)
  }

  /** Names built by prefixing the same string differ exactly when the suffixes do. */
  lemma PrefixInjective(prefix: string, a: string, b: string)
    ensures prefix + a == prefix + b ==> a == b
  {
    if prefix + a == prefix + b {
      assert a == (prefix + a)[|prefix|..];
      assert b == (prefix + b)[|prefix|..];
    }
  }

  /** The metrics of two disjoint sets, each reported once. */
  lemma MultisetOfDisjointUnion<T>(a: set<T>, b: set<T>)
    requires a !! b
    ensures multiset(a + b) == multiset(a) + multiset(b)
  {
    forall x
      ensures multiset(a + b)[x] == (multiset(a) + multiset(b))[x]
    {
      if x in a {
        assert x !in b;
      }
    }
  }

  /** Appending in two steps is appending the concatenation. */
  lemma ConcatAssoc<T>(a: seq<T>, b: seq<T>, c: seq<T>)
    ensures (a + b) + c == a + (b + c)
  {
  }

  /** True when the times are in non-decreasing order. */
  ghost predicate Ascending(ts: seq<Time>)
  {
    forall i, j :: 0 <= i < j < |ts| ==> ts[i] <= ts[j]
  }

  function Times(events: seq<Event>): (ts: seq<Time>)
    ensures |ts| == |events|
    ensures forall i :: 0 <= i < |events| ==> ts[i] == events[i].time
  {
    seq(|events|, i requires 0 <= i < |events| => events[i].time)
  }

  /** The issues that have an event in `events`. */
  ghost function IssueKeys(events: seq<Event>): set<string>
  {
    set i | 0 <= i < |events| :: events[i].issueKey
  }

  /** The issues of a non-empty stream: those of all but the last event,
      and the last event's issue. */
  lemma IssueKeysSnoc(events: seq<Event>)
    requires events != []
    ensures IssueKeys(events) == IssueKeys(events[..|events| - 1]) + {events[|events| - 1].issueKey}
  {
    var init := events[..|events| - 1];
    assert forall i :: 0 <= i < |init| ==> init[i] == events[i];
  }
}
