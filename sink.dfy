/** The metric sink: metrics written by the generators are gathered in a
    fixed-size buffer and committed to the `metrics` table one batch at a
    time; a pending counter lets the caller wait until every accepted metric
    has been committed. The database itself is abstracted as the log of the
    batches committed to it. */
module Sink {
  import opened Store

  const BATCH_SIZE: nat := 10000

  /** All batches concatenated, in commit order. */
  function Flatten(bs: seq<seq<Metric>>): (ms: seq<Metric>)
    ensures bs == [] ==> ms == []
  {
    if bs == [] then [] else bs[0] + Flatten(bs[1..])
  }

  lemma {:induction false} FlattenAppend(bs: seq<seq<Metric>>, b: seq<Metric>)
    ensures Flatten(bs + [b]) == Flatten(bs) + b
  {
    if bs != [] {
      assert (bs + [b])[1..] == bs[1..] + [b];
      FlattenAppend(bs[1..], b);
    }
  }

  lemma {:induction false} FlattenConcat(bs: seq<seq<Metric>>, cs: seq<seq<Metric>>)
    ensures Flatten(bs + cs) == Flatten(bs) + Flatten(cs)
  {
    if bs != [] {
      assert (bs + cs)[1..] == bs[1..] + cs;
      FlattenConcat(bs[1..], cs);
    } else {
      assert bs + cs == cs;
    }
  }

  /** The batches committed for the metrics `ms` accepted in this order:
      every full batch of BATCH_SIZE metrics, then the trailing batch, which
      is committed even when it is empty. */
  function Batches(ms: seq<Metric>): (bs: seq<seq<Metric>>)
    ensures |bs| == |ms| / BATCH_SIZE + 1
    ensures Flatten(bs) == ms
    ensures forall j :: 0 <= j < |bs| - 1 ==> |bs[j]| == BATCH_SIZE
    ensures |bs[|bs| - 1]| == |ms| % BATCH_SIZE
    decreases |ms|
  {
    if |ms| < BATCH_SIZE then [ms]
    else
      var rest := Batches(ms[BATCH_SIZE..]);
      assert ([ms[..BATCH_SIZE]] + rest)[1..] == rest;
      [ms[..BATCH_SIZE]] + rest
  }

  /** When all committed batches are full and fewer than a batch of metrics
      are left, committing those as the last batch gives exactly `Batches`. */
  lemma {:induction false} BatchesOfFullPrefix(bs: seq<seq<Metric>>, tail: seq<Metric>)
    requires forall j :: 0 <= j < |bs| ==> |bs[j]| == BATCH_SIZE
    requires |tail| < BATCH_SIZE
    ensures Batches(Flatten(bs) + tail) == bs + [tail]
  {
    var ms := Flatten(bs) + tail;
    if bs == [] {
      assert ms == tail;
    } else {
      var rest := Flatten(bs[1..]) + tail;
      assert ms == bs[0] + rest by {
        ConcatAssoc(bs[0], Flatten(bs[1..]), tail);
      }
      assert |bs[0]| == BATCH_SIZE;
      assert ms[..BATCH_SIZE] == bs[0] && ms[BATCH_SIZE..] == rest;
      BatchesOfFullPrefix(bs[1..], tail);
      assert Batches(ms) == [bs[0]] + Batches(rest);
      assert [bs[0]] + (bs[1..] + [tail]) == bs + [tail];
    }
  }

  /** `PGStore`, reduced to its batching state. */
  class PGStore {
    /** `metricsBatch`: the buffer being filled. */
    var batch: array<Metric>
    /** Number of metrics in the buffer. */
    var i: nat
    /** The `WaitGroup` counter: metrics accepted but not yet committed. */
    var pending: int
    /** The batches committed to the database, in order. */
    var written: seq<seq<Metric>>
    /** Whether the metrics channel has been closed. */
    var closed: bool
    /** Every metric accepted by `WriteMetric`, in order. */
    ghost var accepted: seq<Metric>

    /** The buffer and the committed batches together hold exactly the
        accepted metrics; every batch committed while open is full. */
    ghost predicate Consistent()
      reads this, batch
    {
      && batch.Length == BATCH_SIZE
      && i < BATCH_SIZE
      && (!closed ==>
            && (forall j :: 0 <= j < |written| ==> |written[j]| == BATCH_SIZE)
            && Flatten(written) + batch[..i] == accepted)
      && (closed ==> written == Batches(accepted))
    }

    /** Between two calls, the pending counter is the number of accepted
        metrics still in the buffer, and zero once drained. */
    ghost predicate Valid()
      reads this, batch
    {
      Consistent() && pending == (if closed then 0 else i)
    }

    constructor ()
      ensures Valid() && fresh(batch)
      ensures !closed && accepted == [] && written == [] && pending == 0
    {
      batch := new Metric[BATCH_SIZE];
      i := 0;
      pending := 0;
      written := [];
      closed := false;
      accepted := [];
    }

    /** `WriteMetric`: counts the metric as pending and hands it to the
        batching loop. */
    method WriteMetric(m: Metric)
      requires Valid() && !closed
      modifies this, batch
      ensures Valid() && !closed && batch == old(batch)
      ensures accepted == old(accepted) + [m]
      ensures old(i) + 1 == BATCH_SIZE ==> written == old(written) + [old(batch[..i]) + [m]] && i == 0
      ensures old(i) + 1 < BATCH_SIZE ==> written == old(written) && i == old(i) + 1
    {
      pending := pending + 1;
      Receive(m);
    }

    /** One turn of the loop of `processMetricsFromChan`: stores the metric
        in the buffer and commits the buffer once it is full. */
    method Receive(m: Metric)
      requires Consistent() && !closed
      modifies this, batch
      ensures Consistent() && !closed && batch == old(batch)
      ensures accepted == old(accepted) + [m]
      ensures old(i) + 1 == BATCH_SIZE ==>
        written == old(written) + [old(batch[..i]) + [m]] && i == 0 && pending == old(pending) - BATCH_SIZE
      ensures old(i) + 1 < BATCH_SIZE ==>
        written == old(written) && i == old(i) + 1 && pending == old(pending)
    {
      batch[i] := m;
      i := i + 1;
      accepted := accepted + [m];
      assert batch[..i] == old(batch[..i]) + [m];
      if i == BATCH_SIZE {
        FlattenAppend(written, batch[..]);
        assert batch[..] == batch[..i];
        WriteBatch(i);
        i := 0;
      }
    }

    /** `writeMetricsBatch` on the first `n` metrics of the buffer: commits
        them as one batch and marks them done on the pending counter. */
    method WriteBatch(n: nat)
      requires n <= batch.Length
      modifies this
      ensures batch == old(batch) && i == old(i) && closed == old(closed) && accepted == old(accepted)
      ensures written == old(written) + [batch[..n]]
      ensures pending == old(pending) - n
    {
      written := written + [batch[..n]];
      pending := pending - n;
    }

    /** `DoneAndWait`: closes the channel, which commits the trailing batch
        (even an empty one); returns once nothing is pending. */
    method DoneAndWait()
      requires Valid() && !closed
      modifies this
      ensures Valid() && closed && pending == 0
      ensures accepted == old(accepted)
      ensures written == old(written) + [old(batch[..i])]
      ensures written == Batches(accepted)
    {
      BatchesOfFullPrefix(written, batch[..i]);
      closed := true;
      WriteBatch(i);
    }
  }

  /** A whole run of the sink: every metric is written, in order, then the
      sink is drained. The committed batches are `Batches(ms)`:
      |ms| / BATCH_SIZE + 1 batches that concatenate back to `ms`. */
  method Drain(ms: seq<Metric>) returns (writes: seq<seq<Metric>>)
    ensures writes == Batches(ms)
  {
    var s := new PGStore();
    var k := 0;
    while k < |ms|
      invariant 0 <= k <= |ms|
      invariant fresh(s) && fresh(s.batch)
      invariant s.Valid() && !s.closed
      invariant s.accepted == ms[..k]
    {
      s.WriteMetric(ms[k]);
      assert ms[..k + 1] == ms[..k] + [ms[k]];
      k := k + 1;
    }
    assert ms[..k] == ms;
    s.DoneAndWait();
    writes := s.written;
  }
}
