/**
 The bounded wait for the sensor's data-ready line. The line is active LOW:
 while it reads HIGH the loop sleeps one poll interval and gives up once
 more than the timeout has elapsed since the wait began. Time is not a
 clock here: sample `i` is what iteration `i` observes, the DRDY level at
 the loop test and the elapsed milliseconds read after that iteration's
 delay.
 */
module DataReady {

  const TimeoutMs: int := 5000
  const PollDelayMs: int := 100

  /** What one loop iteration observes. */
  datatype Sample = Sample(high: bool, elapsedMs: int)

  /** The loop leaves at this sample: DRDY asserted, or the timeout passed. */
  predicate Exits(s: Sample) {
    !s.high || s.elapsedMs > TimeoutMs
  }

  /** The observation record reaches an exit of the loop. */
  predicate Covers(samples: seq<Sample>) {
    exists k :: 0 <= k < |samples| && Exits(samples[k])
  }

  /** Each iteration sleeps one poll interval before reading the clock. */
  predicate Advancing(samples: seq<Sample>) {
    forall i :: 0 <= i < |samples| ==> samples[i].elapsedMs >= PollDelayMs * (i + 1)
  }

  /** Outcome of the wait: `ready` is the source's `dready_stat`, `exitAt`
      the iteration at which the loop left. */
  datatype Outcome = Outcome(ready: bool, exitAt: nat)

  /** The loop's exit, read off the observation record from iteration `from` on. */
  function Wait(samples: seq<Sample>, from: nat): (r: Outcome)
    requires from <= |samples|
    requires exists k :: from <= k < |samples| && Exits(samples[k])
    ensures from <= r.exitAt < |samples|
    ensures forall j :: from <= j < r.exitAt ==> !Exits(samples[j])
    ensures Exits(samples[r.exitAt])
    ensures r.ready <==> !samples[r.exitAt].high
    decreases |samples| - from
  {
    if Exits(samples[from]) then Outcome(!samples[from].high, from)
    else Wait(samples, from + 1)
  }

  /** With the poll delay honoured, a record of 51 iterations always reaches an exit. */
  lemma AdvancingCovers(samples: seq<Sample>)
    requires Advancing(samples) && |samples| > TimeoutMs / PollDelayMs
    ensures Covers(samples)
  {
    assert Exits(samples[TimeoutMs / PollDelayMs]);
  }

  /** The wait ends no later than the iteration whose clock read passes 5000 ms:
      at most 51 delays of 100 ms. */
  lemma WaitBounded(samples: seq<Sample>)
    requires Covers(samples) && Advancing(samples)
    ensures Wait(samples, 0).exitAt <= TimeoutMs / PollDelayMs
  {
    if |samples| > TimeoutMs / PollDelayMs {
      assert Exits(samples[TimeoutMs / PollDelayMs]);
    }
  }

  /** The polling loop as written: `dready_stat` starts true and is cleared
      only on the timeout break. */
  method WaitForDataReady(samples: seq<Sample>) returns (dreadyStat: bool, exitAt: nat)
    requires Covers(samples)
    ensures exitAt < |samples|
    ensures forall j :: 0 <= j < exitAt ==> samples[j].high && samples[j].elapsedMs <= TimeoutMs
    ensures !dreadyStat <==> samples[exitAt].high && samples[exitAt].elapsedMs > TimeoutMs
    ensures dreadyStat <==> !samples[exitAt].high
    ensures Outcome(dreadyStat, exitAt) == Wait(samples, 0)
  {
    dreadyStat := true;
    exitAt := 0;
    while samples[exitAt].high
      invariant exitAt < |samples|
      invariant forall j :: 0 <= j < exitAt ==> !Exits(samples[j])
      invariant exists k :: exitAt <= k < |samples| && Exits(samples[k])
      decreases |samples| - exitAt
    {
      if samples[exitAt].elapsedMs > TimeoutMs {
        dreadyStat := false;
        break;
      }
      exitAt := exitAt + 1;
    }
  }
}
