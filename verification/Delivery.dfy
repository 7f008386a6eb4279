/** What a sink's readers are given: the frames of its ring, however they interleave with the producers. */
module Delivery {
  import opened Bytes
  import opened Ring
  import opened Wakeup

  /** What a step does to the ring: a push, or a reader's look that finds a frame. */
  function RingOpsBy(s: State, step: Step): seq<RingOp> {
    if !Enabled(s, step) then []
    else if step.PushQueue? then [Push(step.frame)]
    else if step.CheckQueue? && s.queue != [] then [Pop]
    else []
  }

  function RingOpsOf(n: nat, cap: nat, steps: seq<Step>): seq<RingOp> {
    if steps == [] then []
    else RingOpsOf(n, cap, steps[..|steps| - 1]) + RingOpsBy(Run(n, cap, steps[..|steps| - 1]), steps[|steps| - 1])
  }

  lemma RingSnoc(cap: nat, ops: seq<RingOp>, op: RingOp)
    ensures RunSink(cap, ops + [op]) == StepSink(RunSink(cap, ops), cap, op)
  {
    assert (ops + [op])[..|ops|] == ops;
  }

  lemma RingFollows(s: State, cap: nat, step: Step)
    ensures |RingOpsBy(s, step)| <= 1
    ensures Sink(Apply(s, cap, step).queue, Apply(s, cap, step).returned) ==
      AfterAll(Sink(s.queue, s.returned), cap, RingOpsBy(s, step))
  {
  }

  /** At most one operation, carried out. */
  function AfterAll(sink: Sink, cap: nat, ops: seq<RingOp>): Sink {
    if ops == [] then sink else StepSink(sink, cap, ops[0])
  }

  /** However producers and readers interleave, the queue and everything that calls of `next` have
      returned are those of the ring, so what `Ring` says of a run of pushes and pops holds of them. */
  lemma {:induction false} NextReadsTheRing(n: nat, cap: nat, steps: seq<Step>)
    ensures RunSink(cap, RingOpsOf(n, cap, steps)) == Sink(Run(n, cap, steps).queue, Run(n, cap, steps).returned)
  {
    if steps != [] {
      var k := |steps| - 1;
      var s := Run(n, cap, steps[..k]);
      NextReadsTheRing(n, cap, steps[..k]);
      RingFollows(s, cap, steps[k]);
      RingAfter(cap, RingOpsOf(n, cap, steps[..k]), RingOpsBy(s, steps[k]));
    }
  }

  lemma RingAfter(cap: nat, ops: seq<RingOp>, more: seq<RingOp>)
    requires |more| <= 1
    ensures RunSink(cap, ops + more) == AfterAll(RunSink(cap, ops), cap, more)
  {
    if more == [] {
      assert ops + more == ops;
    } else {
      assert ops + more == ops + [more[0]];
      RingSnoc(cap, ops, more[0]);
    }
  }
}
