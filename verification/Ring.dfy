/** A sink's drop-oldest ring: which frames are delivered, queued or evicted, exactly. */
module Ring {
  import opened Bytes

  /** What the ring holds at the most: a capacity of zero still keeps one frame. */
  function Room(cap: nat): nat {
    if cap == 0 then 1 else cap
  }

  /** `BroadcastSink::push` on the queue: at capacity drop the oldest (if any), then append. */
  function Pushed(queue: seq<Octets>, cap: nat, frame: Octets): seq<Octets> {
    (if |queue| >= cap && queue != [] then queue[1..] else queue) + [frame]
  }

  /** A ring keeps the newest frames that it has room for. */
  lemma PushedIsNewest(queue: seq<Octets>, cap: nat, frame: Octets)
    requires |queue| <= Room(cap)
    ensures Pushed(queue, cap, frame) == LastN(queue + [frame], Room(cap))
  {
    if |queue| == Room(cap) {
      assert (queue + [frame])[1..] == queue[1..] + [frame];
    }
  }

  datatype RingOp = Push(frame: Octets) | Pop

  /** The queue and everything popped so far. */
  datatype Sink = Sink(queue: seq<Octets>, out: seq<Octets>)

  function StepSink(s: Sink, cap: nat, op: RingOp): Sink {
    match op
    case Push(f) => s.(queue := Pushed(s.queue, cap, f))
    case Pop => if s.queue == [] then s else Sink(s.queue[1..], s.out + [s.queue[0]])
  }

  function RunSink(cap: nat, ops: seq<RingOp>): Sink {
    if ops == [] then Sink([], []) else StepSink(RunSink(cap, ops[..|ops| - 1]), cap, ops[|ops| - 1])
  }

  /** Everything ever pushed, in order. */
  function Frames(ops: seq<RingOp>): seq<Octets> {
    if ops == [] then []
    else Frames(ops[..|ops| - 1]) + if ops[|ops| - 1].Push? then [ops[|ops| - 1].frame] else []
  }

  lemma FramesSnoc(ops: seq<RingOp>, op: RingOp)
    ensures Frames(ops + [op]) == Frames(ops) + if op.Push? then [op.frame] else []
  {
  }

  /** The number of the frame that a pop takes now, if any: `n` were pushed so far. */
  function TakenNow(queue: seq<Octets>, n: nat): seq<nat> {
    if queue != [] && |queue| <= n then [n - |queue|] else []
  }

  /** The numbers of the frames that were popped, in the order they were. */
  function Taken(cap: nat, ops: seq<RingOp>): seq<nat> {
    if ops == [] then []
    else
      var front := ops[..|ops| - 1];
      Taken(cap, front) + if ops[|ops| - 1].Pop? then TakenNow(RunSink(cap, front).queue, |Frames(front)|) else []
  }

  predicate Ascending(s: seq<nat>, bound: nat) {
    (forall i, j | 0 <= i < j < |s| :: s[i] < s[j]) && (forall i | 0 <= i < |s| :: s[i] < bound)
  }

  predicate Exact(cap: nat, ops: seq<RingOp>) {
    Account(cap, Frames(ops), RunSink(cap, ops), Taken(cap, ops))
  }

  /** `all` was pushed, `s` is the sink now, `taken` numbers what it gave out. */
  predicate Account(cap: nat, all: seq<Octets>, s: Sink, taken: seq<nat>) {
    && IsSuffix(cap, all, s.queue)
    && Selected(all, |all| - |s.queue|, s.out, taken)
    && GoneExactly(cap, |all|, |all| - |s.queue|, taken)
  }

  /** The queue is a suffix of everything pushed, no longer than the room. */
  predicate IsSuffix(cap: nat, all: seq<Octets>, queue: seq<Octets>) {
    |queue| <= |all| && queue == all[|all| - |queue|..] && |queue| <= Room(cap)
  }

  /** What came out is a subsequence of what went in, all of it older than the queue. */
  predicate Selected(all: seq<Octets>, lo: nat, out: seq<Octets>, taken: seq<nat>)
    requires lo <= |all|
  {
    Ascending(taken, lo) && |out| == |taken| && (forall i | 0 <= i < |taken| :: out[i] == all[taken[i]])
  }

  /** A frame that was not popped is gone exactly when `Room` newer ones were pushed. */
  predicate GoneExactly(cap: nat, n: nat, lo: nat, taken: seq<nat>) {
    forall i | 0 <= i < n && i !in taken :: i < lo <==> i + Room(cap) < n
  }

  lemma SuffixAfterPush(cap: nat, all: seq<Octets>, queue: seq<Octets>, f: Octets)
    requires IsSuffix(cap, all, queue)
    ensures IsSuffix(cap, all + [f], Pushed(queue, cap, f))
    ensures |Pushed(queue, cap, f)| == if |queue| == Room(cap) then |queue| else |queue| + 1
  {
    var lo := |all| - |queue|;
    if |queue| == Room(cap) {
      assert Pushed(queue, cap, f) == all[lo + 1..] + [f] == (all + [f])[lo + 1..];
    } else {
      assert Pushed(queue, cap, f) == all[lo..] + [f] == (all + [f])[lo..];
    }
  }

  /** A push appends; a full ring moves its front by one. */
  lemma AccountAfterPush(cap: nat, all: seq<Octets>, s: Sink, taken: seq<nat>, f: Octets, s': Sink)
    requires Account(cap, all, s, taken) && s' == s.(queue := Pushed(s.queue, cap, f))
    ensures Account(cap, all + [f], s', taken)
  {
    SuffixAfterPush(cap, all, s.queue, f);
  }

  lemma ExactAfterPush(cap: nat, ops: seq<RingOp>, f: Octets)
    requires Exact(cap, ops)
    ensures Exact(cap, ops + [Push(f)])
  {
    assert (ops + [Push(f)])[..|ops|] == ops;
    AccountAfterPush(cap, Frames(ops), RunSink(cap, ops), Taken(cap, ops), f, RunSink(cap, ops + [Push(f)]));
  }

  lemma PopStep(cap: nat, ops: seq<RingOp>)
    ensures Frames(ops + [Pop]) == Frames(ops)
    ensures RunSink(cap, ops + [Pop]) == StepSink(RunSink(cap, ops), cap, Pop)
    ensures Taken(cap, ops + [Pop]) == Taken(cap, ops) + TakenNow(RunSink(cap, ops).queue, |Frames(ops)|)
  {
    assert (ops + [Pop])[..|ops|] == ops;
  }

  lemma FrontOfSuffix(all: seq<Octets>, queue: seq<Octets>)
    requires 0 < |queue| <= |all| && queue == all[|all| - |queue|..]
    ensures queue[0] == all[|all| - |queue|] && queue[1..] == all[|all| - |queue| + 1..]
  {
  }

  /** A pop that finds a frame takes the oldest queued one, and the account stays exact. */
  lemma AccountAfterPop(cap: nat, all: seq<Octets>, s: Sink, taken: seq<nat>)
    requires Account(cap, all, s, taken) && s.queue != []
    ensures Account(cap, all, StepSink(s, cap, Pop), taken + [|all| - |s.queue|])
  {
    FrontOfSuffix(all, s.queue);
  }

  lemma ExactAfterPop(cap: nat, ops: seq<RingOp>)
    requires Exact(cap, ops)
    ensures Exact(cap, ops + [Pop])
  {
    PopStep(cap, ops);
    var s := RunSink(cap, ops);
    if s.queue != [] {
      AccountAfterPop(cap, Frames(ops), s, Taken(cap, ops));
    } else {
      assert Taken(cap, ops) + [] == Taken(cap, ops);
    }
  }

  /** For every run of pushes and pops: the queue is a contiguous suffix of everything pushed, the
      pops are an in-order subsequence of it, and a frame is evicted if and only if `Room(cap)`
      newer frames were pushed before it was popped. */
  lemma {:induction false} RingIsExact(cap: nat, ops: seq<RingOp>)
    ensures Exact(cap, ops)
  {
    if ops != [] {
      var front := ops[..|ops| - 1];
      RingIsExact(cap, front);
      assert ops == front + [ops[|ops| - 1]];
      match ops[|ops| - 1]
      case Push(f) => ExactAfterPush(cap, front, f);
      case Pop => ExactAfterPop(cap, front);
    }
  }

  /** The numbers of the evicted frames. */
  function Evicted(cap: nat, ops: seq<RingOp>): set<nat> {
    set i: nat | i < |Frames(ops)| && i + Room(cap) < |Frames(ops)| && i !in Taken(cap, ops)
  }

  lemma {:induction false} AscendingCount(s: seq<nat>, bound: nat) returns (elements: set<nat>)
    requires Ascending(s, bound)
    ensures elements == (set i: nat | i < bound && i in s) && |elements| == |s|
  {
    if s == [] {
      elements := {};
    } else {
      var front, last := s[..|s| - 1], s[|s| - 1];
      elements := AscendingCount(front, last);
      assert s == front + [last];
      elements := elements + {last};
    }
  }

  function Upto(n: nat): (r: set<nat>)
    ensures |r| == n && forall i: nat :: i in r <==> i < n
  {
    if n == 0 then {} else Upto(n - 1) + {n - 1}
  }

  lemma PoppedOrEvicted(cap: nat, ops: seq<RingOp>, i: nat)
    ensures i < |Frames(ops)| - |RunSink(cap, ops).queue| <==> i in Taken(cap, ops) || i in Evicted(cap, ops)
  {
    RingIsExact(cap, ops);
  }

  /** Conservation: pushed is popped plus evicted plus queued. */
  lemma Conservation(cap: nat, ops: seq<RingOp>)
    ensures |Frames(ops)| == |RunSink(cap, ops).out| + |Evicted(cap, ops)| + |RunSink(cap, ops).queue|
  {
    RingIsExact(cap, ops);
    var lo := |Frames(ops)| - |RunSink(cap, ops).queue|;
    var evicted := Evicted(cap, ops);
    var popped := AscendingCount(Taken(cap, ops), lo);
    forall i: nat ensures i < lo <==> i in popped + evicted {
      PoppedOrEvicted(cap, ops, i);
    }
    assert Upto(lo) == popped + evicted;
    assert popped !! evicted;
  }
}
