/** One sink's `push` and `next` interleaved step by step with tokio's `Notify`: producers hold the
    queue lock from the enqueue to the notification, readers check the queue under the lock and
    await outside it. `Notify` stores at most one permit and wakes waiters first-in first-out. */
module Wakeup {
  import opened Bytes
  import opened Ring

  datatype Pc = Outside | AtCheck | AtAwait | Parked

  datatype State = State(
    queue: seq<Octets>,
    permit: bool,
    pushing: bool,        // a producer holds the lock, between the enqueue and `notify_one`
    readers: seq<Pc>,
    waiters: seq<nat>,    // parked readers, oldest first
    returned: seq<Octets> // what calls of `next` have returned
  )

  datatype Step =
    | PushQueue(frame: Octets)
    | PushNotify
    | CallNext(r: nat)
    | CheckQueue(r: nat)
    | PollNotified(r: nat)

  predicate Enabled(s: State, step: Step) {
    match step
    case PushQueue(_) => !s.pushing
    case PushNotify => s.pushing
    case CallNext(r) => r < |s.readers| && s.readers[r].Outside?
    case CheckQueue(r) => r < |s.readers| && s.readers[r].AtCheck? && !s.pushing
    case PollNotified(r) => r < |s.readers| && s.readers[r].AtAwait?
  }

  /** A step that is not enabled changes nothing. */
  function Apply(s: State, cap: nat, step: Step): State {
    if !Enabled(s, step) then s
    else
      match step
      case PushQueue(frame) => s.(queue := Pushed(s.queue, cap, frame), pushing := true)
      case PushNotify =>
        if s.waiters == [] then s.(permit := true, pushing := false)
        else
          var w := s.waiters[0];
          var readers := if w < |s.readers| then s.readers[w := AtCheck] else s.readers;
          s.(readers := readers, waiters := s.waiters[1..], pushing := false)
      case CallNext(r) => s.(readers := s.readers[r := AtCheck])
      case CheckQueue(r) =>
        if s.queue == [] then s.(readers := s.readers[r := AtAwait])
        else s.(readers := s.readers[r := Outside], returned := s.returned + [s.queue[0]], queue := s.queue[1..])
      case PollNotified(r) =>
        if s.permit then s.(permit := false, readers := s.readers[r := AtCheck])
        else s.(readers := s.readers[r := Parked], waiters := s.waiters + [r])
  }

  function Start(n: nat): State {
    State([], false, false, seq(n, _ => Outside), [], [])
  }

  function Run(n: nat, cap: nat, steps: seq<Step>): State {
    if steps == [] then Start(n) else Apply(Run(n, cap, steps[..|steps| - 1]), cap, steps[|steps| - 1])
  }

  lemma RunSnoc(n: nat, cap: nat, steps: seq<Step>, step: Step)
    ensures Run(n, cap, steps + [step]) == Apply(Run(n, cap, steps), cap, step)
  {
  }

  /** A push that finds the lock free gets its frame in, and lets go of the lock with the notification. */
  lemma PushGoesThrough(n: nat, cap: nat, steps: seq<Step>, frame: Octets)
    requires !Run(n, cap, steps).pushing
    ensures var s, s' := Run(n, cap, steps), Run(n, cap, steps + [PushQueue(frame)] + [PushNotify]);
      && !s'.pushing && s'.returned == s.returned && (s.waiters == [] ==> s'.permit)
      && s'.queue == (if s.queue != [] && |s.queue| >= cap then s.queue[1..] else s.queue) + [frame]
  {
    RunSnoc(n, cap, steps, PushQueue(frame));
    RunSnoc(n, cap, steps + [PushQueue(frame)], PushNotify);
  }

  /** A call of `next` that finds a frame returns the oldest at once, whoever else waits. */
  lemma CallReturnsOldest(n: nat, cap: nat, steps: seq<Step>, r: nat)
    requires r < |Run(n, cap, steps).readers| && Run(n, cap, steps).readers[r].Outside?
    requires Run(n, cap, steps).queue != [] && !Run(n, cap, steps).pushing
    ensures var s, s' := Run(n, cap, steps), Run(n, cap, steps + [CallNext(r)] + [CheckQueue(r)]);
      s'.returned == s.returned + [s.queue[0]] && s'.queue == s.queue[1..] && s'.readers == s.readers
  {
    RunSnoc(n, cap, steps, CallNext(r));
    RunSnoc(n, cap, steps + [CallNext(r)], CheckQueue(r));
    var rs := Run(n, cap, steps).readers;
    assert rs[r := AtCheck][r := Outside] == rs;
  }

  // ----- who is woken -----

  /** The parked readers, each once. */
  ghost predicate WaitersAreParked(s: State) {
    && (forall i, j | 0 <= i < j < |s.waiters| :: s.waiters[i] != s.waiters[j])
    && (forall r: nat :: r in s.waiters <==> r < |s.readers| && s.readers[r].Parked?)
  }

  lemma ParkedAfterNotify(s: State, cap: nat)
    requires WaitersAreParked(s) && s.pushing && s.waiters != []
    ensures WaitersAreParked(Apply(s, cap, PushNotify))
  {
    var w, s' := s.waiters[0], Apply(s, cap, PushNotify);
    assert s.waiters == [w] + s'.waiters;
    assert w in s.waiters;
    forall r: nat ensures r in s'.waiters <==> r < |s'.readers| && s'.readers[r].Parked? {
      assert r in s'.waiters <==> r in s.waiters && r != w;
    }
  }

  lemma ParkedAfterStep(s: State, cap: nat, step: Step)
    requires WaitersAreParked(s)
    ensures WaitersAreParked(Apply(s, cap, step))
  {
    if Enabled(s, step) {
      match step
      case PushNotify =>
        if s.waiters != [] {
          ParkedAfterNotify(s, cap);
        }
      case PollNotified(r) => assert r !in s.waiters;
      case _ =>
    }
  }

  lemma {:induction false} RunParked(n: nat, cap: nat, steps: seq<Step>)
    ensures WaitersAreParked(Run(n, cap, steps))
  {
    if steps != [] {
      RunParked(n, cap, steps[..|steps| - 1]);
      ParkedAfterStep(Run(n, cap, steps[..|steps| - 1]), cap, steps[|steps| - 1]);
    }
  }

  /** How many pushes have ended since. */
  function Notifies(steps: seq<Step>): nat {
    if steps == [] then 0 else Notifies(steps[..|steps| - 1]) + if steps[|steps| - 1].PushNotify? then 1 else 0
  }

  /** A queue loses its first element or gains a last one. */
  lemma QueueMoves(waiters: seq<nat>, waiters': seq<nat>, before: seq<nat>, k: nat, later: seq<nat>)
    returns (k': nat, later': seq<nat>)
    requires k <= |before| && waiters == before[k..] + later
    requires waiters' == waiters || waiters <= waiters' || (waiters != [] && waiters' == waiters[1..])
    ensures k <= k' <= |before| && waiters' == before[k'..] + later'
    ensures k' == k || (k' == k + 1 && waiters != [] && waiters' == waiters[1..])
  {
    k', later' := k, later;
    if waiters <= waiters' {
      later' := waiters'[|before| - k..];
      assert waiters' == before[k..] + later';
    } else if k < |before| {
      k' := k + 1;
      assert waiters' == before[k'..] + later;
    } else {
      later' := later[1..];
      assert waiters' == before[k..] + later';
    }
  }

  lemma QueueStep(s: State, cap: nat, step: Step)
    ensures var waiters' := Apply(s, cap, step).waiters;
      || s.waiters <= waiters'
      || (step == PushNotify && s.waiters != [] && waiters' == s.waiters[1..])
  {
  }

  /** Parked readers are woken first come, first served: after any further steps those still parked since
      are the later ones, in their order, in front of all who parked after them, and no more were woken than
      pushes ended. */
  lemma {:induction false} FirstParkedFirstWoken(n: nat, cap: nat, steps: seq<Step>, more: seq<Step>,
                                                 waiting: seq<nat>)
    returns (k: nat, later: seq<nat>)
    requires waiting == Run(n, cap, steps).waiters
    ensures k <= |waiting| && k <= Notifies(more)
    ensures Run(n, cap, steps + more).waiters == waiting[k..] + later
  {
    if more == [] {
      assert steps + more == steps;
      k, later := 0, [];
    } else {
      var front, last := more[..|more| - 1], more[|more| - 1];
      k, later := FirstParkedFirstWoken(n, cap, steps, front, waiting);
      var s := Run(n, cap, steps + front);
      QueueStep(s, cap, last);
      k, later := QueueMoves(s.waiters, Apply(s, cap, last).waiters, waiting, k, later);
      RunSnoc(n, cap, steps + front, last);
      assert steps + more == (steps + front) + [last];
    }
  }

  /** A push that ends with readers parked sends the one that parked first to look again. */
  lemma NotifyWakesFirst(n: nat, cap: nat, steps: seq<Step>)
    requires Run(n, cap, steps).pushing && Run(n, cap, steps).waiters != []
    ensures var s, s' := Run(n, cap, steps), Run(n, cap, steps + [PushNotify]);
      s'.waiters == s.waiters[1..] && s.waiters[0] < |s'.readers| && s'.readers[s.waiters[0]] == AtCheck
      && s'.permit == s.permit
  {
    RunParked(n, cap, steps);
    RunSnoc(n, cap, steps, PushNotify);
    assert Run(n, cap, steps).waiters[0] in Run(n, cap, steps).waiters;
  }

  /** A reader sleeps, frames wait, and nothing is on its way to wake anyone. */
  predicate Lost(s: State) {
    && s.queue != [] && Parked in s.readers
    && !s.pushing && !s.permit && AtCheck !in s.readers
  }

  // ----- one reader -----

  predicate Inv(s: State) {
    && |s.readers| == 1
    && s.waiters == (if s.readers[0].Parked? then [0] else [])
    && (s.readers[0].Parked? ==> !s.permit && (s.queue == [] || s.pushing))
    && (s.readers[0].AtAwait? && s.queue != [] ==> s.permit || s.pushing)
  }

  lemma {:induction false} OneReaderInv(cap: nat, steps: seq<Step>)
    ensures Inv(Run(1, cap, steps))
  {
    if steps != [] {
      OneReaderInv(cap, steps[..|steps| - 1]);
    }
  }

  /** With frames waiting and the one reader inside `next`, finishing the push under way (if any)
      and two moves of the reader return the frame that is oldest now. No wakeup is missing. */
  lemma NextReturnsOldest(cap: nat, steps: seq<Step>)
    requires var s := Run(1, cap, steps); s.queue != [] && Outside !in s.readers
    ensures var s, t := Run(1, cap, steps), Run(1, cap, steps + [PushNotify] + [PollNotified(0)] + [CheckQueue(0)]);
      t.returned == s.returned + [s.queue[0]] && t.queue == s.queue[1..]
  {
    OneReaderInv(cap, steps);
    RunSnoc(1, cap, steps, PushNotify);
    RunSnoc(1, cap, steps + [PushNotify], PollNotified(0));
    RunSnoc(1, cap, steps + [PushNotify] + [PollNotified(0)], CheckQueue(0));
  }

  // ----- rings of one frame -----

  /** Beside a frame in a ring of one there is always a notification under way, a stored permit, or a
      reader about to look. */
  predicate OneFrameInv(s: State) {
    && |s.queue| <= 1
    && (forall i | 0 <= i < |s.waiters| :: s.waiters[i] < |s.readers|)
    && (s.queue != [] ==> s.pushing || s.permit || exists r | 0 <= r < |s.readers| :: s.readers[r] == AtCheck)
  }

  lemma OneFrameStep(s: State, cap: nat, step: Step)
    requires OneFrameInv(s) && cap <= 1
    ensures OneFrameInv(Apply(s, cap, step))
  {
    var s' := Apply(s, cap, step);
    if Enabled(s, step) {
      match step
      case PushQueue(_) =>
      case PushNotify =>
        if s.waiters != [] {
          assert s'.readers[s.waiters[0]] == AtCheck;
        }
      case CallNext(r) =>
        assert s'.readers[r] == AtCheck;
      case CheckQueue(r) =>
        assert s.queue != [] ==> s'.queue == [];
      case PollNotified(r) =>
        if s.permit {
          assert s'.readers[r] == AtCheck;
        } else if q: nat :| q < |s.readers| && s.readers[q] == AtCheck {
          assert s'.readers[q] == AtCheck;
        }
    }
  }

  lemma {:induction false} OneFrameRun(n: nat, cap: nat, steps: seq<Step>)
    requires cap <= 1
    ensures OneFrameInv(Run(n, cap, steps))
  {
    if steps != [] {
      OneFrameRun(n, cap, steps[..|steps| - 1]);
      OneFrameStep(Run(n, cap, steps[..|steps| - 1]), cap, steps[|steps| - 1]);
    }
  }

  // ----- several readers -----

  /** Extends a run whose state is known by one step. */
  lemma Extend(n: nat, cap: nat, steps: seq<Step>, s: State, step: Step) returns (steps': seq<Step>)
    requires Run(n, cap, steps) == s
    ensures steps' == steps + [step] && Run(n, cap, steps') == Apply(s, cap, step)
  {
    RunSnoc(n, cap, steps, step);
    steps' := steps + [step];
  }

  /** A reader looks at the empty queue and is about to await. */
  lemma SeesEmpty(n: nat, cap: nat, rs: seq<Pc>, r: nat, before: seq<Step>) returns (steps: seq<Step>)
    requires Run(n, cap, before) == State([], false, false, rs, [], [])
    requires r < |rs| && rs[r] == Outside
    ensures Run(n, cap, steps) == State([], false, false, rs[r := AtAwait], [], [])
  {
    steps := Extend(n, cap, before, State([], false, false, rs, [], []), CallNext(r));
    steps := Extend(n, cap, steps, State([], false, false, rs[r := AtCheck], [], []), CheckQueue(r));
    assert rs[r := AtCheck][r := AtAwait] == rs[r := AtAwait];
  }

  /** Two pushes before either reader awaits store a single permit. */
  lemma TwoPushesOnePermit(n: nat, cap: nat, rs: seq<Pc>, before: seq<Step>) returns (steps: seq<Step>)
    requires cap >= 2 && Run(n, cap, before) == State([], false, false, rs, [], [])
    ensures Run(n, cap, steps) == State([[0], [1]], true, false, rs, [], [])
  {
    var s := State([], false, false, rs, [], []);
    steps := Extend(n, cap, before, s, PushQueue([0]));
    steps := Extend(n, cap, steps, s.(queue := [[0]], pushing := true), PushNotify);
    steps := Extend(n, cap, steps, s.(queue := [[0]], permit := true), PushQueue([1]));
    steps := Extend(n, cap, steps, s.(queue := [[0], [1]], pushing := true, permit := true), PushNotify);
  }

  /** The permit takes one reader to one frame; the other sleeps beside the second frame. */
  lemma TwoReadersLose(n: nat, cap: nat) returns (steps: seq<Step>)
    requires n >= 2 && cap >= 2
    ensures Lost(Run(n, cap, steps))
  {
    var idle := Start(n).readers;
    steps := SeesEmpty(n, cap, idle, 0, []);
    steps := SeesEmpty(n, cap, idle[0 := AtAwait], 1, steps);
    var rs := idle[0 := AtAwait][1 := AtAwait];
    steps := TwoPushesOnePermit(n, cap, rs, steps);
    steps := Extend(n, cap, steps, State([[0], [1]], true, false, rs, [], []), PollNotified(0));
    steps := Extend(n, cap, steps, State([[0], [1]], false, false, rs[0 := AtCheck], [], []), PollNotified(1));
    steps := Extend(n, cap, steps, State([[0], [1]], false, false, rs[0 := AtCheck][1 := Parked], [1], []),
      CheckQueue(0));
    var end := State([[1]], false, false, rs[0 := AtCheck][1 := Parked][0 := Outside], [1], [[0]]);
    assert Run(n, cap, steps) == end;
    assert end.readers[1] == Parked;
  }

  /** No run of a sink with this many readers and this capacity loses a wakeup. */
  ghost predicate NeverLoses(n: nat, cap: nat) {
    forall steps: seq<Step> :: !Lost(Run(n, cap, steps))
  }

  /** A sink never loses a wakeup, whatever its producers do, exactly when at most one task reads it
      or its ring holds a single frame. At the relay's capacity of 128, one reader is the condition. */
  lemma NoLostWakeupIff(n: nat, cap: nat)
    ensures NeverLoses(n, cap) <==> n <= 1 || cap <= 1
  {
    if n >= 2 && cap >= 2 {
      var steps := TwoReadersLose(n, cap);
      assert Lost(Run(n, cap, steps));
    } else {
      forall steps: seq<Step> ensures !Lost(Run(n, cap, steps)) {
        if n == 0 {
          NoReaders(cap, steps);
        } else if n == 1 {
          OneReaderInv(cap, steps);
        } else {
          OneFrameRun(n, cap, steps);
        }
      }
    }
  }

  lemma {:induction false} NoReaders(cap: nat, steps: seq<Step>)
    ensures Run(0, cap, steps).readers == []
  {
    if steps != [] {
      NoReaders(cap, steps[..|steps| - 1]);
    }
  }
}
