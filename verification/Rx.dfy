/** The receive queues of the plugin, their length-prefixed framing, and the splitter on the host side. */
module Rx {
  import opened Bytes
  import opened Net

  const U32: nat := 0x1_0000_0000

  /** A cast to `u32`, or the result of wrapping 32-bit addition. */
  function Low32(n: nat): (r: nat)
    ensures r < U32 && (n < U32 ==> r == n)
  {
    n % 0x1_0000_0000
  }

  // ----- the frame format -----

  /** `u32::to_le_bytes` */
  function U32LE(n: nat): (b: Octets)
    requires n < U32
    ensures |b| == 4
  {
    [(n % 256) as byte, (n / 256 % 256) as byte, (n / 65536 % 256) as byte, (n / 16777216) as byte]
  }

  /** `u32::from_le_bytes` */
  function FromLE(b: Octets): (n: nat)
    requires |b| >= 4
    ensures n < U32
  {
    b[0] as int + 256 * (b[1] as int) + 65536 * (b[2] as int) + 16777216 * (b[3] as int)
  }

  /** Least significant byte first, in both directions. */
  lemma LittleEndian(n: nat, b: Octets)
    requires n < 4294967296 && |b| >= 4
    ensures var w := U32LE(n);
      w[0] as int + 256 * (w[1] as int) + 65536 * (w[2] as int) + 16777216 * (w[3] as int) == n
    ensures FromLE(b) == b[0] as int + 256 * (b[1] as int) + 65536 * (b[2] as int) + 16777216 * (b[3] as int)
  {
    FromLEInvertsU32LE(n);
  }

  lemma FromLEInvertsU32LE(n: nat)
    requires n < U32
    ensures FromLE(U32LE(n)) == n
  {
    assert n == n % 256 + 256 * (n / 256);
    assert n / 256 == n / 256 % 256 + 256 * (n / 256 / 256);
    assert n / 256 / 256 == n / 65536;
    assert n / 65536 == n / 65536 % 256 + 256 * (n / 65536 / 256);
    assert n / 65536 / 256 == n / 16777216;
  }

  /** A frame on the wire; the length word is a truncating cast. */
  function Frame(f: Octets): (b: Octets)
    ensures |b| == 4 + |f|
  {
    U32LE(Low32(|f|)) + f
  }

  function Encode(fs: seq<Octets>): (b: Octets)
    ensures |b| == Total(fs)
  {
    if fs == [] then [] else Frame(fs[0]) + Encode(fs[1..])
  }

  function Total(fs: seq<Octets>): nat {
    if fs == [] then 0 else 4 + |fs[0]| + Total(fs[1..])
  }

  lemma {:induction false} EncodeSnoc(fs: seq<Octets>, f: Octets)
    ensures Encode(fs + [f]) == Encode(fs) + Frame(f)
    ensures Total(fs + [f]) == Total(fs) + 4 + |f|
  {
    if fs == [] {
      assert Encode([f]) == Frame(f) by { assert [f][1..] == []; }
    } else {
      assert (fs + [f])[1..] == fs[1..] + [f];
      EncodeSnoc(fs[1..], f);
    }
  }

  /** How many whole frames from the front fit into `room` bytes. */
  function Fit(q: seq<Octets>, room: nat): (k: nat)
    ensures k <= |q|
    ensures Total(q[..k]) <= room
    ensures k < |q| ==> Total(q[..k]) + 4 + |q[k]| > room
  {
    if q == [] || 4 + |q[0]| > room then 0
    else
      var k := Fit(q[1..], room - 4 - |q[0]|);
      assert q[..k + 1][1..] == q[1..][..k];
      k + 1
  }

  /** The count that fits is the only one with `Fit`'s two properties. */
  lemma {:induction false} FitIs(q: seq<Octets>, room: nat, k: nat)
    requires k <= |q| && Total(q[..k]) <= room
    requires k < |q| ==> Total(q[..k]) + 4 + |q[k]| > room
    ensures Fit(q, room) == k
  {
    if k > 0 {
      assert q[..k][1..] == q[1..][..k - 1];
      FitIs(q[1..], room - 4 - |q[0]|, k - 1);
    }
  }

  /** Wrapping every partial sum is wrapping the sum. */
  lemma WrappingAdd(sum: nat, len: nat)
    ensures Low32(Low32(sum) + Low32(4 + Low32(len))) == Low32(sum + 4 + len)
  {
  }

  // ----- the queues -----

  function QueueIn(queues: map<Topic, seq<Octets>>, topic: Topic): seq<Octets> {
    if topic in queues then queues[topic] else []
  }

  class RxState {
    var queues: map<Topic, seq<Octets>>

    constructor ()
      ensures queues == map[]
    {
      queues := map[];
    }

    ghost function Queue(topic: Topic): seq<Octets>
      reads this
    {
      QueueIn(queues, topic)
    }

    /** Messages go to the back of their own topic's queue, in order; other events are ignored. */
    method Ingest(events: seq<NetEvent>)
      modifies this
      ensures forall t :: Queue(t) == old(Queue(t)) + BytesOn(events, t)
    {
      for i := 0 to |events|
        invariant forall t :: Queue(t) == old(Queue(t)) + BytesOn(events[..i], t)
      {
        assert events[..i + 1][..i] == events[..i];
        IngestOne(events[i]);
        forall t ensures Queue(t) == old(Queue(t)) + BytesOn(events[..i + 1], t) {
          ConcatAssoc(old(Queue(t)), BytesOn(events[..i], t), PayloadOn(events[i], t));
        }
      }
      assert events[..|events|] == events;
    }

    method IngestOne(e: NetEvent)
      modifies this
      ensures forall t :: Queue(t) == old(Queue(t)) + PayloadOn(e, t)
    {
      if e.Message? {
        queues := queues[e.topic := QueueIn(queues, e.topic) + [e.bs]];
      }
    }

    /** Bytes the queue takes when framed, in 32-bit wrapping arithmetic. */
    method PendingBytes(topic: Topic) returns (n: nat)
      ensures n == Low32(Total(Queue(topic)))
    {
      var q := QueueIn(queues, topic);
      n := 0;
      for i := 0 to |q|
        invariant n == Low32(Total(q[..i]))
      {
        assert q[..i + 1] == q[..i] + [q[i]];
        EncodeSnoc(q[..i], q[i]);
        WrappingAdd(Total(q[..i]), |q[i]|);
        n := Low32(n + Low32(4 + Low32(|q[i]|)));
      }
      assert q[..|q|] == q;
    }

    /** Writes the frames that fit, oldest first, and dequeues exactly those. */
    method DrainInto(topic: Topic, out: array<byte>) returns (written: nat)
      modifies this, out
      ensures var q, k := old(Queue(topic)), Fit(old(Queue(topic)), out.Length);
        && written == Low32(Total(q[..k]))
        && out[..] == Encode(q[..k]) + old(out[..])[Total(q[..k])..]
        && Queue(topic) == q[k..]
      ensures forall t | t != topic :: Queue(t) == old(Queue(t))
    {
      ghost var q, before := QueueIn(queues, topic), out[..];
      var w: nat := 0;
      ghost var k: nat := 0;
      while topic in queues && queues[topic] != []
        invariant forall t | t != topic :: Queue(t) == old(Queue(t))
        invariant k <= |q| && Queue(topic) == q[k..] && Drained(q, before, k, w, out[..])
        decreases |q| - k
      {
        var frame := queues[topic][0];
        assert frame == q[k];
        if w + 4 + |frame| > out.Length {
          break;
        }
        DrainOne(q, before, k, w, out[..]);
        WriteFrame(out, w, frame);
        w := w + 4 + |frame|;
        queues := queues[topic := queues[topic][1..]];
        k := k + 1;
      }
      FitIs(q, out.Length, k);
      written := Low32(w);
    }
  }

  /** The first `k` frames are written over the first `w` bytes of what the buffer held before. */
  predicate Drained(q: seq<Octets>, before: Octets, k: nat, w: nat, now: Octets) {
    k <= |q| && w == Total(q[..k]) && w <= |before| && now == Encode(q[..k]) + before[w..]
  }

  /** The buffer with this frame written at offset `w`. */
  function Overwritten(buf: Octets, w: nat, frame: Octets): Octets
    requires w + 4 + |frame| <= |buf|
  {
    buf[..w] + Frame(frame) + buf[w + 4 + |frame|..]
  }

  lemma DrainOne(q: seq<Octets>, before: Octets, k: nat, w: nat, now: Octets)
    requires Drained(q, before, k, w, now) && k < |q| && w + 4 + |q[k]| <= |before| == |now|
    ensures Drained(q, before, k + 1, w + 4 + |q[k]|, Overwritten(now, w, q[k]))
  {
    assert q[..k + 1] == q[..k] + [q[k]];
    EncodeSnoc(q[..k], q[k]);
    Splice(Encode(q[..k]), Frame(q[k]), before, now);
  }

  lemma Splice(enc: Octets, frame: Octets, before: Octets, now: Octets)
    requires |enc| + |frame| <= |before| && now == enc + before[|enc|..]
    ensures now[..|enc|] + frame + now[|enc| + |frame|..] == (enc + frame) + before[|enc| + |frame|..]
  {
  }

  /** Writes one frame at offset `w`. */
  method WriteFrame(out: array<byte>, w: nat, frame: Octets)
    requires w + 4 + |frame| <= out.Length
    modifies out
    ensures out[..] == Overwritten(old(out[..]), w, frame)
  {
    var head := U32LE(Low32(|frame|));
    forall j | 0 <= j < 4 {
      out[w + j] := head[j];
    }
    forall j | 0 <= j < |frame| {
      out[w + 4 + j] := frame[j];
    }
  }

  function PayloadOn(e: NetEvent, topic: Topic): seq<Octets> {
    if e.Message? && e.topic == topic then [e.bs] else []
  }

  /** The payloads of the messages on one topic, in order. */
  function BytesOn(events: seq<NetEvent>, topic: Topic): seq<Octets> {
    if events == [] then [] else BytesOn(events[..|events| - 1], topic) + PayloadOn(events[|events| - 1], topic)
  }

  lemma BytesOnSnoc(events: seq<NetEvent>, e: NetEvent, topic: Topic)
    ensures BytesOn(events + [e], topic) == BytesOn(events, topic) + PayloadOn(e, topic)
  {
  }

  lemma {:induction false} BytesOnConcat(a: seq<NetEvent>, b: seq<NetEvent>, topic: Topic)
    ensures BytesOn(a + b, topic) == BytesOn(a, topic) + BytesOn(b, topic)
  {
    if b == [] {
      assert a + b == a;
    } else {
      var front, last := b[..|b| - 1], b[|b| - 1];
      BytesOnConcat(a, front, topic);
      assert a + b == (a + front) + [last];
      BytesOnSnoc(a + front, last, topic);
      ConcatAssoc(BytesOn(a, topic), BytesOn(front, topic), PayloadOn(last, topic));
    }
  }

  // ----- the splitter -----

  /** Cuts frames off the front until a whole one no longer fits. */
  function Split(buf: Octets): seq<Octets>
    decreases |buf|
  {
    if |buf| < 4 || 4 + FromLE(buf) > |buf| then []
    else [buf[4..4 + FromLE(buf)]] + Split(buf[4 + FromLE(buf)..])
  }

  /** The first `off` bytes were cut into these frames. */
  predicate Cut(buf: Octets, off: nat, frames: seq<Octets>) {
    off <= |buf| && Split(buf) == frames + Split(buf[off..])
  }

  lemma LengthAt(buf: Octets, off: nat)
    requires off + 4 <= |buf|
    ensures FromLE(buf[off..off + 4]) == FromLE(buf[off..])
  {
  }

  /** No whole frame is left. */
  lemma CutEnds(buf: Octets, off: nat, frames: seq<Octets>)
    requires Cut(buf, off, frames)
    requires off + 4 > |buf| || off + 4 + FromLE(buf[off..]) > |buf|
    ensures Split(buf) == frames
  {
    assert Split(buf[off..]) == [];
  }

  lemma SplitWhole(buf: Octets, len: nat, frame: Octets, rest: Octets)
    requires |buf| >= 4 && FromLE(buf) == len && 4 + len <= |buf|
    requires frame == buf[4..4 + len] && rest == buf[4 + len..]
    ensures Split(buf) == [frame] + Split(rest)
  {
  }

  /** A whole frame of `len` bytes stands at offset `off`. */
  predicate WholeAt(buf: Octets, off: nat, len: nat) {
    off + 4 + len <= |buf| && FromLE(buf[off..]) == len
  }

  lemma SplitAt(buf: Octets, off: nat, len: nat)
    requires WholeAt(buf, off, len)
    ensures Split(buf[off..]) == [buf[off + 4..off + 4 + len]] + Split(buf[off + 4 + len..])
  {
    SliceOfRest(buf, off, 4, 4 + len);
    SplitWhole(buf[off..], len, buf[off + 4..off + 4 + len], buf[off + 4 + len..]);
  }

  lemma CutFrame(buf: Octets, off: nat, len: nat, frames: seq<Octets>)
    requires Cut(buf, off, frames) && off + 4 + len <= |buf|
    requires Split(buf[off..]) == [buf[off + 4..off + 4 + len]] + Split(buf[off + 4 + len..])
    ensures Cut(buf, off + 4 + len, frames + [buf[off + 4..off + 4 + len]])
  {
    ConcatAssoc(frames, [buf[off + 4..off + 4 + len]], Split(buf[off + 4 + len..]));
  }

  /** The next frame is whole: the cut moves behind it. */
  lemma CutNext(buf: Octets, off: nat, len: nat, frames: seq<Octets>)
    requires Cut(buf, off, frames) && WholeAt(buf, off, len)
    ensures Cut(buf, off + 4 + len, frames + [buf[off + 4..off + 4 + len]])
  {
    SplitAt(buf, off, len);
    CutFrame(buf, off, len, frames);
  }

  /** `split_frames` */
  method SplitFrames(buf: Octets) returns (frames: seq<Octets>)
    ensures frames == Split(buf)
  {
    frames := [];
    var off: nat := 0;
    assert buf[0..] == buf;
    while off + 4 <= |buf|
      invariant Cut(buf, off, frames)
      decreases |buf| - off
    {
      var len := FromLE(buf[off..off + 4]);
      LengthAt(buf, off);
      ghost var start := off;
      off := off + 4;
      if off + len > |buf| {
        CutEnds(buf, start, frames);
        return;
      }
      CutNext(buf, start, len, frames);
      frames := frames + [buf[off..off + len]];
      off := off + len;
    }
    CutEnds(buf, off, frames);
  }

  predicate Framable(fs: seq<Octets>) {
    forall i | 0 <= i < |fs| :: |fs[i]| < U32
  }

  lemma SplitFrame(f: Octets, tail: Octets)
    requires |f| < U32
    ensures Split(Frame(f) + tail) == [f] + Split(tail)
  {
    var buf := Frame(f) + tail;
    FromLEInvertsU32LE(|f|);
    assert FromLE(buf) == FromLE(U32LE(|f|));
    assert buf[4..4 + |f|] == f && buf[4 + |f|..] == tail;
  }

  lemma EncodeCons(fs: seq<Octets>, rest: Octets)
    requires fs != []
    ensures Encode(fs) + rest == Frame(fs[0]) + (Encode(fs[1..]) + rest)
  {
  }

  /** Splitting recovers the frames, then carries on with whatever follows them. */
  lemma {:induction false} SplitInvertsEncode(fs: seq<Octets>, rest: Octets)
    requires Framable(fs)
    ensures Split(Encode(fs) + rest) == fs + Split(rest)
  {
    if fs == [] {
      assert Encode(fs) + rest == rest;
      assert fs + Split(rest) == Split(rest);
    } else {
      var tail := Encode(fs[1..]) + rest;
      EncodeCons(fs, rest);
      SplitFrame(fs[0], tail);
      SplitInvertsEncode(fs[1..], rest);
      PutBack(fs, Split(rest));
    }
  }

  lemma PutBack(fs: seq<Octets>, more: seq<Octets>)
    requires fs != []
    ensures [fs[0]] + (fs[1..] + more) == fs + more
  {
  }

  /** A trailing piece of a frame that is not whole yields nothing. */
  lemma {:induction false} SplitIgnoresPartial(f: Octets, n: nat)
    requires |f| < U32 && n < |Frame(f)|
    ensures Split(Frame(f)[..n]) == []
  {
    if n >= 4 {
      FromLEInvertsU32LE(|f|);
      assert FromLE(Frame(f)[..n]) == FromLE(U32LE(|f|));
    }
  }

  // ----- end to end -----

  function Zeros(n: nat): Octets {
    seq(n, _ => 0)
  }

  lemma ZerosFrom(n: nat, k: nat)
    requires k <= n
    ensures Zeros(n)[k..] == Zeros(n - k)
  {
  }

  /** The buffer `recv_bytes` returns: as long as the pending count, zero behind the frames. */
  function RecvBuffer(q: seq<Octets>): (b: Octets)
    ensures |b| == Low32(Total(q))
  {
    var n := Low32(Total(q));
    var k := Fit(q, n);
    Encode(q[..k]) + Zeros(n - Total(q[..k]))
  }

  function RecvRest(q: seq<Octets>): seq<Octets> {
    q[Fit(q, Low32(Total(q)))..]
  }

  lemma RecvTakesAll(q: seq<Octets>)
    requires Total(q) < U32
    ensures RecvRest(q) == [] && RecvBuffer(q) == Encode(q)
  {
    assert Low32(Total(q)) == Total(q);
    assert Fit(q, Total(q)) == |q| by {
      assert q[..|q|] == q;
      FitIs(q, Total(q), |q|);
    }
    assert q[..|q|] == q && Zeros(0) == [];
  }

  /** One receive takes everything, with no slack in the buffer, exactly when the queue's total
      fits the 32-bit pending count. */
  lemma {:induction false} RecvTakesAllIff(q: seq<Octets>)
    ensures RecvRest(q) == [] && RecvBuffer(q) == Encode(q) <==> Total(q) < U32
  {
    if Total(q) < U32 {
      RecvTakesAll(q);
    } else {
      assert |RecvBuffer(q)| < U32 <= |Encode(q)|;
    }
  }

  /** A queue of one frame of 2^32 bytes is one it does not take. */
  lemma LongQueueWraps()
    ensures var q := [Zeros(U32)]; !(RecvRest(q) == [] && RecvBuffer(q) == Encode(q))
  {
    var q := [Zeros(U32)];
    assert q[1..] == [];
    RecvTakesAllIff(q);
  }

  /** Four zero bytes are an empty frame. */
  lemma ZeroFrame(n: nat)
    requires n >= 4
    ensures Split(Zeros(n)) == [[]] + Split(Zeros(n - 4))
  {
    var buf := Zeros(n);
    assert FromLE(buf) == 0;
    ZerosFrom(n, 4);
    assert buf[4..4] == [];
    SplitWhole(buf, 0, [], Zeros(n - 4));
  }

  function Empties(n: nat): (r: seq<Octets>)
    ensures |r| == n && forall i | 0 <= i < n :: r[i] == []
  {
    seq(n, _ => [])
  }

  lemma {:induction false} SplitZeros(n: nat)
    ensures Split(Zeros(n)) == Empties(n / 4)
  {
    if n >= 4 {
      ZeroFrame(n);
      SplitZeros(n - 4);
      assert Empties(n / 4) == [[]] + Empties((n - 4) / 4);
    }
  }

  /** What the host reads from any receive: the dequeued frames, then one empty frame for each
      whole four bytes of slack a wrapped pending count leaves. */
  lemma {:induction false} SplitOfRecv(q: seq<Octets>)
    requires Framable(q)
    ensures var n, k := Low32(Total(q)), Fit(q, Low32(Total(q)));
      Split(RecvBuffer(q)) == q[..k] + Empties((n - Total(q[..k])) / 4)
  {
    var n := Low32(Total(q));
    var k := Fit(q, n);
    SplitInvertsEncode(q[..k], Zeros(n - Total(q[..k])));
    SplitZeros(n - Total(q[..k]));
  }

  /** What can happen to one topic: a message arrives, or the host receives. */
  datatype RxOp = Arrive(bs: Octets) | Receive

  /** The queue and everything the host has split off so far. */
  datatype RxRun = RxRun(queue: seq<Octets>, read: seq<Octets>)

  function RunRx(ops: seq<RxOp>): RxRun {
    if ops == [] then RxRun([], [])
    else
      var r := RunRx(ops[..|ops| - 1]);
      match ops[|ops| - 1]
      case Arrive(bs) => r.(queue := r.queue + [bs])
      case Receive => RxRun(RecvRest(r.queue), r.read + Split(RecvBuffer(r.queue)))
  }

  function Arrived(ops: seq<RxOp>): seq<Octets> {
    if ops == [] then []
    else Arrived(ops[..|ops| - 1]) + if ops[|ops| - 1].Arrive? then [ops[|ops| - 1].bs] else []
  }

  /** At every receive the queue's framed size fits 32 bits. */
  predicate NeverWraps(ops: seq<RxOp>) {
    ops == [] || (NeverWraps(ops[..|ops| - 1])
      && (ops[|ops| - 1].Receive? ==> Total(RunRx(ops[..|ops| - 1]).queue) < U32))
  }

  function Arrivals(fs: seq<Octets>): (ops: seq<RxOp>)
    ensures |ops| == |fs| && forall i | 0 <= i < |fs| :: ops[i] == Arrive(fs[i])
  {
    seq(|fs|, i requires 0 <= i < |fs| => Arrive(fs[i]))
  }

  lemma RxSnoc(ops: seq<RxOp>, op: RxOp)
    ensures op.Arrive? ==> RunRx(ops + [op]) == RunRx(ops).(queue := RunRx(ops).queue + [op.bs])
    ensures op.Arrive? ==> Arrived(ops + [op]) == Arrived(ops) + [op.bs]
    ensures op.Receive? ==> Arrived(ops + [op]) == Arrived(ops)
    ensures op.Receive? ==>
      RunRx(ops + [op]) == RxRun(RecvRest(RunRx(ops).queue), RunRx(ops).read + Split(RecvBuffer(RunRx(ops).queue)))
  {
    assert (ops + [op])[..|ops|] == ops;
    assert Arrived(ops) + [] == Arrived(ops);
  }

  lemma {:induction false} NothingArrived(ops: seq<RxOp>)
    requires Arrived(ops) == []
    ensures RunRx(ops) == RxRun([], [])
  {
    if ops != [] {
      NothingArrived(ops[..|ops| - 1]);
      RecvTakesAll([]);
    }
  }

  /** After `mid` these frames have arrived on top of what `ops` brought, and nothing else happened. */
  predicate Joined(ops: seq<RxOp>, mid: seq<RxOp>, fs: seq<Octets>) {
    RunRx(mid) == RunRx(ops).(queue := RunRx(ops).queue + fs) && Arrived(mid) == Arrived(ops) + fs
  }

  lemma JoinOne(ops: seq<RxOp>, mid: seq<RxOp>, fs: seq<Octets>, f: Octets)
    requires Joined(ops, mid, fs)
    ensures Joined(ops, mid + [Arrive(f)], fs + [f])
  {
    RxSnoc(mid, Arrive(f));
    ConcatAssoc(RunRx(ops).queue, fs, [f]);
    ConcatAssoc(Arrived(ops), fs, [f]);
  }

  lemma ArrivalsSnoc(ops: seq<RxOp>, fs: seq<Octets>, f: Octets)
    ensures ops + Arrivals(fs + [f]) == (ops + Arrivals(fs)) + [Arrive(f)]
  {
    assert Arrivals(fs + [f]) == Arrivals(fs) + [Arrive(f)];
  }

  /** Messages that arrive one after the other join the queue. */
  lemma {:induction false} RunArrivals(ops: seq<RxOp>, fs: seq<Octets>)
    ensures Joined(ops, ops + Arrivals(fs), fs)
  {
    if fs == [] {
      assert ops + Arrivals(fs) == ops;
    } else {
      var front, f := fs[..|fs| - 1], fs[|fs| - 1];
      RunArrivals(ops, front);
      JoinOne(ops, ops + Arrivals(front), front, f);
      ArrivalsSnoc(ops, front, f);
      assert fs == front + [f];
    }
  }

  lemma {:induction false} FramableWhenSmall(q: seq<Octets>)
    requires Total(q) < U32
    ensures Framable(q)
  {
    if q != [] {
      FramableWhenSmall(q[1..]);
      assert forall i | 1 <= i < |q| :: q[i] == q[1..][i - 1];
    }
  }

  /** A receive that does not wrap hands over the whole queue. */
  lemma ReceiveHandsOver(queue: seq<Octets>)
    requires Total(queue) < U32
    ensures RecvRest(queue) == [] && Split(RecvBuffer(queue)) == queue
  {
    RecvTakesAll(queue);
    FramableWhenSmall(queue);
    SplitInvertsEncode(queue, []);
    assert Encode(queue) + [] == Encode(queue);
  }

  /** Over any interleaving, what the host has read followed by what is still queued is what
      arrived, in order, nothing lost, split, merged or invented. */
  lemma {:induction false} ReadThenQueuedIsArrived(ops: seq<RxOp>)
    requires NeverWraps(ops)
    ensures RunRx(ops).read + RunRx(ops).queue == Arrived(ops)
  {
    if ops != [] {
      var front := ops[..|ops| - 1];
      var r := RunRx(front);
      ReadThenQueuedIsArrived(front);
      match ops[|ops| - 1]
      case Arrive(bs) =>
        assert r.read + (r.queue + [bs]) == (r.read + r.queue) + [bs];
      case Receive =>
        ReceiveHandsOver(r.queue);
    }
  }
}
