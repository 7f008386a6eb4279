/** The registry and the sinks of a relay as objects, and the runs of `Fanout` they follow. */
module Hub {
  import opened Bytes
  import opened Ring
  import opened Gateway
  import Fanout

  /** The registry with every sink it ever gave out (`known`) and everything that happened (`ops`). A
      subscriber is known by the number of its sink. */
  class Hub {
    const registry: TopicRegistry
    ghost var known: seq<BroadcastSink>
    ghost var ops: seq<Fanout.RegOp>

    constructor ()
      ensures Valid() && fresh(registry) && known == [] && ops == []
    {
      registry := new TopicRegistry();
      known, ops := [], [];
    }

    ghost function Reg(): Fanout.Reg
      reads this
    {
      Fanout.Run(ops, true)
    }

    /** The objects are what the run says: each sink's queue and owner, each topic's list. */
    ghost predicate Valid()
      reads this, registry, known
    {
      && registry.Valid() && Distinct(known)
      && Mirrored(known, Reg().sinks)
      && Named(registry.inner, Reg().entries, known)
    }

    /** Everything this subscriber has been given. */
    ghost function OutOf(id: nat): seq<Octets>
      reads this
      requires id < |Reg().sinks|
    {
      SinkOf(Reg().sinks[id]).out
    }

    /** The objects have moved; now the run does. */
    ghost method Record(op: Fanout.RegOp, sinks: seq<BroadcastSink>)
      requires registry.Valid() && Distinct(sinks)
      requires var next := Fanout.Run(ops + [op], true);
        Mirrored(sinks, next.sinks) && Named(registry.inner, next.entries, sinks)
      modifies this
      ensures Valid() && known == sinks && ops == old(ops) + [op]
    {
      known, ops := sinks, ops + [op];
    }

    method Subscribe(topic: Topic, cap: nat) returns (sink: BroadcastSink)
      requires Valid()
      modifies this, registry
      ensures Valid() && fresh(sink) && known == old(known) + [sink]
      ensures ops == old(ops) + [Fanout.Subscribe(topic, cap)]
    {
      ghost var r, inner := Reg(), registry.inner;
      sink := registry.Subscribe(topic, cap);
      NamedWith(inner, r.entries, known, topic, sink);
      SubscribeStep(ops, topic, cap);
      Record(Fanout.Subscribe(topic, cap), known + [sink]);
    }

    /** A subscriber takes its oldest frame; in the run it takes the same one. */
    method Read(sink: BroadcastSink, ghost id: nat) returns (r: Option<Octets>)
      requires Valid() && id < |known| && known[id] == sink && sink.strong > 0
      modifies this, sink`queue
      ensures Valid() && known == old(known) && ops == old(ops) + [Fanout.Read(id)]
      ensures OutOf(id) == old(OutOf(id)) + if r.Some? then [r.value] else []
    {
      ReadStep(ops, id);
      r := sink.TryNext();
      Record(Fanout.Read(id), known);
    }

    /** The subscriber's task ends and drops its sink. */
    method Release(sink: BroadcastSink, ghost id: nat)
      requires Valid() && id < |known| && known[id] == sink && sink.strong > 0
      modifies this, sink`strong
      ensures Valid() && known == old(known) && ops == old(ops) + [Fanout.Release(id)]
    {
      sink.Release();
      RunStep(ops, Fanout.Release(id));
      Record(Fanout.Release(id), known);
    }

    /** The registry pushes to exactly the sinks that the run pushes to. */
    method PushListed(topic: Topic, frame: Octets, ghost r: Fanout.Reg)
      requires registry.Valid() && Distinct(known) && Mirrored(known, r.sinks) && Fanout.ListOk(r, topic)
      requires Lists(SinksOn(registry.inner, topic), r.IdsOn(topic), known)
      modifies registry, SinksOn(registry.inner, topic)`queue
      ensures registry.Valid() && Mirrored(known, Fanout.PushEach(r.sinks, r.IdsOn(topic), frame))
      ensures registry.inner ==
        if topic in old(registry.inner)
        then old(registry.inner)[topic := old(LiveOf(SinksOn(registry.inner, topic)))]
        else old(registry.inner)
    {
      ghost var listed := SinksOn(registry.inner, topic);
      registry.Broadcast(topic, frame);
      forall i: nat | i < |known| ensures Mirrors(known[i], Fanout.PushEach(r.sinks, r.IdsOn(topic), frame)[i]) {
        RecAfterBroadcast(r.sinks, r.IdsOn(topic), frame, i);
        ListedByNumber(listed, r.IdsOn(topic), known, i);
      }
    }

    method Broadcast(topic: Topic, frame: Octets)
      requires Valid()
      modifies this, registry, SinksOn(registry.inner, topic)`queue
      ensures Valid() && known == old(known) && ops == old(ops) + [Fanout.Broadcast(topic, frame)]
    {
      ghost var r, inner, live := Reg(), registry.inner, LiveOf(SinksOn(registry.inner, topic));
      ListOkOn(ops, topic);
      LiveLists(SinksOn(inner, topic), r.IdsOn(topic), known, r.sinks);
      PushListed(topic, frame, r);
      NamedAfter(inner, r.entries, known, topic, live, Fanout.LiveIds(r.sinks, r.IdsOn(topic)));
      BroadcastStep(ops, topic, frame);
      Record(Fanout.Broadcast(topic, frame), known);
    }

    method SubscriberCount(topic: Topic) returns (n: nat)
      requires Valid()
      ensures n == Reg().Count(topic)
    {
      LiveLists(SinksOn(registry.inner, topic), Reg().IdsOn(topic), known, Reg().sinks);
      n := registry.SubscriberCount(topic);
    }
  }

  lemma RunStep(ops: seq<Fanout.RegOp>, op: Fanout.RegOp)
    ensures Fanout.Run(ops + [op], true) == Fanout.Step(Fanout.Run(ops, true), op, true)
  {
  }

  function SinkOf(rec: Fanout.SinkRec): Sink {
    RunSink(rec.cap, rec.ops)
  }

  lemma SinkAfter(rec: Fanout.SinkRec, op: RingOp)
    ensures SinkOf(rec.(ops := rec.ops + [op])) == StepSink(SinkOf(rec), rec.cap, op)
  {
    assert (rec.ops + [op])[..|rec.ops|] == rec.ops;
  }

  lemma BroadcastStep(ops: seq<Fanout.RegOp>, topic: Topic, frame: Octets)
    ensures var r, r' := Fanout.Run(ops, true), Fanout.Run(ops + [Fanout.Broadcast(topic, frame)], true);
      && r'.sinks == Fanout.PushEach(r.sinks, r.IdsOn(topic), frame)
      && r'.entries ==
         if topic in r.entries then r.entries[topic := Fanout.LiveIds(r.sinks, r.IdsOn(topic))] else r.entries
  {
    RunStep(ops, Fanout.Broadcast(topic, frame));
  }

  lemma PopOf(r: Fanout.Reg, id: nat)
    requires Fanout.LiveAt(r.sinks, id)
    ensures var r' := Fanout.Step(r, Fanout.Read(id), true);
      && r'.entries == r.entries && |r'.sinks| == |r.sinks|
      && (forall i: nat | i < |r.sinks| && i != id :: r'.sinks[i] == r.sinks[i])
      && r'.sinks[id] == r.sinks[id].(ops := r.sinks[id].ops + [Pop])
  {
  }

  /** A read is a pop of that sink's ring and of no other. */
  lemma ReadStep(ops: seq<Fanout.RegOp>, id: nat)
    requires Fanout.LiveAt(Fanout.Run(ops, true).sinks, id)
    ensures var r, r' := Fanout.Run(ops, true), Fanout.Run(ops + [Fanout.Read(id)], true);
      && r'.entries == r.entries && |r'.sinks| == |r.sinks|
      && (forall i: nat | i < |r.sinks| && i != id :: r'.sinks[i] == r.sinks[i])
      && r'.sinks[id].cap == r.sinks[id].cap && r'.sinks[id].live
      && SinkOf(r'.sinks[id]) == StepSink(SinkOf(r.sinks[id]), r.sinks[id].cap, Pop)
  {
    var r := Fanout.Run(ops, true);
    RunStep(ops, Fanout.Read(id));
    PopOf(r, id);
    SinkAfter(r.sinks[id], Pop);
  }

  /** A new sink starts empty, with the next number. */
  lemma SubscribeStep(ops: seq<Fanout.RegOp>, topic: Topic, cap: nat)
    ensures var r, r' := Fanout.Run(ops, true), Fanout.Run(ops + [Fanout.Subscribe(topic, cap)], true);
      && |r'.sinks| == |r.sinks| + 1 && r'.sinks[..|r.sinks|] == r.sinks
      && r'.entries == r.entries[topic := r.IdsOn(topic) + [|r.sinks|]]
      && r'.sinks[|r.sinks|].cap == cap && r'.sinks[|r.sinks|].live && SinkOf(r'.sinks[|r.sinks|]) == Sink([], [])
  {
    RunStep(ops, Fanout.Subscribe(topic, cap));
  }

  lemma ListOkOn(ops: seq<Fanout.RegOp>, topic: Topic)
    ensures Fanout.ListOk(Fanout.Run(ops, true), topic)
  {
    Fanout.RunInv(ops, true);
  }

  /** A sink object is what its record says. */
  predicate Mirrors(s: BroadcastSink, rec: Fanout.SinkRec)
    reads s
  {
    s.cap == rec.cap && s.queue == SinkOf(rec).queue && s.strong == if rec.live then 1 else 0
  }

  predicate Mirrored(known: seq<BroadcastSink>, recs: seq<Fanout.SinkRec>)
    reads known
  {
    |known| == |recs| && forall i | 0 <= i < |known| :: Mirrors(known[i], recs[i])
  }

  /** The list holds the sinks with these numbers. */
  predicate Lists(sinks: seq<BroadcastSink>, ids: seq<nat>, known: seq<BroadcastSink>) {
    |sinks| == |ids| && forall j | 0 <= j < |ids| :: ids[j] < |known| && sinks[j] == known[ids[j]]
  }

  predicate Named(inner: map<Topic, seq<BroadcastSink>>, entries: map<Topic, seq<nat>>, known: seq<BroadcastSink>) {
    inner.Keys == entries.Keys && forall t | t in inner :: Lists(inner[t], entries[t], known)
  }

  lemma NamedWith(inner: map<Topic, seq<BroadcastSink>>, entries: map<Topic, seq<nat>>, known: seq<BroadcastSink>,
                  topic: Topic, sink: BroadcastSink)
    requires Named(inner, entries, known)
    ensures var ids := if topic in entries then entries[topic] else [];
      Named(inner[topic := SinksOn(inner, topic) + [sink]], entries[topic := ids + [|known|]], known + [sink])
  {
  }

  lemma NamedAfter(inner: map<Topic, seq<BroadcastSink>>, entries: map<Topic, seq<nat>>, known: seq<BroadcastSink>,
                   topic: Topic, sinks: seq<BroadcastSink>, ids: seq<nat>)
    requires Named(inner, entries, known) && Lists(sinks, ids, known)
    ensures Named(inner[topic := sinks], entries[topic := ids], known)
  {
  }

  lemma LiveIdsSnoc(recs: seq<Fanout.SinkRec>, ids: seq<nat>, id: nat)
    ensures Fanout.LiveIds(recs, ids + [id]) == Fanout.LiveIds(recs, ids) + if Fanout.LiveAt(recs, id) then [id] else []
  {
    Fanout.LiveIdsConcat(recs, ids, [id]);
    assert [id][1..] == [];
  }

  /** The live sinks of a list are those with the live numbers. */
  lemma {:induction false} LiveLists(sinks: seq<BroadcastSink>, ids: seq<nat>, known: seq<BroadcastSink>,
    recs: seq<Fanout.SinkRec>)
    requires Lists(sinks, ids, known) && Mirrored(known, recs)
    ensures Lists(LiveOf(sinks), Fanout.LiveIds(recs, ids), known)
  {
    if ids != [] {
      var n := |ids| - 1;
      LiveLists(sinks[..n], ids[..n], known, recs);
      assert ids == ids[..n] + [ids[n]];
      LiveIdsSnoc(recs, ids[..n], ids[n]);
      assert Mirrors(known[ids[n]], recs[ids[n]]);
      ListsConcat(LiveOf(sinks[..n]), Fanout.LiveIds(recs, ids[..n]), known, sinks[n], ids[n]);
    }
  }

  lemma ListsConcat(sinks: seq<BroadcastSink>, ids: seq<nat>, known: seq<BroadcastSink>, sink: BroadcastSink, id: nat)
    requires Lists(sinks, ids, known) && id < |known| && known[id] == sink
    ensures Lists(sinks + [sink], ids + [id], known)
    ensures Lists(sinks + [], ids + [], known)
  {
  }

  lemma ListedByNumber(sinks: seq<BroadcastSink>, ids: seq<nat>, known: seq<BroadcastSink>, i: nat)
    requires Lists(sinks, ids, known) && Distinct(known) && i < |known|
    ensures known[i] in sinks <==> i in ids
  {
    if i in ids {
      var j :| 0 <= j < |ids| && ids[j] == i;
      assert sinks[j] == known[i];
    }
  }

  lemma RecAfterBroadcast(recs: seq<Fanout.SinkRec>, ids: seq<nat>, frame: Octets, i: nat)
    requires Fanout.Distinct(ids) && i < |recs|
    ensures var rec, rec' := recs[i], Fanout.PushEach(recs, ids, frame)[i];
      && rec'.cap == rec.cap && rec'.live == rec.live
      && SinkOf(rec').queue == AfterFrame(i in ids && rec.live, SinkOf(rec).queue, rec.cap, frame)
  {
    Fanout.PushEachReaches(recs, ids, frame, i);
    SinkAfter(recs[i], Push(frame));
  }
}
