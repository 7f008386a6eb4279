/** What received events come to, event by event: the lines the chat shows, the name on each, and whose
    bindings are known. */
module Received {
  import opened Bytes
  import opened Utf8
  import opened Me
  import opened Platform
  import opened Identity
  import opened Chat
  import opened Net
  import opened App
  import Rx

  // ----- names -----

  /** Entry `i` has the first handle of the author's bindings. */
  predicate NamedBy(table: Table, author: Key, i: nat, handle: Text) {
    && author in table && i < |table[author]| && table[author][i].claim.handle == Some(handle)
    && forall j | 0 <= j < i :: table[author][j].claim.handle == None
  }

  /** An author goes by the first handle among its bindings; without any, by the first four bytes of its key
      in hex. */
  lemma NameShown(table: Table, author: Key)
    ensures forall i: nat, handle: Text :: NamedBy(table, author, i, handle) ==> Attribute(table, author) == handle
    ensures (author !in table || forall b | b in table[author] :: b.claim.handle == None) ==>
      Attribute(table, author) == HexOf([author[0], author[1], author[2], author[3]])
  {
    assert author[..4] == [author[0], author[1], author[2], author[3]];
    forall i: nat, handle: Text | NamedBy(table, author, i, handle) ensures Attribute(table, author) == handle {
      var r := FirstHandle(table[author]);
      var k: nat :| k < |table[author]| && FirstAt(table[author], k, r);
      assert k == i;
    }
    if author in table && FirstHandle(table[author]).Some? {
      var i :| 0 <= i < |table[author]| && table[author][i].claim.handle.Some?;
      assert table[author][i] in table[author];
    }
  }

  // ----- lines -----

  /** The event is this signed chat message: it verifies, and is not this tab's own. */
  predicate IsSigned(env: Platform, self: Self, e: NetEvent, c: SignedChat) {
    && e.Message? && e.topic == "laye-chat/v1" && env.parseChat(e.bs) == Some(c)
    && env.verifySig(c.author, ChatBytes(c), c.signature) && self.key != Some(c.author)
  }

  /** The event is this plain chat message of somebody else. */
  predicate IsPlain(env: Platform, self: Self, e: NetEvent, c: PlaintextChat) {
    e.Message? && e.topic == "rave-chat/v1" && env.parsePlain(e.bs) == Some(c) && c.peer != self.id
  }

  /** What an event shows, given the bindings known when it comes: the message's own body under its own
      author's name. */
  function LineOf(env: Platform, self: Self, table: Table, e: NetEvent): (lines: seq<ChatEntry>)
    ensures forall c :: IsSigned(env, self, e, c) ==> lines == [ChatEntry(Attribute(table, c.author), c.body)]
    ensures forall c :: IsPlain(env, self, e, c) ==> lines == [ChatEntry(TakeChars(c.peer, 8), c.body)]
    ensures (forall c :: !IsSigned(env, self, e, c)) && (forall c :: !IsPlain(env, self, e, c)) ==> lines == []
  {
    if !e.Message? then []
    else if e.topic == "laye-chat/v1" && env.parseChat(e.bs).Some? then
      var c := env.parseChat(e.bs).value;
      if IsSigned(env, self, e, c) then [ChatEntry(Attribute(table, c.author), c.body)] else []
    else if e.topic == "rave-chat/v1" && env.parsePlain(e.bs).Some? then
      var c := env.parsePlain(e.bs).value;
      if IsPlain(env, self, e, c) then [ChatEntry(TakeChars(c.peer, 8), c.body)] else []
    else []
  }

  /** The lines of a batch; each is named by what the events before it made known. */
  function LinesOf(env: Platform, self: Self, s: Inbox, events: seq<NetEvent>): seq<ChatEntry> {
    if events == [] then []
    else
      var front := events[..|events| - 1];
      LinesOf(env, self, s, front) + LineOf(env, self, ReceiveAll(env, self, s, front).table, events[|events| - 1])
  }

  lemma MessageShows(env: Platform, self: Self, table: Table, e: NetEvent)
    requires e.Message?
    ensures LineOf(env, self, table, e) ==
      match IngestChat(env, e.topic, e.bs, self.key, self.id)
      case None => []
      case Some(c) => [EntryFor(table, c)]
  {
    var r := IngestChat(env, e.topic, e.bs, self.key, self.id);
    if r.Some? {
      match r.value
      case Signed(chat) => assert IsSigned(env, self, e, chat);
      case Plaintext(chat) => assert IsPlain(env, self, e, chat);
    } else {
      assert forall c :: !IsSigned(env, self, e, c);
      assert forall c :: !IsPlain(env, self, e, c);
    }
  }

  lemma ReceiveShows(env: Platform, self: Self, s: Inbox, e: NetEvent)
    requires |s.history| <= self.cap
    ensures Receive(env, self, s, e).history == LastN(s.history + LineOf(env, self, s.table, e), self.cap)
  {
    assert s.history + [] == s.history;
    if e.Message? {
      MessageShows(env, self, s.table, e);
    }
  }

  /** A batch shows exactly these lines, in order, and the chat keeps the newest. */
  lemma {:induction false} BatchShows(env: Platform, self: Self, s: Inbox, events: seq<NetEvent>)
    requires |s.history| <= self.cap
    ensures ReceiveAll(env, self, s, events).history == LastN(s.history + LinesOf(env, self, s, events), self.cap)
  {
    if events == [] {
      assert s.history + [] == s.history;
    } else {
      var front, e := events[..|events| - 1], events[|events| - 1];
      var mid := ReceiveAll(env, self, s, front);
      BatchShows(env, self, s, front);
      ReceiveShows(env, self, mid, e);
      var lines, line := LinesOf(env, self, s, front), LineOf(env, self, mid.table, e);
      LastNTwice(s.history + lines, line, self.cap);
      ConcatAssoc(s.history, lines, line);
    }
  }

  // ----- bindings -----

  /** The event is a set of bindings published by this key. */
  predicate IsGossip(env: Platform, e: NetEvent, k: Key) {
    e.Message? && e.topic == "laye-identity/v1" && env.peerKey(e.from) == Some(k)
  }

  /** A gossiped binding that counts: about the publisher, and with a valid signature. */
  predicate Counts(env: Platform, k: Key, b: SignedBinding) {
    b.claim.peer == k && env.verifySig(b.signer, ClaimBytes(b.claim), b.signature)
  }

  lemma VouchedCounts(env: Platform, bs: Octets, k: Key)
    ensures forall b ::
              b in ParseAndVerify(env, bs, k)
              <==> env.parseBindings(bs).Some? && b in env.parseBindings(bs).value && Counts(env, k, b)
  {
    if env.parseBindings(bs).Some? {
      var list := env.parseBindings(bs).value;
      assert forall b | b in list && VouchedFor(env, k)(b) :: b in Filter(list, VouchedFor(env, k));
    }
  }

  predicate SameEntry(a: Table, b: Table, k: Key) {
    (k in a <==> k in b) && (k in a ==> a[k] == b[k])
  }

  lemma ReceiveEntry(env: Platform, self: Self, s: Inbox, e: NetEvent, k: Key)
    ensures !IsGossip(env, e, k) ==> SameEntry(Receive(env, self, s, e).table, s.table, k)
    ensures IsGossip(env, e, k) ==> EntryIs(Receive(env, self, s, e).table, k, ParseAndVerify(env, e.bs, k))
  {
  }

  /** The entry is this set; there is none for the empty set. */
  predicate EntryIs(table: Table, k: Key, bs: seq<SignedBinding>) {
    if bs == [] then k !in table else k in table && table[k] == bs
  }

  /** The last set that a key published in the batch is its entry: in order, each binding of it that counts
      and no other; when none counts the entry is gone. */
  lemma {:induction false} GossipDecides(env: Platform, self: Self, s: Inbox, events: seq<NetEvent>, i: nat, k: Key)
    requires i < |events| && IsGossip(env, events[i], k)
    requires forall j | i < j < |events| :: !IsGossip(env, events[j], k)
    ensures EntryIs(ReceiveAll(env, self, s, events).table, k, ParseAndVerify(env, events[i].bs, k))
    ensures var table, list := ReceiveAll(env, self, s, events).table, env.parseBindings(events[i].bs);
      forall b :: k in table && b in table[k] <==> list.Some? && b in list.value && Counts(env, k, b)
  {
    var n := |events| - 1;
    ReceiveEntry(env, self, ReceiveAll(env, self, s, events[..n]), events[n], k);
    if i < n {
      GossipDecides(env, self, s, events[..n], i, k);
    }
    VouchedCounts(env, events[i].bs, k);
  }

  /** A key that published nothing in the batch keeps the entry it has. */
  lemma {:induction false} OthersStay(env: Platform, self: Self, s: Inbox, events: seq<NetEvent>, k: Key)
    requires forall j | 0 <= j < |events| :: !IsGossip(env, events[j], k)
    ensures SameEntry(ReceiveAll(env, self, s, events).table, s.table, k)
  {
    if events != [] {
      var n := |events| - 1;
      OthersStay(env, self, s, events[..n], k);
      ReceiveEntry(env, self, ReceiveAll(env, self, s, events[..n]), events[n], k);
    }
  }

  // ----- identity messages for the host -----

  function Keyless(env: Platform): NetEvent -> bool {
    (e: NetEvent) => e.Message? && env.peerKey(e.from) == None
  }

  /** Of the identity topic the host gets exactly what comes from senders that have no key. */
  lemma {:induction false} HostGetsKeyless(env: Platform, events: seq<NetEvent>)
    ensures HostBytes(env, events, "laye-identity/v1") == Rx.BytesOn(Filter(events, Keyless(env)), "laye-identity/v1")
  {
    if events != [] {
      var front, e := events[..|events| - 1], events[|events| - 1];
      HostGetsKeyless(env, front);
      HostBytesSnoc(env, front, e, "laye-identity/v1");
      FilterSnoc(front, e, Keyless(env));
      assert events == front + [e];
      KeylessPart(env, Filter(front, Keyless(env)), e);
    }
  }

  lemma KeylessPart(env: Platform, kept: seq<NetEvent>, e: NetEvent)
    ensures Rx.BytesOn(kept + (if Keyless(env)(e) then [e] else []), "laye-identity/v1")
      == Rx.BytesOn(kept, "laye-identity/v1") + HostPart(env, e, "laye-identity/v1")
  {
    if Keyless(env)(e) {
      Rx.BytesOnSnoc(kept, e, "laye-identity/v1");
    } else {
      assert kept + [] == kept;
    }
  }
}
