/** The identity binding table: gossip, login and reload keep every entry verified and about its own key. */
module Identity {
  import opened Bytes
  import opened Me
  import opened Platform

  const IDENTITY_TOPIC := "laye-identity/v1"

  type Table = map<Key, seq<SignedBinding>>

  // ----- operations -----

  /** About this key, and verified. */
  function VouchedFor(env: Platform, key: Key): SignedBinding -> bool {
    (b: SignedBinding) => b.claim.peer == key && env.BindingVerifies(b)
  }

  /** Keeps the bindings that are about the publisher and verify, in order; nothing when the wire does
      not parse. */
  function ParseAndVerify(env: Platform, bs: Octets, publisher: Key): (r: seq<SignedBinding>)
    ensures GoodSet(env, publisher, r)
    ensures env.parseBindings(bs).None? ==> r == []
    ensures env.parseBindings(bs).Some? ==> Picks(env.parseBindings(bs).value, VouchedFor(env, publisher), r)
  {
    match env.parseBindings(bs)
    case None => []
    case Some(list) =>
      FilterPicks(list, VouchedFor(env, publisher));
      Filter(list, VouchedFor(env, publisher))
  }

  function Absorbed(table: Table, peer: Key, bindings: seq<SignedBinding>): Table {
    if bindings == [] then table - {peer} else table[peer := bindings]
  }

  /** Binding `i` has this handle, and no binding before it has any. */
  predicate FirstAt(bs: seq<SignedBinding>, i: nat, handle: Option<Octets>)
    requires i < |bs|
  {
    bs[i].claim.handle == handle && forall j | 0 <= j < i :: bs[j].claim.handle.None?
  }

  function FirstHandle(bs: seq<SignedBinding>): (r: Option<Octets>)
    ensures r.Some? <==> exists i | 0 <= i < |bs| :: bs[i].claim.handle.Some?
    ensures r.Some? ==> exists i: nat | i < |bs| :: FirstAt(bs, i, r)
  {
    if bs == [] then None
    else if bs[0].claim.handle.Some? then
      assert FirstAt(bs, 0, bs[0].claim.handle);
      bs[0].claim.handle
    else
      var r := FirstHandle(bs[1..]);
      assert forall i | 1 <= i < |bs| :: bs[i] == bs[1..][i - 1];
      assert r.Some? ==> exists i: nat | i < |bs| :: FirstAt(bs, i, r) by {
        if r.Some? {
          var i: nat :| i < |bs[1..]| && FirstAt(bs[1..], i, r);
          FirstBehind(bs, i, r);
        }
      }
      r
  }

  lemma FirstBehind(bs: seq<SignedBinding>, i: nat, handle: Option<Octets>)
    requires bs != [] && bs[0].claim.handle.None? && i < |bs[1..]| && FirstAt(bs[1..], i, handle)
    ensures FirstAt(bs, i + 1, handle)
  {
    forall j | 0 <= j < i + 1 ensures bs[j].claim.handle.None? {
      assert j > 0 ==> bs[1..][j - 1].claim.handle.None?;
    }
  }

  function Resolve(table: Table, peer: Key): Option<Octets> {
    if peer in table then FirstHandle(table[peer]) else None
  }

  /** `short_author_display`: the first four key bytes in hex. */
  function ShortAuthor(peer: Key): Octets {
    HexOf(peer[..4])
  }

  function Attribute(table: Table, author: Key): Octets {
    match Resolve(table, author)
    case Some(h) => h
    case None => ShortAuthor(author)
  }

  class BindingTable {
    var entries: Table

    constructor ()
      ensures entries == map[]
    {
      entries := map[];
    }

    /** `absorb`: the peer's published set replaces its entry; an empty set removes it. */
    method Absorb(peer: Key, bindings: seq<SignedBinding>)
      modifies this
      ensures entries == Absorbed(old(entries), peer, bindings)
    {
      if bindings == [] {
        entries := entries - {peer};
      } else {
        entries := entries[peer := bindings];
      }
    }

    method Insert(peer: Key, bindings: seq<SignedBinding>)
      modifies this
      ensures entries == old(entries)[peer := bindings]
    {
      entries := entries[peer := bindings];
    }
  }

  function OtherProvider(b: SignedBinding): SignedBinding -> bool {
    (x: SignedBinding) => x.claim.provider != b.claim.provider
  }

  /** A login puts its binding first and drops the older one of the same provider; the others stay as
      they were. */
  function LoggedIn(bs: seq<SignedBinding>, b: SignedBinding): (r: seq<SignedBinding>)
    ensures r != [] && r[0] == b && Picks(bs, OtherProvider(b), r[1..])
  {
    FilterPicks(bs, OtherProvider(b));
    [b] + Filter(bs, OtherProvider(b))
  }

  // ----- invariants -----

  ghost predicate GoodSet(env: Platform, peer: Key, bs: seq<SignedBinding>) {
    forall b | b in bs :: env.BindingVerifies(b) && b.claim.peer == peer
  }

  ghost predicate GoodTable(env: Platform, table: Table) {
    forall k | k in table :: table[k] != [] && GoodSet(env, k, table[k])
  }

  ghost predicate OnePerProvider(bs: seq<SignedBinding>) {
    forall i, j | 0 <= i < j < |bs| :: bs[i].claim.provider != bs[j].claim.provider
  }

  ghost predicate GoodSelf(env: Platform, self: Key, bs: seq<SignedBinding>) {
    GoodSet(env, self, bs) && OnePerProvider(bs)
  }

  lemma {:induction false} FilterKeepsOnePerProvider(bs: seq<SignedBinding>, keep: SignedBinding -> bool)
    requires OnePerProvider(bs)
    ensures OnePerProvider(Filter(bs, keep))
  {
    if bs != [] {
      FilterKeepsOnePerProvider(bs[1..], keep);
      var rest := Filter(bs[1..], keep);
      forall x | x in rest ensures x.claim.provider != bs[0].claim.provider {
        var i :| 0 <= i < |bs[1..]| && bs[1..][i] == x;
        assert bs[i + 1] == x;
      }
    }
  }

  lemma FirstOfItsProvider(env: Platform, self: Key, b: SignedBinding, rest: seq<SignedBinding>)
    requires GoodSelf(env, self, rest) && env.BindingVerifies(b) && b.claim.peer == self
    requires forall x | x in rest :: x.claim.provider != b.claim.provider
    ensures GoodSelf(env, self, [b] + rest)
  {
    assert forall i | 0 <= i < |rest| :: rest[i] in rest;
  }

  /** An accepted login keeps the self bindings verified, about this key, one for each provider. */
  lemma LoginKeepsGoodSelf(env: Platform, self: Key, bs: seq<SignedBinding>, b: SignedBinding)
    requires GoodSelf(env, self, bs) && env.BindingVerifies(b) && b.claim.peer == self
    ensures GoodSelf(env, self, LoggedIn(bs, b))
  {
    var rest := Filter(bs, OtherProvider(b));
    FilterKeepsOnePerProvider(bs, OtherProvider(b));
    FirstOfItsProvider(env, self, b, rest);
  }

  // ----- runs of one tab over one persistent slot -----

  /** `slot` is the IndexedDB record, `saving` the snapshots whose asynchronous saves are under way. */
  datatype Tab = Tab(
    self: Key,
    table: Table,
    selfBindings: seq<SignedBinding>,
    slot: seq<SignedBinding>,
    saving: seq<seq<SignedBinding>>)

  datatype TabStep =
    | Gossip(bs: Octets, publisher: Key)
    | Login(binding: SignedBinding)
    | SaveEnds(index: nat, stored: bool)
    | Reload

  /** The state part of `init_inner`: the loaded bindings are trusted as stored. */
  function Booted(self: Key, slot: seq<SignedBinding>): Tab {
    Tab(self, if slot == [] then map[] else map[self := slot], slot, slot, [])
  }

  /** The guards of `handle_login_message`. */
  predicate LoginAccepted(env: Platform, self: Key, b: SignedBinding) {
    env.BindingVerifies(b) && b.claim.peer == self
  }

  function Step(env: Platform, t: Tab, step: TabStep): Tab {
    match step
    case Gossip(bs, publisher) => t.(table := Absorbed(t.table, publisher, ParseAndVerify(env, bs, publisher)))
    case Login(b) =>
      if !LoginAccepted(env, t.self, b) then t
      else
        var next := LoggedIn(t.selfBindings, b);
        t.(selfBindings := next, table := t.table[t.self := next], saving := t.saving + [next])
    case SaveEnds(i, stored) =>
      if i >= |t.saving| then t
      else t.(slot := if stored then t.saving[i] else t.slot, saving := t.saving[..i] + t.saving[i + 1..])
    case Reload => Booted(t.self, t.slot)
  }

  function RunTab(env: Platform, self: Key, steps: seq<TabStep>): Tab {
    if steps == [] then Booted(self, [])
    else Step(env, RunTab(env, self, steps[..|steps| - 1]), steps[|steps| - 1])
  }

  ghost predicate TabInv(env: Platform, t: Tab) {
    && GoodTable(env, t.table)
    && GoodSelf(env, t.self, t.selfBindings)
    && GoodSelf(env, t.self, t.slot)
    && forall i | 0 <= i < |t.saving| :: GoodSelf(env, t.self, t.saving[i])
  }

  lemma StepKeepsInv(env: Platform, t: Tab, step: TabStep)
    requires TabInv(env, t)
    ensures TabInv(env, Step(env, t, step))
  {
    if step.Login? && LoginAccepted(env, t.self, step.binding) {
      LoginKeepsGoodSelf(env, t.self, t.selfBindings, step.binding);
    }
  }

  /** Over any run of gossip, logins, saves in any order and reloads, every table entry is
      non-empty, verified and about its own key, and so is whatever a reload would trust. */
  lemma {:induction false} TableInvariant(env: Platform, self: Key, steps: seq<TabStep>)
    ensures TabInv(env, RunTab(env, self, steps)) && RunTab(env, self, steps).self == self
  {
    if steps != [] {
      TableInvariant(env, self, steps[..|steps| - 1]);
      StepKeepsInv(env, RunTab(env, self, steps[..|steps| - 1]), steps[|steps| - 1]);
    }
  }

  lemma SavedThenReloaded(env: Platform, t: Tab, b: SignedBinding)
    requires env.BindingVerifies(b) && b.claim.peer == t.self
    ensures var saved := Step(env, Step(env, t, Login(b)), SaveEnds(|t.saving|, true));
      var next := LoggedIn(t.selfBindings, b);
      Step(env, saved, Reload) == Tab(t.self, map[t.self := next], next, next, [])
    ensures Step(env, Step(env, t, Login(b)), Reload) == Step(env, t, Reload)
  {
  }

  /** An accepted login whose save ends well is what a reload brings back: its binding first, the other
      providers' behind it; one whose save is still under way is forgotten. */
  lemma SavedLoginReturns(env: Platform, self: Key, steps: seq<TabStep>, b: SignedBinding)
    requires env.BindingVerifies(b) && b.claim.peer == self
    ensures var t, next := RunTab(env, self, steps), LoggedIn(RunTab(env, self, steps).selfBindings, b);
      RunTab(env, self, steps + [Login(b)] + [SaveEnds(|t.saving|, true)] + [Reload])
      == Tab(self, map[self := next], next, next, [])
    ensures RunTab(env, self, steps + [Login(b)] + [Reload]) == RunTab(env, self, steps + [Reload])
  {
    TableInvariant(env, self, steps);
    var t, login := RunTab(env, self, steps), steps + [Login(b)];
    var save := SaveEnds(|t.saving|, true);
    RunTabOn(env, self, steps, Login(b));
    RunTabOn(env, self, login, save);
    RunTabOn(env, self, login + [save], Reload);
    RunTabOn(env, self, login, Reload);
    RunTabOn(env, self, steps, Reload);
    SavedThenReloaded(env, t, b);
  }

  lemma RunTabOn(env: Platform, self: Key, steps: seq<TabStep>, step: TabStep)
    ensures RunTab(env, self, steps + [step]) == Step(env, RunTab(env, self, steps), step)
  {
    assert (steps + [step])[..|steps|] == steps;
  }

  /** A name shown for an author is a handle some verifying binding gives to that very key, or the
      key's own short hex; the hex only when no binding of the key has a handle. */
  lemma AttributionIsVerified(env: Platform, self: Key, steps: seq<TabStep>, author: Key)
    ensures var table, name := RunTab(env, self, steps).table, Attribute(RunTab(env, self, steps).table, author);
      || (exists b | author in table && b in table[author] ::
            b.claim.handle == Some(name) && b.claim.peer == author && env.BindingVerifies(b))
      || (name == ShortAuthor(author) && (author in table ==> forall b | b in table[author] :: b.claim.handle.None?))
  {
    TableInvariant(env, self, steps);
    var table := RunTab(env, self, steps).table;
    if author in table && FirstHandle(table[author]).Some? {
      var i :| 0 <= i < |table[author]| && table[author][i].claim.handle == FirstHandle(table[author]);
      assert table[author][i] in table[author];
    } else if author in table {
      forall b: SignedBinding | b in table[author] ensures b.claim.handle.None? {
        var i :| 0 <= i < |table[author]| && table[author][i] == b;
      }
    }
  }
}
