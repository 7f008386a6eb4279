/** The broker page's most-recently-used handles: truncating on every write loses nothing that the
    untruncated list would still show. */
module History {
  import opened Bytes

  const HISTORY_CAP: nat := 8

  /** A JSON array element, as far as the page tells them apart. */
  datatype Json = Str(s: string) | Other

  /** The stored record: missing, not a JSON array, or an array. */
  datatype Slot = Absent | Garbage | Items(items: seq<Json>)

  function Strings(items: seq<Json>): (r: seq<string>)
    ensures forall s | s in r :: s != "" && Str(s) in items
  {
    if items == [] then []
    else (if items[0].Str? && items[0].s != "" then [items[0].s] else []) + Strings(items[1..])
  }

  /** `loadHistory` */
  function Load(slot: Slot): (r: seq<string>)
    ensures "" !in r
  {
    if slot.Items? then Strings(slot.items) else []
  }

  function Without(list: seq<string>, handle: string): (r: seq<string>)
    ensures handle !in r && forall s | s in r :: s in list
  {
    if list == [] then []
    else (if list[0] != handle then [list[0]] else []) + Without(list[1..], handle)
  }

  /** `remember`; a storage that throws leaves the record alone. */
  function Remember(slot: Slot, handle: string, stores: bool): Slot {
    if !stores then slot
    else
      var next := FirstN([handle] + Without(Load(slot), handle), HISTORY_CAP);
      Items(seq(|next|, i requires 0 <= i < |next| => Str(next[i])))
  }

  /** The list without a bound: the handle first, its older occurrences gone. */
  function Used(list: seq<string>, handle: string): seq<string> {
    [handle] + Without(list, handle)
  }

  predicate Distinct(list: seq<string>) {
    forall i, j | 0 <= i < j < |list| :: list[i] != list[j]
  }

  datatype Use = Use(handle: string, stores: bool)

  function RunStored(slot: Slot, uses: seq<Use>): Slot {
    if uses == [] then slot
    else Remember(RunStored(slot, uses[..|uses| - 1]), uses[|uses| - 1].handle, uses[|uses| - 1].stores)
  }

  function RunUsed(list: seq<string>, uses: seq<Use>): seq<string> {
    if uses == [] then list
    else
      var before, last := RunUsed(list, uses[..|uses| - 1]), uses[|uses| - 1];
      if last.stores then Used(before, last.handle) else before
  }

  lemma {:induction false} StringsOf(list: seq<string>)
    requires "" !in list
    ensures Strings(seq(|list|, i requires 0 <= i < |list| => Str(list[i]))) == list
  {
    if list != [] {
      var items := seq(|list|, i requires 0 <= i < |list| => Str(list[i]));
      assert items[1..] == seq(|list[1..]|, i requires 0 <= i < |list[1..]| => Str(list[1..][i]));
      StringsOf(list[1..]);
    }
  }

  function IsHandle(): Json -> bool {
    (j: Json) => j.Str? && j.s != ""
  }

  function Differs(handle: string): string -> bool {
    (s: string) => s != handle
  }

  /** These items are these strings. */
  predicate AreStrings(kept: seq<Json>, list: seq<string>) {
    |list| == |kept| && forall i | 0 <= i < |kept| :: kept[i] == Str(list[i])
  }

  lemma OneMoreString(s: string, kept: seq<Json>, list: seq<string>)
    requires AreStrings(kept, list)
    ensures AreStrings([Str(s)] + kept, [s] + list)
  {
  }

  /** What is read of a record is its non-empty strings, in order, whatever else stands between. */
  lemma {:induction false} StringsAreKept(items: seq<Json>)
    ensures AreStrings(Filter(items, IsHandle()), Strings(items))
  {
    if items != [] {
      var kept, list := Filter(items[1..], IsHandle()), Strings(items[1..]);
      StringsAreKept(items[1..]);
      if IsHandle()(items[0]) {
        OneMoreString(items[0].s, kept, list);
      } else {
        assert [] + kept == kept && [] + list == list;
      }
    }
  }

  lemma {:induction false} WithoutIsFilter(list: seq<string>, handle: string)
    ensures Without(list, handle) == Filter(list, Differs(handle))
  {
    if list != [] {
      WithoutIsFilter(list[1..], handle);
    }
  }

  /** When the handle was last used, if it was. */
  function LastUse(uses: seq<Use>, handle: string): Option<nat> {
    if uses == [] then None
    else if uses[|uses| - 1].stores && uses[|uses| - 1].handle == handle then Some(|uses| - 1)
    else LastUse(uses[..|uses| - 1], handle)
  }

  /** Used later, or used at all when the other was not. */
  predicate Fresher(uses: seq<Use>, a: string, b: string) {
    LastUse(uses, b).Some? ==> LastUse(uses, a).Some? && LastUse(uses, a).value > LastUse(uses, b).value
  }

  predicate Ordered(list: seq<string>, uses: seq<Use>) {
    forall i, j | 0 <= i < j < |list| :: Fresher(uses, list[i], list[j])
  }

  lemma {:induction false} WithoutOrdered(list: seq<string>, uses: seq<Use>, handle: string)
    requires Ordered(list, uses)
    ensures Ordered(Without(list, handle), uses)
  {
    if list != [] {
      WithoutOrdered(list[1..], uses, handle);
      var rest := Without(list[1..], handle);
      forall k | 0 <= k < |rest| ensures Fresher(uses, list[0], rest[k]) {
        assert rest[k] in list[1..];
        var j :| 0 <= j < |list[1..]| && list[1..][j] == rest[k];
        assert list[j + 1] == rest[k];
      }
    }
  }

  lemma {:induction false} LastUseBelow(uses: seq<Use>, handle: string)
    ensures LastUse(uses, handle).Some? ==> LastUse(uses, handle).value < |uses|
  {
    if uses != [] {
      LastUseBelow(uses[..|uses| - 1], handle);
    }
  }

  lemma OrderedAfterUse(list: seq<string>, uses: seq<Use>, use: Use)
    requires Ordered(list, uses)
    ensures Ordered(if use.stores then Used(list, use.handle) else list, uses + [use])
  {
    var uses' := uses + [use];
    assert uses'[..|uses|] == uses;
    var rest := if use.stores then Without(list, use.handle) else list;
    if use.stores {
      WithoutOrdered(list, uses, use.handle);
    }
    forall k | 0 <= k < |rest| ensures LastUse(uses', rest[k]) == LastUse(uses, rest[k]) {
      assert use.stores ==> rest[k] in rest && rest[k] != use.handle;
    }
    assert forall i, j | 0 <= i < j < |rest| :: Fresher(uses, rest[i], rest[j]) && Fresher(uses', rest[i], rest[j]);
    if use.stores {
      forall k | 0 <= k < |rest| ensures Fresher(uses', use.handle, rest[k]) {
        LastUseBelow(uses, rest[k]);
      }
    }
  }

  /** The unbounded list is most recent first: of two handles the one used later stands in front, those
      never used come last. */
  lemma {:induction false} MostRecentFirst(list: seq<string>, uses: seq<Use>)
    ensures Ordered(RunUsed(list, uses), uses)
    ensures forall i | 0 <= i < |uses| && uses[i].stores :: uses[i].handle in RunUsed(list, uses)
  {
    if uses != [] {
      var front, last := uses[..|uses| - 1], uses[|uses| - 1];
      MostRecentFirst(list, front);
      OrderedAfterUse(RunUsed(list, front), front, last);
      assert uses == front + [last];
      if last.stores {
        StillUsed(RunUsed(list, front), last.handle);
      }
    }
  }

  lemma StillUsed(list: seq<string>, handle: string)
    ensures forall s | s in list :: s in Used(list, handle)
  {
    WithoutIsFilter(list, handle);
    assert forall s | s in list && Differs(handle)(s) :: s in Filter(list, Differs(handle));
  }

  lemma LoadAfterRemember(slot: Slot, handle: string)
    requires handle != ""
    ensures Load(Remember(slot, handle, true)) == FirstN(Used(Load(slot), handle), HISTORY_CAP)
  {
    StringsOf(FirstN(Used(Load(slot), handle), HISTORY_CAP));
  }

  lemma {:induction false} WithoutConcat(a: seq<string>, b: seq<string>, handle: string)
    ensures Without(a + b, handle) == Without(a, handle) + Without(b, handle)
  {
    if a == [] {
      assert a + b == b;
    } else {
      var first := if a[0] != handle then [a[0]] else [];
      assert (a + b)[1..] == a[1..] + b;
      WithoutConcat(a[1..], b, handle);
      ConcatAssoc(first, Without(a[1..], handle), Without(b, handle));
    }
  }

  lemma {:induction false} WithoutDistinct(list: seq<string>, handle: string)
    requires Distinct(list)
    ensures Distinct(Without(list, handle)) && |Without(list, handle)| >= |list| - 1
    ensures handle !in list ==> Without(list, handle) == list
  {
    if list != [] {
      WithoutDistinct(list[1..], handle);
      assert list == [list[0]] + list[1..];
      assert list[0] !in list[1..];
    }
  }

  /** Truncating before use changes the truncated outcome exactly when at least two of the first
      eight are the handle itself and something else stands behind the eight. */
  lemma TruncationCommutesIff(list: seq<string>, handle: string)
    ensures FirstN(Used(FirstN(list, HISTORY_CAP), handle), HISTORY_CAP) == FirstN(Used(list, handle), HISTORY_CAP)
            <==> || |Without(FirstN(list, HISTORY_CAP), handle)| >= HISTORY_CAP - 1
                 || Without(list[|FirstN(list, HISTORY_CAP)|..], handle) == []
  {
    var a := FirstN(list, HISTORY_CAP);
    var b := list[|a|..];
    assert list == a + b;
    WithoutConcat(a, b, handle);
    var x, y := Used(a, handle), Without(b, handle);
    assert Used(list, handle) == x + y;
    if |x| < HISTORY_CAP && y != [] {
      assert |FirstN(x, HISTORY_CAP)| < |FirstN(x + y, HISTORY_CAP)|;
    } else if |x| >= HISTORY_CAP {
      assert (x + y)[..HISTORY_CAP] == x[..HISTORY_CAP];
    } else {
      assert x + y == x;
    }
  }

  /** A record with the handle twice among its first eight, and another behind them, loses an entry. */
  lemma DuplicatesLose(handle: string, others: seq<string>, ninth: string)
    requires |others| == 6 && handle !in others && handle != ninth
    ensures var list := [handle, handle] + others + [ninth];
      FirstN(Used(FirstN(list, HISTORY_CAP), handle), HISTORY_CAP) != FirstN(Used(list, handle), HISTORY_CAP)
  {
    var list := [handle, handle] + others + [ninth];
    assert FirstN(list, HISTORY_CAP) == [handle, handle] + others && list[HISTORY_CAP..] == [ninth];
    TwiceWithout(handle, others);
    WithoutNone([ninth], handle);
    TruncationCommutesIff(list, handle);
  }

  lemma TwiceWithout(handle: string, others: seq<string>)
    requires handle !in others
    ensures Without([handle, handle] + others, handle) == others
  {
    var all := [handle, handle] + others;
    assert all[1..] == [handle] + others && all[1..][1..] == others;
    WithoutNone(others, handle);
  }

  lemma {:induction false} WithoutNone(list: seq<string>, handle: string)
    requires handle !in list
    ensures Without(list, handle) == list
  {
    if list != [] {
      WithoutNone(list[1..], handle);
    }
  }

  lemma TruncationCommutes(list: seq<string>, handle: string)
    requires Distinct(list)
    ensures FirstN(Used(FirstN(list, HISTORY_CAP), handle), HISTORY_CAP) == FirstN(Used(list, handle), HISTORY_CAP)
  {
    var a := FirstN(list, HISTORY_CAP);
    assert Distinct(a);
    WithoutDistinct(a, handle);
    TruncationCommutesIff(list, handle);
    if |list| <= HISTORY_CAP {
      assert list[|a|..] == [];
    }
  }

  lemma UsedDistinct(list: seq<string>, handle: string)
    requires Distinct(list)
    ensures Distinct(Used(list, handle))
  {
    WithoutDistinct(list, handle);
    assert forall i | 0 <= i < |Without(list, handle)| :: Without(list, handle)[i] in Without(list, handle);
  }

  lemma {:induction false} RunDistinct(list: seq<string>, uses: seq<Use>)
    requires Distinct(list)
    ensures Distinct(RunUsed(list, uses))
  {
    if uses != [] {
      RunDistinct(list, uses[..|uses| - 1]);
      UsedDistinct(RunUsed(list, uses[..|uses| - 1]), uses[|uses| - 1].handle);
    }
  }

  predicate AnyStored(uses: seq<Use>) {
    exists i | 0 <= i < |uses| :: uses[i].stores
  }

  /** After any uses of a record without duplicates (the page itself never writes one with any), the
      page shows exactly the first eight of the unbounded most-recent-first list, and once a use was
      stored the record holds just those. */
  lemma {:induction false} StoredIsNewestEight(slot: Slot, uses: seq<Use>)
    requires Distinct(Load(slot))
    requires forall i | 0 <= i < |uses| :: uses[i].handle != ""
    ensures Distinct(Load(RunStored(slot, uses)))
    ensures FirstN(Load(RunStored(slot, uses)), 8) == FirstN(RunUsed(Load(slot), uses), 8)
    ensures AnyStored(uses) ==> Load(RunStored(slot, uses)) == FirstN(RunUsed(Load(slot), uses), 8)
  {
    if uses != [] {
      var front, last := uses[..|uses| - 1], uses[|uses| - 1];
      StoredIsNewestEight(slot, front);
      if last.stores {
        RunDistinct(Load(slot), front);
        LoadAfterRemember(RunStored(slot, front), last.handle);
        TruncationCommutes(Load(RunStored(slot, front)), last.handle);
        TruncationCommutes(RunUsed(Load(slot), front), last.handle);
        UsedDistinct(Load(RunStored(slot, front)), last.handle);
      } else if AnyStored(uses) {
        var i :| 0 <= i < |uses| && uses[i].stores;
        assert front[i].stores;
      }
    }
  }
}
