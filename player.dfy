/**
 * The parts of Player (MHServerEmu.Games.Entities) that keep their own
 * state: stash tab options and their sort order, badges, console account
 * ids, tagged entities and the avatar level properties.
 *
 * The inventory lookups the player makes (is a ref a player stash
 * inventory, does the player have that inventory) are passed in as
 * predicates.
 */
module Players {
  import opened Common

  /** Stash tab names can be up to 30 UTF-16 code units long. */
  const MaxDisplayNameLength: nat := 30

  /**
   * A C# string: its UTF-16 code units, which is what Length counts and
   * Substring cuts. A character outside the Basic Multilingual Plane takes
   * two units (a surrogate pair).
   */
  type Utf16String = seq<bv16>

  datatype PlayerAvatarIndex = Primary | Secondary

  /** PlayerAvatarIndex.Count */
  const AvatarIndexCount: nat := 2

  datatype AvailableBadges =
    | CanGrantBadges | SiteCommands | CanBroadcastChat | AllContentAccess
    | CanLogInAsAnotherAccount | CanDisablePersistence | PlaytestCommands
    | CsrUser | DangerousCheatAccess | NumberOfBadges

  datatype StashTabOptions = StashTabOptions(displayName: Utf16String, iconPathAssetId: nat, color: nat, sortOrder: int)

  /** A newly created options record; in particular its SortOrder is 0. */
  const DefaultStashTabOptions: StashTabOptions := StashTabOptions([], 0, 0, 0)

  /** NetMessageStashTabOptions: every field except the ref is optional. */
  datatype StashTabOptionsMessage = StashTabOptionsMessage(
    inventoryRefId: PrototypeId, displayName: Option<Utf16String>,
    iconPathAssetId: Option<nat>, color: Option<nat>)

  /** One entry of `_stashTabOptionsDict`. */
  datatype StashTab = StashTab(ref: PrototypeId, options: StashTabOptions)

  /**
   * `_stashTabOptionsDict` as its entries in enumeration order. Tabs are
   * only ever added, so the order is the order of insertion.
   */
  type StashTabs = seq<StashTab>

  /** A dictionary holds each key once. */
  ghost predicate TabsValid(t: StashTabs) {
    forall i, j :: 0 <= i < j < |t| ==> t[i].ref != t[j].ref
  }

  /** Dictionary lookup: the position of the entry for ref, or -1. */
  function IndexOf(t: StashTabs, ref: PrototypeId): (r: int)
    ensures -1 <= r < |t|
    ensures r >= 0 ==> t[r].ref == ref && forall j :: 0 <= j < r ==> t[j].ref != ref
    ensures r == -1 ==> forall j :: 0 <= j < |t| ==> t[j].ref != ref
    decreases |t|
  {
    if t == [] then -1
    else if IndexOf(t[..|t| - 1], ref) >= 0 then IndexOf(t[..|t| - 1], ref)
    else if t[|t| - 1].ref == ref then |t| - 1
    else -1
  }

  /** The refs of the tabs, in order. */
  function Refs(t: StashTabs): (r: seq<PrototypeId>)
    ensures |r| == |t| && forall i :: 0 <= i < |t| ==> r[i] == t[i].ref
  {
    seq(|t|, i requires 0 <= i < |t| => t[i].ref)
  }

  function SortOrder(t: StashTabs, i: nat): int
    requires i < |t|
  {
    t[i].options.sortOrder
  }

  /**
   * The orders a well-kept player has: the n tabs hold the orders 0 .. n-1,
   * each exactly once.
   */
  ghost predicate Dense(t: StashTabs) {
    (forall i :: 0 <= i < |t| ==> 0 <= SortOrder(t, i) < |t|)
    && (forall i, j :: 0 <= i < j < |t| ==> SortOrder(t, i) != SortOrder(t, j))
  }

  // ------------------------------------------------------------------
  // UpdateStashTabOptions
  // ------------------------------------------------------------------

  /**
   * The stored name: the first 30 code units of a longer name. The cut is by
   * code unit, so it can fall inside a surrogate pair.
   */
  function TruncateDisplayName(name: Utf16String): (r: Utf16String)
    ensures |r| <= MaxDisplayNameLength && r <= name
    ensures |name| <= MaxDisplayNameLength ==> r == name
    ensures |name| > MaxDisplayNameLength ==> |r| == MaxDisplayNameLength
  {
    if |name| > MaxDisplayNameLength then name[..MaxDisplayNameLength] else name
  }

  /**
   * 29 ASCII letters followed by U+1F600 (the pair D83D DE00) are 31 units:
   * the stored name keeps the high surrogate and drops the low one.
   */
  lemma {:induction false} TruncationSplitsSurrogatePair()
    ensures var name := seq(29, _ => 0x61 as bv16) + [0xD83D, 0xDE00];
            |name| == 31 && |TruncateDisplayName(name)| == 30 && TruncateDisplayName(name)[29] == 0xD83D
  {
    var name := seq(29, _ => 0x61 as bv16) + [0xD83D, 0xDE00];
    assert name[..MaxDisplayNameLength][29] == name[29];
  }

  /** The tabs with an entry for ref, created with the default options at the end when missing. */
  function WithTab(t: StashTabs, ref: PrototypeId): (r: StashTabs)
    ensures IndexOf(r, ref) >= 0 && |r| >= |t| && r[..|t|] == t
  {
    if IndexOf(t, ref) >= 0 then t
    else
      var r := t + [StashTab(ref, DefaultStashTabOptions)];
      assert r[..|t|] == t;
      assert IndexOf(r, ref) == |t| by { assert r[..|r| - 1] == t; }
      r
  }

  /**
   * The options after applying the message: a stored display name is the
   * message's name cut to its first 30 characters; fields the message carries
   * are stored, absent fields and the sort order are kept.
   */
  function ApplyMessage(o: StashTabOptions, msg: StashTabOptionsMessage): (after: StashTabOptions)
    ensures msg.displayName.Some? ==>
              |after.displayName| <= MaxDisplayNameLength && after.displayName <= msg.displayName.value
              && (|msg.displayName.value| <= MaxDisplayNameLength ==> after.displayName == msg.displayName.value)
    ensures msg.displayName.None? ==> after.displayName == o.displayName
    ensures msg.iconPathAssetId.Some? ==> after.iconPathAssetId == msg.iconPathAssetId.value
    ensures msg.iconPathAssetId.None? ==> after.iconPathAssetId == o.iconPathAssetId
    ensures msg.color.Some? ==> after.color == msg.color.value
    ensures msg.color.None? ==> after.color == o.color
    ensures after.sortOrder == o.sortOrder
  {
    var o1 := if msg.displayName.Some? then o.(displayName := TruncateDisplayName(msg.displayName.value)) else o;
    var o2 := if msg.iconPathAssetId.Some? then o1.(iconPathAssetId := msg.iconPathAssetId.value) else o1;
    if msg.color.Some? then o2.(color := msg.color.value) else o2
  }

  function UpdatedStashTabs(t: StashTabs, msg: StashTabOptionsMessage,
                            isStash: PrototypeId -> bool, hasInventory: PrototypeId -> bool): (StashTabs, bool)
  {
    var ref := msg.inventoryRefId;
    if !isStash(ref) || !hasInventory(ref) then (t, false)
    else
      var t1 := WithTab(t, ref);
      var i := IndexOf(t1, ref);
      (t1[i := t1[i].(options := ApplyMessage(t1[i].options, msg))], true)
  }

  /** Creating a missing entry keeps the dictionary's keys distinct. */
  lemma {:induction false} WithTabValid(t: StashTabs, ref: PrototypeId)
    requires TabsValid(t)
    ensures TabsValid(WithTab(t, ref))
    ensures IndexOf(t, ref) >= 0 ==> WithTab(t, ref) == t
    ensures IndexOf(t, ref) < 0 ==> WithTab(t, ref) == t + [StashTab(ref, DefaultStashTabOptions)]
    ensures IndexOf(t, ref) < 0 ==> IndexOf(WithTab(t, ref), ref) == |t|
  {
    if IndexOf(t, ref) < 0 {
      assert WithTab(t, ref)[..|t|] == t;
    }
  }

  /**
   * The update succeeds exactly for a stash the player has; a refused update
   * changes nothing, and an accepted one touches only the entry for the ref,
   * which exists afterwards.
   */
  lemma {:induction false} UpdateStashTabOptionsEntries(t: StashTabs, msg: StashTabOptionsMessage,
                                     isStash: PrototypeId -> bool, hasInventory: PrototypeId -> bool)
    requires TabsValid(t)
    ensures var (t', ok) := UpdatedStashTabs(t, msg, isStash, hasInventory);
      var ref := msg.inventoryRefId;
      TabsValid(t')
      && (ok <==> isStash(ref) && hasInventory(ref))
      && (!ok ==> t' == t)
      && (ok ==>
            Refs(t') == Refs(WithTab(t, ref))
            && IndexOf(t', ref) == IndexOf(WithTab(t, ref), ref)
            && forall j :: 0 <= j < |t| && j != IndexOf(t', ref) ==> t'[j] == t[j])
  {
    var ref := msg.inventoryRefId;
    if isStash(ref) && hasInventory(ref) {
      WithTabValid(t, ref);
      var t1 := WithTab(t, ref);
      var t' := UpdatedStashTabs(t, msg, isStash, hasInventory).0;
      assert Refs(t') == Refs(t1);
      SameRefsValid(t1, t');
      assert IndexOf(t', ref) == IndexOf(t1, ref);
    }
  }

  // ------------------------------------------------------------------
  // StashTabInsert
  // ------------------------------------------------------------------

  /**
   * The new sort order of a tab other than the inserted one: tabs between the
   * old and the new position move one step towards the old position. When
   * old == new every tab at or after it moves one step back; a new tab holds
   * the default order 0, so that happens only for an insert at 0, and a new
   * tab inserted at v > 0 is shifted as a move from 0 to v.
   */
  function ShiftedOrder(so: int, oldOrder: int, newOrder: int): int {
    var increment := if oldOrder < newOrder then -1 else 1;
    var start := if oldOrder < newOrder then oldOrder else newOrder;
    var finish := if oldOrder < newOrder then newOrder else oldOrder;
    var isNew := oldOrder == newOrder && so >= newOrder;
    var isWithinSortRange := so >= start && so <= finish;
    if isNew || isWithinSortRange then so + increment else so
  }

  /** One entry after the sort-order pass: the inserted tab at its new order, any other tab shifted. */
  function ShiftedTab(tab: StashTab, ref: PrototypeId, oldOrder: int, newOrder: int): StashTab {
    if tab.ref == ref then tab.(options := tab.options.(sortOrder := newOrder))
    else tab.(options := tab.options.(sortOrder := ShiftedOrder(tab.options.sortOrder, oldOrder, newOrder)))
  }

  /** Every entry after the sort-order pass, before any renumbering. */
  function ShiftedTabs(t: StashTabs, ref: PrototypeId, oldOrder: int, newOrder: int): (r: StashTabs)
    ensures |r| == |t| && Refs(r) == Refs(t)
  {
    seq(|t|, i requires 0 <= i < |t| => ShiftedTab(t[i], ref, oldOrder, newOrder))
  }

  /** A SortedList<int, PrototypeId>: ascending by order, one entry per order. */
  type SortedTabs = seq<(int, PrototypeId)>

  ghost predicate StrictlyAscending(s: SortedTabs) {
    forall i, j :: 0 <= i < j < |s| ==> s[i].0 < s[j].0
  }

  /** `sortedTabs[order] = ref`: insert in place, or overwrite the entry with that order. */
  function SortedPut(s: SortedTabs, order: int, ref: PrototypeId): SortedTabs
    decreases |s|
  {
    if s == [] then [(order, ref)]
    else if s[0].0 == order then [(order, ref)] + s[1..]
    else if order < s[0].0 then [(order, ref)] + s
    else [s[0]] + SortedPut(s[1..], order, ref)
  }

  /** The sorted list the pass builds, visiting the entries in dictionary order. */
  function SortedTabsOf(t: StashTabs): SortedTabs {
    if t == [] then []
    else SortedPut(SortedTabsOf(t[..|t| - 1]), SortOrder(t, |t| - 1), t[|t| - 1].ref)
  }

  /** Whether some visited entry's order reached the tab count. */
  function AnyOverflow(t: StashTabs, count: int): bool {
    if t == [] then false
    else AnyOverflow(t[..|t| - 1], count) || SortOrder(t, |t| - 1) >= count
  }

  /** The overflow fallback: the entry at position i of the sorted list gets order i. */
  function Renumbered(t: StashTabs, s: SortedTabs): (r: StashTabs)
    ensures Refs(r) == Refs(t)
  {
    if s == [] then t
    else
      var o := Renumbered(t, s[..|s| - 1]);
      var j := IndexOf(o, s[|s| - 1].1);
      if j >= 0 then o[j := o[j].(options := o[j].options.(sortOrder := |s| - 1))] else o
  }

  /** StashTabInsert(insertedStashRef, newSortOrder) as a function of the tabs. */
  function InsertedStashTabs(t: StashTabs, ref: PrototypeId, newOrder: int,
                             isStash: PrototypeId -> bool, hasInventory: PrototypeId -> bool): (StashTabs, bool)
  {
    if newOrder < 0 || ref == InvalidPrototype || !isStash(ref) || !hasInventory(ref) then (t, false)
    else if IndexOf(t, ref) >= 0 && SortOrder(t, IndexOf(t, ref)) == newOrder then (t, false)
    else
      var t1 := WithTab(t, ref);
      if |t1| == 1 then (t1, true)
      else (Reordered(t1, ref, newOrder), true)
  }

  /** The reordering once the tab is in the dictionary: the pass, then the renumbering on an overflow. */
  function Reordered(t: StashTabs, ref: PrototypeId, newOrder: int): StashTabs
    requires IndexOf(t, ref) >= 0
  {
    var shifted := ShiftedTabs(t, ref, SortOrder(t, IndexOf(t, ref)), newOrder);
    if AnyOverflow(shifted, |shifted|) then Renumbered(shifted, SortedTabsOf(shifted)) else shifted
  }

  /** The pass over the first i + 1 entries extends the pass over the first i by entry i. */
  lemma {:induction false} PassStep(t: StashTabs, i: nat, count: int)
    requires i < |t|
    ensures SortedTabsOf(t[..i + 1]) == SortedPut(SortedTabsOf(t[..i]), SortOrder(t, i), t[i].ref)
    ensures AnyOverflow(t[..i + 1], count) == (AnyOverflow(t[..i], count) || SortOrder(t, i) >= count)
  {
    assert t[..i + 1][..i] == t[..i];
  }

  /** The pass gives the inserted tab its new order whatever order it held before. */
  lemma {:induction false} ShiftedIgnoresInsertedOrder(t: StashTabs, j: nat, ref: PrototypeId, oldOrder: int, newOrder: int, v: int)
    requires j < |t| && t[j].ref == ref
    ensures ShiftedTabs(t[j := t[j].(options := t[j].options.(sortOrder := v))], ref, oldOrder, newOrder)
         == ShiftedTabs(t, ref, oldOrder, newOrder)
  {
  }

  /** Refs fixes a dictionary's keys, so entries with the same refs are valid together. */
  lemma {:induction false} SameRefsValid(t: StashTabs, t': StashTabs)
    requires TabsValid(t) && Refs(t') == Refs(t)
    ensures TabsValid(t')
  {
    forall i, j | 0 <= i < j < |t'| ensures t'[i].ref != t'[j].ref {
      assert t'[i].ref == Refs(t')[i] && t'[j].ref == Refs(t')[j];
    }
  }

  /** Renumbering changes nothing but sort orders. */
  lemma {:induction false} RenumberedKeepsOtherFields(t: StashTabs, s: SortedTabs)
    ensures |Renumbered(t, s)| == |t|
    ensures forall i :: 0 <= i < |t| ==>
      Renumbered(t, s)[i].options.(sortOrder := 0) == t[i].options.(sortOrder := 0)
  {
    if s != [] {
      RenumberedKeepsOtherFields(t, s[..|s| - 1]);
    }
  }

  /** No entry reaches the count, so the pass reports no overflow. */
  lemma {:induction false} NoOverflow(t: StashTabs, count: int)
    requires forall i :: 0 <= i < |t| ==> SortOrder(t, i) < count
    ensures !AnyOverflow(t, count)
  {
    if t != [] {
      var init := t[..|t| - 1];
      forall i | 0 <= i < |init| ensures SortOrder(init, i) < count {
        assert SortOrder(init, i) == SortOrder(t, i);
      }
      NoOverflow(init, count);
    }
  }

  /**
   * Moving a tab from o to v shifts the other orders monotonically and never
   * onto v: tabs keep their relative order and stay distinct from each other
   * and from the moved tab.
   */
  lemma {:induction false} ShiftKeepsRanks(x: int, y: int, o: int, v: int)
    requires x != o && y != o && x != y && o != v
    ensures x < y <==> ShiftedOrder(x, o, v) < ShiftedOrder(y, o, v)
    ensures ShiftedOrder(x, o, v) != v
  {
  }

  /**
   * StashTabInsert refuses exactly a negative order, the invalid ref, a ref
   * that is not a stash the player has, and an existing tab's own order; a
   * refusal changes nothing.
   */
  lemma {:induction false} InsertRefusals(t: StashTabs, ref: PrototypeId, newOrder: int,
                       isStash: PrototypeId -> bool, hasInventory: PrototypeId -> bool)
    ensures var (t', ok) := InsertedStashTabs(t, ref, newOrder, isStash, hasInventory);
      (ok <==> newOrder >= 0 && ref != InvalidPrototype && isStash(ref) && hasInventory(ref)
               && !(IndexOf(t, ref) >= 0 && SortOrder(t, IndexOf(t, ref)) == newOrder))
      && (!ok ==> t' == t)
  {
  }

  /**
   * An accepted insert keeps the refs of the dictionary (after creating the
   * entry) and changes only sort orders; a dictionary with one tab is not
   * reordered.
   */
  lemma {:induction false} InsertKeepsEntries(t: StashTabs, ref: PrototypeId, newOrder: int,
                           isStash: PrototypeId -> bool, hasInventory: PrototypeId -> bool)
    requires TabsValid(t)
    requires InsertedStashTabs(t, ref, newOrder, isStash, hasInventory).1
    ensures var t' := InsertedStashTabs(t, ref, newOrder, isStash, hasInventory).0;
      var t1 := WithTab(t, ref);
      TabsValid(t') && Refs(t') == Refs(t1) && |t'| == |t1|
      && (forall i :: 0 <= i < |t1| ==> t'[i].options.(sortOrder := 0) == t1[i].options.(sortOrder := 0))
      && (|t1| == 1 ==> t' == t1)
  {
    var t' := InsertedStashTabs(t, ref, newOrder, isStash, hasInventory).0;
    WithTabValid(t, ref);
    var t1 := WithTab(t, ref);
    AcceptedInsert(t, ref, newOrder, isStash, hasInventory);
    if |t1| > 1 {
      var shifted := ShiftedTabs(t1, ref, SortOrder(t1, IndexOf(t1, ref)), newOrder);
      if AnyOverflow(shifted, |shifted|) {
        RenumberedKeepsOtherFields(shifted, SortedTabsOf(shifted));
      }
    }
    SameRefsValid(t1, t');
  }

  /** An accepted insert: the tab is created if missing, then (for two or more tabs) the pass and the overflow renumbering. */
  lemma {:induction false} AcceptedInsert(t: StashTabs, ref: PrototypeId, newOrder: int,
                                          isStash: PrototypeId -> bool, hasInventory: PrototypeId -> bool)
    requires InsertedStashTabs(t, ref, newOrder, isStash, hasInventory).1
    ensures var t1 := WithTab(t, ref);
      var shifted := ShiftedTabs(t1, ref, SortOrder(t1, IndexOf(t1, ref)), newOrder);
      InsertedStashTabs(t, ref, newOrder, isStash, hasInventory).0
        == if |t1| == 1 then t1
           else if AnyOverflow(shifted, |shifted|) then Renumbered(shifted, SortedTabsOf(shifted))
           else shifted
  {
  }

  /**
   * The move the stash UI makes: an existing tab of a dense dictionary moved
   * to another order 0 <= v < n lands at v, no renumbering happens, the
   * orders stay dense, and the other tabs keep their relative order.
   */
  lemma {:induction false} MoveWithinRange(t: StashTabs, ref: PrototypeId, v: int,
                        isStash: PrototypeId -> bool, hasInventory: PrototypeId -> bool)
    requires TabsValid(t) && Dense(t)
    requires ref != InvalidPrototype && isStash(ref) && hasInventory(ref)
    requires IndexOf(t, ref) >= 0 && 0 <= v < |t| && v != SortOrder(t, IndexOf(t, ref))
    ensures var (t', ok) := InsertedStashTabs(t, ref, v, isStash, hasInventory);
      var k := IndexOf(t, ref);
      ok && |t'| == |t| && Refs(t') == Refs(t) && Dense(t')
      && SortOrder(t', k) == v
      && forall i, j :: 0 <= i < |t| && 0 <= j < |t| && i != k && j != k ==>
           (SortOrder(t, i) < SortOrder(t, j) <==> SortOrder(t', i) < SortOrder(t', j))
  {
    var k := IndexOf(t, ref);
    var o := SortOrder(t, k);
    assert WithTab(t, ref) == t;
    assert |t| > 1;
    var shifted := ShiftedTabs(t, ref, o, v);
    forall i | 0 <= i < |t| && i != k
      ensures SortOrder(shifted, i) == ShiftedOrder(SortOrder(t, i), o, v) && SortOrder(t, i) != o
    {
      assert t[i].ref != ref;
    }
    forall i | 0 <= i < |t| ensures 0 <= SortOrder(shifted, i) < |t| {
    }
    forall i, j | 0 <= i < j < |t| ensures SortOrder(shifted, i) != SortOrder(shifted, j) {
      if i != k && j != k {
        ShiftKeepsRanks(SortOrder(t, i), SortOrder(t, j), o, v);
      } else if i != k {
        ShiftKeepsRanks(SortOrder(t, i), SortOrder(t, i) + |t|, o, v);
      } else if j != k {
        ShiftKeepsRanks(SortOrder(t, j), SortOrder(t, j) + |t|, o, v);
      }
    }
    forall i, j | 0 <= i < |t| && 0 <= j < |t| && i != k && j != k
      ensures SortOrder(t, i) < SortOrder(t, j) <==> SortOrder(shifted, i) < SortOrder(shifted, j)
    {
      if i != j {
        ShiftKeepsRanks(SortOrder(t, i), SortOrder(t, j), o, v);
      }
    }
    NoOverflow(shifted, |shifted|);
  }

  /**
   * What unlocking a stash does (StashTabInsert(ref, 0) for a tab without
   * options): the new tab is appended at order 0, every other tab moves one
   * step back, and a dense dictionary stays dense.
   */
  lemma {:induction false} NewTabAtFront(t: StashTabs, ref: PrototypeId,
                      isStash: PrototypeId -> bool, hasInventory: PrototypeId -> bool)
    requires TabsValid(t) && Dense(t)
    requires ref != InvalidPrototype && isStash(ref) && hasInventory(ref) && IndexOf(t, ref) < 0
    ensures var (t', ok) := InsertedStashTabs(t, ref, 0, isStash, hasInventory);
      ok && |t'| == |t| + 1 && Dense(t') && TabsValid(t')
      && t'[|t|].ref == ref && SortOrder(t', |t|) == 0
      && forall i :: 0 <= i < |t| ==> t'[i].ref == t[i].ref && SortOrder(t', i) == SortOrder(t, i) + 1
  {
    WithTabValid(t, ref);
    var t1 := t + [StashTab(ref, DefaultStashTabOptions)];
    if |t| > 0 {
      var shifted := ShiftedTabs(t1, ref, 0, 0);
      ShiftedNewAtFront(t, ref);
      NoOverflow(shifted, |shifted|);
      InsertedNewTab(t, ref, isStash, hasInventory);
      SameRefsValid(t1, shifted);
    }
  }

  /** StashTabInsert(ref, 0) for a tab without options, on a non-empty dictionary: only the pass runs if nothing overflows. */
  lemma {:induction false} InsertedNewTab(t: StashTabs, ref: PrototypeId,
                       isStash: PrototypeId -> bool, hasInventory: PrototypeId -> bool)
    requires TabsValid(t) && |t| > 0
    requires ref != InvalidPrototype && isStash(ref) && hasInventory(ref) && IndexOf(t, ref) < 0
    ensures var t1 := t + [StashTab(ref, DefaultStashTabOptions)];
      var shifted := ShiftedTabs(t1, ref, 0, 0);
      !AnyOverflow(shifted, |t1|) ==> InsertedStashTabs(t, ref, 0, isStash, hasInventory) == (shifted, true)
  {
    WithTabValid(t, ref);
    var t1 := WithTab(t, ref);
    assert t1 == t + [StashTab(ref, DefaultStashTabOptions)];
    assert IndexOf(t1, ref) == |t|;
  }

  /** The pass for a new tab at order 0 puts it at 0 and moves every other tab one step back. */
  lemma {:induction false} ShiftedNewAtFront(t: StashTabs, ref: PrototypeId)
    requires TabsValid(t) && Dense(t) && IndexOf(t, ref) < 0
    ensures var shifted := ShiftedTabs(t + [StashTab(ref, DefaultStashTabOptions)], ref, 0, 0);
      SortOrder(shifted, |t|) == 0 && shifted[|t|].ref == ref
      && (forall i :: 0 <= i < |t| ==> shifted[i].ref == t[i].ref && SortOrder(shifted, i) == SortOrder(t, i) + 1)
      && forall i :: 0 <= i < |shifted| ==> SortOrder(shifted, i) < |shifted|
  {
    var t1 := t + [StashTab(ref, DefaultStashTabOptions)];
    var shifted := ShiftedTabs(t1, ref, 0, 0);
    forall i | 0 <= i < |t| ensures shifted[i].ref == t[i].ref && SortOrder(shifted, i) == SortOrder(t, i) + 1 {
      assert t1[i] == t[i];
      IndexOfEntry(t, i);
      assert 0 <= SortOrder(t, i);
    }
    forall i | 0 <= i < |shifted| ensures SortOrder(shifted, i) < |shifted| {
      if i < |t| {
        assert SortOrder(t, i) < |t|;
      }
    }
  }

  /**
   * StashTabInsert(ref, v) for a tab without options at 0 < v <= Count: the
   * default order 0 makes the pass a move from 0 to v, so the new tab takes v,
   * every tab at an order up to v moves one step down (the one at 0 to -1),
   * the others keep theirs, and nothing overflows, so nothing is renumbered.
   */
  lemma {:induction false} NewTabInside(t: StashTabs, ref: PrototypeId, v: int,
                     isStash: PrototypeId -> bool, hasInventory: PrototypeId -> bool)
    requires TabsValid(t) && Dense(t) && 0 < v <= |t|
    requires ref != InvalidPrototype && isStash(ref) && hasInventory(ref) && IndexOf(t, ref) < 0
    ensures var (t', ok) := InsertedStashTabs(t, ref, v, isStash, hasInventory);
      ok && |t'| == |t| + 1 && TabsValid(t')
      && t'[|t|].ref == ref && SortOrder(t', |t|) == v
      && forall i :: 0 <= i < |t| ==>
           t'[i].ref == t[i].ref
           && SortOrder(t', i) == (if SortOrder(t, i) <= v then SortOrder(t, i) - 1 else SortOrder(t, i))
  {
    WithTabValid(t, ref);
    var t1 := t + [StashTab(ref, DefaultStashTabOptions)];
    assert WithTab(t, ref) == t1 && IndexOf(t1, ref) == |t|;
    var shifted := ShiftedTabs(t1, ref, 0, v);
    forall i | 0 <= i < |t|
      ensures shifted[i].ref == t[i].ref
      ensures SortOrder(shifted, i) == (if SortOrder(t, i) <= v then SortOrder(t, i) - 1 else SortOrder(t, i))
      ensures SortOrder(shifted, i) < |t1|
    {
      assert t1[i] == t[i];
      IndexOfEntry(t, i);
      assert 0 <= SortOrder(t, i) < |t|;
    }
    assert SortOrder(shifted, |t|) == v;
    NoOverflow(shifted, |shifted|);
    SameRefsValid(t1, shifted);
  }

  /** The smallest case of NewTabInside: a third tab inserted at order 2 behind tabs at 0 and 1. */
  lemma {:induction false} NewTabInsideExample()
    ensures var t := [StashTab(1, DefaultStashTabOptions.(sortOrder := 0)),
                      StashTab(2, DefaultStashTabOptions.(sortOrder := 1))];
      InsertedStashTabs(t, 3, 2, _ => true, _ => true)
        == ([StashTab(1, DefaultStashTabOptions.(sortOrder := -1)),
             StashTab(2, DefaultStashTabOptions.(sortOrder := 0)),
             StashTab(3, DefaultStashTabOptions.(sortOrder := 2))], true)
  {
    var t := [StashTab(1, DefaultStashTabOptions.(sortOrder := 0)),
              StashTab(2, DefaultStashTabOptions.(sortOrder := 1))];
    assert IndexOf(t, 3) < 0 by {
      assert t[0].ref != 3 && t[1].ref != 3;
    }
    var yes: PrototypeId -> bool := _ => true;
    NewTabInside(t, 3, 2, yes, yes);
    InsertKeepsEntries(t, 3, 2, yes, yes);
    var t' := InsertedStashTabs(t, 3, 2, yes, yes).0;
    WithTabValid(t, 3);
    var t1 := WithTab(t, 3);
    assert t1 == t + [StashTab(3, DefaultStashTabOptions)];
    forall i | 0 <= i < 3 ensures t'[i] == StashTab(t1[i].ref, DefaultStashTabOptions.(sortOrder := SortOrder(t', i))) {
      assert t'[i].options.(sortOrder := 0) == t1[i].options.(sortOrder := 0);
    }
    assert t' == [t'[0], t'[1], t'[2]];
  }

  /**
   * StashTabInsert(ref, v) for a tab without options at v > Count: the pass (a
   * move from the default order 0 to v) sends the old tabs to -1 .. n-2 and the
   * new tab past the end, so the renumbering runs. It gives every old tab its
   * old order back and the new tab order n, the last place.
   */
  lemma {:induction false} NewTabPastEnd(t: StashTabs, ref: PrototypeId, v: int,
                      isStash: PrototypeId -> bool, hasInventory: PrototypeId -> bool)
    requires TabsValid(t) && Dense(t) && |t| >= 1 && v > |t|
    requires ref != InvalidPrototype && isStash(ref) && hasInventory(ref) && IndexOf(t, ref) < 0
    ensures var (t', ok) := InsertedStashTabs(t, ref, v, isStash, hasInventory);
      ok && |t'| == |t| + 1 && Dense(t') && TabsValid(t')
      && t'[|t|].ref == ref && SortOrder(t', |t|) == |t|
      && (forall i :: 0 <= i < |t| ==> t'[i] == t[i])
      && t' == t + [StashTab(ref, DefaultStashTabOptions.(sortOrder := |t|))]
  {
    InsertedNewPastEnd(t, ref, v, isStash, hasInventory);
    AppendedLastDense(t, ref);
  }

  /** StashTabInsert(ref, v) for a tab without options at v > Count: the pass overflows and the renumbering runs. */
  lemma {:induction false} InsertedNewPastEnd(t: StashTabs, ref: PrototypeId, v: int,
                           isStash: PrototypeId -> bool, hasInventory: PrototypeId -> bool)
    requires TabsValid(t) && Dense(t) && |t| >= 1 && v > |t|
    requires ref != InvalidPrototype && isStash(ref) && hasInventory(ref) && IndexOf(t, ref) < 0
    ensures InsertedStashTabs(t, ref, v, isStash, hasInventory)
         == (t + [StashTab(ref, DefaultStashTabOptions.(sortOrder := |t|))], true)
  {
    var n := |t|;
    WithTabValid(t, ref);
    var t1 := t + [StashTab(ref, DefaultStashTabOptions)];
    assert WithTab(t, ref) == t1 && IndexOf(t1, ref) == n;
    var shifted := ShiftedTabs(t1, ref, 0, v);
    ShiftedNewPastEnd(t, ref, v);
    SameRefsValid(t1, shifted);
    OverflowAt(shifted, n, n + 1);
    RenumberedNewPastEnd(t, shifted, ref, v);
  }

  /** Appending a new tab at order Count keeps a dense dictionary dense. */
  lemma {:induction false} AppendedLastDense(t: StashTabs, ref: PrototypeId)
    requires TabsValid(t) && Dense(t) && IndexOf(t, ref) < 0
    ensures var t' := t + [StashTab(ref, DefaultStashTabOptions.(sortOrder := |t|))];
      TabsValid(t') && Dense(t')
  {
    var n := |t|;
    var t' := t + [StashTab(ref, DefaultStashTabOptions.(sortOrder := n))];
    WithTabValid(t, ref);
    var t1 := t + [StashTab(ref, DefaultStashTabOptions)];
    assert Refs(t') == Refs(t1) by {
      assert forall i :: 0 <= i < n + 1 ==> t'[i].ref == t1[i].ref;
    }
    SameRefsValid(t1, t');
    forall i, j | 0 <= i < j < n + 1 ensures SortOrder(t', i) != SortOrder(t', j) {
      if j < n {
        assert SortOrder(t', i) == SortOrder(t, i) && SortOrder(t', j) == SortOrder(t, j);
      } else {
        assert SortOrder(t', i) == SortOrder(t, i) < n;
      }
    }
    forall i | 0 <= i < n + 1 ensures 0 <= SortOrder(t', i) < n + 1 {
      if i < n {
        assert SortOrder(t', i) == SortOrder(t, i);
      }
    }
  }

  /** The smallest case of NewTabPastEnd: a third tab inserted at order 5 behind tabs at 0 and 1 ends at 2. */
  lemma {:induction false} NewTabPastEndExample()
    ensures var t := [StashTab(1, DefaultStashTabOptions.(sortOrder := 0)),
                      StashTab(2, DefaultStashTabOptions.(sortOrder := 1))];
      InsertedStashTabs(t, 3, 5, _ => true, _ => true)
        == (t + [StashTab(3, DefaultStashTabOptions.(sortOrder := 2))], true)
  {
    var t := [StashTab(1, DefaultStashTabOptions.(sortOrder := 0)),
              StashTab(2, DefaultStashTabOptions.(sortOrder := 1))];
    assert IndexOf(t, 3) < 0 by {
      assert t[0].ref != 3 && t[1].ref != 3;
    }
    var yes: PrototypeId -> bool := _ => true;
    NewTabPastEnd(t, 3, 5, yes, yes);
  }

  /**
   * What the pass does to a dictionary t with a new tab ref appended, when
   * the tab is inserted at v > Count: u holds the new tab at v after the old
   * tabs, each one step down, and all orders are distinct.
   */
  ghost predicate NewPastEndPass(t: StashTabs, u: StashTabs, ref: PrototypeId, v: int) {
    |u| == |t| + 1 && u[|t|] == StashTab(ref, DefaultStashTabOptions.(sortOrder := v))
    && (forall i :: 0 <= i < |t| ==> u[i] == t[i].(options := t[i].options.(sortOrder := SortOrder(t, i) - 1)))
    && DistinctOrders(u)
  }

  /** The pass for a new tab at v > Count: the new tab holds v and every old tab moves one step down. */
  lemma {:induction false} ShiftedNewPastEnd(t: StashTabs, ref: PrototypeId, v: int)
    requires TabsValid(t) && Dense(t) && IndexOf(t, ref) < 0 && v > |t|
    ensures NewPastEndPass(t, ShiftedTabs(t + [StashTab(ref, DefaultStashTabOptions)], ref, 0, v), ref, v)
  {
    var n := |t|;
    var t1 := t + [StashTab(ref, DefaultStashTabOptions)];
    var shifted := ShiftedTabs(t1, ref, 0, v);
    forall i | 0 <= i < n
      ensures shifted[i] == t[i].(options := t[i].options.(sortOrder := SortOrder(t, i) - 1))
    {
      assert t1[i] == t[i] && t[i].ref != ref;
      assert 0 <= SortOrder(t, i) < n;
    }
    forall i, j | 0 <= i < j < n + 1 ensures SortOrder(shifted, i) != SortOrder(shifted, j) {
      if j < n {
        assert SortOrder(t, i) != SortOrder(t, j);
      } else {
        assert SortOrder(t, i) < n;
      }
    }
  }

  /**
   * The renumbering after that pass: the sorted list holds the old tabs at
   * -1 .. n-2 and then the new tab, so the old tabs get their old orders back
   * and the new tab gets n.
   */
  lemma {:induction false} RenumberedNewPastEnd(t: StashTabs, u: StashTabs, ref: PrototypeId, v: int)
    requires TabsValid(u) && Dense(t) && |t| >= 1 && v > |t| && NewPastEndPass(t, u, ref, v)
    ensures Renumbered(u, SortedTabsOf(u)) == t + [StashTab(ref, DefaultStashTabOptions.(sortOrder := |t|))]
  {
    var n := |t|;
    var s := SortedTabsOf(u);
    SortedNewPastEnd(t, u, ref, v);
    RenumberedOldTabsBack(t, u, ref, v);
    var o := Renumbered(u, s[..n]);
    assert s[..|s| - 1] == s[..n] && s[|s| - 1].1 == ref;
    assert IndexOf(o, ref) == n by {
      SameRefsValid(u, o);
      IndexOfEntry(o, n);
    }
    assert o[n := o[n].(options := o[n].options.(sortOrder := n))]
        == t + [StashTab(ref, DefaultStashTabOptions.(sortOrder := n))];
  }

  /** Renumbering along the first n entries of that sorted list gives the old tabs their old orders back. */
  lemma {:induction false} RenumberedOldTabsBack(t: StashTabs, u: StashTabs, ref: PrototypeId, v: int)
    requires TabsValid(u) && Dense(t) && |t| >= 1 && v > |t| && NewPastEndPass(t, u, ref, v)
    ensures |SortedTabsOf(u)| == |t| + 1
      && Renumbered(u, SortedTabsOf(u)[..|t|]) == t + [StashTab(ref, DefaultStashTabOptions.(sortOrder := v))]
  {
    var n := |t|;
    SortedNewPastEnd(t, u, ref, v);
    var s := SortedTabsOf(u);
    RenumberedPrefixShift(u, s, n, -1);
    var o := Renumbered(u, s[..n]);
    var t' := t + [StashTab(ref, DefaultStashTabOptions.(sortOrder := v))];
    forall i | 0 <= i < n + 1 ensures o[i] == t'[i] {
      if i < n {
        assert SortOrder(u, i) == SortOrder(t, i) - 1;
        assert 0 <= SortOrder(t, i) < n;
      }
    }
  }

  /** The sorted list after that pass: position p < n holds order p - 1, and the new tab is last. */
  lemma {:induction false} SortedNewPastEnd(t: StashTabs, u: StashTabs, ref: PrototypeId, v: int)
    requires Dense(t) && |t| >= 1 && v > |t| && NewPastEndPass(t, u, ref, v)
    ensures var s := SortedTabsOf(u);
      |s| == |t| + 1 && s[|t|] == (v, ref)
      && forall p :: 0 <= p < |t| ==> s[p] in Pairs(u) && s[p].0 == p - 1
  {
    var n := |t|;
    SortedTabsOfDistinct(u);
    var s := SortedTabsOf(u);
    forall p | 0 <= p < n + 1 ensures s[p].0 <= v && (s[p].0 != v ==> -1 <= s[p].0 <= n - 2) && (s[p].0 == v ==> s[p] == (v, ref)) {
      assert s[p] in Pairs(u);
      var i :| 0 <= i < n + 1 && Pairs(u)[i] == s[p];
      if i < n {
        assert SortOrder(u, i) == SortOrder(t, i) - 1;
        assert 0 <= SortOrder(t, i) < n;
      }
    }
    assert (v, ref) in s by {
      assert Pairs(u)[n] == (v, ref);
    }
    var q :| 0 <= q < n + 1 && s[q] == (v, ref);
    forall p | 0 <= p < n ensures s[p].0 == p - 1 {
      assert s[p].0 < s[n].0 && s[n - 1].0 < s[n].0;
      AscendingGaps(s, 0, p);
      AscendingGaps(s, p, n - 1);
    }
  }

  /**
   * Renumbering along a list whose first m entries are entries of t at the
   * orders c, c+1, ...: each of those entries gets its order minus c, the rest
   * are kept.
   */
  lemma {:induction false} RenumberedPrefixShift(t: StashTabs, s: SortedTabs, m: nat, c: int)
    requires TabsValid(t) && DistinctOrders(t) && m <= |s|
    requires forall p :: 0 <= p < m ==> s[p] in Pairs(t) && s[p].0 == p + c
    ensures |Renumbered(t, s[..m])| == |t|
    ensures forall i :: 0 <= i < |t| ==>
      Renumbered(t, s[..m])[i]
        == if c <= SortOrder(t, i) < c + m then t[i].(options := t[i].options.(sortOrder := SortOrder(t, i) - c)) else t[i]
  {
    if m > 0 {
      assert s[..m][..m - 1] == s[..m - 1];
      RenumberedPrefixShift(t, s, m - 1, c);
      var o := Renumbered(t, s[..m - 1]);
      var i :| 0 <= i < |t| && Pairs(t)[i] == s[m - 1];
      SameRefsValid(t, o);
      assert o[i].ref == t[i].ref;
      IndexOfEntry(o, i);
      var r := Renumbered(t, s[..m]);
      assert r == o[i := o[i].(options := o[i].options.(sortOrder := m - 1))];
      forall i' | 0 <= i' < |t|
        ensures r[i'] == if c <= SortOrder(t, i') < c + m then t[i'].(options := t[i'].options.(sortOrder := SortOrder(t, i') - c)) else t[i']
      {
        if i' != i {
          assert SortOrder(t, i') != SortOrder(t, i) by {
            if i' < i {
              assert SortOrder(t, i') != SortOrder(t, i);
            } else {
              assert SortOrder(t, i) != SortOrder(t, i');
            }
          }
          assert r[i'] == o[i'];
        }
      }
    }
  }

  /** The (order, ref) pair of every entry. */
  function Pairs(t: StashTabs): (r: SortedTabs)
    ensures |r| == |t| && forall i :: 0 <= i < |t| ==> r[i] == (SortOrder(t, i), t[i].ref)
  {
    seq(|t|, i requires 0 <= i < |t| => (SortOrder(t, i), t[i].ref))
  }

  ghost predicate DistinctOrders(t: StashTabs) {
    forall i, j :: 0 <= i < j < |t| ==> SortOrder(t, i) != SortOrder(t, j)
  }

  /** Putting a new order into a sorted list adds exactly its entry. */
  lemma {:induction false} SortedPutMembers(s: SortedTabs, order: int, ref: PrototypeId)
    requires forall p :: 0 <= p < |s| ==> s[p].0 != order
    ensures |SortedPut(s, order, ref)| == |s| + 1
    ensures forall x :: x in SortedPut(s, order, ref) <==> x in s || x == (order, ref)
    decreases |s|
  {
    if s != [] && order > s[0].0 {
      assert forall p :: 0 <= p < |s[1..]| ==> s[1..][p] == s[p + 1];
      SortedPutMembers(s[1..], order, ref);
      assert s == [s[0]] + s[1..];
    }
  }

  /** Putting a new order into a strictly ascending list keeps it strictly ascending. */
  lemma {:induction false} SortedPutAscending(s: SortedTabs, order: int, ref: PrototypeId)
    requires StrictlyAscending(s) && forall p :: 0 <= p < |s| ==> s[p].0 != order
    ensures StrictlyAscending(SortedPut(s, order, ref))
    decreases |s|
  {
    if s != [] && order > s[0].0 {
      var tail := s[1..];
      assert forall p :: 0 <= p < |tail| ==> tail[p] == s[p + 1];
      SortedPutAscending(tail, order, ref);
      SortedPutMembers(tail, order, ref);
      var rest := SortedPut(tail, order, ref);
      forall j | 0 <= j < |rest| ensures s[0].0 < rest[j].0 {
        if rest[j] != (order, ref) {
          assert rest[j] in tail;
          var p :| 0 <= p < |tail| && tail[p] == rest[j];
          assert s[0].0 < s[p + 1].0;
        }
      }
      ConsStrictlyAscending(s[0], rest);
      assert SortedPut(s, order, ref) == [s[0]] + rest;
    } else if s != [] && order < s[0].0 {
      ConsStrictlyAscending((order, ref), s);
    }
  }

  /** An entry below every entry of a strictly ascending list can go in front. */
  lemma {:induction false} ConsStrictlyAscending(a: (int, PrototypeId), s: SortedTabs)
    requires StrictlyAscending(s) && forall j :: 0 <= j < |s| ==> a.0 < s[j].0
    ensures StrictlyAscending([a] + s)
  {
    var r := [a] + s;
    forall i, j | 0 <= i < j < |r| ensures r[i].0 < r[j].0 {
      assert r[j] == s[j - 1];
      if i > 0 {
        assert r[i] == s[i - 1];
      }
    }
  }

  /**
   * When the visited orders are distinct, the pass's sorted list holds every
   * entry's (order, ref) pair once, in ascending order.
   */
  lemma {:induction false} SortedTabsOfDistinct(t: StashTabs)
    requires DistinctOrders(t)
    ensures StrictlyAscending(SortedTabsOf(t)) && |SortedTabsOf(t)| == |t|
    ensures forall x :: x in SortedTabsOf(t) <==> x in Pairs(t)
  {
    if t != [] {
      var init := t[..|t| - 1];
      assert forall i :: 0 <= i < |init| ==> SortOrder(init, i) == SortOrder(t, i);
      SortedTabsOfDistinct(init);
      var s := SortedTabsOf(init);
      forall p | 0 <= p < |s| ensures s[p].0 != SortOrder(t, |t| - 1) {
        assert s[p] in Pairs(init);
        var i :| 0 <= i < |init| && Pairs(init)[i] == s[p];
      }
      SortedPutMembers(s, SortOrder(t, |t| - 1), t[|t| - 1].ref);
      SortedPutAscending(s, SortOrder(t, |t| - 1), t[|t| - 1].ref);
      assert Pairs(t) == Pairs(init) + [Pairs(t)[|t| - 1]];
    }
  }

  /** Consecutive entries of a strictly ascending list differ by at least one. */
  lemma {:induction false} AscendingGaps(s: SortedTabs, i: nat, j: nat)
    requires StrictlyAscending(s) && i <= j < |s|
    ensures s[j].0 - s[i].0 >= j - i
    decreases j - i
  {
    if i < j {
      AscendingGaps(s, i, j - 1);
    }
  }

  /** In a dictionary, the lookup of an entry's own ref finds that entry. */
  lemma {:induction false} IndexOfEntry(t: StashTabs, i: nat)
    requires TabsValid(t) && i < |t|
    ensures IndexOf(t, t[i].ref) == i
  {
  }

  /** An entry at or past the count makes the pass report overflow. */
  lemma {:induction false} OverflowAt(t: StashTabs, i: nat, count: int)
    requires i < |t| && SortOrder(t, i) >= count
    ensures AnyOverflow(t, count)
  {
    if i < |t| - 1 {
      assert SortOrder(t[..|t| - 1], i) == SortOrder(t, i);
      OverflowAt(t[..|t| - 1], i, count);
    }
  }

  /** Renumbering by a list whose entry p already holds order p changes nothing. */
  lemma {:induction false} RenumberedPrefixKeeps(t: StashTabs, s: SortedTabs, m: nat)
    requires TabsValid(t) && m <= |s|
    requires forall p :: 0 <= p < m ==> s[p] in Pairs(t) && s[p].0 == p
    ensures Renumbered(t, s[..m]) == t
  {
    if m > 0 {
      assert s[..m][..m - 1] == s[..m - 1];
      RenumberedPrefixKeeps(t, s, m - 1);
      var i :| 0 <= i < |t| && Pairs(t)[i] == s[m - 1];
      IndexOfEntry(t, i);
      assert t[i := t[i].(options := t[i].options.(sortOrder := m - 1))] == t;
    }
  }

  /**
   * The sorted list of a pass whose entries other than k hold distinct orders
   * in 0 .. n-2 while entry k holds v >= n: every entry of the list is a pass
   * entry, bounded by v, and only entry k reaches v.
   */
  lemma {:induction false} SortedWithOneOverflowBounds(t: StashTabs, k: nat, v: int)
    requires |t| >= 2 && k < |t| && SortOrder(t, k) == v >= |t| && DistinctOrders(t)
    requires forall i :: 0 <= i < |t| && i != k ==> 0 <= SortOrder(t, i) <= |t| - 2
    ensures StrictlyAscending(SortedTabsOf(t)) && |SortedTabsOf(t)| == |t| && Pairs(t)[k] in SortedTabsOf(t)
    ensures forall p :: 0 <= p < |t| ==> var x := SortedTabsOf(t)[p];
      x in Pairs(t) && x.0 <= v && (x.0 == v ==> x == (v, t[k].ref)) && (x.0 != v ==> 0 <= x.0 <= |t| - 2)
  {
    var n := |t|;
    var s := SortedTabsOf(t);
    SortedTabsOfDistinct(t);
    forall p | 0 <= p < n
      ensures s[p].0 <= v && (s[p].0 == v ==> s[p] == (v, t[k].ref)) && (s[p].0 != v ==> 0 <= s[p].0 <= n - 2)
    {
      assert s[p] in Pairs(t);
      var i :| 0 <= i < n && Pairs(t)[i] == s[p];
    }
  }

  /** So the list ends with entry k ... */
  lemma {:induction false} SortedWithOneOverflowLast(t: StashTabs, k: nat, v: int)
    requires |t| >= 2 && k < |t| && SortOrder(t, k) == v >= |t| && DistinctOrders(t)
    requires forall i :: 0 <= i < |t| && i != k ==> 0 <= SortOrder(t, i) <= |t| - 2
    ensures |SortedTabsOf(t)| == |t|
    ensures SortedTabsOf(t)[|t| - 1] == (v, t[k].ref)
  {
    SortedWithOneOverflowBounds(t, k, v);
    var s := SortedTabsOf(t);
    var q :| 0 <= q < |t| && s[q] == Pairs(t)[k];
    assert s[q].0 <= s[|t| - 1].0;
  }

  /** ... and gives position p < n-1 to the entry with order p. */
  lemma {:induction false} SortedWithOneOverflow(t: StashTabs, k: nat, v: int)
    requires |t| >= 2 && k < |t| && SortOrder(t, k) == v >= |t| && DistinctOrders(t)
    requires forall i :: 0 <= i < |t| && i != k ==> 0 <= SortOrder(t, i) <= |t| - 2
    ensures |SortedTabsOf(t)| == |t|
    ensures forall p :: 0 <= p < |t| - 1 ==> SortedTabsOf(t)[p] in Pairs(t) && SortedTabsOf(t)[p].0 == p
  {
    SortedWithOneOverflowBounds(t, k, v);
    SortedWithOneOverflowLast(t, k, v);
    var n := |t|;
    var s := SortedTabsOf(t);
    forall p | 0 <= p < n - 1 ensures s[p].0 == p {
      AscendingGaps(s, 0, p);
      AscendingGaps(s, p, n - 2);
    }
  }

  /** Renumbering such a pass leaves every entry but k as it is and moves k to n-1. */
  lemma {:induction false} RenumberedWithOneOverflow(t: StashTabs, k: nat, v: int)
    requires TabsValid(t)
    requires |t| >= 2 && k < |t| && SortOrder(t, k) == v >= |t| && DistinctOrders(t)
    requires forall i :: 0 <= i < |t| && i != k ==> 0 <= SortOrder(t, i) <= |t| - 2
    ensures Renumbered(t, SortedTabsOf(t)) == t[k := t[k].(options := t[k].options.(sortOrder := |t| - 1))]
  {
    var s := SortedTabsOf(t);
    SortedWithOneOverflowLast(t, k, v);
    SortedWithOneOverflow(t, k, v);
    RenumberedPrefixKeeps(t, s, |t| - 1);
    IndexOfEntry(t, k);
    assert s[..|s| - 1] == s[..|t| - 1];
    assert s[|s| - 1].1 == t[k].ref;
  }

  /** StashTabInsert on an existing tab moved to another order: the pass, then renumbering on overflow. */
  lemma {:induction false} InsertedExisting(t: StashTabs, ref: PrototypeId, v: int,
                         isStash: PrototypeId -> bool, hasInventory: PrototypeId -> bool)
    requires TabsValid(t) && |t| >= 2
    requires ref != InvalidPrototype && isStash(ref) && hasInventory(ref) && v >= 0
    requires IndexOf(t, ref) >= 0 && SortOrder(t, IndexOf(t, ref)) != v
    ensures var shifted := ShiftedTabs(t, ref, SortOrder(t, IndexOf(t, ref)), v);
      InsertedStashTabs(t, ref, v, isStash, hasInventory)
        == (if AnyOverflow(shifted, |t|) then Renumbered(shifted, SortedTabsOf(shifted)) else shifted, true)
  {
    assert WithTab(t, ref) == t;
  }

  /**
   * The pass that moves tab k of a dense dictionary to v >= n: k holds v, the
   * others shift into 0 .. n-2, and all orders stay distinct.
   */
  lemma {:induction false} ShiftedPastEnd(t: StashTabs, ref: PrototypeId, v: int)
    requires TabsValid(t) && Dense(t) && IndexOf(t, ref) >= 0 && v >= |t|
    ensures var k := IndexOf(t, ref);
      var o := SortOrder(t, k);
      var shifted := ShiftedTabs(t, ref, o, v);
      SortOrder(shifted, k) == v && DistinctOrders(shifted)
      && forall i :: 0 <= i < |t| && i != k ==>
           SortOrder(shifted, i) == ShiftedOrder(SortOrder(t, i), o, v) && 0 <= SortOrder(shifted, i) <= |t| - 2
  {
    var n := |t|;
    var k := IndexOf(t, ref);
    var o := SortOrder(t, k);
    var shifted := ShiftedTabs(t, ref, o, v);
    forall i | 0 <= i < n && i != k
      ensures SortOrder(shifted, i) == ShiftedOrder(SortOrder(t, i), o, v) && SortOrder(t, i) != o
      ensures 0 <= SortOrder(shifted, i) <= n - 2
    {
      assert t[i].ref != ref;
    }
    assert SortOrder(shifted, k) == v;
    forall i, j | 0 <= i < j < n ensures SortOrder(shifted, i) != SortOrder(shifted, j) {
      if i != k && j != k {
        ShiftKeepsRanks(SortOrder(t, i), SortOrder(t, j), o, v);
      }
    }
  }

  /**
   * Moving an existing tab of a dense dictionary to an order at or past the
   * tab count overflows, and the renumbering puts it last (order n-1): the
   * orders stay dense and the other tabs keep their relative order.
   */
  lemma {:induction false} MovePastEnd(t: StashTabs, ref: PrototypeId, v: int,
                    isStash: PrototypeId -> bool, hasInventory: PrototypeId -> bool)
    requires TabsValid(t) && Dense(t) && |t| >= 2
    requires ref != InvalidPrototype && isStash(ref) && hasInventory(ref)
    requires IndexOf(t, ref) >= 0 && v >= |t|
    ensures var (t', ok) := InsertedStashTabs(t, ref, v, isStash, hasInventory);
      var k := IndexOf(t, ref);
      ok && |t'| == |t| && Refs(t') == Refs(t) && Dense(t')
      && SortOrder(t', k) == |t| - 1
      && forall i, j :: 0 <= i < |t| && 0 <= j < |t| && i != k && j != k ==>
           (SortOrder(t, i) < SortOrder(t, j) <==> SortOrder(t', i) < SortOrder(t', j))
  {
    InsertedMovedLast(t, ref, v, isStash, hasInventory);
    MovedLastShape(t, ref, v);
  }

  /** Moving past the end: the pass, then the renumbering that puts the moved tab last. */
  ghost function MovedLast(t: StashTabs, ref: PrototypeId, v: int): StashTabs
    requires IndexOf(t, ref) >= 0
  {
    var k := IndexOf(t, ref);
    var shifted := ShiftedTabs(t, ref, SortOrder(t, k), v);
    shifted[k := shifted[k].(options := shifted[k].options.(sortOrder := |t| - 1))]
  }

  lemma {:induction false} InsertedMovedLast(t: StashTabs, ref: PrototypeId, v: int,
                          isStash: PrototypeId -> bool, hasInventory: PrototypeId -> bool)
    requires TabsValid(t) && Dense(t) && |t| >= 2
    requires ref != InvalidPrototype && isStash(ref) && hasInventory(ref)
    requires IndexOf(t, ref) >= 0 && v >= |t|
    ensures InsertedStashTabs(t, ref, v, isStash, hasInventory) == (MovedLast(t, ref, v), true)
  {
    InsertedExisting(t, ref, v, isStash, hasInventory);
    RenumberedPastEnd(t, ref, v);
  }

  /** The pass moving a tab past the end overflows, and renumbering gives MovedLast. */
  lemma {:induction false} RenumberedPastEnd(t: StashTabs, ref: PrototypeId, v: int)
    requires TabsValid(t) && Dense(t) && |t| >= 2 && IndexOf(t, ref) >= 0 && v >= |t|
    ensures var shifted := ShiftedTabs(t, ref, SortOrder(t, IndexOf(t, ref)), v);
      AnyOverflow(shifted, |t|) && Renumbered(shifted, SortedTabsOf(shifted)) == MovedLast(t, ref, v)
  {
    var k := IndexOf(t, ref);
    var shifted := ShiftedTabs(t, ref, SortOrder(t, k), v);
    ShiftedPastEnd(t, ref, v);
    OverflowAt(shifted, k, |t|);
    SameRefsValid(t, shifted);
    RenumberedWithOneOverflow(shifted, k, v);
  }

  lemma {:induction false} MovedLastShape(t: StashTabs, ref: PrototypeId, v: int)
    requires TabsValid(t) && Dense(t) && IndexOf(t, ref) >= 0 && v >= |t|
    ensures var t' := MovedLast(t, ref, v);
      var k := IndexOf(t, ref);
      |t'| == |t| && Refs(t') == Refs(t) && Dense(t')
      && SortOrder(t', k) == |t| - 1
      && forall i, j :: 0 <= i < |t| && 0 <= j < |t| && i != k && j != k ==>
           (SortOrder(t, i) < SortOrder(t, j) <==> SortOrder(t', i) < SortOrder(t', j))
  {
    var n := |t|;
    var k := IndexOf(t, ref);
    var shifted := ShiftedTabs(t, ref, SortOrder(t, k), v);
    ShiftedPastEnd(t, ref, v);
    var t' := MovedLast(t, ref, v);
    assert Refs(t') == Refs(shifted) by {
      assert forall i :: 0 <= i < n ==> t'[i].ref == shifted[i].ref;
    }
    MovedLastKeepsRanks(t, t', k, v);
  }

  /** The orders after moving tab k past the end and renumbering are dense and keep the others' ranks. */
  lemma {:induction false} MovedLastKeepsRanks(t: StashTabs, t': StashTabs, k: nat, v: int)
    requires Dense(t) && |t'| == |t| && k < |t| && v >= |t|
    requires SortOrder(t', k) == |t| - 1
    requires forall i :: 0 <= i < |t| && i != k ==>
      SortOrder(t', i) == ShiftedOrder(SortOrder(t, i), SortOrder(t, k), v) && 0 <= SortOrder(t', i) <= |t| - 2
    ensures Dense(t')
    ensures forall i, j :: 0 <= i < |t| && 0 <= j < |t| && i != k && j != k ==>
      (SortOrder(t, i) < SortOrder(t, j) <==> SortOrder(t', i) < SortOrder(t', j))
  {
    var o := SortOrder(t, k);
    forall i, j | 0 <= i < |t| && 0 <= j < |t| && i != k && j != k
      ensures SortOrder(t, i) < SortOrder(t, j) <==> SortOrder(t', i) < SortOrder(t', j)
    {
      if i != j {
        ShiftKeepsRanks(SortOrder(t, i), SortOrder(t, j), o, v);
      }
    }
    forall i, j | 0 <= i < j < |t| ensures SortOrder(t', i) != SortOrder(t', j) {
      if i != k && j != k {
        ShiftKeepsRanks(SortOrder(t, i), SortOrder(t, j), o, v);
      }
    }
  }

  // ------------------------------------------------------------------
  // Level helpers
  // ------------------------------------------------------------------

  /**
   * GetCharacterLevelForAvatar: 0 without a positive cap or level; otherwise
   * the level wrapped into 1 .. levelCap.
   */
  function CharacterLevelForAvatar(level: int, levelCap: int): (r: int)
    ensures levelCap <= 0 || level <= 0 ==> r == 0
    ensures levelCap > 0 && level > 0 ==> 1 <= r <= levelCap && r % levelCap == level % levelCap
    ensures levelCap > 0 && 0 < level <= levelCap ==> r == level
  {
    if levelCap <= 0 then 0
    else if level <= 0 then 0
    else
      var wrapped := level % levelCap;
      if wrapped == 0 then levelCap else wrapped
  }

  class Player {
    /** DatabaseUniqueId */
    const databaseUniqueId: nat
    var stashTabs: StashTabs
    var badges: set<AvailableBadges>
    var consoleAccountIds: array<nat>
    var tagEntities: set<nat>
    /** Properties[AvatarLibraryLevel, mode, avatarRef]; absent entries read as 0. */
    var avatarLibraryLevel: map<(int, PrototypeId), int>
    /** Properties[PlayerMaxAvatarLevel] */
    var playerMaxAvatarLevel: int

    ghost predicate Valid()
      reads this
    {
      TabsValid(stashTabs) && consoleAccountIds.Length == AvatarIndexCount
    }

    constructor (databaseUniqueId: nat)
      ensures this.databaseUniqueId == databaseUniqueId
      ensures Valid() && fresh(consoleAccountIds)
      ensures stashTabs == [] && badges == {} && tagEntities == {}
      ensures consoleAccountIds[..] == [0, 0]
      ensures avatarLibraryLevel == map[] && playerMaxAvatarLevel == 0
    {
      this.databaseUniqueId := databaseUniqueId;
      stashTabs := [];
      badges := {};
      consoleAccountIds := new nat[AvatarIndexCount](_ => 0);
      tagEntities := {};
      avatarLibraryLevel := map[];
      playerMaxAvatarLevel := 0;
    }

    /** The id for a valid avatar index, 0 for any other index. */
    function GetConsoleAccountId(avatarIndex: int): (id: nat)
      requires Valid()
      reads this, consoleAccountIds
      ensures !(0 <= avatarIndex < AvatarIndexCount) ==> id == 0
      ensures 0 <= avatarIndex < AvatarIndexCount ==> id == consoleAccountIds[avatarIndex]
    {
      if !(0 <= avatarIndex < AvatarIndexCount) then 0 else consoleAccountIds[avatarIndex]
    }

    method AddBadge(badge: AvailableBadges) returns (added: bool)
      requires Valid()
      modifies this
      ensures Valid()
      ensures badges == old(badges) + {badge} && added == (badge !in old(badges))
      ensures stashTabs == old(stashTabs) && consoleAccountIds == old(consoleAccountIds) && tagEntities == old(tagEntities)
      ensures avatarLibraryLevel == old(avatarLibraryLevel) && playerMaxAvatarLevel == old(playerMaxAvatarLevel)
    {
      added := badge !in badges;
      badges := badges + {badge};
    }

    method RemoveBadge(badge: AvailableBadges) returns (removed: bool)
      requires Valid()
      modifies this
      ensures Valid()
      ensures badges == old(badges) - {badge} && removed == (badge in old(badges))
      ensures stashTabs == old(stashTabs) && consoleAccountIds == old(consoleAccountIds) && tagEntities == old(tagEntities)
      ensures avatarLibraryLevel == old(avatarLibraryLevel) && playerMaxAvatarLevel == old(playerMaxAvatarLevel)
    {
      removed := badge in badges;
      badges := badges - {badge};
    }

    function HasBadge(badge: AvailableBadges): (r: bool)
      reads this
      ensures r <==> badge in badges
    {
      badge in badges
    }

    method AddTag(entityId: nat)
      requires Valid()
      modifies this
      ensures Valid()
      ensures tagEntities == old(tagEntities) + {entityId}
      ensures stashTabs == old(stashTabs) && badges == old(badges) && consoleAccountIds == old(consoleAccountIds)
      ensures avatarLibraryLevel == old(avatarLibraryLevel) && playerMaxAvatarLevel == old(playerMaxAvatarLevel)
    {
      tagEntities := tagEntities + {entityId};
    }

    method RemoveTag(entityId: nat)
      requires Valid()
      modifies this
      ensures Valid()
      ensures tagEntities == old(tagEntities) - {entityId}
      ensures stashTabs == old(stashTabs) && badges == old(badges) && consoleAccountIds == old(consoleAccountIds)
      ensures avatarLibraryLevel == old(avatarLibraryLevel) && playerMaxAvatarLevel == old(playerMaxAvatarLevel)
    {
      tagEntities := tagEntities - {entityId};
    }

    function AvatarLibraryLevel(mode: int, avatarRef: PrototypeId): int
      reads this
    {
      if (mode, avatarRef) in avatarLibraryLevel then avatarLibraryLevel[(mode, avatarRef)] else 0
    }

    /** The stored level for the mode, wrapped into the level cap the caller supplies. */
    function GetCharacterLevelForAvatar(avatarRef: PrototypeId, mode: int, levelCap: int): (r: int)
      reads this
      ensures levelCap <= 0 || AvatarLibraryLevel(mode, avatarRef) <= 0 ==> r == 0
      ensures levelCap > 0 && AvatarLibraryLevel(mode, avatarRef) > 0 ==> 1 <= r <= levelCap
      ensures 0 < AvatarLibraryLevel(mode, avatarRef) <= levelCap ==> r == AvatarLibraryLevel(mode, avatarRef)
    {
      CharacterLevelForAvatar(AvatarLibraryLevel(mode, avatarRef), levelCap)
    }

    /** Record the avatar's level (mode 0) and raise the player's maximum if it is exceeded. */
    method OnAvatarCharacterLevelChanged(avatarRef: PrototypeId, characterLevel: int)
      requires Valid()
      modifies this
      ensures Valid()
      ensures avatarLibraryLevel == old(avatarLibraryLevel)[(0, avatarRef) := characterLevel]
      ensures playerMaxAvatarLevel == if characterLevel > old(playerMaxAvatarLevel) then characterLevel else old(playerMaxAvatarLevel)
      ensures playerMaxAvatarLevel >= old(playerMaxAvatarLevel) && playerMaxAvatarLevel >= characterLevel
      ensures stashTabs == old(stashTabs) && badges == old(badges)
      ensures consoleAccountIds == old(consoleAccountIds) && tagEntities == old(tagEntities)
    {
      avatarLibraryLevel := avatarLibraryLevel[(0, avatarRef) := characterLevel];
      if characterLevel > playerMaxAvatarLevel {
        playerMaxAvatarLevel := characterLevel;
      }
    }

    method UpdateStashTabOptions(msg: StashTabOptionsMessage,
                                 isStash: PrototypeId -> bool, hasInventory: PrototypeId -> bool)
      returns (ok: bool)
      requires Valid()
      modifies this
      ensures Valid()
      ensures (stashTabs, ok) == UpdatedStashTabs(old(stashTabs), msg, isStash, hasInventory)
      ensures badges == old(badges) && consoleAccountIds == old(consoleAccountIds) && tagEntities == old(tagEntities)
      ensures avatarLibraryLevel == old(avatarLibraryLevel) && playerMaxAvatarLevel == old(playerMaxAvatarLevel)
    {
      UpdateStashTabOptionsEntries(stashTabs, msg, isStash, hasInventory);
      WithTabValid(stashTabs, msg.inventoryRefId);
      var inventoryRef := msg.inventoryRefId;
      if !isStash(inventoryRef) {
        return false;
      }
      if !hasInventory(inventoryRef) {
        return false;
      }
      ghost var t0 := stashTabs;
      var index := IndexOf(stashTabs, inventoryRef);
      if index < 0 {
        stashTabs := stashTabs + [StashTab(inventoryRef, DefaultStashTabOptions)];
        index := |stashTabs| - 1;
      }
      assert stashTabs == WithTab(t0, inventoryRef) && index == IndexOf(stashTabs, inventoryRef);
      var options := stashTabs[index].options;
      ghost var before := options;
      if msg.displayName.Some? {
        var displayName := msg.displayName.value;
        if |displayName| > MaxDisplayNameLength {
          displayName := displayName[..MaxDisplayNameLength];
        }
        options := options.(displayName := displayName);
      }
      if msg.iconPathAssetId.Some? {
        options := options.(iconPathAssetId := msg.iconPathAssetId.value);
      }
      if msg.color.Some? {
        options := options.(color := msg.color.value);
      }
      assert options == ApplyMessage(before, msg);
      stashTabs := stashTabs[index := stashTabs[index].(options := options)];
      return true;
    }

    /** Insert the stash tab at newSortOrder, shifting the other tabs to make room. */
    method StashTabInsert(insertedStashRef: PrototypeId, newSortOrder: int,
                          isStash: PrototypeId -> bool, hasInventory: PrototypeId -> bool)
      returns (ok: bool)
      requires Valid()
      modifies this
      ensures Valid()
      ensures (stashTabs, ok) == InsertedStashTabs(old(stashTabs), insertedStashRef, newSortOrder, isStash, hasInventory)
      ensures badges == old(badges) && consoleAccountIds == old(consoleAccountIds) && tagEntities == old(tagEntities)
      ensures avatarLibraryLevel == old(avatarLibraryLevel) && playerMaxAvatarLevel == old(playerMaxAvatarLevel)
    {
      if newSortOrder < 0 || insertedStashRef == InvalidPrototype
         || !isStash(insertedStashRef) || !hasInventory(insertedStashRef) {
        return false;
      }
      WithTabValid(stashTabs, insertedStashRef);
      var index := IndexOf(stashTabs, insertedStashRef);
      if index >= 0 {
        if stashTabs[index].options.sortOrder == newSortOrder {
          return false;
        }
      } else {
        stashTabs := stashTabs + [StashTab(insertedStashRef, DefaultStashTabOptions)];
        index := |stashTabs| - 1;
      }
      assert stashTabs == WithTab(old(stashTabs), insertedStashRef) && index == IndexOf(stashTabs, insertedStashRef);
      if |stashTabs| > 1 {
        MoveTab(insertedStashRef, index, newSortOrder);
      }
      return true;
    }

    /** Give the tab at index its new order, run the pass and renumber the tabs on an overflow. */
    method MoveTab(insertedStashRef: PrototypeId, index: nat, newSortOrder: int)
      requires Valid() && index < |stashTabs| && index == IndexOf(stashTabs, insertedStashRef)
      modifies this
      ensures Valid()
      ensures stashTabs == Reordered(old(stashTabs), insertedStashRef, newSortOrder)
      ensures badges == old(badges) && consoleAccountIds == old(consoleAccountIds) && tagEntities == old(tagEntities)
      ensures avatarLibraryLevel == old(avatarLibraryLevel) && playerMaxAvatarLevel == old(playerMaxAvatarLevel)
    {
      ghost var t1 := stashTabs;
      var oldSortOrder := stashTabs[index].options.sortOrder;
      stashTabs := stashTabs[index := stashTabs[index].(options := stashTabs[index].options.(sortOrder := newSortOrder))];
      ShiftedIgnoresInsertedOrder(t1, index, insertedStashRef, oldSortOrder, newSortOrder, newSortOrder);
      var sortedTabs, orderOverflow := SortOrderPass(insertedStashRef, oldSortOrder, newSortOrder);
      SameRefsValid(t1, stashTabs);
      if orderOverflow {
        RenumberTabs(sortedTabs);
      }
    }

    /**
     * The pass over the dictionary: shift every other tab's order, collect the
     * tabs by order and note whether an order reached the tab count. The
     * inserted tab already holds its new order.
     */
    method SortOrderPass(insertedStashRef: PrototypeId, oldSortOrder: int, newSortOrder: int)
      returns (sortedTabs: SortedTabs, orderOverflow: bool)
      requires forall j :: 0 <= j < |stashTabs| && stashTabs[j].ref == insertedStashRef ==> SortOrder(stashTabs, j) == newSortOrder
      modifies this
      ensures stashTabs == ShiftedTabs(old(stashTabs), insertedStashRef, oldSortOrder, newSortOrder)
      ensures sortedTabs == SortedTabsOf(stashTabs)
      ensures orderOverflow == AnyOverflow(stashTabs, |stashTabs|)
      ensures badges == old(badges) && consoleAccountIds == old(consoleAccountIds) && tagEntities == old(tagEntities)
      ensures avatarLibraryLevel == old(avatarLibraryLevel) && playerMaxAvatarLevel == old(playerMaxAvatarLevel)
    {
      ghost var shifted := ShiftedTabs(stashTabs, insertedStashRef, oldSortOrder, newSortOrder);
      var sortIncrement, sortStart, sortFinish;
      if oldSortOrder < newSortOrder {
        sortIncrement, sortStart, sortFinish := -1, oldSortOrder, newSortOrder;
      } else {
        sortIncrement, sortStart, sortFinish := 1, newSortOrder, oldSortOrder;
      }
      sortedTabs := [];
      orderOverflow := false;
      ghost var t0 := stashTabs;
      var tabs := stashTabs;
      var i := 0;
      while i < |tabs|
        modifies {}
        invariant 0 <= i <= |tabs| == |shifted| == |t0|
        invariant forall j :: 0 <= j < i ==> tabs[j] == shifted[j]
        invariant forall j :: i <= j < |tabs| ==> tabs[j] == t0[j]
        invariant sortedTabs == SortedTabsOf(shifted[..i])
        invariant orderOverflow == AnyOverflow(shifted[..i], |shifted|)
      {
        PassStep(shifted, i, |shifted|);
        assert shifted[i] == ShiftedTab(t0[i], insertedStashRef, oldSortOrder, newSortOrder);
        var sortRef := tabs[i].ref;
        var sortOptions := tabs[i].options;
        if sortRef == insertedStashRef {
          assert SortOrder(t0, i) == newSortOrder;
        } else {
          var isNew := oldSortOrder == newSortOrder && sortOptions.sortOrder >= newSortOrder;
          var isWithinSortRange := sortOptions.sortOrder >= sortStart && sortOptions.sortOrder <= sortFinish;
          if isNew || isWithinSortRange {
            sortOptions := sortOptions.(sortOrder := sortOptions.sortOrder + sortIncrement);
          }
        }
        assert StashTab(sortRef, sortOptions) == shifted[i];
        // The options are shared with the dictionary: storing them back is the in-place update.
        tabs := tabs[i := StashTab(sortRef, sortOptions)];
        sortedTabs := SortedPut(sortedTabs, sortOptions.sortOrder, sortRef);
        if sortOptions.sortOrder >= |tabs| {
          orderOverflow := true;
        }
        i := i + 1;
      }
      assert tabs == shifted;
      assert shifted[..i] == shifted;
      stashTabs := tabs;
    }

    /** The overflow fallback: give the tabs orders 0, 1, 2, ... in sorted-list order. */
    method RenumberTabs(sortedTabs: SortedTabs)
      modifies this
      ensures stashTabs == Renumbered(old(stashTabs), sortedTabs)
      ensures badges == old(badges) && consoleAccountIds == old(consoleAccountIds) && tagEntities == old(tagEntities)
      ensures avatarLibraryLevel == old(avatarLibraryLevel) && playerMaxAvatarLevel == old(playerMaxAvatarLevel)
    {
      var tabs := stashTabs;
      var fixedOrder := 0;
      while fixedOrder < |sortedTabs|
        modifies {}
        invariant 0 <= fixedOrder <= |sortedTabs|
        invariant tabs == Renumbered(old(stashTabs), sortedTabs[..fixedOrder])
      {
        assert sortedTabs[..fixedOrder + 1][..fixedOrder] == sortedTabs[..fixedOrder];
        var index := IndexOf(tabs, sortedTabs[fixedOrder].1);
        if index >= 0 {
          tabs := tabs[index := tabs[index].(options := tabs[index].options.(sortOrder := fixedOrder))];
        }
        fixedOrder := fixedOrder + 1;
      }
      assert sortedTabs[..fixedOrder] == sortedTabs;
      stashTabs := tabs;
    }
  }
}
