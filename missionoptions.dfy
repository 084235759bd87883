/**
 * Mission interaction options (MHServerEmu.Games.Dialog): the state-flag
 * activation rule of BaseMissionOption, the completed-mission references of
 * MissionConditionMissionCompleteOption, and the entity-interest query of
 * the completion and region options.
 */
module Dialog {
  import opened Common

  /** The members of the mission and objective state enumerations. */
  datatype MissionState = Invalid | Inactive | Available | Active | Completed | Failed
  datatype MissionObjectiveState = ObjectiveInvalid | ObjectiveAvailable | ObjectiveActive
                                 | ObjectiveCompleted | ObjectiveFailed | ObjectiveSkipped

  /**
   * A [Flags] enumeration value as the set of its members: `1 << state` is
   * the singleton, HasFlag is membership and `|` is union.
   */
  type MissionStateFlags = set<MissionState>
  type MissionObjectiveStateFlags = set<MissionObjectiveState>

  datatype TrackingFlag = MissionCondition | TransitionRegion | HUD | Hotspot
                        | Appearance | MissionDialog | MissionAction
  /** EntityTrackingFlag; None is the empty set. */
  type TrackingFlags = set<TrackingFlag>

  /**
   * The option classes whose InterestedInEntity is not modelled one by one:
   * MissionHintOption, BaseMissionConditionOption, MissionConditionHotspotOption,
   * MissionConditionEntityInteractOption, MissionVisibilityOption,
   * MissionDialogOption, MissionConnectionTargetEnableOption,
   * MissionAppearanceOption and MissionActionEntityTargetOption.
   */
  datatype OtherClass =
    | HintOption | ConditionOption | HotspotOption | EntityInteractOption
    | VisibilityOption | DialogOption | ConnectionTargetOption | AppearanceOption | ActionTargetOption

  /**
   * The option classes the interest query tells apart. An Other option's
   * InterestedInEntity result for the entity being asked about is its
   * `verdict` (the entity filters it evaluates are not part of this model).
   */
  datatype OptionKind =
    | MissionCompleteOption
    | RegionOption
    | OtherOption(cls: OtherClass, verdict: TrackingFlags)

  /** A MissionConditionMissionCompletePrototype: MissionPrototype and MissionKeyword. */
  datatype MissionCompletePrototype = MissionCompletePrototype(missionPrototype: PrototypeId, missionKeyword: PrototypeId)

  /** A mission of the prototype hierarchy: its ref and its Keywords array (None for null). */
  datatype HierarchyMission = HierarchyMission(ref: PrototypeId, keywords: Option<seq<PrototypeId>>)

  ghost predicate Ascending(s: seq<PrototypeId>) {
    forall i, j :: 0 <= i < j < |s| ==> s[i] < s[j]
  }

  /** SortedSet<PrototypeId>.Add, on the ascending enumeration of the set. */
  function AddSorted(s: seq<PrototypeId>, x: PrototypeId): seq<PrototypeId>
    decreases |s|
  {
    if s == [] then [x]
    else if x == s[0] then s
    else if x < s[0] then [x] + s
    else [s[0]] + AddSorted(s[1..], x)
  }

  /** Adding puts exactly x into the enumeration. */
  lemma {:induction false} AddSortedMembers(s: seq<PrototypeId>, x: PrototypeId)
    ensures forall y :: y in AddSorted(s, x) <==> y in s || y == x
    decreases |s|
  {
    if s != [] && x > s[0] {
      AddSortedMembers(s[1..], x);
      assert s == [s[0]] + s[1..];
    }
  }

  /** Adding keeps the enumeration ascending. */
  lemma {:induction false} AddSortedAscending(s: seq<PrototypeId>, x: PrototypeId)
    requires Ascending(s)
    ensures Ascending(AddSorted(s, x))
    decreases |s|
  {
    if s != [] && x > s[0] {
      var rest := s[1..];
      assert forall i :: 0 <= i < |rest| ==> rest[i] == s[i + 1];
      AddSortedAscending(rest, x);
      AddSortedMembers(rest, x);
      var r' := AddSorted(rest, x);
      forall j | 0 <= j < |r'| ensures s[0] < r'[j] {
        if r'[j] != x {
          assert r'[j] in rest;
          var i :| 0 <= i < |rest| && rest[i] == r'[j];
          assert s[0] < s[i + 1];
        }
      }
      ConsAscending(s[0], r');
      assert AddSorted(s, x) == [s[0]] + r';
    } else if s != [] && x < s[0] {
      ConsAscending(x, s);
      assert AddSorted(s, x) == [x] + s;
    }
  }

  lemma {:induction false} ConsAscending(a: PrototypeId, s: seq<PrototypeId>)
    requires Ascending(s) && forall j :: 0 <= j < |s| ==> a < s[j]
    ensures Ascending([a] + s)
  {
    var r := [a] + s;
    forall i, j | 0 <= i < j < |r| ensures r[i] < r[j] {
      assert r[j] == s[j - 1];
      if i > 0 {
        assert r[i] == s[i - 1];
      }
    }
  }

  // ------------------------------------------------------------------
  // The entity-interest query
  // ------------------------------------------------------------------

  datatype Destination = Destination(regionRef: PrototypeId, targetRef: PrototypeId)

  /** The entity asked about: whether it is a Transition, and its destinations. */
  datatype WorldEntity = WorldEntity(isTransition: bool, destinations: seq<Destination>)

  /** What the query reads of an option: MissionProto.DataRef, its tracking flags and its class data. */
  datatype OptionView = OptionView(
    missionRef: PrototypeId,
    entityTrackingFlags: TrackingFlags,
    kind: OptionKind,
    completeMissionRefs: seq<PrototypeId>,
    interestRegions: set<PrototypeId>)

  type OptionId = nat

  /**
   * The options (by position) and InteractionManager.GetMissionData: for a
   * mission ref with data, the ids of its options; a ref that is not a key
   * has no mission data.
   */
  datatype Catalog = Catalog(options: seq<OptionView>, missionData: map<PrototypeId, seq<OptionId>>)

  /**
   * Mission data names options of the catalog, and a region option carries
   * the flags its constructor gives it.
   */
  ghost predicate CatalogValid(c: Catalog) {
    (forall r, k :: r in c.missionData && 0 <= k < |c.missionData[r]| ==> c.missionData[r][k] < |c.options|)
    && (forall i :: 0 <= i < |c.options| && c.options[i].kind.RegionOption? ==> c.options[i].entityTrackingFlags != {})
  }

  /** checkList and the EntityTrackingContextMap, as the sequence of its Insert calls. */
  datatype QueryState = QueryState(checkList: set<OptionId>, inserts: seq<(PrototypeId, TrackingFlags)>)

  function CompletionIds(c: Catalog): set<OptionId> {
    set i | 0 <= i < |c.options| && c.options[i].kind.MissionCompleteOption?
  }

  /** How many completion options have not been checked yet: the query's termination measure. */
  function Unchecked(c: Catalog, checkList: set<OptionId>): nat {
    |CompletionIds(c) - checkList|
  }

  lemma {:induction false} UncheckedShrinks(c: Catalog, before: set<OptionId>, after: set<OptionId>)
    ensures before <= after ==> Unchecked(c, after) <= Unchecked(c, before)
    ensures forall id :: id in CompletionIds(c) && id !in before && before + {id} <= after ==>
              Unchecked(c, after) < Unchecked(c, before)
  {
    if before <= after {
      SubsetCardinality(CompletionIds(c) - after, CompletionIds(c) - before);
    }
    forall id | id in CompletionIds(c) && id !in before && before + {id} <= after
      ensures Unchecked(c, after) < Unchecked(c, before)
    {
      SubsetCardinality(CompletionIds(c) - after, CompletionIds(c) - before - {id});
    }
  }

  lemma {:induction false} SubsetCardinality(a: set<OptionId>, b: set<OptionId>)
    requires a <= b
    ensures |a| <= |b|
    decreases |b|
  {
    if a != {} {
      var x :| x in a;
      SubsetCardinality(a - {x}, b - {x});
    }
  }

  /** The region option's test: a Transition with a valid destination region of interest. */
  predicate RegionMatches(o: OptionView, e: WorldEntity) {
    e.isTransition && |o.interestRegions| > 0
    && exists j :: 0 <= j < |e.destinations| && e.destinations[j].regionRef != InvalidPrototype
                   && e.destinations[j].regionRef in o.interestRegions
  }

  /** Every flag an option could contribute. */
  function OptionFlags(o: OptionView): TrackingFlags {
    match o.kind
    case MissionCompleteOption => {}
    case RegionOption => o.entityTrackingFlags
    case OtherOption(_, verdict) => verdict
  }

  /** The union of the flags the options could contribute. */
  function AllFlagsOf(options: seq<OptionView>): TrackingFlags
    decreases |options|
  {
    if options == [] then {} else OptionFlags(options[0]) + AllFlagsOf(options[1..])
  }

  lemma {:induction false} OptionFlagsIn(options: seq<OptionView>, i: nat)
    requires i < |options|
    ensures OptionFlags(options[i]) <= AllFlagsOf(options)
    decreases i
  {
    if i > 0 {
      OptionFlagsIn(options[1..], i - 1);
    }
  }

  /** Every Insert after the first `n` has a non-None flag. */
  ghost predicate InsertsNonEmptyFrom(inserts: seq<(PrototypeId, TrackingFlags)>, n: nat) {
    forall k :: n <= k < |inserts| ==> inserts[k].1 != {}
  }

  /** What a call of the query may do to the state: grow the check list by completion options, append Inserts. */
  ghost predicate Grows(c: Catalog, st: QueryState, st': QueryState) {
    st.checkList <= st'.checkList && st'.checkList - st.checkList <= CompletionIds(c)
    && |st.inserts| <= |st'.inserts| && st'.inserts[..|st.inserts|] == st.inserts
    && InsertsNonEmptyFrom(st'.inserts, |st.inserts|)
  }

  /** Grows is transitive. */
  lemma {:induction false} GrowsTrans(c: Catalog, a: QueryState, b: QueryState, d: QueryState)
    requires Grows(c, a, b) && Grows(c, b, d)
    ensures Grows(c, a, d)
  {
    assert d.inserts[..|a.inserts|] == d.inserts[..|b.inserts|][..|a.inserts|];
  }

  /** map.Insert(key, flag), done only when flag is not None. */
  function Record(st: QueryState, key: PrototypeId, flag: TrackingFlags): (r: QueryState)
    ensures r.checkList == st.checkList
  {
    if flag != {} then st.(inserts := st.inserts + [(key, flag)]) else st
  }

  lemma {:induction false} RecordGrows(c: Catalog, st: QueryState, key: PrototypeId, flag: TrackingFlags)
    ensures Grows(c, st, Record(st, key, flag))
  {
    if flag != {} {
      assert Record(st, key, flag).inserts[..|st.inserts|] == st.inserts;
    }
  }

  /** InterestedInEntity of option `id`, dispatched on the option's class. */
  function Interest(c: Catalog, id: OptionId, e: WorldEntity, st: QueryState): (r: (TrackingFlags, QueryState))
    requires CatalogValid(c) && id < |c.options|
    ensures Grows(c, st, r.1)
    ensures r.0 <= AllFlagsOf(c.options)
    decreases Unchecked(c, st.checkList), 1, 0
  {
    var o := c.options[id];
    match o.kind
    case MissionCompleteOption =>
      CompletionInterest(c, id, e, st)
    case RegionOption =>
      OptionFlagsIn(c.options, id);
      if RegionMatches(o, e) then
        RecordGrows(c, st, o.missionRef, o.entityTrackingFlags);
        (o.entityTrackingFlags, st.(inserts := st.inserts + [(o.missionRef, o.entityTrackingFlags)]))
      else ({}, st)
    case OtherOption(_, verdict) =>
      OptionFlagsIn(c.options, id);
      RecordGrows(c, st, o.missionRef, verdict);
      (verdict, Record(st, o.missionRef, verdict))
  }

  /**
   * MissionConditionMissionCompleteOption.InterestedInEntity: None at once
   * when the option is already in the check list; otherwise it adds itself,
   * ORs the answers of the options of every completed mission it names, and
   * records the result in the map when it is not None.
   */
  function CompletionInterest(c: Catalog, id: OptionId, e: WorldEntity, st: QueryState): (r: (TrackingFlags, QueryState))
    requires CatalogValid(c) && id < |c.options| && c.options[id].kind.MissionCompleteOption?
    ensures Grows(c, st, r.1)
    ensures r.0 <= AllFlagsOf(c.options)
    decreases Unchecked(c, st.checkList), 0, 0
  {
    if id in st.checkList then ({}, st)
    else
      var o := c.options[id];
      var st1 := st.(checkList := st.checkList + {id});
      assert id in CompletionIds(c);
      UncheckedShrinks(c, st.checkList, st1.checkList);
      var (flag, st2) := InterestRefs(c, o.completeMissionRefs, e, st1, {});
      RecordGrows(c, st2, o.missionRef, flag);
      GrowsTrans(c, st1, st2, Record(st2, o.missionRef, flag));
      (flag, Record(st2, o.missionRef, flag))
  }

  /** The loop over the completed-mission refs; a ref without mission data adds nothing. */
  function InterestRefs(c: Catalog, refs: seq<PrototypeId>, e: WorldEntity, st: QueryState, acc: TrackingFlags)
    : (r: (TrackingFlags, QueryState))
    requires CatalogValid(c)
    ensures Grows(c, st, r.1)
    ensures acc <= r.0 <= acc + AllFlagsOf(c.options)
    decreases Unchecked(c, st.checkList), 2, |refs|
  {
    if refs == [] then (acc, st)
    else
      var ids := if refs[0] in c.missionData then c.missionData[refs[0]] else [];
      var (flag, st1) := InterestAll(c, ids, e, st, acc);
      UncheckedShrinks(c, st.checkList, st1.checkList);
      var r' := InterestRefs(c, refs[1..], e, st1, flag);
      GrowsTrans(c, st, st1, r'.1);
      r'
  }

  /** The loop over one mission's options, ORing their answers into acc. */
  function InterestAll(c: Catalog, ids: seq<OptionId>, e: WorldEntity, st: QueryState, acc: TrackingFlags)
    : (r: (TrackingFlags, QueryState))
    requires CatalogValid(c) && forall k :: 0 <= k < |ids| ==> ids[k] < |c.options|
    ensures Grows(c, st, r.1)
    ensures acc <= r.0 <= acc + AllFlagsOf(c.options)
    decreases Unchecked(c, st.checkList), 1, |ids|
  {
    if ids == [] then (acc, st)
    else
      var (flag, st1) := Interest(c, ids[0], e, st);
      UncheckedShrinks(c, st.checkList, st1.checkList);
      var r' := InterestAll(c, ids[1..], e, st1, acc + flag);
      GrowsTrans(c, st, st1, r'.1);
      r'
  }

  /** The cycle guard: a completion option already checked answers None and changes nothing. */
  lemma {:induction false} CheckedCompletionAnswersNone(c: Catalog, id: OptionId, e: WorldEntity, st: QueryState)
    requires CatalogValid(c) && id < |c.options| && c.options[id].kind.MissionCompleteOption?
    requires id in st.checkList
    ensures Interest(c, id, e, st) == ({}, st)
  {}

  /**
   * An unchecked completion option is in the check list afterwards, and the
   * map's last Insert is its own result exactly when that result is not None.
   */
  lemma {:induction false} UncheckedCompletionRecords(c: Catalog, id: OptionId, e: WorldEntity, st: QueryState)
    requires CatalogValid(c) && id < |c.options| && c.options[id].kind.MissionCompleteOption?
    requires id !in st.checkList
    ensures var (flag, st') := Interest(c, id, e, st);
      id in st'.checkList
      && flag == InterestRefs(c, c.options[id].completeMissionRefs, e, st.(checkList := st.checkList + {id}), {}).0
      && (flag != {} <==> |st'.inserts| > 0 && st'.inserts[|st'.inserts| - 1] == (c.options[id].missionRef, flag)
                           && |st'.inserts| > |InterestRefs(c, c.options[id].completeMissionRefs, e,
                                                          st.(checkList := st.checkList + {id}), {}).1.inserts|)
  {
    var st1 := st.(checkList := st.checkList + {id});
    var (flag, st2) := InterestRefs(c, c.options[id].completeMissionRefs, e, st1, {});
    assert Grows(c, st1, st2);
  }

  /** The region option answers its own tracking flags exactly when it matches, and None otherwise. */
  lemma {:induction false} RegionAnswer(c: Catalog, id: OptionId, e: WorldEntity, st: QueryState)
    requires CatalogValid(c) && id < |c.options| && c.options[id].kind.RegionOption?
    ensures RegionMatches(c.options[id], e) ==> Interest(c, id, e, st).0 == c.options[id].entityTrackingFlags
    ensures !RegionMatches(c.options[id], e) ==> Interest(c, id, e, st) == ({}, st)
    ensures Interest(c, id, e, st).1.checkList == st.checkList
  {}

  // ------------------------------------------------------------------
  // The query's state, as objects
  // ------------------------------------------------------------------

  /** The HashSet<InteractionOption> of options already asked, by id. */
  class CheckList {
    var items: set<OptionId>

    constructor ()
      ensures items == {}
    {
      items := {};
    }
  }

  /** EntityTrackingContextMap, as the sequence of its Insert calls. */
  class TrackingContextMap {
    var inserts: seq<(PrototypeId, TrackingFlags)>

    constructor ()
      ensures inserts == []
    {
      inserts := [];
    }

    method Insert(key: PrototypeId, flag: TrackingFlags)
      modifies this
      ensures inserts == old(inserts) + [(key, flag)]
    {
      inserts := inserts + [(key, flag)];
    }
  }

  /** MissionConditionRegionOption.InterestedInEntity: the destination search with early return. */
  method RegionInterestedInEntity(o: OptionView, e: WorldEntity, contextMap: TrackingContextMap) returns (flag: TrackingFlags)
    modifies contextMap
    ensures flag == (if RegionMatches(o, e) then o.entityTrackingFlags else {})
    ensures contextMap.inserts == (if RegionMatches(o, e) then old(contextMap.inserts) + [(o.missionRef, flag)] else old(contextMap.inserts))
  {
    if e.isTransition && |o.interestRegions| > 0 {
      var j := 0;
      while j < |e.destinations|
        invariant 0 <= j <= |e.destinations|
        invariant forall p :: 0 <= p < j ==>
                    e.destinations[p].regionRef == InvalidPrototype || e.destinations[p].regionRef !in o.interestRegions
        invariant contextMap.inserts == old(contextMap.inserts)
      {
        var destination := e.destinations[j];
        if destination.regionRef != InvalidPrototype && destination.regionRef in o.interestRegions {
          contextMap.Insert(o.missionRef, o.entityTrackingFlags);
          return o.entityTrackingFlags;
        }
        j := j + 1;
      }
    }
    return {};
  }

  /**
   * InterestedInEntity with its own dispatch on the option class, proved to
   * change the check list and the map as Interest says. The region option's
   * answer is inserted when non-empty; so are the Other options' verdicts.
   */
  method InterestedInEntity(c: Catalog, id: OptionId, e: WorldEntity, contextMap: TrackingContextMap, checkList: CheckList)
    returns (flag: TrackingFlags)
    requires CatalogValid(c) && id < |c.options|
    modifies contextMap, checkList
    ensures (flag, QueryState(checkList.items, contextMap.inserts)) ==
            Interest(c, id, e, QueryState(old(checkList.items), old(contextMap.inserts)))
    decreases Unchecked(c, checkList.items), 1
  {
    var o := c.options[id];
    match o.kind {
      case MissionCompleteOption =>
        flag := CompletionInterestedInEntity(c, id, e, contextMap, checkList);
      case RegionOption =>
        flag := RegionInterestedInEntity(o, e, contextMap);
      case OtherOption(_, verdict) =>
        flag := verdict;
        if flag != {} {
          contextMap.Insert(o.missionRef, flag);
        }
    }
  }

  /** MissionConditionMissionCompleteOption.InterestedInEntity: the two nested loops that OR the answers. */
  method CompletionInterestedInEntity(c: Catalog, id: OptionId, e: WorldEntity, contextMap: TrackingContextMap,
                                      checkList: CheckList)
    returns (flag: TrackingFlags)
    requires CatalogValid(c) && id < |c.options| && c.options[id].kind.MissionCompleteOption?
    modifies contextMap, checkList
    ensures (flag, QueryState(checkList.items, contextMap.inserts)) ==
            CompletionInterest(c, id, e, QueryState(old(checkList.items), old(contextMap.inserts)))
    decreases Unchecked(c, checkList.items), 0
  {
    var o := c.options[id];
    flag := {};
    if id in checkList.items {
      return;
    }
    ghost var checked0 := checkList.items;
    checkList.items := checkList.items + {id};
    ghost var st1 := QueryState(checkList.items, contextMap.inserts);
    assert id in CompletionIds(c);
    UncheckedShrinks(c, checked0, checkList.items);
    flag := CompleteMissionRefsInterestedInEntity(c, o.completeMissionRefs, e, contextMap, checkList);
    if flag != {} {
      contextMap.Insert(o.missionRef, flag);
    }
  }

  /** The outer loop of the completion option: over the completed-mission refs, from None. */
  method CompleteMissionRefsInterestedInEntity(c: Catalog, refs: seq<PrototypeId>, e: WorldEntity,
                                               contextMap: TrackingContextMap, checkList: CheckList)
    returns (flag: TrackingFlags)
    requires CatalogValid(c)
    modifies contextMap, checkList
    ensures (flag, QueryState(checkList.items, contextMap.inserts)) ==
            InterestRefs(c, refs, e, QueryState(old(checkList.items), old(contextMap.inserts)), {})
    decreases Unchecked(c, checkList.items), 3
  {
    ghost var st0 := QueryState(checkList.items, contextMap.inserts);
    flag := {};
    var i := 0;
    while i < |refs|
      invariant 0 <= i <= |refs|
      invariant Grows(c, st0, QueryState(checkList.items, contextMap.inserts))
      invariant InterestRefs(c, refs[i..], e, QueryState(checkList.items, contextMap.inserts), flag)
                == InterestRefs(c, refs, e, st0, {})
    {
      assert refs[i..][1..] == refs[i + 1..];
      var options := if refs[i] in c.missionData then c.missionData[refs[i]] else [];
      ghost var stRef := QueryState(checkList.items, contextMap.inserts);
      ghost var step := InterestAll(c, options, e, stRef, flag);
      assert InterestRefs(c, refs[i..], e, stRef, flag) == InterestRefs(c, refs[i + 1..], e, step.1, step.0);
      UncheckedShrinks(c, st0.checkList, checkList.items);
      flag := MissionDataInterestedInEntity(c, options, e, contextMap, checkList, flag);
      GrowsTrans(c, st0, stRef, QueryState(checkList.items, contextMap.inserts));
      i := i + 1;
    }
    assert refs[i..] == [];
  }

  /** The inner loop of the completion option: OR into acc the answers of one mission's options. */
  method MissionDataInterestedInEntity(c: Catalog, options: seq<OptionId>, e: WorldEntity,
                                       contextMap: TrackingContextMap, checkList: CheckList, acc: TrackingFlags)
    returns (flag: TrackingFlags)
    requires CatalogValid(c) && forall k :: 0 <= k < |options| ==> options[k] < |c.options|
    modifies contextMap, checkList
    ensures (flag, QueryState(checkList.items, contextMap.inserts)) ==
            InterestAll(c, options, e, QueryState(old(checkList.items), old(contextMap.inserts)), acc)
    decreases Unchecked(c, checkList.items), 2
  {
    ghost var st0 := QueryState(checkList.items, contextMap.inserts);
    flag := acc;
    var k := 0;
    while k < |options|
      invariant 0 <= k <= |options|
      invariant Grows(c, st0, QueryState(checkList.items, contextMap.inserts))
      invariant InterestAll(c, options[k..], e, QueryState(checkList.items, contextMap.inserts), flag)
                == InterestAll(c, options, e, st0, acc)
    {
      assert options[k..][1..] == options[k + 1..];
      ghost var stOpt := QueryState(checkList.items, contextMap.inserts);
      UncheckedShrinks(c, st0.checkList, checkList.items);
      var answer := InterestedInEntity(c, options[k], e, contextMap, checkList);
      GrowsTrans(c, st0, stOpt, QueryState(checkList.items, contextMap.inserts));
      flag := flag + answer;
      k := k + 1;
    }
    assert options[k..] == [];
  }

  // ------------------------------------------------------------------
  // BaseMissionOption and the completion option's references
  // ------------------------------------------------------------------

  class MissionOption {
    const kind: OptionKind
    /** MissionProto.DataRef; Invalid until the option is initialized. */
    var missionProtoRef: PrototypeId
    var missionState: MissionStateFlags
    var objectiveIndex: int
    var objectiveState: MissionObjectiveStateFlags
    var interestRegions: set<PrototypeId>
    var interestAreas: set<PrototypeId>
    var interestCells: set<PrototypeId>
    var priority: int
    var optionType: nat
    var entityTrackingFlags: TrackingFlags
    /** EntityFilterWrapper.FilterContextMissionRef */
    var filterContextMissionRef: PrototypeId
    /** The completion option's _missionRefs, in its ascending enumeration order. */
    var missionRefs: seq<PrototypeId>

    ghost predicate Valid()
      reads this
    {
      Ascending(missionRefs)
    }

    /**
     * The constructors: BaseMissionOption's defaults, plus the tracking flags
     * each subclass adds: HUD for the hint option; MissionCondition for every
     * condition option, with TransitionRegion for the region option and
     * Hotspot for the hotspot option. The other classes add none.
     */
    constructor (kind: OptionKind)
      ensures this.kind == kind && Valid()
      ensures objectiveIndex == -1 && !HasObjective()
      ensures missionState == {} && objectiveState == {} && priority == 10
      ensures interestRegions == {} && interestAreas == {} && interestCells == {}
      ensures missionRefs == [] && missionProtoRef == InvalidPrototype
      ensures entityTrackingFlags == (match kind
                                      case MissionCompleteOption => {MissionCondition}
                                      case RegionOption => {MissionCondition, TransitionRegion}
                                      case OtherOption(HintOption, _) => {HUD}
                                      case OtherOption(ConditionOption, _) => {MissionCondition}
                                      case OtherOption(HotspotOption, _) => {MissionCondition, Hotspot}
                                      case OtherOption(EntityInteractOption, _) => {MissionCondition}
                                      case OtherOption(_, _) => {})
    {
      this.kind := kind;
      missionProtoRef := InvalidPrototype;
      missionState := {};
      interestRegions := {};
      interestAreas := {};
      interestCells := {};
      objectiveIndex := -1;
      objectiveState := {};
      priority := 10;
      optionType := 0;
      filterContextMissionRef := InvalidPrototype;
      missionRefs := [];
      entityTrackingFlags := match kind
        case MissionCompleteOption => {MissionCondition}
        case RegionOption => {MissionCondition, TransitionRegion}
        case OtherOption(HintOption, _) => {HUD}
        case OtherOption(ConditionOption, _) => {MissionCondition}
        case OtherOption(HotspotOption, _) => {MissionCondition} + {Hotspot}
        case OtherOption(EntityInteractOption, _) => {MissionCondition}
        case OtherOption(_, _) => {};
    }

    function HasObjective(): (r: bool)
      reads this
      ensures r <==> objectiveIndex != -1
    {
      objectiveIndex != -1
    }

    /** What the interest query reads of this option. */
    function View(): (v: OptionView)
      reads this
      ensures v.kind == kind && v.missionRef == missionProtoRef && v.completeMissionRefs == missionRefs
    {
      OptionView(missionProtoRef, entityTrackingFlags, kind, missionRefs, interestRegions)
    }

    /** BaseMissionOption.InitializeForMission: store the mission and the state and objective filters. */
    method InitializeBase(missionProto: PrototypeId, state: MissionStateFlags, objectiveIndex: int,
                          objectiveState: MissionObjectiveStateFlags, optionType: nat)
      requires -128 <= objectiveIndex < 128
      modifies this
      ensures missionProtoRef == missionProto && missionState == state && this.objectiveIndex == objectiveIndex
      ensures this.objectiveState == objectiveState && this.optionType == optionType
      ensures filterContextMissionRef == missionProto
      ensures interestRegions == old(interestRegions) && priority == old(priority)
      ensures interestAreas == old(interestAreas) && interestCells == old(interestCells)
      ensures entityTrackingFlags == old(entityTrackingFlags) && missionRefs == old(missionRefs)
    {
      missionProtoRef := missionProto;
      missionState := state;
      this.objectiveIndex := objectiveIndex;
      this.objectiveState := objectiveState;
      this.optionType := optionType;
      filterContextMissionRef := missionProto;
    }

    /**
     * InitializeForMission, with the completion option's override: the
     * option's Proto as `missionComplete` (None when it is not a
     * MissionConditionMissionCompletePrototype) and the missions of the
     * prototype hierarchy as `hierarchy`.
     */
    method InitializeForMission(missionProto: PrototypeId, state: MissionStateFlags, objectiveIndex: int,
                                objectiveState: MissionObjectiveStateFlags, optionType: nat,
                                missionComplete: Option<MissionCompletePrototype>, hierarchy: seq<HierarchyMission>)
      requires Valid() && -128 <= objectiveIndex < 128
      modifies this
      ensures Valid()
      ensures missionProtoRef == missionProto && missionState == state && this.objectiveIndex == objectiveIndex
      ensures this.objectiveState == objectiveState && this.optionType == optionType
      ensures filterContextMissionRef == missionProto
      ensures interestRegions == old(interestRegions) && priority == old(priority)
      ensures interestAreas == old(interestAreas) && interestCells == old(interestCells)
      ensures entityTrackingFlags == old(entityTrackingFlags)
      ensures !kind.MissionCompleteOption? || missionComplete.None? ==> missionRefs == old(missionRefs)
      ensures kind.MissionCompleteOption? && missionComplete.Some? ==>
                forall x :: x in missionRefs <==>
                  x in old(missionRefs)
                  || (x == missionComplete.value.missionPrototype && x != InvalidPrototype)
                  || (missionComplete.value.missionKeyword != InvalidPrototype
                      && exists i :: 0 <= i < |hierarchy| && hierarchy[i].ref == x && HasValue(hierarchy[i].keywords)
                                     && missionComplete.value.missionKeyword in hierarchy[i].keywords.value)
    {
      InitializeBase(missionProto, state, objectiveIndex, objectiveState, optionType);
      if !kind.MissionCompleteOption? || missionComplete.None? {
        return;
      }
      missionRefs := AddCompleteMissionRefs(missionRefs, missionComplete.value, hierarchy);
    }

    /**
     * The override's additions to `_missionRefs`: the mission ref when valid,
     * then every hierarchy mission whose keywords hold a valid mission keyword.
     */
    static method AddCompleteMissionRefs(refs0: seq<PrototypeId>, proto: MissionCompletePrototype,
                                         hierarchy: seq<HierarchyMission>)
      returns (refs: seq<PrototypeId>)
      requires Ascending(refs0)
      ensures Ascending(refs)
      ensures forall x :: x in refs <==>
                x in refs0
                || (x == proto.missionPrototype && x != InvalidPrototype)
                || (proto.missionKeyword != InvalidPrototype
                    && exists i :: 0 <= i < |hierarchy| && hierarchy[i].ref == x && HasValue(hierarchy[i].keywords)
                                   && proto.missionKeyword in hierarchy[i].keywords.value)
    {
      refs := refs0;
      if proto.missionPrototype != InvalidPrototype {
        AddSortedMembers(refs, proto.missionPrototype);
        AddSortedAscending(refs, proto.missionPrototype);
        refs := AddSorted(refs, proto.missionPrototype);
      }
      ghost var refs1 := refs;
      if proto.missionKeyword != InvalidPrototype {
        var i := 0;
        while i < |hierarchy|
          invariant 0 <= i <= |hierarchy|
          invariant Ascending(refs)
          invariant forall x :: x in refs <==>
                      x in refs1
                      || exists p :: 0 <= p < i && hierarchy[p].ref == x && HasValue(hierarchy[p].keywords)
                                     && proto.missionKeyword in hierarchy[p].keywords.value
        {
          var mission := hierarchy[i];
          if HasValue(mission.keywords) && proto.missionKeyword in mission.keywords.value {
            AddSortedMembers(refs, mission.ref);
            AddSortedAscending(refs, mission.ref);
            refs := AddSorted(refs, mission.ref);
          }
          i := i + 1;
        }
      }
    }

    /**
     * IsActiveForMissionAndEntity. GetObjective always returns null, so with
     * an objective only the mission-completed test applies. The interactee's
     * entity-filter verdict is `evaluateEntity`.
     */
    method IsActiveForMissionAndEntity(state: MissionState, interactee: Option<nat>, evaluateEntity: nat -> bool)
      returns (r: bool)
      ensures !HasObjective() ==>
                (r <==> state in missionState && (interactee.Some? ==> evaluateEntity(interactee.value)))
      ensures HasObjective() ==>
                (r <==> state == Completed && ObjectiveCompleted in objectiveState
                        && (interactee.Some? ==> evaluateEntity(interactee.value)))
    {
      var isActive := false;
      if !HasObjective() {
        if state in missionState {
          isActive := true;
        }
      } else {
        if state == Completed && ObjectiveCompleted in objectiveState {
          isActive := true;
        }
      }
      if interactee.Some? && isActive {
        return evaluateEntity(interactee.value);
      }
      return isActive;
    }
  }
}
