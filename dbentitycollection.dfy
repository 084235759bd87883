/**
 * DBEntityCollection: the database entities of one account, indexed twice,
 * by their own guid and, in per-container buckets, by the guid of the entity
 * that contains them (MHServerEmu.DatabaseAccess.Models).
 */
module DatabaseModels {

  /**
   * A persisted entity row. Only the two guids take part in the collection's
   * logic; the remaining columns are carried as opaque data.
   */
  datatype DBEntity = DBEntity(dbGuid: int, containerDbGuid: int, data: seq<int>)

  /** The two indices: `_allEntities` and `_bucketedEntities`. */
  datatype Store = Store(all: map<int, DBEntity>, buckets: map<int, seq<DBEntity>>)

  /** The two indices agree, and no bucket holds a guid twice. */
  ghost predicate StoreValid(s: Store) {
    (forall c, e :: c in s.buckets && e in s.buckets[c] ==>
       e.containerDbGuid == c && e.dbGuid in s.all && s.all[e.dbGuid] == e)
    && (forall g :: g in s.all ==>
          s.all[g].dbGuid == g
          && s.all[g].containerDbGuid in s.buckets
          && s.all[g] in s.buckets[s.all[g].containerDbGuid])
    && (forall c, i, j :: c in s.buckets && 0 <= i < j < |s.buckets[c]| ==>
          s.buckets[c][i].dbGuid != s.buckets[c][j].dbGuid)
  }

  const Empty: Store := Store(map[], map[])

  /** GetEntriesForContainer: the bucket, or the empty list for an unknown container. */
  function EntriesOf(s: Store, container: int): (r: seq<DBEntity>)
    ensures container !in s.buckets ==> r == []
  {
    if container in s.buckets then s.buckets[container] else []
  }

  /** Add: refuse a guid already in use; otherwise record it and append it to its bucket. */
  function AddTo(s: Store, e: DBEntity): (Store, bool) {
    if e.dbGuid in s.all then (s, false)
    else (Store(s.all[e.dbGuid := e],
                s.buckets[e.containerDbGuid := EntriesOf(s, e.containerDbGuid) + [e]]),
          true)
  }

  /** AddRange: Add each entity in order, folding `success |= ok`. */
  function AddAllTo(s: Store, es: seq<DBEntity>, success: bool): (Store, bool)
    decreases |es|
  {
    if es == [] then (s, success)
    else
      var (s', ok) := AddTo(s, es[0]);
      AddAllTo(s', es[1..], success || ok)
  }

  /** Clear: empty the guid index and every bucket, keeping the bucket keys. */
  function Cleared(s: Store): Store {
    Store(map[], map c | c in s.buckets :: [])
  }

  lemma {:induction false} EmptyValid()
    ensures StoreValid(Empty) && |Empty.all| == 0
  {}

  /** A fresh guid is accepted, counted once, and appended to its own bucket only. */
  lemma {:induction false} AddNewGuid(s: Store, e: DBEntity)
    requires StoreValid(s) && e.dbGuid !in s.all
    ensures AddTo(s, e).1
    ensures AddTo(s, e).0.all.Keys == s.all.Keys + {e.dbGuid}
    ensures |AddTo(s, e).0.all| == |s.all| + 1
    ensures EntriesOf(AddTo(s, e).0, e.containerDbGuid) == EntriesOf(s, e.containerDbGuid) + [e]
    ensures forall c :: c != e.containerDbGuid ==> EntriesOf(AddTo(s, e).0, c) == EntriesOf(s, c)
  {
    assert AddTo(s, e).0.all.Keys == s.all.Keys + {e.dbGuid};
  }

  /** A guid already in use is refused and neither index changes. */
  lemma {:induction false} AddDuplicateGuid(s: Store, e: DBEntity)
    requires e.dbGuid in s.all
    ensures AddTo(s, e) == (s, false)
  {}

  lemma {:induction false} AddPreservesValid(s: Store, e: DBEntity)
    requires StoreValid(s)
    ensures StoreValid(AddTo(s, e).0)
  {
    if e.dbGuid !in s.all {
      var t := AddTo(s, e).0;
      var c := e.containerDbGuid;
      var old_bucket := EntriesOf(s, c);
      forall x | x in old_bucket ensures x.dbGuid != e.dbGuid {
        assert x.dbGuid in s.all;
      }
      forall c2, i, j | c2 in t.buckets && 0 <= i < j < |t.buckets[c2]|
        ensures t.buckets[c2][i].dbGuid != t.buckets[c2][j].dbGuid
      {
        if c2 == c && j == |old_bucket| {
          assert t.buckets[c2][i] in old_bucket;
        }
      }
      forall g | g in t.all
        ensures t.all[g].containerDbGuid in t.buckets && t.all[g] in t.buckets[t.all[g].containerDbGuid]
      {
        if g != e.dbGuid && s.all[g].containerDbGuid == c {
          assert s.all[g] in old_bucket;
        }
      }
    }
  }

  /** AddRange reports success whatever its Adds return. */
  lemma {:induction false} AddAllAlwaysSucceeds(s: Store, es: seq<DBEntity>)
    ensures AddAllTo(s, es, true).1
    decreases |es|
  {
    if es != [] {
      AddAllAlwaysSucceeds(AddTo(s, es[0]).0, es[1..]);
    }
  }

  /** After AddRange the guids are the old ones together with every guid of the range. */
  lemma {:induction false} AddAllGuids(s: Store, es: seq<DBEntity>, success: bool)
    ensures AddAllTo(s, es, success).0.all.Keys == s.all.Keys + set e | e in es :: e.dbGuid
    decreases |es|
  {
    if es != [] {
      var s' := AddTo(s, es[0]).0;
      AddAllGuids(s', es[1..], success || AddTo(s, es[0]).1);
      if es[0].dbGuid in s.all {
        assert s' == s;
      }
      assert s'.all.Keys == s.all.Keys + {es[0].dbGuid};
      GuidsCons(es);
    }
  }

  lemma {:induction false} GuidsCons(es: seq<DBEntity>)
    requires es != []
    ensures (set e | e in es :: e.dbGuid) == {es[0].dbGuid} + set e | e in es[1..] :: e.dbGuid
  {
    var all := set e | e in es :: e.dbGuid;
    var rest := set e | e in es[1..] :: e.dbGuid;
    forall g | g in all ensures g in {es[0].dbGuid} + rest {
      var e :| e in es && e.dbGuid == g;
      var i :| 0 <= i < |es| && es[i] == e;
      if i > 0 {
        assert es[1..][i - 1] == e;
      }
    }
    forall g | g in rest ensures g in all {
      var e :| e in es[1..] && e.dbGuid == g;
      assert e in es;
    }
    assert es[0] in es;
  }

  lemma {:induction false} AddAllPreservesValid(s: Store, es: seq<DBEntity>, success: bool)
    requires StoreValid(s)
    ensures StoreValid(AddAllTo(s, es, success).0)
    decreases |es|
  {
    if es != [] {
      AddPreservesValid(s, es[0]);
      AddAllPreservesValid(AddTo(s, es[0]).0, es[1..], success || AddTo(s, es[0]).1);
    }
  }

  /** Clear leaves no entity, keeps every bucket key, and every bucket is empty. */
  lemma {:induction false} ClearEmpties(s: Store)
    ensures StoreValid(Cleared(s))
    ensures |Cleared(s).all| == 0
    ensures Cleared(s).buckets.Keys == s.buckets.Keys
    ensures forall c :: EntriesOf(Cleared(s), c) == []
  {}

  /**
   * The invariant between the indices, read from a bucket: the entries for a
   * container are exactly the stored entities whose container it is.
   */
  lemma {:induction false} EntriesAreContainerMembers(s: Store, container: int, e: DBEntity)
    requires StoreValid(s)
    ensures e in EntriesOf(s, container) <==>
            e.dbGuid in s.all && s.all[e.dbGuid] == e && e.containerDbGuid == container
  {}

  /** Under the invariant the guid index holds exactly the guids found in the buckets. */
  lemma {:induction false} GuidsAreBucketed(s: Store)
    ensures StoreValid(s) ==>
              forall g :: g in s.all.Keys <==> exists c, e :: c in s.buckets && e in s.buckets[c] && e.dbGuid == g
  {
    if StoreValid(s) {
      forall g | g in s.all.Keys
        ensures exists c, e :: c in s.buckets && e in s.buckets[c] && e.dbGuid == g
      {
        var e := s.all[g];
        assert e.containerDbGuid in s.buckets && e in s.buckets[e.containerDbGuid];
      }
    }
  }

  lemma {:induction false} HasElement(s: set<int>)
    requires |s| > 0
    ensures exists k :: k in s
  {
    if forall k :: k !in s {
      assert false;
    }
  }

  class DBEntityCollection {
    var allEntities: map<int, DBEntity>
    var bucketedEntities: map<int, seq<DBEntity>>

    ghost function State(): Store
      reads this
    {
      Store(allEntities, bucketedEntities)
    }

    ghost predicate Valid()
      reads this
    {
      StoreValid(State())
    }

    /** The guids in use; under the invariant, exactly the guids of the bucketed entities. */
    function Guids(): (r: set<int>)
      reads this
      ensures Valid() ==> forall g :: g in r <==> exists c, e :: c in bucketedEntities && e in bucketedEntities[c] && e.dbGuid == g
    {
      GuidsAreBucketed(State());
      allEntities.Keys
    }

    /** The number of entities: one per guid in use. */
    function Count(): (n: nat)
      reads this
      ensures n == |Guids()|
      ensures n == 0 <==> Guids() == {}
    {
      |allEntities|
    }

    constructor ()
      ensures Valid() && State() == Empty
    {
      allEntities := map[];
      bucketedEntities := map[];
    }

    constructor FromRange(dbEntities: seq<DBEntity>)
      ensures Valid() && State() == AddAllTo(Empty, dbEntities, true).0
    {
      allEntities := map[];
      bucketedEntities := map[];
      new;
      var _ := AddRange(dbEntities);
    }

    method Add(dbEntity: DBEntity) returns (ok: bool)
      requires Valid()
      modifies this
      ensures Valid()
      ensures (State(), ok) == AddTo(old(State()), dbEntity)
      ensures ok <==> dbEntity.dbGuid !in old(allEntities)
    {
      AddPreservesValid(State(), dbEntity);
      if dbEntity.dbGuid in allEntities {
        return false;
      }
      allEntities := allEntities[dbEntity.dbGuid := dbEntity];
      var bucket := if dbEntity.containerDbGuid in bucketedEntities then bucketedEntities[dbEntity.containerDbGuid] else [];
      bucketedEntities := bucketedEntities[dbEntity.containerDbGuid := bucket + [dbEntity]];
      return true;
    }

    method AddRange(dbEntities: seq<DBEntity>) returns (success: bool)
      requires Valid()
      modifies this
      ensures Valid()
      ensures (State(), success) == AddAllTo(old(State()), dbEntities, true)
      ensures success
    {
      success := true;
      var i := 0;
      while i < |dbEntities|
        invariant 0 <= i <= |dbEntities|
        invariant Valid()
        invariant AddAllTo(State(), dbEntities[i..], success) == AddAllTo(old(State()), dbEntities, true)
      {
        assert dbEntities[i..][1..] == dbEntities[i + 1..];
        var ok := Add(dbEntities[i]);
        success := success || ok;
        i := i + 1;
      }
      AddAllAlwaysSucceeds(old(State()), dbEntities);
    }

    method Clear()
      modifies this
      ensures Valid() && State() == Cleared(old(State()))
    {
      allEntities := map[];
      var pending := bucketedEntities.Keys;
      while |pending| > 0
        invariant pending <= bucketedEntities.Keys
        invariant bucketedEntities.Keys == old(bucketedEntities).Keys
        invariant allEntities == map[]
        invariant forall c :: c in bucketedEntities && c !in pending ==> bucketedEntities[c] == []
        decreases pending
      {
        HasElement(pending);
        var container :| container in pending;
        bucketedEntities := bucketedEntities[container := []];
        pending := pending - {container};
      }
      assert pending == {};
      var cleared := Cleared(old(State())).buckets;
      forall c | c in bucketedEntities ensures bucketedEntities[c] == cleared[c] {
        assert c !in pending;
      }
      assert bucketedEntities.Keys == cleared.Keys;
      assert bucketedEntities == Cleared(old(State())).buckets;
      ClearEmpties(old(State()));
    }

    function GetEntriesForContainer(containerDbGuid: int): (r: seq<DBEntity>)
      requires Valid()
      reads this
      ensures r == EntriesOf(State(), containerDbGuid)
      ensures forall e :: e in r ==> e.containerDbGuid == containerDbGuid && e.dbGuid in Guids()
    {
      if containerDbGuid in bucketedEntities then bucketedEntities[containerDbGuid] else []
    }
  }
}
