/**
 * TagPlayers: the players that have tagged a world entity with a power,
 * kept in a sorted set whose comparer looks at the player's database id
 * (MHServerEmu.Games.Entities).
 */
module Tags {
  import opened Common
  import opened Players

  /** A tag: the tagging player's DatabaseUniqueId and the power used. */
  datatype TagInfo = TagInfo(playerUid: nat, power: PrototypeId)

  /** ulong.CompareTo: -1, 0 or 1. */
  function CompareUids(x: nat, y: nat): int {
    if x < y then -1 else if x > y then 1 else 0
  }

  /**
   * TagInfo.CompareTo. The first test (same player and same power) is
   * subsumed by the second, so the order depends on the player id alone.
   */
  function CompareTo(a: TagInfo, b: TagInfo): (r: int)
    ensures -1 <= r <= 1
    ensures r == 0 <==> a.playerUid == b.playerUid
    ensures r < 0 <==> a.playerUid < b.playerUid
    ensures r > 0 <==> a.playerUid > b.playerUid
  {
    if a.playerUid == b.playerUid && a.power == b.power then 0
    else CompareUids(a.playerUid, b.playerUid)
  }

  /** The set's enumeration order: strictly ascending under CompareTo. */
  ghost predicate UidsAscending(s: seq<TagInfo>) {
    forall i, j :: 0 <= i < j < |s| ==> s[i].playerUid < s[j].playerUid
  }

  ghost predicate HasUid(s: seq<TagInfo>, uid: nat) {
    exists i :: 0 <= i < |s| && s[i].playerUid == uid
  }

  /**
   * SortedSet.Add under CompareTo: an element comparing equal to one already
   * present is not added; otherwise it goes in its place in the order.
   */
  function Inserted(s: seq<TagInfo>, x: TagInfo): seq<TagInfo>
    decreases |s|
  {
    if s == [] then [x]
    else if CompareTo(x, s[0]) == 0 then s
    else if CompareTo(x, s[0]) < 0 then [x] + s
    else [s[0]] + Inserted(s[1..], x)
  }

  lemma {:induction false} TailAscending(s: seq<TagInfo>)
    requires s != [] && UidsAscending(s)
    ensures UidsAscending(s[1..])
    ensures forall u: nat :: HasUid(s, u) <==> u == s[0].playerUid || HasUid(s[1..], u)
    ensures forall u: nat :: HasUid(s[1..], u) ==> s[0].playerUid < u
  {
    var rest := s[1..];
    forall u: nat | HasUid(rest, u) ensures HasUid(s, u) && s[0].playerUid < u {
      var i :| 0 <= i < |rest| && rest[i].playerUid == u;
      assert s[i + 1].playerUid == u;
    }
    forall u: nat | HasUid(s, u) && u != s[0].playerUid ensures HasUid(rest, u) {
      var i :| 0 <= i < |s| && s[i].playerUid == u;
      assert rest[i - 1].playerUid == u;
    }
  }

  /** Adding a tag for a player already in the set changes nothing, whatever the power. */
  lemma {:induction false} InsertedPresent(s: seq<TagInfo>, x: TagInfo)
    requires UidsAscending(s) && HasUid(s, x.playerUid)
    ensures Inserted(s, x) == s
    decreases |s|
  {
    TailAscending(s);
    if CompareTo(x, s[0]) != 0 {
      InsertedPresent(s[1..], x);
    }
  }

  /** Adding a tag for a new player puts it in its place and keeps the set ordered. */
  lemma {:induction false} InsertedAbsent(s: seq<TagInfo>, x: TagInfo)
    requires UidsAscending(s) && !HasUid(s, x.playerUid)
    ensures UidsAscending(Inserted(s, x)) && |Inserted(s, x)| == |s| + 1
    ensures forall y :: y in Inserted(s, x) <==> y in s || y == x
    decreases |s|
  {
    if s != [] {
      TailAscending(s);
      var rest := s[1..];
      if CompareTo(x, s[0]) > 0 {
        InsertedAbsent(rest, x);
        var r := Inserted(s, x);
        var r' := Inserted(rest, x);
        assert r == [s[0]] + r';
        assert s == [s[0]] + rest;
        forall j | 0 <= j < |r'| ensures s[0].playerUid < r'[j].playerUid {
          if r'[j] != x {
            assert r'[j] in rest;
            var i :| 0 <= i < |rest| && rest[i] == r'[j];
            assert HasUid(rest, rest[i].playerUid);
          }
        }
        forall i, j | 0 <= i < j < |r| ensures r[i].playerUid < r[j].playerUid {
          assert r[j] == r'[j - 1];
          if i > 0 {
            assert r[i] == r'[i - 1];
          }
        }
      } else {
        forall i | 0 <= i < |s| ensures x.playerUid < s[i].playerUid {
          if i > 0 {
            assert s[0].playerUid < s[i].playerUid;
          }
        }
      }
    }
  }

  /**
   * GetPlayers' enumeration: the ids it resolves, visiting the tags in order
   * from `last` and skipping a tag whose id equals the one visited before.
   */
  function Yielded(tags: seq<TagInfo>, last: nat, known: set<nat>): (r: seq<nat>)
    ensures forall j :: 0 <= j < |r| ==> r[j] in known
    decreases |tags|
  {
    if tags == [] then []
    else if last == tags[0].playerUid then Yielded(tags[1..], last, known)
    else
      var uid := tags[0].playerUid;
      (if uid in known then [uid] else []) + Yielded(tags[1..], uid, known)
  }

  /**
   * Over an ordered set the enumeration holds exactly the resolvable ids of
   * the tags other than `last`.
   */
  lemma {:induction false} YieldedMembers(tags: seq<TagInfo>, last: nat, known: set<nat>)
    requires UidsAscending(tags) && (tags != [] ==> last <= tags[0].playerUid)
    ensures forall u: nat :: u in Yielded(tags, last, known) <==> u in known && u != last && HasUid(tags, u)
    decreases |tags|
  {
    if tags != [] {
      var uid := tags[0].playerUid;
      TailAscending(tags);
      var rest := tags[1..];
      if rest != [] {
        assert HasUid(rest, rest[0].playerUid);
      }
      if last == uid {
        YieldedMembers(rest, last, known);
      } else {
        YieldedMembers(rest, uid, known);
      }
    }
  }

  /** Over an ordered set the enumeration is strictly ascending and above `last`. */
  lemma {:induction false} YieldedAscending(tags: seq<TagInfo>, last: nat, known: set<nat>)
    requires UidsAscending(tags) && (tags != [] ==> last <= tags[0].playerUid)
    ensures forall j :: 0 <= j < |Yielded(tags, last, known)| ==> Yielded(tags, last, known)[j] > last
    ensures forall i, j :: 0 <= i < j < |Yielded(tags, last, known)| ==>
              Yielded(tags, last, known)[i] < Yielded(tags, last, known)[j]
    decreases |tags|
  {
    if tags != [] {
      var uid := tags[0].playerUid;
      TailAscending(tags);
      var rest := tags[1..];
      if rest != [] {
        assert HasUid(rest, rest[0].playerUid);
      }
      if last == uid {
        YieldedAscending(rest, last, known);
      } else {
        YieldedAscending(rest, uid, known);
        var r := Yielded(tags, last, known);
        var r' := Yielded(rest, uid, known);
        if uid in known {
          assert r == [uid] + r';
          forall i, j | 0 <= i < j < |r| ensures r[i] < r[j] {
            assert r[j] == r'[j - 1];
            if i > 0 {
              assert r[i] == r'[i - 1];
            }
          }
        } else {
          assert r == r';
        }
      }
    }
  }

  /**
   * So GetPlayers over the tag set yields every resolvable tagging player
   * once, in strictly ascending id order, and never the id 0.
   */
  lemma {:induction false} PlayersOfOrderedTags(tags: seq<TagInfo>, known: set<nat>)
    requires UidsAscending(tags)
    ensures forall i, j :: 0 <= i < j < |Yielded(tags, 0, known)| ==>
              Yielded(tags, 0, known)[i] < Yielded(tags, 0, known)[j]
    ensures forall u :: u in Yielded(tags, 0, known) <==> u != 0 && u in known && HasUid(tags, u)
  {
    YieldedMembers(tags, 0, known);
    YieldedAscending(tags, 0, known);
  }

  class TagPlayers {
    /** The tagged world entity's id. */
    const ownerId: nat
    var tags: seq<TagInfo>

    ghost predicate Valid()
      reads this
    {
      UidsAscending(tags)
    }

    constructor (ownerId: nat)
      ensures this.ownerId == ownerId && tags == [] && Valid()
    {
      this.ownerId := ownerId;
      tags := [];
    }

    /**
     * GetPlayers. The entity manager's lookup by database id is the map
     * `manager`: an id that is not a key does not resolve.
     */
    method GetPlayers(manager: map<nat, Player>) returns (players: seq<Player>)
      ensures |players| == |Yielded(tags, 0, manager.Keys)|
      ensures forall j :: 0 <= j < |players| ==> players[j] == manager[Yielded(tags, 0, manager.Keys)[j]]
    {
      var playerUid: nat := 0;
      players := [];
      ghost var uids: seq<nat> := [];
      var i := 0;
      while i < |tags|
        invariant 0 <= i <= |tags|
        invariant uids + Yielded(tags[i..], playerUid, manager.Keys) == Yielded(tags, 0, manager.Keys)
        invariant |players| == |uids|
        invariant forall j :: 0 <= j < |uids| ==> uids[j] in manager && players[j] == manager[uids[j]]
      {
        var tag := tags[i];
        assert tags[i..][1..] == tags[i + 1..];
        if playerUid == tag.playerUid {
          i := i + 1;
          continue;
        }
        playerUid := tag.playerUid;
        if playerUid in manager {
          players := players + [manager[playerUid]];
          uids := uids + [playerUid];
        }
        i := i + 1;
      }
      assert tags[i..] == [];
    }

    /** Add: insert the tag into the set, and tell the player it tagged the owner. */
    method Add(player: Player, powerProto: PrototypeId)
      requires Valid() && player.Valid()
      modifies this, player
      ensures Valid() && player.Valid()
      ensures tags == Inserted(old(tags), TagInfo(player.databaseUniqueId, powerProto))
      ensures player.tagEntities == old(player.tagEntities) + {ownerId}
      ensures player.badges == old(player.badges) && player.stashTabs == old(player.stashTabs)
      ensures player.consoleAccountIds == old(player.consoleAccountIds)
      ensures player.avatarLibraryLevel == old(player.avatarLibraryLevel)
      ensures player.playerMaxAvatarLevel == old(player.playerMaxAvatarLevel)
    {
      var tag := TagInfo(player.databaseUniqueId, powerProto);
      if HasUid(tags, tag.playerUid) {
        InsertedPresent(tags, tag);
      } else {
        InsertedAbsent(tags, tag);
      }
      tags := Inserted(tags, tag);
      player.AddTag(ownerId);
    }
  }
}
