/**
 * RegionAffixPrototype.CanApplyToRegion and RegionAffixTablePrototype.GetByTier
 * (MHServerEmu.Games.GameData.Prototypes). A keyword mask is modelled as the
 * set of keywords it holds, so TestAny is a non-empty intersection.
 */
module RegionAffixes {
  import opened Common

  type KeywordsMask = set<PrototypeId>

  /** The keyword lists of an affix and the masks PostProcess derives from them. */
  datatype RegionAffix = RegionAffix(
    keywordsBlacklist: Option<seq<PrototypeId>>,
    keywordsWhitelist: Option<seq<PrototypeId>>,
    keywordsBlackMask: KeywordsMask,
    keywordsWhiteMask: KeywordsMask)

  predicate TestAny(mask: KeywordsMask, other: KeywordsMask) {
    mask * other != {}
  }

  /** Some area of the region (its prototype's keyword mask) has a keyword of `mask`. */
  ghost predicate SomeAreaHits(areas: seq<KeywordsMask>, mask: KeywordsMask) {
    exists i :: 0 <= i < |areas| && TestAny(areas[i], mask)
  }

  /**
   * CanApplyToRegion over the keyword masks of the region's areas, in the
   * order the region enumerates them.
   */
  method CanApplyToRegion(affix: RegionAffix, areas: seq<KeywordsMask>) returns (r: bool)
    ensures HasValue(affix.keywordsBlacklist) && SomeAreaHits(areas, affix.keywordsBlackMask) ==> !r
    ensures (!(HasValue(affix.keywordsBlacklist) && SomeAreaHits(areas, affix.keywordsBlackMask))
             && HasValue(affix.keywordsWhitelist)) ==> (r <==> SomeAreaHits(areas, affix.keywordsWhiteMask))
    ensures !HasValue(affix.keywordsBlacklist) && !HasValue(affix.keywordsWhitelist) ==> r
    ensures !SomeAreaHits(areas, affix.keywordsBlackMask) && !HasValue(affix.keywordsWhitelist) ==> r
  {
    if HasValue(affix.keywordsBlacklist) {
      var i := 0;
      while i < |areas|
        invariant 0 <= i <= |areas|
        invariant forall p :: 0 <= p < i ==> !TestAny(areas[p], affix.keywordsBlackMask)
      {
        if TestAny(areas[i], affix.keywordsBlackMask) {
          return false;
        }
        i := i + 1;
      }
    }
    if HasValue(affix.keywordsWhitelist) {
      var i := 0;
      while i < |areas|
        invariant 0 <= i <= |areas|
        invariant forall p :: 0 <= p < i ==> !TestAny(areas[p], affix.keywordsWhiteMask)
      {
        if TestAny(areas[i], affix.keywordsWhiteMask) {
          return true;
        }
        i := i + 1;
      }
      return false;
    }
    return true;
  }

  /** A tier entry of a RegionAffixTablePrototype. */
  datatype TierEntry = TierEntry(lootTable: PrototypeId, tier: int, name: nat)

  /**
   * GetByTier: the first non-null entry with the tier; None for null or empty
   * Tiers and when no entry matches.
   */
  method GetByTier(tiers: Option<seq<Option<TierEntry>>>, affixTier: int) returns (r: Option<TierEntry>)
    ensures !HasValue(tiers) ==> r == None
    ensures r.None? && tiers.Some? ==>
              forall i :: 0 <= i < |tiers.value| && tiers.value[i].Some? ==> tiers.value[i].value.tier != affixTier
    ensures r.Some? ==>
              tiers.Some? && r.value.tier == affixTier
              && exists i :: 0 <= i < |tiers.value| && tiers.value[i] == r
                   && forall j :: 0 <= j < i && tiers.value[j].Some? ==> tiers.value[j].value.tier != affixTier
  {
    if !HasValue(tiers) {
      return None;
    }
    var entries := tiers.value;
    var i := 0;
    while i < |entries|
      invariant 0 <= i <= |entries|
      invariant forall j :: 0 <= j < i && entries[j].Some? ==> entries[j].value.tier != affixTier
    {
      var entry := entries[i];
      if entry.Some? && entry.value.tier == affixTier {
        return entry;
      }
      i := i + 1;
    }
    return None;
  }
}
