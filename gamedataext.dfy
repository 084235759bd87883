/** GameDataExtensions.ShareElement (MHServerEmu.Games.GameData). */
module GameDataExtensions {
  import opened Common

  /** Some prototype reference occurs in both arrays; a null array shares nothing. */
  ghost predicate Share(protoRefs: Option<seq<PrototypeId>>, otherProtoRefs: Option<seq<PrototypeId>>) {
    protoRefs.Some? && otherProtoRefs.Some?
    && exists i, j :: 0 <= i < |protoRefs.value| && 0 <= j < |otherProtoRefs.value|
                      && protoRefs.value[i] == otherProtoRefs.value[j]
  }

  /** ShareElement: the nested search with early return. */
  method ShareElement(protoRefs: Option<seq<PrototypeId>>, otherProtoRefs: Option<seq<PrototypeId>>)
    returns (r: bool)
    ensures !HasValue(protoRefs) || !HasValue(otherProtoRefs) ==> !r
    ensures r <==> Share(protoRefs, otherProtoRefs)
  {
    if !HasValue(protoRefs) || !HasValue(otherProtoRefs) {
      return false;
    }
    var a := protoRefs.value;
    var b := otherProtoRefs.value;
    var i := 0;
    while i < |a|
      invariant 0 <= i <= |a|
      invariant forall p, q :: 0 <= p < i && 0 <= q < |b| ==> a[p] != b[q]
    {
      var j := 0;
      while j < |b|
        invariant 0 <= j <= |b|
        invariant forall q :: 0 <= q < j ==> a[i] != b[q]
      {
        if a[i] == b[j] {
          return true;
        }
        j := j + 1;
      }
      i := i + 1;
    }
    return false;
  }

  /** Sharing does not depend on the order of the two arrays. */
  lemma {:induction false} ShareSymmetric(a: Option<seq<PrototypeId>>, b: Option<seq<PrototypeId>>)
    ensures Share(a, b) <==> Share(b, a)
  {
    if Share(a, b) {
      var i, j :| 0 <= i < |a.value| && 0 <= j < |b.value| && a.value[i] == b.value[j];
      assert b.value[j] == a.value[i];
    }
    if Share(b, a) {
      var i, j :| 0 <= i < |b.value| && 0 <= j < |a.value| && b.value[i] == a.value[j];
      assert a.value[j] == b.value[i];
    }
  }

  /** An array with an element shares it with itself. */
  lemma {:induction false} ShareSelf(a: Option<seq<PrototypeId>>)
    ensures Share(a, a) <==> HasValue(a)
  {
    if HasValue(a) {
      var x := a.value[0];
      assert exists i, j :: 0 <= i < |a.value| && 0 <= j < |a.value| && a.value[i] == a.value[j] by {
        assert a.value[0] == x;
      }
    }
  }
}
