/** The registry of the extension's feature modules
    (src/app/featureRegistry.ts): a map from feature id to feature that keeps
    insertion order, as a JavaScript `Map` does. */
module FeatureRegistry {
  import opened Wrappers
  import opened Seqs

  type FeatureId = string

  /** What a caller hands to `register`: enablement and order may be left
      undefined. The icon and the component are render data and are not
      modelled; `label` is a reserved word in Dafny, hence `labelText`. */
  datatype FeatureSpec = FeatureSpec(id: FeatureId, labelText: string, isEnabled: Option<bool>, order: Option<int>)

  /** A stored feature, with both defaults filled in. */
  datatype Feature = Feature(id: FeatureId, labelText: string, isEnabled: bool, order: int)

  /** The record `register` stores: `isEnabled ?? true`, and `order ?? size`
      where `size` is the number of features before the insertion. */
  function Stored(spec: FeatureSpec, size: nat): (f: Feature)
    ensures f.id == spec.id && f.labelText == spec.labelText
    ensures f.isEnabled <==> spec.isEnabled != Some(false)
    ensures spec.order.None? ==> f.order == size
    ensures spec.order.Some? ==> f.order == spec.order.value
  {
    Feature(spec.id, spec.labelText, spec.isEnabled.GetOr(true), spec.order.GetOr(size))
  }

  function IsEnabled(f: Feature): bool {
    f.isEnabled
  }

  /** Non-decreasing `order`. */
  predicate SortedByOrder(s: seq<Feature>) {
    forall i, j :: 0 <= i < j < |s| ==> s[i].order <= s[j].order
  }

  /** One step of a stable insertion sort: `x` goes after every element whose
      order is not greater than its own. */
  function Insert(s: seq<Feature>, x: Feature): (r: seq<Feature>)
    requires SortedByOrder(s)
    ensures SortedByOrder(r)
    ensures multiset(r) == multiset(s) + multiset{x}
    decreases |s|
  {
    if s == [] || s[|s| - 1].order <= x.order then s + [x]
    else
      var last := s[|s| - 1];
      var init := s[..|s| - 1];
      assert s == init + [last];
      var r := Insert(init, x);
      RearrangedBelow(r, init, x, last.order);
      r + [last]
  }

  /** Elements of `s`, plus `x`, rearranged: all stay at or below a bound
      they were at or below. */
  lemma RearrangedBelow(r: seq<Feature>, s: seq<Feature>, x: Feature, bound: int)
    requires multiset(r) == multiset(s) + multiset{x}
    requires x.order <= bound && forall i :: 0 <= i < |s| ==> s[i].order <= bound
    ensures forall i :: 0 <= i < |r| ==> r[i].order <= bound
  {
    forall i | 0 <= i < |r|
      ensures r[i].order <= bound
    {
      assert r[i] in multiset(r);
      assert r[i] == x || r[i] in s;
    }
  }

  /** The features of `s` whose order is `v`, in their order in `s`. */
  function OfOrder(s: seq<Feature>, v: int): (r: seq<Feature>)
    ensures |r| <= |s|
    decreases |s|
  {
    if s == [] then []
    else OfOrder(s[..|s| - 1], v) + (if s[|s| - 1].order == v then [s[|s| - 1]] else [])
  }

  lemma OfOrderSnoc(s: seq<Feature>, x: Feature, v: int)
    ensures OfOrder(s + [x], v) == OfOrder(s, v) + (if x.order == v then [x] else [])
  {
    assert (s + [x])[..|s|] == s;
  }

  /** Insertion is stable: among the features of one order, `x` comes after
      those already in `s`, which keep their relative order. */
  lemma {:induction false} InsertStable(s: seq<Feature>, x: Feature, v: int)
    requires SortedByOrder(s)
    ensures OfOrder(Insert(s, x), v) == OfOrder(s, v) + (if x.order == v then [x] else [])
    decreases |s|
  {
    if s == [] || s[|s| - 1].order <= x.order {
      OfOrderSnoc(s, x, v);
    } else {
      var last, init := s[|s| - 1], s[..|s| - 1];
      assert s == init + [last];
      assert Insert(s, x) == Insert(init, x) + [last];
      InsertStable(init, x, v);
      OfOrderSnoc(Insert(init, x), last, v);
      OfOrderSnoc(init, last, v);
      // `x` is ordered before `last`, so at most one of them has order `v`.
      if x.order == v {
        assert OfOrder(Insert(s, x), v) == OfOrder(Insert(init, x), v);
        assert OfOrder(s, v) == OfOrder(init, v);
      } else {
        assert OfOrder(Insert(init, x), v) == OfOrder(init, v);
      }
    }
  }

  /** Sorting is stable: features of equal order keep their relative order. */
  lemma {:induction false} SortByOrderStable(s: seq<Feature>, v: int)
    ensures OfOrder(SortByOrder(s), v) == OfOrder(s, v)
    decreases |s|
  {
    if s != [] {
      var init, last := s[..|s| - 1], s[|s| - 1];
      assert s == init + [last];
      SortByOrderStable(init, v);
      InsertStable(SortByOrder(init), last, v);
      OfOrderSnoc(init, last, v);
    }
  }

  /** `sort((a, b) => (a.order || 0) - (b.order || 0))` on stored features,
      whose order is always defined: a sorted rearrangement of the input. */
  function SortByOrder(s: seq<Feature>): (r: seq<Feature>)
    ensures SortedByOrder(r)
    ensures multiset(r) == multiset(s)
    decreases |s|
  {
    if s == [] then []
    else
      assert s == s[..|s| - 1] + [s[|s| - 1]];
      Insert(SortByOrder(s[..|s| - 1]), s[|s| - 1])
  }

  class FeatureRegistry {
    /** The map's entries in insertion order. */
    var entries: seq<Feature>

    /** Each id is stored at most once. */
    ghost predicate Valid()
      reads this
    {
      forall i, j :: 0 <= i < j < |entries| ==> entries[i].id != entries[j].id
    }

    constructor ()
      ensures Valid() && entries == []
    {
      entries := [];
    }

    /** The registered ids, in insertion order. */
    function Ids(): (ids: seq<FeatureId>)
      reads this
      ensures |ids| == |entries| && forall i :: 0 <= i < |ids| ==> ids[i] == entries[i].id
    {
      seq(|entries|, i requires 0 <= i < |entries| reads this => entries[i].id)
    }

    /** `hasFeature(id)`. */
    function HasFeature(id: FeatureId): (b: bool)
      reads this
      ensures b <==> exists i :: 0 <= i < |entries| && entries[i].id == id
    {
      id in Ids()
    }

    /** `getById(id)`: the feature stored under `id`, if any. */
    function GetById(id: FeatureId): (r: Option<Feature>)
      reads this
      ensures r.Some? ==> r.value in entries && r.value.id == id
      ensures r.None? ==> forall i :: 0 <= i < |entries| ==> entries[i].id != id
    {
      var k := FindIndex(entries, (f: Feature) => f.id == id);
      if k == -1 then None else Some(entries[k])
    }

    /** `getAll()`: the enabled features, in non-decreasing order; each one
        exactly as often as it is stored, and those of equal order in the
        order they were registered. */
    function GetAll(): (r: seq<Feature>)
      reads this
      ensures forall f :: f in r <==> f in entries && f.isEnabled
      ensures SortedByOrder(r)
      ensures multiset(r) == multiset(Filter(entries, IsEnabled))
      ensures forall v :: OfOrder(r, v) == OfOrder(Filter(entries, IsEnabled), v)
    {
      var enabled := Filter(entries, IsEnabled);
      var r := SortByOrder(enabled);
      forall v
        ensures OfOrder(r, v) == OfOrder(enabled, v)
      {
        SortByOrderStable(enabled, v);
      }
      forall f
        ensures f in r <==> f in entries && f.isEnabled
      {
        assert f in r <==> f in multiset(r);
        assert f in enabled <==> f in multiset(enabled);
        assert f in enabled <==> f in entries && IsEnabled(f);
      }
      r
    }

    /** `register(feature)`: an id already present leaves the registry as it
        was; otherwise the feature is appended with its defaults filled in,
        its order defaulting to the size before the insertion. */
    method Register(spec: FeatureSpec)
      requires Valid()
      modifies this
      ensures Valid()
      ensures old(HasFeature(spec.id)) ==> entries == old(entries)
      ensures !old(HasFeature(spec.id)) ==> entries == old(entries) + [Stored(spec, old(|entries|))]
    {
      if HasFeature(spec.id) {
        return;
      }
      entries := entries + [Stored(spec, |entries|)];
    }

    /** `setEnabled(id, isEnabled)`: an unknown id changes nothing; a known one
        has its `isEnabled` set and every other field and entry kept. */
    method SetEnabled(id: FeatureId, isEnabled: bool)
      requires Valid()
      modifies this
      ensures Valid()
      ensures |entries| == old(|entries|)
      ensures forall i :: 0 <= i < |entries| ==>
                entries[i] == if old(entries[i]).id == id then old(entries[i]).(isEnabled := isEnabled)
                              else old(entries[i])
    {
      var k := FindIndex(entries, (f: Feature) => f.id == id);
      if k != -1 {
        entries := entries[k := entries[k].(isEnabled := isEnabled)];
      }
    }
  }

  /** `hasFeature(id)` holds exactly when `getById(id)` finds something. */
  lemma HasFeatureIffGetById(registry: FeatureRegistry, id: FeatureId)
    ensures registry.HasFeature(id) <==> registry.GetById(id).Some?
  {
  }

  /** A feature registered with an explicit `isEnabled: false` is never
      listed; one registered without it is listed. */
  lemma GetAllListsStoredWhenEnabled(entries: seq<Feature>, spec: FeatureSpec)
    ensures var f := Stored(spec, |entries|);
            var listed := SortByOrder(Filter(entries + [f], IsEnabled));
            f in listed <==> spec.isEnabled != Some(false)
  {
    var f := Stored(spec, |entries|);
    var listed := SortByOrder(Filter(entries + [f], IsEnabled));
    assert f in entries + [f];
    assert f in listed <==> f in multiset(listed);
  }
}
