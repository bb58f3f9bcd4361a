/**
 * Boundary feature selection: the parsing part of `load_beijing_boundary`
 * (honeycomb/hexagon_grid.py and backend/hexagon_grid.py). The union of the selected
 * polygons and its projection are left abstract.
 */
module Boundary {
  import opened Wrappers

  /** A GeoJSON position: a list of numbers, normally `[lng, lat]`. */
  type Position = seq<real>

  /** A ring as given in the file. */
  type Ring = seq<Position>

  /** The outline handed to `Polygon(...)`: `[(lng, lat) for lng, lat in ring]`. */
  type Outline = seq<(real, real)>

  datatype Geometry =
    | Polygon(rings: seq<Ring>)
    | MultiPolygon(polygons: seq<seq<Ring>>)
    | OtherGeometry(kind: string)

  /** A feature; `name` is `None` when its properties have no `name` entry. */
  datatype Feature = Feature(name: Option<string>, geometry: Geometry)

  /** `if target_districts:` filters only with a non-empty list; `.get('name', '')` defaults to "". */
  predicate Selected(f: Feature, targets: seq<string>) {
    |targets| == 0 || f.name.GetOr("") in targets
  }

  /** The rings of a MultiPolygon, polygon by polygon. */
  function Flatten(polygons: seq<seq<Ring>>): (rings: seq<Ring>) {
    if polygons == [] then [] else Flatten(polygons[..|polygons| - 1]) + polygons[|polygons| - 1]
  }

  /** Every ring (outer ring or hole) of a Polygon or MultiPolygon; nothing for another type. */
  function RingsOf(g: Geometry): seq<Ring> {
    match g
    case Polygon(rings) => rings
    case MultiPolygon(polygons) => Flatten(polygons)
    case OtherGeometry(_) => []
  }

  /** The rings contributed by the selected features, in file order. */
  function SelectedRings(features: seq<Feature>, targets: seq<string>): seq<Ring> {
    if features == [] then []
    else
      var f := features[|features| - 1];
      SelectedRings(features[..|features| - 1], targets) + (if Selected(f, targets) then RingsOf(f.geometry) else [])
  }

  /** A ring can be unpacked into `(lng, lat)` pairs. */
  predicate PairRing(ring: Ring) {
    forall p :: p in ring ==> |p| == 2
  }

  /** `[(lng, lat) for lng, lat in ring]`: packing each pair back gives the ring again. */
  function ToOutline(ring: Ring): (o: Outline)
    requires PairRing(ring)
    ensures |o| == |ring|
    ensures forall k :: 0 <= k < |o| ==> [o[k].0, o[k].1] == ring[k]
  {
    seq(|ring|, k requires 0 <= k < |ring| => (ring[k][0], ring[k][1]))
  }

  /**
   * The polygons of the boundary, or `None` when `load_beijing_boundary` returns `None`:
   * no file or an empty one, or a position that is not a pair (the unpacking raises and
   * the `except` returns `None`).
   */
  function BoundaryPolygons(geo: Option<seq<Feature>>, targets: seq<string>): Option<seq<Outline>> {
    if geo.None? then None
    else
      var rings := SelectedRings(geo.value, targets);
      if forall k :: 0 <= k < |rings| ==> PairRing(rings[k]) then
        Some(seq(|rings|, k requires 0 <= k < |rings| => ToOutline(rings[k])))
      else None
  }

  /** The loop over `geo['features']`, appending one polygon per ring. */
  method LoadBoundary(geo: Option<seq<Feature>>, targets: seq<string>) returns (polygons: Option<seq<Outline>>)
    ensures polygons == BoundaryPolygons(geo, targets)
  {
    if geo.None? {
      return None;
    }
    var features := geo.value;
    var collected: seq<Outline> := [];
    for i := 0 to |features|
      invariant var rings := SelectedRings(features[..i], targets);
        && (forall k :: 0 <= k < |rings| ==> PairRing(rings[k]))
        && collected == seq(|rings|, k requires 0 <= k < |rings| => ToOutline(rings[k]))
    {
      assert features[..i + 1][..i] == features[..i];
      var feature := features[i];
      if Selected(feature, targets) {
        var rings := RingsOf(feature.geometry);
        for k := 0 to |rings|
          invariant var done := SelectedRings(features[..i], targets) + rings[..k];
            && (forall m :: 0 <= m < |done| ==> PairRing(done[m]))
            && collected == seq(|done|, m requires 0 <= m < |done| => ToOutline(done[m]))
        {
          ghost var done := SelectedRings(features[..i], targets) + rings[..k];
          ghost var next := SelectedRings(features[..i], targets) + rings[..k + 1];
          assert rings[..k + 1] == rings[..k] + [rings[k]];
          assert next == done + [rings[k]];
          assert next[|done|] == rings[k];
          if !PairRing(rings[k]) {
            NotAllPairs(features, targets, i, k + 1, next, |done|);
            return None;
          }
          collected := collected + [ToOutline(rings[k])];
        }
        assert rings[..|rings|] == rings;
      }
    }
    assert features[..|features|] == features;
    polygons := Some(collected);
  }

  lemma SelectedRingsPrefix(features: seq<Feature>, targets: seq<string>, i: nat)
    requires i <= |features|
    ensures exists rest :: SelectedRings(features, targets) == SelectedRings(features[..i], targets) + rest
    decreases |features| - i
  {
    if i < |features| {
      SelectedRingsPrefix(features, targets, i + 1);
      var rest :| SelectedRings(features, targets) == SelectedRings(features[..i + 1], targets) + rest;
      var f := features[i];
      assert features[..i + 1][..i] == features[..i];
      var mine := if Selected(f, targets) then RingsOf(f.geometry) else [];
      assert SelectedRings(features, targets) == SelectedRings(features[..i], targets) + (mine + rest);
    } else {
      assert features[..i] == features;
      assert SelectedRings(features, targets) == SelectedRings(features[..i], targets) + [];
    }
  }

  /** A ring that is not made of pairs, among the first selected rings, makes the whole load fail. */
  lemma NotAllPairs(features: seq<Feature>, targets: seq<string>, i: nat, k: nat, prefix: seq<Ring>, m: nat)
    requires i < |features| && Selected(features[i], targets)
    requires k <= |RingsOf(features[i].geometry)|
    requires prefix == SelectedRings(features[..i], targets) + RingsOf(features[i].geometry)[..k]
    requires m < |prefix| && !PairRing(prefix[m])
    ensures BoundaryPolygons(Some(features), targets) == None
  {
    SelectedRingsPrefix(features, targets, i + 1);
    var rest :| SelectedRings(features, targets) == SelectedRings(features[..i + 1], targets) + rest;
    assert features[..i + 1][..i] == features[..i];
    assert SelectedRings(features[..i + 1], targets) == SelectedRings(features[..i], targets) + RingsOf(features[i].geometry);
    assert SelectedRings(features, targets)[m] == prefix[m];
  }

  // ---------------------------------------------------------------------------
  // Properties

  function RingCount(features: seq<Feature>, targets: seq<string>): nat {
    if features == [] then 0
    else
      var f := features[|features| - 1];
      RingCount(features[..|features| - 1], targets) + (if Selected(f, targets) then |RingsOf(f.geometry)| else 0)
  }

  lemma {:induction false} FlattenSpec(polygons: seq<seq<Ring>>)
    ensures forall r :: r in Flatten(polygons) <==> exists p :: p in polygons && r in p
  {
    if polygons != [] {
      var init, last := polygons[..|polygons| - 1], polygons[|polygons| - 1];
      FlattenSpec(init);
      assert polygons == init + [last];
      forall r ensures r in Flatten(polygons) <==> exists p :: p in polygons && r in p {
        if exists p :: p in init && r in p {
          var p :| p in init && r in p;
          assert p in polygons;
        }
        if r in last {
          assert last in polygons;
        }
        if exists p :: p in polygons && r in p {
          var p :| p in polygons && r in p;
          if p != last { assert p in init; }
        }
      }
    }
  }

  /**
   * Each ring of a selected Polygon or MultiPolygon contributes exactly one polygon: the
   * number of polygons is the number of rings of the selected features.
   */
  lemma {:induction false} SelectedRingsCount(features: seq<Feature>, targets: seq<string>)
    ensures |SelectedRings(features, targets)| == RingCount(features, targets)
  {
    if features != [] {
      SelectedRingsCount(features[..|features| - 1], targets);
    }
  }

  /**
   * A ring is loaded exactly when it belongs to a feature whose name is listed (or the list
   * is empty) and whose geometry is a Polygon or MultiPolygon.
   */
  lemma {:induction false} SelectedRingsMembership(features: seq<Feature>, targets: seq<string>)
    ensures forall r :: r in SelectedRings(features, targets) <==>
      exists f :: f in features && Selected(f, targets) && r in RingsOf(f.geometry)
  {
    if features != [] {
      var init, last := features[..|features| - 1], features[|features| - 1];
      SelectedRingsMembership(init, targets);
      assert features == init + [last];
      forall r ensures r in SelectedRings(features, targets) <==>
        exists f :: f in features && Selected(f, targets) && r in RingsOf(f.geometry)
      {
        if exists f :: f in init && Selected(f, targets) && r in RingsOf(f.geometry) {
          var f :| f in init && Selected(f, targets) && r in RingsOf(f.geometry);
          assert f in features;
        }
        if Selected(last, targets) && r in RingsOf(last.geometry) {
          assert last in features;
        }
        if exists f :: f in features && Selected(f, targets) && r in RingsOf(f.geometry) {
          var f :| f in features && Selected(f, targets) && r in RingsOf(f.geometry);
          if f != last { assert f in init; }
        }
      }
    }
  }

  /** Holes are loaded like outer rings, and every polygon of a MultiPolygon is. */
  lemma RingsOfGeometry(g: Geometry)
    ensures g.Polygon? ==> forall r :: r in RingsOf(g) <==> r in g.rings
    ensures g.MultiPolygon? ==> forall r :: r in RingsOf(g) <==> exists p :: p in g.polygons && r in p
    ensures g.OtherGeometry? ==> RingsOf(g) == []
  {
    if g.MultiPolygon? {
      FlattenSpec(g.polygons);
    }
  }

  /** A feature left out by the name filter contributes nothing, wherever it stands. */
  lemma {:induction false} UnselectedContributesNothing(features: seq<Feature>, f: Feature, more: seq<Feature>, targets: seq<string>)
    requires !Selected(f, targets)
    ensures SelectedRings(features + [f] + more, targets) == SelectedRings(features + more, targets)
    decreases |more|
  {
    if more == [] {
      assert (features + [f])[..|features|] == features;
      assert features + [f] + more == features + [f];
      assert features + more == features;
    } else {
      var init, last := more[..|more| - 1], more[|more| - 1];
      UnselectedContributesNothing(features, f, init, targets);
      assert (features + [f] + more)[..|features + [f] + more| - 1] == features + [f] + init;
      assert (features + more)[..|features + more| - 1] == features + init;
    }
  }
}
