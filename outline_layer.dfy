/** The outline layer and its two cleaners, `clean_outline_layer_batch` (newer script) and
    `clean_outline_layer` (older script): reduce every geometry to its exterior rings, write the
    new geometries, then delete the features contained in a feature of their group. */
module OutlineLayer {
  import opened Wrappers
  import opened Text
  import opened OutlineGeometry
  import opened Containment

  /** The loop over `parts` that collects `[poly[0]]` of every non-empty part. */
  method ExteriorsOf(ps: seq<Polygon>) returns (ex: seq<Polygon>)
    ensures ex == Exteriors(ps)
  {
    ex := [];
    var i := 0;
    while i < |ps|
      invariant 0 <= i <= |ps|
      invariant ex == Exteriors(ps[..i])
    {
      assert ps[..i + 1][..i] == ps[..i];
      if |ps[i]| > 0 {
        ex := ex + [[ps[i][0]]];
      }
      i := i + 1;
    }
    assert ps[..i] == ps;
  }

  // ---------------------------------------------------------------- writing geometries

  /** The `changes` dictionary after the first loop of `clean_outline_layer_batch`: a later
      feature with the same id overwrites an earlier entry. */
  function BatchChanges(ops: GeometryOps, fs: seq<Feature>): map<int, Geometry> {
    if fs == [] then map[]
    else
      var m := BatchChanges(ops, fs[..|fs| - 1]);
      var f := fs[|fs| - 1];
      match BatchChange(ops, f.geom)
      case Some(h) => m[f.id := h]
      case None => m
  }

  /** The geometries the older cleaner writes, by id, in the order it writes them. */
  function OldChanges(fs: seq<Feature>): map<int, Geometry> {
    if fs == [] then map[]
    else
      var m := OldChanges(fs[..|fs| - 1]);
      var f := fs[|fs| - 1];
      match OldChange(f.geom)
      case Some(h) => m[f.id := h]
      case None => m
  }

  /** `changeGeometryValues(changes)`: every feature whose id has an entry gets that geometry. */
  function ApplyChanges(fs: seq<Feature>, changes: map<int, Geometry>): (r: seq<Feature>)
    ensures |r| == |fs|
  {
    seq(|fs|, i requires 0 <= i < |fs| => if fs[i].id in changes then fs[i].(geom := changes[fs[i].id]) else fs[i])
  }

  /** With unique ids, writing the collected changes gives every feature its reduced geometry. */
  lemma {:induction false} BatchChangesApply(ops: GeometryOps, fs: seq<Feature>)
    requires DistinctIds(fs)
    ensures forall i :: 0 <= i < |fs| ==>
      ApplyChanges(fs, BatchChanges(ops, fs))[i] == fs[i].(geom := BatchApply(ops, fs[i].geom))
  {
    BatchChangesLookup(ops, fs);
  }

  lemma {:induction false} BatchChangesLookup(ops: GeometryOps, fs: seq<Feature>)
    requires DistinctIds(fs)
    ensures forall i :: 0 <= i < |fs| ==>
      (fs[i].id in BatchChanges(ops, fs) <==> BatchChange(ops, fs[i].geom).Some?) &&
      (fs[i].id in BatchChanges(ops, fs) ==> BatchChanges(ops, fs)[fs[i].id] == BatchChange(ops, fs[i].geom).value)
    ensures forall id :: id in BatchChanges(ops, fs) ==> exists i :: 0 <= i < |fs| && fs[i].id == id
  {
    if fs != [] {
      var init := fs[..|fs| - 1];
      assert DistinctIds(init);
      BatchChangesLookup(ops, init);
      forall i | 0 <= i < |init| ensures fs[i] == init[i] && fs[i].id != fs[|fs| - 1].id {
      }
    }
  }

  lemma {:induction false} OldChangesLookup(fs: seq<Feature>)
    requires DistinctIds(fs)
    ensures forall i :: 0 <= i < |fs| ==>
      (fs[i].id in OldChanges(fs) <==> OldChange(fs[i].geom).Some?) &&
      (fs[i].id in OldChanges(fs) ==> OldChanges(fs)[fs[i].id] == OldChange(fs[i].geom).value)
    ensures forall id :: id in OldChanges(fs) ==> exists i :: 0 <= i < |fs| && fs[i].id == id
  {
    if fs != [] {
      var init := fs[..|fs| - 1];
      assert DistinctIds(init);
      OldChangesLookup(init);
      forall i | 0 <= i < |init| ensures fs[i] == init[i] && fs[i].id != fs[|fs| - 1].id {
      }
    }
  }

  /** With unique ids, the older cleaner gives every feature its reduced geometry. */
  lemma OldChangesApply(fs: seq<Feature>)
    requires DistinctIds(fs)
    ensures forall i :: 0 <= i < |fs| ==> ApplyChanges(fs, OldChanges(fs))[i] == fs[i].(geom := OldApply(fs[i].geom))
  {
    OldChangesLookup(fs);
  }

  /** Writing a geometry keeps every id, so the feature ids stay unique. */
  lemma ApplyKeepsIds(fs: seq<Feature>, changes: map<int, Geometry>)
    ensures forall i :: 0 <= i < |fs| ==> ApplyChanges(fs, changes)[i].id == fs[i].id
    ensures DistinctIds(fs) ==> DistinctIds(ApplyChanges(fs, changes))
  {
  }

  lemma ApplyTwice(fs: seq<Feature>, m: map<int, Geometry>, id: int, g: Geometry)
    ensures ApplyChanges(ApplyChanges(fs, m), map[id := g]) == ApplyChanges(fs, m[id := g])
  {
  }

  // ---------------------------------------------------------------- deleting features

  function Ids(fs: seq<Feature>): set<int> {
    if fs == [] then {} else Ids(fs[..|fs| - 1]) + {fs[|fs| - 1].id}
  }

  lemma {:induction false} IdsMeaning(fs: seq<Feature>)
    ensures forall id :: id in Ids(fs) <==> exists i :: 0 <= i < |fs| && fs[i].id == id
  {
    if fs != [] {
      var init := fs[..|fs| - 1];
      IdsMeaning(init);
      forall id | id in Ids(fs) ensures exists i :: 0 <= i < |fs| && fs[i].id == id {
        if id in Ids(init) {
          var i :| 0 <= i < |init| && init[i].id == id;
          assert fs[i] == init[i];
        } else {
          assert fs[|fs| - 1].id == id;
        }
      }
      forall id | exists i :: 0 <= i < |fs| && fs[i].id == id ensures id in Ids(fs) {
        var i :| 0 <= i < |fs| && fs[i].id == id;
        if i < |init| {
          assert init[i] == fs[i];
        }
      }
    }
  }

  /** The layer after `deleteFeature(fid)` for every `fid` in `ids`. */
  function DeleteIds(fs: seq<Feature>, ids: set<int>): seq<Feature> {
    if fs == [] then []
    else DeleteIds(fs[..|fs| - 1], ids) + (if fs[|fs| - 1].id in ids then [] else [fs[|fs| - 1]])
  }

  /** Deleting keeps exactly the features whose id is not deleted, in order. */
  lemma {:induction false} DeleteIdsMeaning(fs: seq<Feature>, ids: set<int>)
    ensures forall f :: f in DeleteIds(fs, ids) <==> f in fs && f.id !in ids
  {
    if fs != [] {
      DeleteIdsMeaning(fs[..|fs| - 1], ids);
      assert fs == fs[..|fs| - 1] + [fs[|fs| - 1]];
    }
  }

  lemma {:induction false} DeleteIdsTwice(fs: seq<Feature>, a: set<int>, b: set<int>)
    ensures DeleteIds(DeleteIds(fs, a), b) == DeleteIds(fs, a + b)
  {
    if fs != [] {
      var init := fs[..|fs| - 1];
      var last := fs[|fs| - 1];
      DeleteIdsTwice(init, a, b);
      if last.id !in a {
        var d := DeleteIds(init, a) + [last];
        assert d[..|d| - 1] == DeleteIds(init, a);
        assert d[|d| - 1] == last;
        assert DeleteIds(fs, a) == d;
      } else {
        assert DeleteIds(fs, a) == DeleteIds(init, a) + [];
        assert DeleteIds(init, a) + [] == DeleteIds(init, a);
      }
    }
  }

  /** With unique ids, the layer loses exactly as many features as there are deleted ids of it. */
  lemma {:induction false} DeleteIdsCount(fs: seq<Feature>, ids: set<int>)
    requires DistinctIds(fs)
    ensures |DeleteIds(fs, ids)| == |fs| - |ids * Ids(fs)|
  {
    if fs != [] {
      var init := fs[..|fs| - 1];
      var last := fs[|fs| - 1];
      assert DistinctIds(init);
      DeleteIdsCount(init, ids);
      IdsMeaning(init);
      assert last.id !in Ids(init);
      if last.id in ids {
        assert ids * Ids(fs) == (ids * Ids(init)) + {last.id};
      } else {
        assert ids * Ids(fs) == ids * Ids(init);
      }
    }
  }

  /** Every removed id, under either rule, is the id of a feature of the layer. */
  lemma RemovedAreIds(ops: GeometryOps, fs: seq<Feature>)
    ensures RemovedNew(ops, fs) <= Ids(fs)
    ensures RemovedOld(ops, fs) <= Ids(fs)
  {
    IdsMeaning(fs);
    forall id | id in RemovedNew(ops, fs) ensures id in Ids(fs) {
      var k, a, b := RemovedNewWitness(ops, fs, id);
      var arr := SortByArea(ops, GroupOf(fs, k));
      SortedGroupMeaning(ops, fs, k);
      assert arr[a] in arr;
      var i :| 0 <= i < |fs| && fs[i] == arr[a];
    }
    RemovedOldUpToMeaning(ops, fs, |fs|);
    forall id | id in RemovedOld(ops, fs) ensures id in Ids(fs) {
      var i :| 0 <= i < |fs| && HasBiggerContainer(ops, fs, i) && fs[i].id == id;
    }
  }

  // ---------------------------------------------------------------- messages

  /** The message of `clean_outline_layer_batch`. */
  function BatchMessage(removed: nat): string {
    if removed > 0 then "Removed " + NatToString(removed) + " contained boundaries."
    else "No contained boundaries removed."
  }

  /** The message of `clean_outline_layer`. */
  function OldMessage(removed: nat): string {
    if removed > 0 then "Removed contained boundaries." else "No contained boundaries removed."
  }

  /** The layer the newer cleaner leaves, from the layer it was given. */
  function BatchCleaned(ops: GeometryOps, fs: seq<Feature>): seq<Feature> {
    var reduced := ApplyChanges(fs, BatchChanges(ops, fs));
    DeleteIds(reduced, RemovedNew(ops, reduced))
  }

  function OldCleaned(ops: GeometryOps, fs: seq<Feature>): seq<Feature> {
    var reduced := ApplyChanges(fs, OldChanges(fs));
    DeleteIds(reduced, RemovedOld(ops, reduced))
  }

  /** The newer cleaner deletes exactly the features its message counts, and keeps every
      feature that is not contained, with its reduced geometry. */
  lemma BatchCleanedMeaning(ops: GeometryOps, fs: seq<Feature>)
    requires DistinctIds(fs)
    ensures var reduced := ApplyChanges(fs, BatchChanges(ops, fs));
      && |BatchCleaned(ops, fs)| == |fs| - |RemovedNew(ops, reduced)|
      && forall i :: 0 <= i < |fs| ==>
           (fs[i].(geom := BatchApply(ops, fs[i].geom)) in BatchCleaned(ops, fs) <==> fs[i].id !in RemovedNew(ops, reduced))
  {
    var reduced := ApplyChanges(fs, BatchChanges(ops, fs));
    ApplyKeepsIds(fs, BatchChanges(ops, fs));
    BatchChangesApply(ops, fs);
    RemovedAreIds(ops, reduced);
    DeleteIdsCount(reduced, RemovedNew(ops, reduced));
    assert RemovedNew(ops, reduced) * Ids(reduced) == RemovedNew(ops, reduced);
    DeleteIdsMeaning(reduced, RemovedNew(ops, reduced));
    forall i | 0 <= i < |fs| ensures fs[i].(geom := BatchApply(ops, fs[i].geom)) in reduced {
      assert reduced[i] == fs[i].(geom := BatchApply(ops, fs[i].geom));
    }
  }

  lemma OldCleanedMeaning(ops: GeometryOps, fs: seq<Feature>)
    requires DistinctIds(fs)
    ensures var reduced := ApplyChanges(fs, OldChanges(fs));
      && |OldCleaned(ops, fs)| == |fs| - |RemovedOld(ops, reduced)|
      && forall i :: 0 <= i < |fs| ==>
           (fs[i].(geom := OldApply(fs[i].geom)) in OldCleaned(ops, fs) <==> fs[i].id !in RemovedOld(ops, reduced))
  {
    var reduced := ApplyChanges(fs, OldChanges(fs));
    ApplyKeepsIds(fs, OldChanges(fs));
    OldChangesApply(fs);
    RemovedAreIds(ops, reduced);
    DeleteIdsCount(reduced, RemovedOld(ops, reduced));
    assert RemovedOld(ops, reduced) * Ids(reduced) == RemovedOld(ops, reduced);
    DeleteIdsMeaning(reduced, RemovedOld(ops, reduced));
    forall i | 0 <= i < |fs| ensures fs[i].(geom := OldApply(fs[i].geom)) in reduced {
      assert reduced[i] == fs[i].(geom := OldApply(fs[i].geom));
    }
  }

  // ---------------------------------------------------------------- the layer

  class Layer {
    var features: seq<Feature>

    constructor (features: seq<Feature>)
      ensures this.features == features
    {
      this.features := features;
    }

    /** `layer.changeGeometry(fid, g)`. */
    method ChangeGeometry(fid: int, g: Geometry)
      modifies this
      ensures features == ApplyChanges(old(features), map[fid := g])
    {
      features := ApplyChanges(features, map[fid := g]);
    }

    /** `layer.deleteFeature(fid)`. */
    method DeleteFeature(fid: int)
      modifies this
      ensures features == DeleteIds(old(features), {fid})
    {
      features := DeleteIds(features, {fid});
    }

    /** `with edit(layer): for fid in remove_ids: layer.deleteFeature(fid)`, in whatever order
        the set yields its ids: the layer that results is the same for every order. */
    method DeleteAll(ids: set<int>)
      modifies this
      ensures features == DeleteIds(old(features), ids)
    {
      ghost var start := features;
      var left := ids;
      DeleteIdsNone(start);
      assert ids - left == {};
      while left != {}
        invariant left <= ids
        invariant features == DeleteIds(start, ids - left)
        decreases left
      {
        EmptyOrMember(left);
        var fid :| fid in left;
        DeleteFeature(fid);
        DeleteIdsTwice(start, ids - left, {fid});
        assert (ids - left) + {fid} == ids - (left - {fid});
        left := left - {fid};
      }
      assert ids - left == ids;
    }

    /** `clean_outline_layer_batch`. */
    method CleanBatch(ops: GeometryOps) returns (msg: string)
      modifies this
      ensures features == BatchCleaned(ops, old(features))
      ensures msg == BatchMessage(|RemovedNew(ops, ApplyChanges(old(features), BatchChanges(ops, old(features))))|)
    {
      var changes := CollectChanges(ops, features);
      if changes != map[] {
        features := ApplyChanges(features, changes);
      } else {
        assert ApplyChanges(features, changes) == features;
      }
      var removeIds := ContainedIdsNew(ops, features);
      if removeIds != {} {
        DeleteAll(removeIds);
        return "Removed " + NatToString(|removeIds|) + " contained boundaries.";
      }
      DeleteIdsNone(features);
      return "No contained boundaries removed.";
    }

    /** `clean_outline_layer`: one `changeGeometry` per reduced feature, then the all-pairs scan. */
    method Clean(ops: GeometryOps) returns (msg: string)
      modifies this
      ensures features == OldCleaned(ops, old(features))
      ensures msg == OldMessage(|RemovedOld(ops, ApplyChanges(old(features), OldChanges(old(features))))|)
    {
      var snapshot := features;
      assert ApplyChanges(snapshot, map[]) == snapshot;
      var i := 0;
      while i < |snapshot|
        invariant 0 <= i <= |snapshot|
        invariant features == ApplyChanges(snapshot, OldChanges(snapshot[..i]))
      {
        var f := snapshot[i];
        assert snapshot[..i + 1][..i] == snapshot[..i];
        assert snapshot[..i + 1][i] == f;
        var change: Option<Geometry> := None;
        match f.geom {
          case Single(p) =>
            if |p| > 0 {
              change := Some(Single([p[0]]));
            }
          case Multi(ps) =>
            if ps != [] {
              var ex := ExteriorsOf(ps);
              change := Some(Multi(ex));
            }
          case Null =>
        }
        if change.Some? {
          ApplyTwice(snapshot, OldChanges(snapshot[..i]), f.id, change.value);
          ChangeGeometry(f.id, change.value);
        }
        i := i + 1;
      }
      assert snapshot[..i] == snapshot;
      var removeIds := ContainedIdsOld(ops, features);
      if removeIds != {} {
        DeleteAll(removeIds);
        return "Removed contained boundaries.";
      }
      DeleteIdsNone(features);
      return "No contained boundaries removed.";
    }
  }

  /** A set is empty or has a member; lets a loop pick the next id of a set to delete. */
  lemma EmptyOrMember(s: set<int>)
    ensures s == {} || exists x :: x in s
  {
    if forall x :: x !in s {
      assert s == {};
    }
  }

  lemma {:induction false} DeleteIdsNone(fs: seq<Feature>)
    ensures DeleteIds(fs, {}) == fs
  {
    if fs != [] {
      DeleteIdsNone(fs[..|fs| - 1]);
      assert fs == fs[..|fs| - 1] + [fs[|fs| - 1]];
    }
  }

  /** The first loop of `clean_outline_layer_batch`, filling `changes`. */
  method CollectChanges(ops: GeometryOps, fs: seq<Feature>) returns (changes: map<int, Geometry>)
    ensures changes == BatchChanges(ops, fs)
  {
    changes := map[];
    var i := 0;
    while i < |fs|
      invariant 0 <= i <= |fs|
      invariant changes == BatchChanges(ops, fs[..i])
    {
      var f := fs[i];
      assert fs[..i + 1][..i] == fs[..i];
      assert fs[..i + 1][i] == f;
      var g := f.geom;
      if !IsEmpty(g) {
        if !ops.isValid(g) {
          g := ops.makeValid(g);
        }
        match g {
          case Multi(ps) =>
            var ex := ExteriorsOf(ps);
            if ex != [] {
              changes := changes[f.id := Multi(ex)];
            }
          case Single(p) =>
            if |p| > 0 {
              changes := changes[f.id := Single([p[0]])];
            }
          case Null =>
        }
      }
      i := i + 1;
    }
    assert fs[..i] == fs;
  }
}
