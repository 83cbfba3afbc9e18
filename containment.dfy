/** The second step of outline cleaning: which features are removed as contained in another
    feature of the same `group_key`. The newer script groups the features, sorts each group
    by area and removes a feature when a later one in that order covers it (bounding box
    first, then geometry); the older one compares all pairs and asks for a strictly larger
    area. */
module Containment {
  import opened OutlineGeometry

  /** A feature of the outline layer: its id, its geometry and its `group_key` attribute. */
  datatype Feature = Feature(id: int, geom: Geometry, key: string)

  /** Feature ids of a layer are unique. */
  predicate DistinctIds(fs: seq<Feature>) {
    forall i, j :: 0 <= i < j < |fs| ==> fs[i].id != fs[j].id
  }

  function Area(ops: GeometryOps, f: Feature): real {
    ops.area(f.geom)
  }

  // ---------------------------------------------------------------- grouping

  /** `by_group[k]` after `by_group.setdefault(f["group_key"], []).append(f)` over all features. */
  function GroupOf(fs: seq<Feature>, k: string): seq<Feature> {
    if fs == [] then []
    else GroupOf(fs[..|fs| - 1], k) + (if fs[|fs| - 1].key == k then [fs[|fs| - 1]] else [])
  }

  /** The keys of `by_group`, in insertion order. */
  function Keys(fs: seq<Feature>): seq<string> {
    if fs == [] then []
    else
      var ks := Keys(fs[..|fs| - 1]);
      if fs[|fs| - 1].key in ks then ks else ks + [fs[|fs| - 1].key]
  }

  /** A group holds exactly the features with its key, and inherits distinct ids. */
  lemma {:induction false} GroupOfMeaning(fs: seq<Feature>, k: string)
    ensures forall f :: f in GroupOf(fs, k) <==> f in fs && f.key == k
    ensures DistinctIds(fs) ==> DistinctIds(GroupOf(fs, k))
  {
    if fs != [] {
      var init := fs[..|fs| - 1];
      var last := fs[|fs| - 1];
      GroupOfMeaning(init, k);
      assert fs == init + [last];
      if DistinctIds(fs) {
        assert DistinctIds(init);
        forall f | f in GroupOf(init, k) ensures f.id != last.id {
          var p :| 0 <= p < |init| && init[p] == f;
          assert fs[p] == f;
        }
      }
    }
  }

  lemma {:induction false} GroupOfEmpty(fs: seq<Feature>, k: string)
    requires forall i :: 0 <= i < |fs| ==> fs[i].key != k
    ensures GroupOf(fs, k) == []
  {
    if fs != [] {
      GroupOfEmpty(fs[..|fs| - 1], k);
    }
  }

  /** The keys are exactly the keys some feature carries. */
  lemma {:induction false} KeysMeaning(fs: seq<Feature>)
    ensures forall k :: k in Keys(fs) <==> exists i :: 0 <= i < |fs| && fs[i].key == k
  {
    if fs != [] {
      var init := fs[..|fs| - 1];
      KeysMeaning(init);
      forall k | k in Keys(fs) ensures exists i :: 0 <= i < |fs| && fs[i].key == k {
        if k in Keys(init) {
          var i :| 0 <= i < |init| && init[i].key == k;
          assert fs[i] == init[i];
        } else {
          assert fs[|fs| - 1].key == k;
        }
      }
      forall k | exists i :: 0 <= i < |fs| && fs[i].key == k ensures k in Keys(fs) {
        var i :| 0 <= i < |fs| && fs[i].key == k;
        if i < |init| {
          assert init[i] == fs[i];
        }
      }
    }
  }

  // ---------------------------------------------------------------- sorting by area

  predicate SortedByArea(ops: GeometryOps, s: seq<Feature>) {
    forall i, j :: 0 <= i < j < |s| ==> Area(ops, s[i]) <= Area(ops, s[j])
  }

  /** Inserts `x` in front of the first element whose area is not smaller. */
  function Insert(ops: GeometryOps, x: Feature, s: seq<Feature>): seq<Feature> {
    if s == [] || Area(ops, x) <= Area(ops, s[0]) then [x] + s
    else [s[0]] + Insert(ops, x, s[1..])
  }

  /** `sorted(arr, key=lambda f: f.geometry().area())`, a stable sort. */
  function SortByArea(ops: GeometryOps, arr: seq<Feature>): seq<Feature> {
    if arr == [] then [] else Insert(ops, arr[0], SortByArea(ops, arr[1..]))
  }

  lemma {:induction false} InsertKeeps(ops: GeometryOps, x: Feature, s: seq<Feature>)
    ensures multiset(Insert(ops, x, s)) == multiset(s) + multiset{x}
  {
    if s != [] && Area(ops, x) > Area(ops, s[0]) {
      InsertKeeps(ops, x, s[1..]);
      assert s == [s[0]] + s[1..];
    }
  }

  lemma {:induction false} InsertSorted(ops: GeometryOps, x: Feature, s: seq<Feature>)
    requires SortedByArea(ops, s)
    ensures SortedByArea(ops, Insert(ops, x, s))
  {
    if s != [] && Area(ops, x) > Area(ops, s[0]) {
      var t := Insert(ops, x, s[1..]);
      InsertSorted(ops, x, s[1..]);
      InsertKeeps(ops, x, s[1..]);
      forall y | y in t ensures Area(ops, s[0]) <= Area(ops, y) {
        assert y in multiset(t);
        if y != x {
          assert y in multiset(s[1..]);
        }
      }
      assert Insert(ops, x, s) == [s[0]] + t;
    }
  }

  lemma {:induction false} InsertDistinct(ops: GeometryOps, x: Feature, s: seq<Feature>)
    requires DistinctIds(s) && forall y :: y in s ==> y.id != x.id
    ensures DistinctIds(Insert(ops, x, s))
  {
    if s != [] && Area(ops, x) > Area(ops, s[0]) {
      var t := Insert(ops, x, s[1..]);
      InsertDistinct(ops, x, s[1..]);
      InsertKeeps(ops, x, s[1..]);
      forall y | y in t ensures y.id != s[0].id {
        assert y in multiset(t);
        if y != x {
          var p :| 0 <= p < |s[1..]| && s[1..][p] == y;
          assert s[p + 1] == y;
        }
      }
      assert Insert(ops, x, s) == [s[0]] + t;
    }
  }

  /** The sort orders by area, keeps every feature and keeps ids distinct. */
  lemma {:induction false} SortKeeps(ops: GeometryOps, arr: seq<Feature>)
    ensures multiset(SortByArea(ops, arr)) == multiset(arr)
  {
    if arr != [] {
      SortKeeps(ops, arr[1..]);
      InsertKeeps(ops, arr[0], SortByArea(ops, arr[1..]));
      assert arr == [arr[0]] + arr[1..];
    }
  }

  lemma {:induction false} SortSorted(ops: GeometryOps, arr: seq<Feature>)
    ensures SortedByArea(ops, SortByArea(ops, arr))
  {
    if arr != [] {
      SortSorted(ops, arr[1..]);
      InsertSorted(ops, arr[0], SortByArea(ops, arr[1..]));
    }
  }

  lemma {:induction false} SortDistinct(ops: GeometryOps, arr: seq<Feature>)
    requires DistinctIds(arr)
    ensures DistinctIds(SortByArea(ops, arr))
  {
    if arr != [] {
      SortDistinct(ops, arr[1..]);
      SortKeeps(ops, arr[1..]);
      forall y | y in SortByArea(ops, arr[1..]) ensures y.id != arr[0].id {
        assert y in multiset(SortByArea(ops, arr[1..]));
        var p :| 0 <= p < |arr[1..]| && arr[1..][p] == y;
        assert arr[p + 1] == y;
      }
      InsertDistinct(ops, arr[0], SortByArea(ops, arr[1..]));
    }
  }

  /** The features of `s` whose area is `a`, in the order of `s`. */
  function WithArea(ops: GeometryOps, s: seq<Feature>, a: real): seq<Feature> {
    if s == [] then []
    else (if Area(ops, s[0]) == a then [s[0]] else []) + WithArea(ops, s[1..], a)
  }

  /** `Insert` passes only features of smaller area, so among the features of one area the
      inserted one comes first. */
  lemma {:induction false} InsertWithArea(ops: GeometryOps, x: Feature, s: seq<Feature>, a: real)
    ensures WithArea(ops, Insert(ops, x, s), a)
      == (if Area(ops, x) == a then [x] else []) + WithArea(ops, s, a)
  {
    if s == [] || Area(ops, x) <= Area(ops, s[0]) {
      assert ([x] + s)[1..] == s;
    } else {
      InsertWithArea(ops, x, s[1..], a);
      assert ([s[0]] + Insert(ops, x, s[1..]))[1..] == Insert(ops, x, s[1..]);
    }
  }

  /** The sort is stable, like Python's `sorted`: features of equal area keep their input order. */
  lemma {:induction false} SortStable(ops: GeometryOps, arr: seq<Feature>, a: real)
    ensures WithArea(ops, SortByArea(ops, arr), a) == WithArea(ops, arr, a)
  {
    if arr != [] {
      SortStable(ops, arr[1..], a);
      InsertWithArea(ops, arr[0], SortByArea(ops, arr[1..]), a);
    }
  }

  /** A sorted group holds exactly the features of its key, in area order. */
  lemma SortedGroupMeaning(ops: GeometryOps, fs: seq<Feature>, k: string)
    ensures forall f :: f in SortByArea(ops, GroupOf(fs, k)) <==> f in fs && f.key == k
    ensures SortedByArea(ops, SortByArea(ops, GroupOf(fs, k)))
    ensures DistinctIds(fs) ==> DistinctIds(SortByArea(ops, GroupOf(fs, k)))
  {
    var group := GroupOf(fs, k);
    GroupOfMeaning(fs, k);
    SortKeeps(ops, group);
    SortSorted(ops, group);
    if DistinctIds(fs) {
      SortDistinct(ops, group);
    }
    forall f ensures f in SortByArea(ops, group) <==> f in group {
      assert f in multiset(SortByArea(ops, group)) <==> f in multiset(group);
    }
  }

  // ---------------------------------------------------------------- the newer rule

  /** `gb.boundingBox().contains(bb_s)` and `gb.contains(gs)`. */
  predicate Covers(ops: GeometryOps, big: Feature, small: Feature) {
    BoxContains(ops.bbox(big.geom), ops.bbox(small.geom)) && ops.contains(big.geom, small.geom)
  }

  /** Some feature after position `i` of the sorted group covers the one at `i`. */
  predicate HasLaterCover(ops: GeometryOps, arr: seq<Feature>, i: nat)
    requires i < |arr|
  {
    exists j :: i < j < |arr| && Covers(ops, arr[j], arr[i])
  }

  /** The ids the scan of a sorted group adds for its first `n` positions. */
  function RemovedUpTo(ops: GeometryOps, arr: seq<Feature>, n: nat): set<int>
    requires n <= |arr|
  {
    if n == 0 then {}
    else RemovedUpTo(ops, arr, n - 1) + (if HasLaterCover(ops, arr, n - 1) then {arr[n - 1].id} else {})
  }

  function RemovedInSorted(ops: GeometryOps, arr: seq<Feature>): set<int> {
    RemovedUpTo(ops, arr, |arr|)
  }

  lemma {:induction false} RemovedUpToMeaning(ops: GeometryOps, arr: seq<Feature>, n: nat)
    requires n <= |arr|
    ensures forall id :: id in RemovedUpTo(ops, arr, n) <==>
      exists i :: 0 <= i < n && HasLaterCover(ops, arr, i) && arr[i].id == id
  {
    if n > 0 {
      RemovedUpToMeaning(ops, arr, n - 1);
    }
  }

  /** The union, over the given group keys, of the ids removed from each sorted group. */
  function RemovedOverKeys(ops: GeometryOps, fs: seq<Feature>, ks: seq<string>): set<int> {
    if ks == [] then {}
    else RemovedOverKeys(ops, fs, ks[..|ks| - 1]) + RemovedInSorted(ops, SortByArea(ops, GroupOf(fs, ks[|ks| - 1])))
  }

  /** `remove_ids` of `clean_outline_layer_batch`. */
  function RemovedNew(ops: GeometryOps, fs: seq<Feature>): set<int> {
    RemovedOverKeys(ops, fs, Keys(fs))
  }

  lemma {:induction false} RemovedOverKeysMeaning(ops: GeometryOps, fs: seq<Feature>, ks: seq<string>)
    ensures forall id :: id in RemovedOverKeys(ops, fs, ks) <==>
      exists g :: 0 <= g < |ks| && id in RemovedInSorted(ops, SortByArea(ops, GroupOf(fs, ks[g])))
  {
    if ks != [] {
      var init := ks[..|ks| - 1];
      RemovedOverKeysMeaning(ops, fs, init);
      forall id ensures id in RemovedOverKeys(ops, fs, ks) <==>
        exists g :: 0 <= g < |ks| && id in RemovedInSorted(ops, SortByArea(ops, GroupOf(fs, ks[g])))
      {
        if exists g :: 0 <= g < |ks| && id in RemovedInSorted(ops, SortByArea(ops, GroupOf(fs, ks[g]))) {
          var g :| 0 <= g < |ks| && id in RemovedInSorted(ops, SortByArea(ops, GroupOf(fs, ks[g])));
          if g < |init| {
            assert ks[g] == init[g];
          }
        }
        if id in RemovedOverKeys(ops, fs, init) {
          var g :| 0 <= g < |init| && id in RemovedInSorted(ops, SortByArea(ops, GroupOf(fs, init[g])));
          assert ks[g] == init[g];
        }
      }
    }
  }

  /** A removed id comes from a position of some sorted group covered by a later position. */
  lemma RemovedNewWitness(ops: GeometryOps, fs: seq<Feature>, id: int) returns (k: string, a: nat, b: nat)
    requires id in RemovedNew(ops, fs)
    ensures k in Keys(fs)
    ensures var arr := SortByArea(ops, GroupOf(fs, k));
      a < b < |arr| && arr[a].id == id && Covers(ops, arr[b], arr[a])
  {
    RemovedOverKeysMeaning(ops, fs, Keys(fs));
    var g :| 0 <= g < |Keys(fs)| && id in RemovedInSorted(ops, SortByArea(ops, GroupOf(fs, Keys(fs)[g])));
    k := Keys(fs)[g];
    var arr := SortByArea(ops, GroupOf(fs, k));
    RemovedUpToMeaning(ops, arr, |arr|);
    a :| 0 <= a < |arr| && HasLaterCover(ops, arr, a) && arr[a].id == id;
    b :| a < b < |arr| && Covers(ops, arr[b], arr[a]);
  }

  /** What a sorted group removes, the layer removes. */
  lemma RemovedFromGroup(ops: GeometryOps, fs: seq<Feature>, k: string, a: nat)
    requires k in Keys(fs)
    requires a < |SortByArea(ops, GroupOf(fs, k))| && HasLaterCover(ops, SortByArea(ops, GroupOf(fs, k)), a)
    ensures SortByArea(ops, GroupOf(fs, k))[a].id in RemovedNew(ops, fs)
  {
    var arr := SortByArea(ops, GroupOf(fs, k));
    RemovedUpToMeaning(ops, arr, |arr|);
    RemovedOverKeysMeaning(ops, fs, Keys(fs));
    var g :| 0 <= g < |Keys(fs)| && Keys(fs)[g] == k;
  }

  /** A removed id belongs to a feature covered by a feature of the same group whose area is
      not smaller; with unique ids the two are different features. */
  lemma RemovedNewHasCover(ops: GeometryOps, fs: seq<Feature>, id: int)
    requires DistinctIds(fs)
    requires id in RemovedNew(ops, fs)
    ensures exists i, j ::
      && 0 <= i < |fs| && 0 <= j < |fs| && fs[i].id == id && fs[j].id != id
      && fs[j].key == fs[i].key && Area(ops, fs[j]) >= Area(ops, fs[i]) && Covers(ops, fs[j], fs[i])
  {
    var k, a, b := RemovedNewWitness(ops, fs, id);
    var arr := SortByArea(ops, GroupOf(fs, k));
    SortedGroupMeaning(ops, fs, k);
    assert arr[a] in arr && arr[b] in arr;
    assert arr[a].id != arr[b].id;
    var i :| 0 <= i < |fs| && fs[i] == arr[a];
    var j :| 0 <= j < |fs| && fs[j] == arr[b];
  }

  /** A feature with a strictly larger cover in its group is removed. */
  lemma RemovedNewByLargerCover(ops: GeometryOps, fs: seq<Feature>, i: nat, j: nat)
    requires i < |fs| && j < |fs|
    requires fs[j].key == fs[i].key && Area(ops, fs[j]) > Area(ops, fs[i]) && Covers(ops, fs[j], fs[i])
    ensures fs[i].id in RemovedNew(ops, fs)
  {
    var k := fs[i].key;
    var arr := SortByArea(ops, GroupOf(fs, k));
    KeysMeaning(fs);
    SortedGroupMeaning(ops, fs, k);
    assert fs[i] in arr && fs[j] in arr;
    var a :| 0 <= a < |arr| && arr[a] == fs[i];
    var b :| 0 <= b < |arr| && arr[b] == fs[j];
    assert a < b;
    assert HasLaterCover(ops, arr, a);
    RemovedFromGroup(ops, fs, k, a);
  }

  /** The largest feature of each sorted group, the last one, always survives. */
  lemma LastOfGroupSurvives(ops: GeometryOps, fs: seq<Feature>, k: string)
    requires DistinctIds(fs)
    requires SortByArea(ops, GroupOf(fs, k)) != []
    ensures var arr := SortByArea(ops, GroupOf(fs, k)); arr[|arr| - 1].id !in RemovedNew(ops, fs)
  {
    var arr := SortByArea(ops, GroupOf(fs, k));
    var top := arr[|arr| - 1];
    SortedGroupMeaning(ops, fs, k);
    assert top in arr;
    if top.id in RemovedNew(ops, fs) {
      var k2, a, b := RemovedNewWitness(ops, fs, top.id);
      var arr2 := SortByArea(ops, GroupOf(fs, k2));
      SortedGroupMeaning(ops, fs, k2);
      assert arr2[a] in arr2;
      SameIdSameFeature(fs, arr2[a], top);
    }
  }

  lemma SameIdSameFeature(fs: seq<Feature>, f: Feature, h: Feature)
    requires DistinctIds(fs) && f in fs && h in fs && f.id == h.id
    ensures f == h
  {
    var p :| 0 <= p < |fs| && fs[p] == f;
    var q :| 0 <= q < |fs| && fs[q] == h;
    assert !(p < q) && !(q < p);
  }

  /** Hence no group is removed entirely. */
  lemma EveryGroupKeepsOne(ops: GeometryOps, fs: seq<Feature>, k: string)
    requires DistinctIds(fs)
    requires exists i :: 0 <= i < |fs| && fs[i].key == k
    ensures exists i :: 0 <= i < |fs| && fs[i].key == k && fs[i].id !in RemovedNew(ops, fs)
  {
    var i :| 0 <= i < |fs| && fs[i].key == k;
    SortedGroupMeaning(ops, fs, k);
    var arr := SortByArea(ops, GroupOf(fs, k));
    assert fs[i] in arr;
    LastOfGroupSurvives(ops, fs, k);
    var top := arr[|arr| - 1];
    assert top in arr;
    var j :| 0 <= j < |fs| && fs[j] == top;
  }

  // ---------------------------------------------------------------- the older rule

  /** Feature `j` is another feature of `i`'s group that contains it and is strictly larger. */
  predicate BiggerContainer(ops: GeometryOps, fs: seq<Feature>, j: nat, i: nat)
    requires i < |fs| && j < |fs|
  {
    j != i && fs[j].key == fs[i].key && ops.contains(fs[j].geom, fs[i].geom) && Area(ops, fs[j]) > Area(ops, fs[i])
  }

  predicate HasBiggerContainer(ops: GeometryOps, fs: seq<Feature>, i: nat)
    requires i < |fs|
  {
    exists j :: 0 <= j < |fs| && BiggerContainer(ops, fs, j, i)
  }

  function RemovedOldUpTo(ops: GeometryOps, fs: seq<Feature>, n: nat): set<int>
    requires n <= |fs|
  {
    if n == 0 then {}
    else RemovedOldUpTo(ops, fs, n - 1) + (if HasBiggerContainer(ops, fs, n - 1) then {fs[n - 1].id} else {})
  }

  /** `remove_ids` of `clean_outline_layer`. */
  function RemovedOld(ops: GeometryOps, fs: seq<Feature>): set<int> {
    RemovedOldUpTo(ops, fs, |fs|)
  }

  lemma {:induction false} RemovedOldUpToMeaning(ops: GeometryOps, fs: seq<Feature>, n: nat)
    requires n <= |fs|
    ensures forall id :: id in RemovedOldUpTo(ops, fs, n) <==>
      exists i :: 0 <= i < n && HasBiggerContainer(ops, fs, i) && fs[i].id == id
  {
    if n > 0 {
      RemovedOldUpToMeaning(ops, fs, n - 1);
    }
  }

  /** The older rule removes a feature exactly when another feature of its group contains it
      and is strictly larger. */
  lemma RemovedOldMeaning(ops: GeometryOps, fs: seq<Feature>, id: int)
    ensures id in RemovedOld(ops, fs) <==>
      exists i, j ::
        && 0 <= i < |fs| && 0 <= j < |fs| && fs[i].id == id && j != i && fs[j].key == fs[i].key
        && ops.contains(fs[j].geom, fs[i].geom) && Area(ops, fs[j]) > Area(ops, fs[i])
  {
    RemovedOldUpToMeaning(ops, fs, |fs|);
    if exists i, j :: 0 <= i < |fs| && 0 <= j < |fs| && fs[i].id == id && j != i && fs[j].key == fs[i].key &&
        ops.contains(fs[j].geom, fs[i].geom) && Area(ops, fs[j]) > Area(ops, fs[i]) {
      var i, j :| 0 <= i < |fs| && 0 <= j < |fs| && fs[i].id == id && j != i && fs[j].key == fs[i].key &&
        ops.contains(fs[j].geom, fs[i].geom) && Area(ops, fs[j]) > Area(ops, fs[i]);
      assert BiggerContainer(ops, fs, j, i);
    }
  }

  /** A feature of largest area in its group is never removed by the older rule. */
  lemma OldMaxAreaSurvives(ops: GeometryOps, fs: seq<Feature>, i: nat)
    requires DistinctIds(fs)
    requires i < |fs|
    requires forall j :: 0 <= j < |fs| && fs[j].key == fs[i].key ==> Area(ops, fs[j]) <= Area(ops, fs[i])
    ensures fs[i].id !in RemovedOld(ops, fs)
  {
    RemovedOldUpToMeaning(ops, fs, |fs|);
    if fs[i].id in RemovedOld(ops, fs) {
      var p :| 0 <= p < |fs| && HasBiggerContainer(ops, fs, p) && fs[p].id == fs[i].id;
    }
  }

  // ---------------------------------------------------------------- the two rules compared

  /** Geometric containment implies bounding-box containment. */
  ghost predicate ContainsImpliesBox(ops: GeometryOps) {
    forall a, b :: ops.contains(a, b) ==> BoxContains(ops.bbox(a), ops.bbox(b))
  }

  /** Everything the older rule removes, the newer one removes too. */
  lemma OldRemovalsAreNewRemovals(ops: GeometryOps, fs: seq<Feature>)
    requires ContainsImpliesBox(ops)
    ensures RemovedOld(ops, fs) <= RemovedNew(ops, fs)
  {
    RemovedOldUpToMeaning(ops, fs, |fs|);
    forall id | id in RemovedOld(ops, fs) ensures id in RemovedNew(ops, fs) {
      var i :| 0 <= i < |fs| && HasBiggerContainer(ops, fs, i) && fs[i].id == id;
      var j :| 0 <= j < |fs| && BiggerContainer(ops, fs, j, i);
      RemovedNewByLargerCover(ops, fs, i, j);
    }
  }

  /** When no two features of a group have the same area, the newer rule removes nothing
      more than the older one. */
  lemma NewRemovalsAreOldWhenAreasDiffer(ops: GeometryOps, fs: seq<Feature>)
    requires DistinctIds(fs)
    requires forall i, j :: 0 <= i < j < |fs| && fs[i].key == fs[j].key ==> Area(ops, fs[i]) != Area(ops, fs[j])
    ensures RemovedNew(ops, fs) <= RemovedOld(ops, fs)
  {
    forall id | id in RemovedNew(ops, fs) ensures id in RemovedOld(ops, fs) {
      RemovedNewHasCover(ops, fs, id);
      var i, j :| 0 <= i < |fs| && 0 <= j < |fs| && fs[i].id == id && fs[j].id != id &&
        fs[j].key == fs[i].key && Area(ops, fs[j]) >= Area(ops, fs[i]) && Covers(ops, fs[j], fs[i]);
      assert i != j;
      assert Area(ops, fs[j]) != Area(ops, fs[i]);
      RemovedOldMeaning(ops, fs, id);
    }
  }

  /** Two features of one group with the same geometry: the older rule keeps both, since
      neither has a strictly larger area than the other. */
  lemma TwinsOld(ops: GeometryOps, g: Geometry)
    ensures RemovedOld(ops, [Feature(1, g, "5"), Feature(2, g, "5")]) == {}
  {
    var fs := [Feature(1, g, "5"), Feature(2, g, "5")];
    assert !HasBiggerContainer(ops, fs, 0);
    assert !HasBiggerContainer(ops, fs, 1);
    assert RemovedOldUpTo(ops, fs, 1) == {};
  }

  lemma TwinsGroup(g: Geometry)
    ensures var fs := [Feature(1, g, "5"), Feature(2, g, "5")];
      Keys(fs) == ["5"] && GroupOf(fs, "5") == fs
  {
    var fs := [Feature(1, g, "5"), Feature(2, g, "5")];
    assert fs[..1] == [fs[0]] && fs[..1][..0] == [];
    assert Keys(fs[..1]) == ["5"];
    assert GroupOf(fs[..1], "5") == [fs[0]];
  }

  /** The newer rule removes the first of the same two features: the stable sort keeps it
      before the second, which covers it. */
  lemma TwinsNew(ops: GeometryOps, g: Geometry)
    requires ops.contains(g, g)
    ensures RemovedNew(ops, [Feature(1, g, "5"), Feature(2, g, "5")]) == {1}
  {
    var fs := [Feature(1, g, "5"), Feature(2, g, "5")];
    TwinsGroup(g);
    assert fs[1..] == [fs[1]] && fs[1..][1..] == [];
    assert SortByArea(ops, fs[1..]) == [fs[1]];
    assert SortByArea(ops, fs) == fs;
    assert HasLaterCover(ops, fs, 0);
    assert RemovedUpTo(ops, fs, 1) == {1};
    assert RemovedInSorted(ops, fs) == {1};
    assert ["5"][..0] == [];
    assert RemovedOverKeys(ops, fs, ["5"]) == {} + RemovedInSorted(ops, SortByArea(ops, GroupOf(fs, "5")));
  }

  // ---------------------------------------------------------------- the loops

  /** `by_group.setdefault(f["group_key"], []).append(f)` over the features. */
  method GroupFeatures(fs: seq<Feature>) returns (keys: seq<string>, groups: map<string, seq<Feature>>)
    ensures keys == Keys(fs)
    ensures forall k :: k in groups <==> k in keys
    ensures forall k :: k in groups ==> groups[k] == GroupOf(fs, k)
  {
    keys := [];
    groups := map[];
    var i := 0;
    while i < |fs|
      invariant 0 <= i <= |fs|
      invariant keys == Keys(fs[..i])
      invariant forall k :: k in groups <==> k in keys
      invariant forall k :: k in groups ==> groups[k] == GroupOf(fs[..i], k)
    {
      var f := fs[i];
      assert fs[..i + 1][..i] == fs[..i];
      if f.key !in groups {
        KeysMeaning(fs[..i]);
        GroupOfEmpty(fs[..i], f.key);
        keys := keys + [f.key];
        groups := groups[f.key := []];
      }
      groups := groups[f.key := groups[f.key] + [f]];
      assert fs[..i + 1][i] == f;
      assert forall k :: GroupOf(fs[..i + 1], k) == GroupOf(fs[..i], k) + (if f.key == k then [f] else []);
      i := i + 1;
    }
    assert fs[..i] == fs;
  }

  /** The scan of one sorted group (`for i, f_small in enumerate(arr)` with its inner
      `for f_big in arr[i+1:]`), adding to `removed`. */
  method ScanSorted(ops: GeometryOps, arr: seq<Feature>, removed: set<int>) returns (r: set<int>)
    ensures r == removed + RemovedInSorted(ops, arr)
  {
    r := removed;
    var i := 0;
    while i < |arr|
      invariant 0 <= i <= |arr|
      invariant r == removed + RemovedUpTo(ops, arr, i)
    {
      var small := arr[i];
      var bbS := ops.bbox(small.geom);
      var found := false;
      var j := i + 1;
      while j < |arr| && !found
        invariant i + 1 <= j <= |arr|
        invariant found ==> HasLaterCover(ops, arr, i) && r == removed + RemovedUpTo(ops, arr, i) + {small.id}
        invariant !found ==> r == removed + RemovedUpTo(ops, arr, i)
        invariant !found ==> forall b :: i < b < j ==> !Covers(ops, arr[b], small)
      {
        var big := arr[j];
        if BoxContains(ops.bbox(big.geom), bbS) && ops.contains(big.geom, small.geom) {
          assert Covers(ops, arr[j], arr[i]);
          r := r + {small.id};
          found := true;
        }
        j := j + 1;
      }
      i := i + 1;
    }
  }

  /** The containment part of `clean_outline_layer_batch`: group, sort each group by area and
      scan it. */
  method ContainedIdsNew(ops: GeometryOps, fs: seq<Feature>) returns (r: set<int>)
    ensures r == RemovedNew(ops, fs)
  {
    var keys, groups := GroupFeatures(fs);
    r := {};
    var g := 0;
    while g < |keys|
      invariant 0 <= g <= |keys|
      invariant r == RemovedOverKeys(ops, fs, keys[..g])
    {
      var arr := SortByArea(ops, groups[keys[g]]);
      r := ScanSorted(ops, arr, r);
      assert keys[..g + 1][..g] == keys[..g];
      g := g + 1;
    }
    assert keys[..g] == keys;
  }

  /** The i/j double loop of `clean_outline_layer`. */
  method ContainedIdsOld(ops: GeometryOps, fs: seq<Feature>) returns (r: set<int>)
    ensures r == RemovedOld(ops, fs)
  {
    r := {};
    var i := 0;
    while i < |fs|
      invariant 0 <= i <= |fs|
      invariant r == RemovedOldUpTo(ops, fs, i)
    {
      var areaI := ops.area(fs[i].geom);
      var found := false;
      var j := 0;
      while j < |fs| && !found
        invariant 0 <= j <= |fs|
        invariant found ==> HasBiggerContainer(ops, fs, i) && r == RemovedOldUpTo(ops, fs, i) + {fs[i].id}
        invariant !found ==> r == RemovedOldUpTo(ops, fs, i)
        invariant !found ==> forall b :: 0 <= b < j ==> !BiggerContainer(ops, fs, b, i)
      {
        if i != j && fs[i].key == fs[j].key {
          var areaJ := ops.area(fs[j].geom);
          if ops.contains(fs[j].geom, fs[i].geom) && areaJ > areaI {
            assert BiggerContainer(ops, fs, j, i);
            r := r + {fs[i].id};
            found := true;
          }
        }
        j := j + 1;
      }
      i := i + 1;
    }
  }
}
