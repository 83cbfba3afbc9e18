/** Blank-tile pruning: after the tiles of a layer are written, every PNG tile whose pixels
    are all transparent is deleted. The directory is given as the listing a walk produces;
    each file carries what the operating system and the image decoder would report about it. */
module Tiles {
  import opened Wrappers
  import opened Text

  /** `BLANK_TILE_SIZE_BYTES`: a tile larger than this is taken to have content. */
  const BlankTileSizeBytes: nat := 1800
  /** `CLEANUP_THREAD_MULTIPLIER`. */
  const ThreadMultiplier: nat := 4
  /** `CLEANUP_CHUNK`: the number of tiles handed to one thread pool. */
  const CleanupChunk: nat := 5000

  type Channel = x: int | 0 <= x < 256

  /** One pixel after `convert("RGBA")`. */
  datatype Pixel = Pixel(r: Channel, g: Channel, b: Channel, a: Channel)

  /** What the system reports about one file: its size (None when `getsize` fails), its pixels
      (None when opening or converting the image fails), and whether `os.remove` succeeds. */
  datatype TileFile = TileFile(size: Option<nat>, pixels: Option<seq<Pixel>>, removable: bool)

  /** One file found by the walk: the directory it is in, its name, and what it holds. */
  datatype Entry = Entry(root: string, name: string, file: TileFile)

  function PathOf(e: Entry): string {
    PathJoin(e.root, e.name)
  }

  /** The difference with a fully transparent black image has no bounding box: every pixel is
      (0, 0, 0, 0), or, with the Pillow versions whose `getbbox` looks only at the alpha band
      of an RGBA image, every pixel has alpha 0. */
  predicate Transparent(px: seq<Pixel>, alphaOnly: bool) {
    forall i :: 0 <= i < |px| ==> px[i].a == 0 && (alphaOnly || (px[i].r == 0 && px[i].g == 0 && px[i].b == 0))
  }

  /** The decoding half of `is_blank_tile`, which is all there is of it in
      qgis-workflow-30-7-25.py: any error means "not blank". */
  function DecodesBlank(t: TileFile, alphaOnly: bool): bool {
    match t.pixels
    case None => false
    case Some(px) => Transparent(px, alphaOnly)
  }

  /** `is_blank_tile` of new-qgis-workflow-8-8-25.py: a size gate before decoding. */
  function IsBlankNew(t: TileFile, alphaOnly: bool): (blank: bool)
    ensures blank <==> t.size.Some? && t.size.value <= BlankTileSizeBytes && DecodesBlank(t, alphaOnly)
  {
    match t.size
    case None => false
    case Some(n) => if n > BlankTileSizeBytes then false else DecodesBlank(t, alphaOnly)
  }

  /** `process_tile` of the newer script: 1 when the tile was blank and has been deleted. */
  function ProcessTileNew(t: TileFile, alphaOnly: bool): (r: nat)
    ensures r <= 1
    ensures r == 1 <==> IsBlankNew(t, alphaOnly) && t.removable
  {
    if IsBlankNew(t, alphaOnly) then (if t.removable then 1 else 0) else 0
  }

  /** `process_tile` of the older script: True when the tile was blank and has been deleted. */
  function ProcessTileOld(t: TileFile, alphaOnly: bool): (r: bool)
    ensures r <==> DecodesBlank(t, alphaOnly) && t.removable
  {
    if DecodesBlank(t, alphaOnly) then t.removable else false
  }

  /** The size gate only ever spares tiles: a tile the newer script deletes, the older one
      deletes too, and the two agree on every tile of at most 1800 bytes. Looking only at
      alpha spares fewer tiles than looking at all four bands. */
  lemma GateOnlySpares(t: TileFile, alphaOnly: bool)
    ensures ProcessTileNew(t, alphaOnly) == 1 ==> ProcessTileOld(t, alphaOnly)
    ensures t.size.Some? && t.size.value <= BlankTileSizeBytes ==>
      (ProcessTileNew(t, alphaOnly) == 1 <==> ProcessTileOld(t, alphaOnly))
    ensures ProcessTileNew(t, false) <= ProcessTileNew(t, true)
  {
  }

  /** A large transparent tile is kept by the newer script and deleted by the older one. */
  lemma LargeBlankTileExample()
    ensures var t := TileFile(Some(2000), Some([Pixel(0, 0, 0, 0)]), true);
      ProcessTileNew(t, false) == 0 && ProcessTileOld(t, false)
  {
    var t := TileFile(Some(2000), Some([Pixel(0, 0, 0, 0)]), true);
    assert Transparent(t.pixels.value, false);
  }

  // ---------------------------------------------------------------- selecting the PNG files

  /** `fn.lower().endswith(".png")`. */
  predicate IsPng(name: string) {
    |name| >= 4 && Lower(name)[|name| - 4..] == ".png"
  }

  /** The entries whose names end in ".png" in any case, in walk order. */
  function PngEntries(es: seq<Entry>): (pngs: seq<Entry>)
    ensures |pngs| <= |es|
  {
    if es == [] then []
    else
      var last := es[|es| - 1];
      PngEntries(es[..|es| - 1]) + (if IsPng(last.name) then [last] else [])
  }

  /** Exactly the PNG entries are kept. */
  lemma {:induction false} PngEntriesMeaning(es: seq<Entry>)
    ensures forall e :: e in PngEntries(es) <==> e in es && IsPng(e.name)
    ensures forall i :: 0 <= i < |PngEntries(es)| ==> IsPng(PngEntries(es)[i].name)
  {
    if es != [] {
      var init := es[..|es| - 1];
      PngEntriesMeaning(init);
      assert es == init + [es[|es| - 1]];
    }
  }

  /** Upper-case extensions count, a bare "png" does not. */
  lemma IsPngExamples()
    ensures IsPng(".PnG")
    ensures !IsPng("png")
  {
    assert Lower(".PnG") == ".png" by {
      assert Lower("G") == "g";
      assert Lower("nG") == "ng";
      assert Lower("PnG") == "png";
    }
  }

  /** The walk of `clean_tiles`: the paths of the PNG files, in the order found. */
  method CollectPngs(es: seq<Entry>) returns (pngs: seq<Entry>)
    ensures pngs == PngEntries(es)
  {
    pngs := [];
    var i := 0;
    while i < |es|
      invariant 0 <= i <= |es|
      invariant pngs == PngEntries(es[..i])
    {
      assert es[..i + 1][..i] == es[..i];
      if IsPng(es[i].name) {
        pngs := pngs + [es[i]];
      }
      i := i + 1;
    }
    assert es[..i] == es;
  }

  // ---------------------------------------------------------------- counting

  /** The number of tiles the newer script deletes. */
  function CountRemoved(ts: seq<Entry>, alphaOnly: bool): nat {
    if ts == [] then 0
    else CountRemoved(ts[..|ts| - 1], alphaOnly) + ProcessTileNew(ts[|ts| - 1].file, alphaOnly)
  }

  /** The paths the newer script deletes, in the order it deletes them. */
  function DeletedPaths(ts: seq<Entry>, alphaOnly: bool): seq<string> {
    if ts == [] then []
    else
      var last := ts[|ts| - 1];
      DeletedPaths(ts[..|ts| - 1], alphaOnly) + (if ProcessTileNew(last.file, alphaOnly) == 1 then [PathOf(last)] else [])
  }

  /** The count is the number of deletions, at most the number of tiles, and a path is deleted
      exactly when one of the tiles found there is blank and removable. */
  lemma {:induction false} CountRemovedMeaning(ts: seq<Entry>, alphaOnly: bool)
    ensures CountRemoved(ts, alphaOnly) == |DeletedPaths(ts, alphaOnly)| <= |ts|
    ensures forall p :: p in DeletedPaths(ts, alphaOnly) <==>
      exists i :: 0 <= i < |ts| && PathOf(ts[i]) == p && IsBlankNew(ts[i].file, alphaOnly) && ts[i].file.removable
  {
    if ts != [] {
      var init := ts[..|ts| - 1];
      CountRemovedMeaning(init, alphaOnly);
      forall p | p in DeletedPaths(ts, alphaOnly)
        ensures exists i :: 0 <= i < |ts| && PathOf(ts[i]) == p && IsBlankNew(ts[i].file, alphaOnly) && ts[i].file.removable
      {
        if p in DeletedPaths(init, alphaOnly) {
          var i :| 0 <= i < |init| && PathOf(init[i]) == p && IsBlankNew(init[i].file, alphaOnly) && init[i].file.removable;
          assert ts[i] == init[i];
        } else {
          assert PathOf(ts[|ts| - 1]) == p;
        }
      }
      forall i | 0 <= i < |ts| && IsBlankNew(ts[i].file, alphaOnly) && ts[i].file.removable
        ensures PathOf(ts[i]) in DeletedPaths(ts, alphaOnly)
      {
        if i < |init| {
          assert ts[i] == init[i];
        }
      }
    }
  }

  lemma {:induction false} CountRemovedAppend(ts: seq<Entry>, us: seq<Entry>, alphaOnly: bool)
    ensures CountRemoved(ts + us, alphaOnly) == CountRemoved(ts, alphaOnly) + CountRemoved(us, alphaOnly)
    ensures DeletedPaths(ts + us, alphaOnly) == DeletedPaths(ts, alphaOnly) + DeletedPaths(us, alphaOnly)
  {
    if us == [] {
      assert ts + us == ts;
    } else {
      var init := us[..|us| - 1];
      CountRemovedAppend(ts, init, alphaOnly);
      assert (ts + us)[..|ts + us| - 1] == ts + init;
    }
  }

  /** Counting up to `hi` is counting up to `i` and then the slice between them. */
  lemma CountRemovedPrefix(ts: seq<Entry>, i: nat, hi: nat, alphaOnly: bool)
    requires i <= hi <= |ts|
    ensures CountRemoved(ts[..hi], alphaOnly) == CountRemoved(ts[..i], alphaOnly) + CountRemoved(ts[i..hi], alphaOnly)
    ensures DeletedPaths(ts[..hi], alphaOnly) == DeletedPaths(ts[..i], alphaOnly) + DeletedPaths(ts[i..hi], alphaOnly)
  {
    CountRemovedAppend(ts[..i], ts[i..hi], alphaOnly);
    assert ts[..i] + ts[i..hi] == ts[..hi];
  }

  // ---------------------------------------------------------------- batches

  /** `batch = pngs[i:i + n]` for `i in range(start, len(pngs), n)`. */
  function Batches<T>(s: seq<T>, n: nat, start: nat): seq<seq<T>>
    requires n > 0
    decreases |s| - start
  {
    if start >= |s| then []
    else [s[start..if start + n <= |s| then start + n else |s|]] + Batches(s, n, start + n)
  }

  /** The batches from `i` are the one starting at `i` followed by those from where it ends. */
  lemma BatchesStep<T>(s: seq<T>, n: nat, i: nat)
    requires n > 0 && i < |s|
    ensures var hi := if i + n <= |s| then i + n else |s|;
      Batches(s, n, i) == [s[i..hi]] + Batches(s, n, hi)
  {
  }

  function Flatten<T>(bs: seq<seq<T>>): seq<T> {
    if bs == [] then [] else bs[0] + Flatten(bs[1..])
  }

  /** The batches cover the paths from `start` on, once each and in order, and none is empty or
      longer than `n`. */
  lemma {:induction false} BatchesCover<T>(s: seq<T>, n: nat, start: nat)
    requires n > 0 && start <= |s|
    ensures Flatten(Batches(s, n, start)) == s[start..]
    ensures forall k :: 0 <= k < |Batches(s, n, start)| ==> 0 < |Batches(s, n, start)[k]| <= n
    decreases |s| - start
  {
    if start < |s| {
      if start + n <= |s| {
        BatchesCover(s, n, start + n);
        assert s[start..] == s[start..start + n] + s[start + n..];
      } else {
        assert Batches(s, n, start + n) == [];
      }
    }
  }

  /** 12001 tiles make three batches: two of 5000 and one of 2001. */
  lemma BatchesExample(s: seq<int>)
    requires |s| == 12001
    ensures |Batches(s, CleanupChunk, 0)| == 3
    ensures |Batches(s, CleanupChunk, 0)[2]| == 2001
  {
    assert Batches(s, CleanupChunk, 15000) == [];
    assert Batches(s, CleanupChunk, 10000) == [s[10000..12001]];
    assert Batches(s, CleanupChunk, 5000) == [s[5000..10000]] + Batches(s, CleanupChunk, 10000);
  }

  // ---------------------------------------------------------------- the cleanup loops

  /** `min(64, (os.cpu_count() or 1) * CLEANUP_THREAD_MULTIPLIER)`; a count of 0 counts as
      missing, as `or` treats it. */
  function MaxWorkersNew(cpus: Option<nat>): (w: nat)
    ensures 4 <= w <= 64
    ensures cpus.Some? && 0 < cpus.value <= 16 ==> w == 4 * cpus.value
  {
    var c := if cpus.Some? && cpus.value > 0 then cpus.value else 1;
    if 64 < c * ThreadMultiplier then 64 else c * ThreadMultiplier
  }

  /** `min(64, os.cpu_count() * 4)`, which raises when the count is unknown. */
  function MaxWorkersOld(cpus: Option<nat>): (w: Option<nat>)
    ensures w.None? <==> cpus.None?
    ensures w.Some? ==> w.value <= 64 && (cpus.value > 0 ==> 4 <= w.value)
  {
    match cpus
    case None => None
    case Some(c) => Some(if 64 < c * 4 then 64 else c * 4)
  }

  /** One thread pool's worth: `process_tile` mapped over a batch, the results summed. */
  method ProcessBatch(batch: seq<Entry>, alphaOnly: bool) returns (removed: nat, deleted: seq<string>)
    ensures removed == CountRemoved(batch, alphaOnly)
    ensures deleted == DeletedPaths(batch, alphaOnly)
  {
    removed := 0;
    deleted := [];
    var j := 0;
    while j < |batch|
      invariant 0 <= j <= |batch|
      invariant removed == CountRemoved(batch[..j], alphaOnly)
      invariant deleted == DeletedPaths(batch[..j], alphaOnly)
    {
      var r := ProcessTileNew(batch[j].file, alphaOnly);
      if r == 1 {
        deleted := deleted + [PathOf(batch[j])];
      }
      removed := removed + r;
      assert batch[..j + 1][..j] == batch[..j];
      j := j + 1;
    }
    assert batch[..j] == batch;
  }

  /** `clean_tiles` of new-qgis-workflow-8-8-25.py, run one tile at a time: the PNG tiles are
      handed over in batches of 5000 and the deletions are counted. It returns the number of
      PNG files, the number deleted, and the deleted paths. */
  method CleanTilesNew(es: seq<Entry>, alphaOnly: bool) returns (found: nat, removed: nat, deleted: seq<string>)
    ensures found == |PngEntries(es)|
    ensures removed == CountRemoved(PngEntries(es), alphaOnly) <= found
    ensures deleted == DeletedPaths(PngEntries(es), alphaOnly)
  {
    var pngs := CollectPngs(es);
    found := |pngs|;
    removed := 0;
    deleted := [];
    if pngs == [] {
      return;
    }
    var i := 0;
    ghost var done: seq<seq<Entry>> := [];
    while i < |pngs|
      invariant 0 <= i <= |pngs|
      invariant done + Batches(pngs, CleanupChunk, i) == Batches(pngs, CleanupChunk, 0)
      invariant removed == CountRemoved(pngs[..i], alphaOnly)
      invariant deleted == DeletedPaths(pngs[..i], alphaOnly)
      decreases |pngs| - i
    {
      var hi := if i + CleanupChunk <= |pngs| then i + CleanupChunk else |pngs|;
      var batch := pngs[i..hi];
      var r, d := ProcessBatch(batch, alphaOnly);
      CountRemovedPrefix(pngs, i, hi, alphaOnly);
      removed := removed + r;
      deleted := deleted + d;
      BatchesStep(pngs, CleanupChunk, i);
      assert done + [batch] + Batches(pngs, CleanupChunk, hi) == done + Batches(pngs, CleanupChunk, i);
      done := done + [batch];
      i := hi;
    }
    assert pngs[..i] == pngs;
    CountRemovedMeaning(pngs, alphaOnly);
  }

  /** The number of tiles the older script deletes. */
  function CountRemovedOld(ts: seq<Entry>, alphaOnly: bool): nat {
    if ts == [] then 0
    else CountRemovedOld(ts[..|ts| - 1], alphaOnly) + (if ProcessTileOld(ts[|ts| - 1].file, alphaOnly) then 1 else 0)
  }

  /** An order in which the futures complete: every tile exactly once. */
  predicate IsCompletionOrder(order: seq<nat>, n: nat) {
    && (forall k :: 0 <= k < |order| ==> order[k] < n)
    && (forall j, k :: 0 <= j < k < |order| ==> order[j] != order[k])
    && (forall i :: 0 <= i < n ==> i in order)
  }

  /** The tiles, among those at the given positions, that the older script deletes. */
  function CountAt(ts: seq<Entry>, order: seq<nat>, alphaOnly: bool): nat
    requires forall k :: 0 <= k < |order| ==> order[k] < |ts|
  {
    if order == [] then 0
    else
      CountAt(ts, order[..|order| - 1], alphaOnly)
        + (if ProcessTileOld(ts[order[|order| - 1]].file, alphaOnly) then 1 else 0)
  }

  /** The positions, among those given, whose tile the older script deletes. */
  function DeletingAt(ts: seq<Entry>, order: seq<nat>, alphaOnly: bool): set<nat>
    requires forall k :: 0 <= k < |order| ==> order[k] < |ts|
  {
    set i | i in order && ProcessTileOld(ts[i].file, alphaOnly)
  }

  lemma DeletingAtSnoc(ts: seq<Entry>, init: seq<nat>, x: nat, alphaOnly: bool)
    requires forall k :: 0 <= k < |init| ==> init[k] < |ts|
    requires x < |ts|
    ensures forall k :: 0 <= k < |init + [x]| ==> (init + [x])[k] < |ts|
    ensures DeletingAt(ts, init + [x], alphaOnly)
      == DeletingAt(ts, init, alphaOnly) + (if ProcessTileOld(ts[x].file, alphaOnly) then {x} else {})
  {
    forall k | 0 <= k < |init + [x]| ensures (init + [x])[k] < |ts| {
      if k < |init| { assert (init + [x])[k] == init[k]; }
    }
  }

  /** Over distinct positions, the count is the number of deleting positions among them. */
  lemma {:induction false} CountAtIsSetSize(ts: seq<Entry>, order: seq<nat>, alphaOnly: bool)
    requires forall k :: 0 <= k < |order| ==> order[k] < |ts|
    requires forall j, k :: 0 <= j < k < |order| ==> order[j] != order[k]
    ensures CountAt(ts, order, alphaOnly) == |DeletingAt(ts, order, alphaOnly)|
  {
    if order == [] {
      assert DeletingAt(ts, order, alphaOnly) == {};
    } else {
      var init := order[..|order| - 1];
      var x := order[|order| - 1];
      CountAtIsSetSize(ts, init, alphaOnly);
      var before := DeletingAt(ts, init, alphaOnly);
      assert order == init + [x];
      forall k | 0 <= k < |init| ensures init[k] != x {
        assert init[k] == order[k];
      }
      assert x !in init;
      assert x !in before;
      DeletingAtSnoc(ts, init, x, alphaOnly);
    }
  }

  /** Taking the tiles in walk order is one completion order, and it gives `CountRemovedOld`. */
  lemma {:induction false} CountAtWalkOrder(ts: seq<Entry>, alphaOnly: bool)
    ensures CountAt(ts, seq(|ts|, i => i), alphaOnly) == CountRemovedOld(ts, alphaOnly)
  {
    if ts != [] {
      var init := ts[..|ts| - 1];
      CountAtWalkOrder(init, alphaOnly);
      CountAtSameTiles(ts, init, seq(|init|, i => i), alphaOnly);
      assert seq(|ts|, i => i)[..|ts| - 1] == seq(|init|, i => i);
    }
  }

  lemma {:induction false} CountAtSameTiles(ts: seq<Entry>, us: seq<Entry>, order: seq<nat>, alphaOnly: bool)
    requires |us| <= |ts| && us == ts[..|us|]
    requires forall k :: 0 <= k < |order| ==> order[k] < |us|
    ensures CountAt(ts, order, alphaOnly) == CountAt(us, order, alphaOnly)
  {
    if order != [] {
      CountAtSameTiles(ts, us, order[..|order| - 1], alphaOnly);
    }
  }

  /** The number deleted does not depend on the order in which the futures complete. */
  lemma CountIndependentOfOrder(ts: seq<Entry>, order: seq<nat>, alphaOnly: bool)
    requires IsCompletionOrder(order, |ts|)
    ensures CountAt(ts, order, alphaOnly) == CountRemovedOld(ts, alphaOnly)
  {
    var walk := seq(|ts|, i => i);
    CountAtIsSetSize(ts, order, alphaOnly);
    CountAtIsSetSize(ts, walk, alphaOnly);
    CountAtWalkOrder(ts, alphaOnly);
    assert DeletingAt(ts, order, alphaOnly) == DeletingAt(ts, walk, alphaOnly) by {
      forall i | i in walk ensures i in order {
        assert walk[i] == i;
      }
      forall i | i in order ensures i in walk {
        assert walk[i] == i;
      }
    }
  }

  lemma {:induction false} CountRemovedOldBound(ts: seq<Entry>, alphaOnly: bool)
    ensures CountRemovedOld(ts, alphaOnly) <= |ts|
  {
    if ts != [] {
      CountRemovedOldBound(ts[..|ts| - 1], alphaOnly);
    }
  }

  /** `ThreadPoolExecutor(max_workers=w)` starts only for a positive worker count; an unknown
      count has already raised in `MaxWorkersOld`. */
  predicate PoolStarts(w: Option<nat>) {
    w.Some? && w.value > 0
  }

  /** The two numbers `clean_tiles` reports: PNG files found and tiles deleted. */
  datatype Counts = Counts(total: nat, removed: nat)

  /** `clean_tiles` of qgis-workflow-30-7-25.py: one future per PNG tile, counted as the futures
      complete in the given order. With no PNG file it reports nothing found. Otherwise, when the
      CPU count gives no worker pool, it raises before any tile is submitted (`None`), so nothing
      is deleted; else it reports the number of PNG files and the number deleted. */
  method CleanTilesOld(es: seq<Entry>, cpus: Option<nat>, order: seq<nat>, alphaOnly: bool) returns (r: Option<Counts>)
    requires IsCompletionOrder(order, |PngEntries(es)|)
    ensures PngEntries(es) == [] ==> r == Some(Counts(0, 0))
    ensures r.None? <==> PngEntries(es) != [] && !PoolStarts(MaxWorkersOld(cpus))
    ensures r.Some? ==> r.value.total == |PngEntries(es)|
    ensures r.Some? ==> r.value.removed == CountRemovedOld(PngEntries(es), alphaOnly) <= r.value.total
  {
    var paths := CollectPngs(es);
    var total := |paths|;
    if total == 0 {
      return Some(Counts(0, 0));
    }
    var workers := MaxWorkersOld(cpus);
    if !PoolStarts(workers) {
      return None;
    }
    var removed := 0;
    var k := 0;
    while k < |order|
      invariant 0 <= k <= |order|
      invariant removed == CountAt(paths, order[..k], alphaOnly)
    {
      assert order[..k + 1][..k] == order[..k];
      if ProcessTileOld(paths[order[k]].file, alphaOnly) {
        removed := removed + 1;
      }
      k := k + 1;
    }
    assert order[..k] == order;
    CountIndependentOfOrder(paths, order, alphaOnly);
    CountRemovedOldBound(paths, alphaOnly);
    return Some(Counts(total, removed));
  }
}
