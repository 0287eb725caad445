/** Choice of the pyramid level to display or save (wsi_viewer.py, `load_wsi_file`
    and `save_thumbnail`): the level whose downsample factor is closest to an ideal
    downsample, the first such level on ties, as Python's `min` with a key returns. */
module LevelSelect {
  import opened Wrappers

  /** Pixel budget for the level shown after opening a slide. */
  const LoadTargetPixels: int := 1024 * 1024
  /** Pixel budget for the level written by "save image". */
  const SaveTargetPixels: int := 2048 * 2048

  function Abs(x: real): real { if x < 0.0 then -x else x }

  /** `abs(downsamples[i] - ideal)`, the key of the `min`. */
  function Distance(downsamples: seq<real>, i: nat, ideal: real): (d: real)
    requires i < |downsamples|
    ensures 0.0 <= d && (d == downsamples[i] - ideal || d == ideal - downsamples[i])
  {
    Abs(downsamples[i] - ideal)
  }

  /** `k` is a closest level and no lower level is as close. */
  ghost predicate FirstClosest(downsamples: seq<real>, ideal: real, k: nat) {
    && k < |downsamples|
    && (forall j :: 0 <= j < |downsamples| ==> Distance(downsamples, k, ideal) <= Distance(downsamples, j, ideal))
    && (forall j :: 0 <= j < k ==> Distance(downsamples, k, ideal) < Distance(downsamples, j, ideal))
  }

  /** `min(range(n), key=...)`: the scan keeps the running minimum and replaces it
      only on a strictly smaller key. */
  function ArgminPrefix(downsamples: seq<real>, ideal: real, n: nat): (k: nat)
    requires 0 < n <= |downsamples|
    ensures k < n
    ensures forall j :: 0 <= j < n ==> Distance(downsamples, k, ideal) <= Distance(downsamples, j, ideal)
    ensures forall j :: 0 <= j < k ==> Distance(downsamples, k, ideal) < Distance(downsamples, j, ideal)
  {
    if n == 1 then 0
    else
      var k := ArgminPrefix(downsamples, ideal, n - 1);
      if Distance(downsamples, n - 1, ideal) < Distance(downsamples, k, ideal) then n - 1 else k
  }

  /** The level closest to `ideal`; `None` for an empty level list, where `min` of an
      empty range raises `ValueError`. */
  function ClosestLevel(downsamples: seq<real>, ideal: real): (r: Option<nat>)
    ensures r.None? <==> downsamples == []
    ensures r.Some? ==> FirstClosest(downsamples, ideal, r.value)
  {
    if downsamples == [] then None else Some(ArgminPrefix(downsamples, ideal, |downsamples|))
  }

  /** At most one level is the first closest one, so the selection is determined. */
  lemma FirstClosestUnique(downsamples: seq<real>, ideal: real, a: nat, b: nat)
    requires FirstClosest(downsamples, ideal, a) && FirstClosest(downsamples, ideal, b)
    ensures a == b
  {
    var da, db := Distance(downsamples, a, ideal), Distance(downsamples, b, ideal);
    assert da <= db && db <= da;
  }

  /** A slide with a single level always shows level 0. */
  lemma SingleLevel(downsample: real, ideal: real)
    ensures ClosestLevel([downsample], ideal) == Some(0)
  {
  }

  /** The ideal downsample used when saving (line 1062): the square root `root` of the
      size ratio when the slide exceeds the budget, else 1.0. */
  function SaveIdeal(actualSize: int, root: real): real {
    if actualSize > SaveTargetPixels then root else 1.0
  }

  /** The level written by "save image" (lines 1065-1067): the first level closest to
      the saving ideal; `None` for an empty level list. */
  function SaveLevel(downsamples: seq<real>, actualSize: int, root: real): (r: Option<nat>)
    ensures r.None? <==> downsamples == []
    ensures r.Some? ==> FirstClosest(downsamples, SaveIdeal(actualSize, root), r.value)
  {
    ClosestLevel(downsamples, SaveIdeal(actualSize, root))
  }

  /** With the usual pyramid (level 0 at downsample 1, no level finer than that), an
      ideal downsample of at most 1 selects full resolution. */
  lemma FullResolutionWhenSmall(downsamples: seq<real>, ideal: real)
    requires downsamples != [] && downsamples[0] == 1.0
    requires forall i :: 0 <= i < |downsamples| ==> 1.0 <= downsamples[i]
    requires ideal <= 1.0
    ensures ClosestLevel(downsamples, ideal) == Some(0)
  {
    assert FirstClosest(downsamples, ideal, 0);
    FirstClosestUnique(downsamples, ideal, 0, ClosestLevel(downsamples, ideal).value);
  }

  /** A slide within the saving budget is saved at level 0. */
  lemma SmallSlideSavedAtFullResolution(downsamples: seq<real>, actualSize: int, root: real)
    requires downsamples != [] && downsamples[0] == 1.0
    requires forall i :: 0 <= i < |downsamples| ==> 1.0 <= downsamples[i]
    requires actualSize <= SaveTargetPixels
    ensures SaveLevel(downsamples, actualSize, root) == Some(0)
  {
    FullResolutionWhenSmall(downsamples, SaveIdeal(actualSize, root));
  }

  /** A non-negative number whose square lies strictly between two squares of
      non-negative bounds lies strictly between the bounds. */
  lemma SquareBetween(r: real, lo: real, hi: real)
    requires 0.0 <= lo && 0.0 <= hi && 0.0 <= r
    requires lo * lo < r * r < hi * hi
    ensures lo < r < hi
  {
  }

  /** A 100000 x 80000 slide with downsamples 1, 4, 16, 64, 256 opens at level 3
      (downsample 64): its ideal downsample, the root of the size over the loading
      budget, lies between 40 and 160. */
  lemma OpeningLevelExample(ideal: real)
    requires 0.0 <= ideal
    requires ideal * ideal == (100000 * 80000) as real / LoadTargetPixels as real
    ensures ClosestLevel([1.0, 4.0, 16.0, 64.0, 256.0], ideal) == Some(3)
  {
    SquareBetween(ideal, 40.0, 160.0);
    var ds := [1.0, 4.0, 16.0, 64.0, 256.0];
    assert FirstClosest(ds, ideal, 3);
    FirstClosestUnique(ds, ideal, 3, ClosestLevel(ds, ideal).value);
  }
}
