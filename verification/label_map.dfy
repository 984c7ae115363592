/**
  Per-pixel label maps (the class map `cls` and the instance map `ins` that
  the rasteriser returns, as rows of pixels), the masking of ignored pixels,
  and the palette PNG rule: a map is saved as an 8-bit palette image only
  when every value fits in [-1, 254], through numpy's `astype(np.uint8)`.
 */
module LabelMap {
  import opened Wrappers

  /** One byte, the pixel type of a palette image. */
  newtype uint8 = x: int | 0 <= x < 256

  /** The ignore class id the label table gives the first line. */
  const IGNORE_ID: int := -1

  /** Both maps have the same number of rows and each row the same length,
      as two arrays of one image shape do. */
  predicate SameShape<A, B>(a: seq<seq<A>>, b: seq<seq<B>>) {
    |a| == |b| && forall i :: 0 <= i < |a| ==> |a[i]| == |b[i]|
  }

  /** The pixels of the map, row after row as numpy's `ravel()` lists them.
      The contract states which values occur, which is all that `min()`,
      `max()` and the test for a zero-size array depend on. */
  function Pixels(m: seq<seq<int>>): (r: seq<int>)
    ensures forall i, j :: 0 <= i < |m| && 0 <= j < |m[i]| ==> m[i][j] in r
    ensures forall v :: v in r ==> exists i, j :: 0 <= i < |m| && 0 <= j < |m[i]| && m[i][j] == v
  {
    if |m| == 0 then []
    else
      var rest := Pixels(m[1..]);
      assert forall i :: 1 <= i < |m| ==> m[i] == m[1..][i - 1];
      m[0] + rest
  }

  /** Two maps of one shape have the same number of pixels. */
  lemma {:induction false} SameShapeSameSize(a: seq<seq<int>>, b: seq<seq<int>>)
    requires SameShape(a, b)
    ensures |Pixels(a)| == |Pixels(b)|
    decreases |a|
  {
    if |a| > 0 {
      assert SameShape(a[1..], b[1..]) by {
        assert forall i :: 1 <= i < |a| ==> a[1..][i - 1] == a[i] && b[1..][i - 1] == b[i];
      }
      SameShapeSameSize(a[1..], b[1..]);
    }
  }

  /** One row of `ins[cls == -1] = 0`. */
  function MaskRow(clsRow: seq<int>, insRow: seq<int>): (r: seq<int>)
    requires |clsRow| == |insRow|
    ensures |r| == |insRow|
    ensures forall j :: 0 <= j < |r| && clsRow[j] == IGNORE_ID ==> r[j] == 0
    ensures forall j :: 0 <= j < |r| && clsRow[j] != IGNORE_ID ==> r[j] == insRow[j]
  {
    if |insRow| == 0 then []
    else
      var first := if clsRow[0] == IGNORE_ID then 0 else insRow[0];
      [first] + MaskRow(clsRow[1..], insRow[1..])
  }

  /** `ins[cls == -1] = 0`: every pixel whose class is the ignore id becomes
      background in the instance map, and every other pixel keeps its
      instance; the shape is unchanged. */
  function MaskIgnored(cls: seq<seq<int>>, ins: seq<seq<int>>): (r: seq<seq<int>>)
    requires SameShape(cls, ins)
    ensures SameShape(r, ins)
    ensures forall i, j :: 0 <= i < |r| && 0 <= j < |r[i]| && cls[i][j] == IGNORE_ID ==> r[i][j] == 0
    ensures forall i, j :: 0 <= i < |r| && 0 <= j < |r[i]| && cls[i][j] != IGNORE_ID ==> r[i][j] == ins[i][j]
  {
    if |ins| == 0 then []
    else
      assert SameShape(cls[1..], ins[1..]) by {
        assert forall i :: 1 <= i < |ins| ==> cls[1..][i - 1] == cls[i] && ins[1..][i - 1] == ins[i];
      }
      var rest := MaskIgnored(cls[1..], ins[1..]);
      var r := [MaskRow(cls[0], ins[0])] + rest;
      assert forall i :: 1 <= i < |r| ==> r[i] == rest[i - 1] && cls[i] == cls[1..][i - 1] && ins[i] == ins[1..][i - 1];
      r
  }

  /** Masking twice is masking once. */
  lemma MaskIdempotent(cls: seq<seq<int>>, ins: seq<seq<int>>)
    requires SameShape(cls, ins)
    ensures MaskIgnored(cls, MaskIgnored(cls, ins)) == MaskIgnored(cls, ins)
  {
    var once := MaskIgnored(cls, ins);
    var twice := MaskIgnored(cls, once);
    forall i | 0 <= i < |once|
      ensures twice[i] == once[i]
    {
      assert forall j :: 0 <= j < |once[i]| ==> twice[i][j] == once[i][j];
    }
  }

  /** The smallest value, as `ndarray.min()` on a non-empty array. */
  function MinOf(xs: seq<int>): (r: int)
    requires |xs| > 0
    ensures r in xs
    ensures forall x :: x in xs ==> r <= x
  {
    if |xs| == 1 then xs[0]
    else
      var rest := MinOf(xs[1..]);
      assert forall x :: x in xs ==> x == xs[0] || x in xs[1..];
      if xs[0] <= rest then xs[0] else rest
  }

  /** The largest value, as `ndarray.max()` on a non-empty array. */
  function MaxOf(xs: seq<int>): (r: int)
    requires |xs| > 0
    ensures r in xs
    ensures forall x :: x in xs ==> x <= r
  {
    if |xs| == 1 then xs[0]
    else
      var rest := MaxOf(xs[1..]);
      assert forall x :: x in xs ==> x == xs[0] || x in xs[1..];
      if xs[0] >= rest then xs[0] else rest
  }

  /** The values a palette image can hold once shifted by the cast: the
      ignore id -1 and the ids 0 to 254. */
  predicate InPaletteRange(m: seq<seq<int>>) {
    forall i, j :: 0 <= i < |m| && 0 <= j < |m[i]| ==> -1 <= m[i][j] <= 254
  }

  /** Why a label map stops the run: numpy's `min()` and `max()` raise on
      an array without pixels. */
  datatype MapError = EmptyLabelMap

  /** `m.min() >= -1 and m.max() < 255`: true exactly when every pixel is in
      the palette range; an empty map raises. */
  function PaletteEligible(m: seq<seq<int>>): (r: Result<bool, MapError>)
    ensures r.Err? <==> |Pixels(m)| == 0
    ensures r.Ok? ==> (r.value <==> InPaletteRange(m))
  {
    var px := Pixels(m);
    if |px| == 0 then Err(EmptyLabelMap)
    else
      var lo := MinOf(px);
      var hi := MaxOf(px);
      if lo >= -1 && hi < 255 then
        Ok(true)
      else
        assert exists i, j :: 0 <= i < |m| && 0 <= j < |m[i]| && (m[i][j] == lo || m[i][j] == hi);
        Ok(false)
  }

  /** `astype(np.uint8)` on one value: the low eight bits, so the byte is
      congruent to the value modulo 256; on the palette range the ignore id
      -1 becomes 255 and every other id is kept. */
  function ToUint8(v: int): (b: uint8)
    ensures (b as int - v) % 256 == 0
    ensures -1 <= v <= 254 ==> b as int == (if v == IGNORE_ID then 255 else v)
  {
    (v % 256) as uint8
  }

  /** How a palette index reads back as a label id. */
  function FromPaletteIndex(b: uint8): int {
    if b == 255 then IGNORE_ID else b as int
  }

  /** On the palette range the cast loses nothing: the index reads back as
      the label id it came from. */
  lemma CastRoundTrip(v: int)
    requires -1 <= v <= 254
    ensures FromPaletteIndex(ToUint8(v)) == v
  {
  }

  /** On the palette range no two label ids share a palette index. */
  lemma CastInjective(v: int, w: int)
    requires -1 <= v <= 254 && -1 <= w <= 254
    requires ToUint8(v) == ToUint8(w)
    ensures v == w
  {
    CastRoundTrip(v);
    CastRoundTrip(w);
  }

  /** Outside the palette range the cast collides: 255 lands on the ignore
      id's index and -2 on 254's. */
  lemma CastCollidesOutsideRange()
    ensures ToUint8(255) == ToUint8(IGNORE_ID)
    ensures ToUint8(-2) == ToUint8(254)
  {
  }

  function CastRow(row: seq<int>): (r: seq<uint8>)
    ensures |r| == |row|
    ensures forall j :: 0 <= j < |r| ==> r[j] == ToUint8(row[j])
  {
    if |row| == 0 then [] else [ToUint8(row[0])] + CastRow(row[1..])
  }

  /** `m.astype(np.uint8)` on a whole map. On a map in the palette range
      every pixel reads back as its label, so two pixels get the same index
      only when they have the same label. */
  function CastMap(m: seq<seq<int>>): (r: seq<seq<uint8>>)
    ensures SameShape(r, m)
    ensures forall i, j :: 0 <= i < |r| && 0 <= j < |r[i]| ==> (r[i][j] as int - m[i][j]) % 256 == 0
    ensures InPaletteRange(m) ==>
      forall i, j :: 0 <= i < |r| && 0 <= j < |r[i]| ==> FromPaletteIndex(r[i][j]) == m[i][j]
  {
    if |m| == 0 then []
    else
      var rest := CastMap(m[1..]);
      var r := [CastRow(m[0])] + rest;
      assert forall i :: 1 <= i < |r| ==> r[i] == rest[i - 1] && m[i] == m[1..][i - 1];
      r
  }

  /** Two maps in the palette range with the same PNG are the same map. */
  lemma CastMapInjective(a: seq<seq<int>>, b: seq<seq<int>>)
    requires SameShape(a, b)
    requires InPaletteRange(a) && InPaletteRange(b)
    requires CastMap(a) == CastMap(b)
    ensures a == b
  {
    var ca := CastMap(a);
    forall i | 0 <= i < |a|
      ensures a[i] == b[i]
    {
      forall j | 0 <= j < |a[i]|
        ensures a[i][j] == b[i][j]
      {
        assert FromPaletteIndex(ca[i][j]) == a[i][j];
      }
    }
  }

  /** The files one label map produces: the `.npy` array is always saved;
      the palette PNG only for a map in the palette range, and otherwise a
      warning is logged. */
  datatype MapFiles = MapFiles(npy: seq<seq<int>>, png: Option<seq<seq<uint8>>>, warned: bool)

  /** The palette rule on the files of one map: a PNG exactly when the saved
      array is in the palette range, holding indices that read back as that
      array, and a warning exactly when there is no PNG. */
  predicate PaletteRuleHolds(f: MapFiles) {
    && (f.png.Some? <==> InPaletteRange(f.npy))
    && (f.warned <==> f.png.None?)
    && (f.png.Some? ==>
      && SameShape(f.png.value, f.npy)
      && forall i, j :: 0 <= i < |f.npy| && 0 <= j < |f.npy[i]| ==> FromPaletteIndex(f.png.value[i][j]) == f.npy[i][j])
  }

  /** The class- or instance-map branch of the per-file loop. */
  function SaveLabelMap(m: seq<seq<int>>): (r: Result<MapFiles, MapError>)
    ensures r.Err? <==> |Pixels(m)| == 0
    ensures r.Ok? ==> r.value.npy == m
    ensures r.Ok? ==> (r.value.png.Some? <==> InPaletteRange(m))
    ensures r.Ok? ==> (r.value.warned <==> r.value.png.None?)
    ensures r.Ok? && r.value.png.Some? ==>
      && SameShape(r.value.png.value, m)
      && forall i, j :: 0 <= i < |m| && 0 <= j < |m[i]| ==> FromPaletteIndex(r.value.png.value[i][j]) == m[i][j]
    ensures r.Ok? ==> PaletteRuleHolds(r.value)
  {
    var eligible :- PaletteEligible(m);
    if eligible then Ok(MapFiles(m, Some(CastMap(m)), false))
    else Ok(MapFiles(m, None, true))
  }

  /** Masking never takes an instance map out of the palette range, since
      it only writes background. */
  lemma MaskKeepsPaletteRange(cls: seq<seq<int>>, ins: seq<seq<int>>)
    requires SameShape(cls, ins)
    requires InPaletteRange(ins)
    ensures InPaletteRange(MaskIgnored(cls, ins))
  {
  }
}
