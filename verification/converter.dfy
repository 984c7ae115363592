/**
  The per-annotation conversion once the rasteriser has produced the class
  map `cls` and the instance map `ins`: mask the ignored pixels, save both
  maps (`.npy` always, palette PNG when in range), and name the instances
  "0" up to the largest instance id for the instance visualisation.
 */
module Converter {
  import opened Wrappers
  import opened Text
  import opened LabelMap

  /** `names` is `[str(i) for i in range(len(names))]`, stated through what
      `str` produces: entry `i` is a decimal numeral without a leading zero
      (unless it is "0" itself) that reads back as `i`. Such a numeral is
      unique for each `i`. */
  predicate CountingNames(names: seq<string>) {
    forall i :: 0 <= i < |names| ==>
      && |names[i]| > 0
      && AllDigits(names[i])
      && (names[i][0] == '0' ==> |names[i]| == 1)
      && ParseDecimal(names[i]) == i
  }

  /** The instance names cover the map: every id in it is below the name
      count, and the last name belongs to an id in it. */
  predicate NamesCover(names: seq<string>, m: seq<seq<int>>) {
    && (forall v :: v in Pixels(m) ==> v < |names|)
    && (|names| > 0 ==> |names| - 1 in Pixels(m))
  }

  /** `[str(i) for i in range(max(np.unique(ins)) + 1)]`: one decimal name
      per id from 0 to the largest instance id, so every non-negative id in
      the map has a name and the last name belongs to an id in the map. The
      largest of the unique values is the largest pixel; an empty map
      raises. */
  function InstanceNames(ins: seq<seq<int>>): (r: Result<seq<string>, MapError>)
    ensures r.Err? <==> |Pixels(ins)| == 0
    ensures r.Ok? ==> CountingNames(r.value)
    ensures r.Ok? ==> NamesCover(r.value, ins)
  {
    var px := Pixels(ins);
    if |px| == 0 then Err(EmptyLabelMap)
    else
      var top := MaxOf(px);
      var count := if top + 1 > 0 then top + 1 else 0;
      var names := seq(count, i requires 0 <= i => DecimalString(i));
      forall i | 0 <= i < count
        ensures ParseDecimal(names[i]) == i
      {
        DecimalRoundTrip(i);
      }
      Ok(names)
  }

  /** The files written for one annotation. */
  datatype AnnotationFiles = AnnotationFiles(cls: MapFiles, ins: MapFiles, instanceNames: seq<string>)

  /** The instance half of the loop body, on an image with pixels: mask,
      save under the palette rule, and name the instances of the saved map. */
  function SaveInstances(cls: seq<seq<int>>, ins: seq<seq<int>>): (r: (MapFiles, seq<string>))
    requires SameShape(cls, ins)
    requires |Pixels(ins)| > 0
    ensures SameShape(r.0.npy, ins)
    ensures forall i, j :: 0 <= i < |ins| && 0 <= j < |ins[i]| ==>
      r.0.npy[i][j] == (if cls[i][j] == IGNORE_ID then 0 else ins[i][j])
    ensures PaletteRuleHolds(r.0)
    ensures CountingNames(r.1)
    ensures NamesCover(r.1, r.0.npy)
  {
    var masked := MaskIgnored(cls, ins);
    SameShapeSameSize(masked, ins);
    var files := SaveLabelMap(masked).value;
    var names := InstanceNames(masked).value;
    (files, names)
  }

  /** The per-file loop body from the mask to the instance names. The class
      map is saved as it is; the instance map is saved with every ignored
      pixel turned to background and every other pixel kept; each map gets
      a PNG exactly when it is in the palette range and a warning otherwise;
      every instance id in the saved map has a name. The run aborts on an
      image without pixels, at the class map's `min()`. */
  function ConvertLabelMaps(cls: seq<seq<int>>, ins: seq<seq<int>>): (r: Result<AnnotationFiles, MapError>)
    requires SameShape(cls, ins)
    ensures r.Err? <==> |Pixels(cls)| == 0
    ensures r.Ok? ==> r.value.cls.npy == cls && PaletteRuleHolds(r.value.cls)
    ensures r.Ok? ==> SameShape(r.value.ins.npy, ins)
    ensures r.Ok? ==> forall i, j :: 0 <= i < |ins| && 0 <= j < |ins[i]| ==>
      r.value.ins.npy[i][j] == (if cls[i][j] == IGNORE_ID then 0 else ins[i][j])
    ensures r.Ok? ==> PaletteRuleHolds(r.value.ins)
    ensures r.Ok? ==> CountingNames(r.value.instanceNames)
    ensures r.Ok? ==> NamesCover(r.value.instanceNames, r.value.ins.npy)
  {
    var clsFiles := SaveLabelMap(cls);
    if clsFiles.Err? then Err(clsFiles.error)
    else
      SameShapeSameSize(cls, ins);
      var (insFiles, names) := SaveInstances(cls, ins);
      Ok(AnnotationFiles(clsFiles.value, insFiles, names))
  }
}
