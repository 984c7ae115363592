# labelme2voc: the label table, the ignore mask and the palette rule

`labelme2voc.py` turns a directory of labelme polygon annotations into a
PASCAL-VOC style segmentation dataset. Almost all of `main()` is file, image
and library plumbing; this project models the pure rules inside it and proves
what they promise:

- **Label table** (`LabelTable`): the lines of the labels file are read with
  `readlines()`, each is stripped, the line at index `i` gets class id
  `i - 1`, line 0 must be `__ignore__` and line 1 (if present) must be
  `_background_`. The result is the `class_names` tuple (every line after the
  first) and the `class_name_to_id` map, in which a later line overrides an
  earlier one with the same name. `class_names.txt` is `'\n'.join(class_names)`.
- **Ignore mask** (`LabelMap.MaskIgnored`): `ins[cls == -1] = 0`.
- **Palette rule** (`LabelMap.PaletteEligible`, `LabelMap.SaveLabelMap`): a
  label map is written as a palette PNG only when `min() >= -1 and max() < 255`;
  the `.npy` file is written in both cases and a warning only in the other.
  The PNG holds `astype(np.uint8)`, which sends -1 to 255 and keeps 0..254.
- **Instance names** (`Converter.InstanceNames`): `str(i)` for `i` from 0 up
  to the largest instance id.
- **One annotation** (`Converter.ConvertLabelMaps`): the loop body from the
  mask to the instance names, given the rasteriser's `(cls, ins)` output.

The Python 3 library functions the rules rely on are modelled in `Text`:
`str.strip()` with Python 3's whitespace set (every character `str.isspace()`
accepts), `readlines()`, `'\n'.join` and `str(n)`. The script never calls
`str.split`; `Text.Split` models `str.split('\n')` only as the reference
reading of `class_names.txt`, against which the join is proved to lose
nothing. Label maps are rows of unbounded integers (`seq<seq<int>>`). The
`uint8` cast is written out as the low eight bits (`v % 256`, which is the
two's-complement wrap for negative values). A numpy reduction (`min`, `max`)
on an array without pixels raises; the model returns `Err(EmptyLabelMap)`.

Files: `wrappers.dfy` (Option, Result), `text.dfy` (Text),
`label_table.dfy` (LabelTable), `label_map.dfy` (LabelMap),
`converter.dfy` (Converter).

### Behaviour of the code worth knowing

- A bad labels file leaves the output directory and its seven
  subdirectories behind, because lines 28-35 create them before line 40
  reads the labels file. The model claims nothing about the file system.
- Only lines 0 and 1 are validated. A later line that strips to
  `__ignore__` is appended to `class_names` and rebinds the name to its own
  id, so the ignore entry stays out of `class_names.txt` only when no later
  line repeats it. `LabelTable.IgnoreExcludedUnlessRepeated` states exactly
  when each happens.
- An empty labels file passes: the loop body never runs, `class_names` is
  empty and `class_names.txt` is empty.

## Model

| member | source | states |
|---|---|---|
| Text.Strip | examples/instance_segmentation/labelme2voc.py:42 | the stripped line is no longer than the line and neither starts nor ends with whitespace |
| Text.StripSlice | examples/instance_segmentation/labelme2voc.py:42 | `strip()` keeps one slice of the line; everything removed before and after it is whitespace, and the kept part neither starts nor ends with whitespace |
| Text.StripIdempotent | examples/instance_segmentation/labelme2voc.py:42 | stripping a stripped name changes nothing |
| Text.StripLineHasNoNewline | examples/instance_segmentation/labelme2voc.py:40-42 | a stripped `readlines()` entry holds no line feed |
| Text.ReadLines | examples/instance_segmentation/labelme2voc.py:40 | the lines concatenate back to the file text; each is non-empty, has a line feed only as its last character, and every line but the last ends with one |
| Text.Join | examples/instance_segmentation/labelme2voc.py:54 | the joined text starts with the first name and has a separator right after it when there is a second; nothing for no names |
| Text.SplitJoin | examples/instance_segmentation/labelme2voc.py:52-54 | splitting the joined names at line feeds gives the names back when there is at least one and none holds a line feed |
| Text.JoinSplit | examples/instance_segmentation/labelme2voc.py:54 | joining the pieces of a split gives the text back |
| Text.DecimalString | examples/instance_segmentation/labelme2voc.py:127 | `str(i)` is a non-empty digit string with no leading zero unless `i` is 0 |
| Text.DecimalRoundTrip | examples/instance_segmentation/labelme2voc.py:127 | reading back the decimal string of `i` gives `i` |
| Text.DecimalInjective | examples/instance_segmentation/labelme2voc.py:127 | distinct instance ids get distinct names |
| LabelTable.IdsStep | examples/instance_segmentation/labelme2voc.py:41-43 | one loop turn keeps the id map invariant: every name seen is bound to the id of its last occurrence |
| LabelTable.Extend | examples/instance_segmentation/labelme2voc.py:41-49 | a loop turn on a valid header appends the name (except on line 0) and binds it to `i - 1` |
| LabelTable.ParseNames | examples/instance_segmentation/labelme2voc.py:40-50 | fails exactly when line 0 is not `__ignore__` or line 1 is not `_background_`, reporting the first failing assertion; otherwise `class_names` is every name after the first and every name is bound to `k - 1` for its last index `k` |
| LabelTable.ParseLabels | examples/instance_segmentation/labelme2voc.py:38-50 | the same on the raw lines, each stripped first: failure iff the stripped header is wrong; on success the names are the stripped lines 1.. in file order |
| LabelTable.IgnoreIdOnNames | examples/instance_segmentation/labelme2voc.py:41-46 | the ignore name is bound and its id is -1 exactly when no later name repeats it |
| LabelTable.IgnoreExcludedUnlessRepeated | examples/instance_segmentation/labelme2voc.py:40-49 | on success `__ignore__` is in `class_names` iff a later line repeats it, and its id is -1 iff it is not in `class_names` |
| LabelTable.ClassNamesText | examples/instance_segmentation/labelme2voc.py:54 | no class names give the empty text; class names without line feeds split back out of the text |
| LabelTable.ClassNamesRoundTrip | examples/instance_segmentation/labelme2voc.py:40-54 | for `readlines()` input, splitting `class_names.txt` at line feeds gives `class_names` back whenever it is non-empty |
| LabelTable.LoadLabels | examples/instance_segmentation/labelme2voc.py:38-54 | loading fails iff the header of the `readlines()` lines is wrong, with the first failing assertion; on success the class names are the stripped lines 1.. and each name is bound to the id of its last line; the written text is empty for no classes, and otherwise splits back into the class names, the first being `_background_` |
| LabelTable.CatDogExample | examples/instance_segmentation/labelme2voc.py:41-54 | the stripped lines `__ignore__`, `_background_`, `cat`, `dog` give `class_names` `_background_`, `cat`, `dog` and `class_names.txt` is exactly `_background_\ncat\ndog` |
| LabelMap.MaskRow | examples/instance_segmentation/labelme2voc.py:90 | in one row, pixels of class -1 get instance 0 and all others keep their instance |
| LabelMap.MaskIgnored | examples/instance_segmentation/labelme2voc.py:90 | the masked instance map has the same shape; every pixel of class -1 is 0 and every other pixel is unchanged |
| LabelMap.MaskIdempotent | examples/instance_segmentation/labelme2voc.py:90 | masking twice is masking once |
| LabelMap.MaskKeepsPaletteRange | examples/instance_segmentation/labelme2voc.py:90 | masking never takes an instance map out of the palette range |
| LabelMap.Pixels | examples/instance_segmentation/labelme2voc.py:96 | the flattened pixels hold exactly the values of the map |
| LabelMap.SameShapeSameSize | examples/instance_segmentation/labelme2voc.py:84-90 | two maps of one shape have the same number of pixels |
| LabelMap.MinOf | examples/instance_segmentation/labelme2voc.py:96 | `min()` of a non-empty array is one of its values and no larger than any |
| LabelMap.MaxOf | examples/instance_segmentation/labelme2voc.py:96 | `max()` of a non-empty array is one of its values and no smaller than any |
| LabelMap.PaletteEligible | examples/instance_segmentation/labelme2voc.py:96 | the `min() >= -1 and max() < 255` test is true iff every pixel is in [-1, 254]; it raises iff the map has no pixels |
| LabelMap.ToUint8 | examples/instance_segmentation/labelme2voc.py:97 | the cast lands in [0, 255], is congruent to the value modulo 256, sends -1 to 255 and keeps 0..254 |
| LabelMap.CastRoundTrip | examples/instance_segmentation/labelme2voc.py:94-97 | on [-1, 254] the palette index reads back as the label it came from |
| LabelMap.CastInjective | examples/instance_segmentation/labelme2voc.py:94-97 | on [-1, 254] no two labels share a palette index |
| LabelMap.CastCollidesOutsideRange | examples/instance_segmentation/labelme2voc.py:94-96 | just outside the range the cast collides (255 with -1, -2 with 254), so the range test cannot be widened |
| LabelMap.CastRow | examples/instance_segmentation/labelme2voc.py:97 | one row cast pixel by pixel, length kept |
| LabelMap.CastMap | examples/instance_segmentation/labelme2voc.py:97 | the cast map has the same shape, each pixel congruent modulo 256, and on an eligible map each index reads back as its label |
| LabelMap.CastMapInjective | examples/instance_segmentation/labelme2voc.py:94-97 | two eligible maps of one shape with the same PNG pixels are the same map |
| LabelMap.SaveLabelMap | examples/instance_segmentation/labelme2voc.py:96-106 | the `.npy` always holds the map; a PNG is written iff every value is in [-1, 254] and then reads back as the map; a warning is logged iff no PNG is written; a map without pixels raises |
| Converter.InstanceNames | examples/instance_segmentation/labelme2voc.py:126-127 | name `i` is the canonical decimal numeral of `i` (non-empty digits, no leading zero unless it is "0", reading back as `i`); every id in the map is below the name count and the last name belongs to an id in the map; raises on a map without pixels |
| Converter.SaveInstances | examples/instance_segmentation/labelme2voc.py:90-127 | the saved instance map is the input with ignored pixels set to 0 and every other pixel kept; it gets a PNG iff it is in [-1, 254], the PNG reads back as the saved map, a warning is logged iff there is no PNG; the names are the canonical numerals 0.. and cover every saved id |
| Converter.ConvertLabelMaps | examples/instance_segmentation/labelme2voc.py:90-127 | the class `.npy` is the class map; the instance `.npy` is 0 wherever the class is -1 and unchanged elsewhere; each map gets a PNG iff it is in [-1, 254], which then reads back as its `.npy`, and a warning iff it gets none; the instance names are the canonical numerals 0.. and cover every saved id; the run aborts iff the image has no pixels |

## Left out

- Command-line parsing, the "output directory already exists" exit, the
  `os.makedirs` calls, `glob`, `json.load` and every file write: these are
  I/O. The model says nothing about what is on disk after a failure.
- Universal-newline translation and text decoding by `open()`:
  `Text.ReadLines` takes the text after `'\r\n'` and `'\r'` have become
  `'\n'`.
- Python 2, which the script's `from __future__` import also admits: there
  `readlines()` yields byte strings and `strip()` removes only
  `" \t\n\r\x0b\x0c"`. The model follows Python 3 throughout.
- The header checks are `assert` statements, which Python drops under `-O`;
  the model treats them as always enabled.
- `labelme.utils.shapes_to_label` (polygon rasterisation and instance
  numbering) is not part of this model: its `(cls, ins)` output is an
  arbitrary input of the same shape, which numpy's boolean indexing in the
  mask requires.
- `labelme.utils.label_colormap`, the `(colormap * 255).astype(np.uint8)`
  palette and `putpalette`: floating-point colour generation in an external
  library.
- `labelme.utils.draw_label` and all PIL/numpy image encoding (the JPEG copy
  and the two visualisations): foreign calls producing images.
- Logging and `print` output; the warning is modelled only as a flag.
- Output path construction with `osp.join`, `basename` and `splitext`.
- Converter.InstanceNames: does not model the `int32` addition in
  `max(instance_ids) + 1`. An instance id of 2147483647 wraps that sum to
  -2147483648 in the source, so `range()` yields no names, while the model
  returns one name per id up to it; the model's maps hold unbounded
  integers and keep the plain sum.
- Converter.InstanceNames: uses the largest pixel directly rather than
  building `np.unique(ins)` first; the largest unique value is the largest
  pixel, so the result is the same.
