/**
  The label table: the class names read from the labels file, one per line,
  with the line at index `i` receiving class id `i - 1`, and the
  `class_names.txt` text written from them.
 */
module LabelTable {
  import opened Wrappers
  import opened Text

  /** The name the first line must carry; it receives id -1. */
  const IGNORE: string := "__ignore__"
  /** The name the second line must carry; it receives id 0. */
  const BACKGROUND: string := "_background_"

  /** `names` is the `class_names` tuple (every stripped line after the
      first); `ids` is `class_name_to_id`. */
  datatype Table = Table(names: seq<string>, ids: map<string, int>)

  /** The assertion of the loading loop that failed, with the stripped name
      it found. */
  datatype LabelError =
    | IgnoreExpected(found: string)
    | BackgroundExpected(found: string)

  /** The two header assertions: line 0 strips to the ignore name and, when
      there is a line 1, it strips to the background name. Later lines are
      never checked. */
  predicate HeaderValid(lines: seq<string>) {
    && (|lines| > 0 ==> Strip(lines[0]) == IGNORE)
    && (|lines| > 1 ==> Strip(lines[1]) == BACKGROUND)
  }

  /** The assertion that aborts the run on a bad header; line 0 is checked
      before line 1. */
  function HeaderError(lines: seq<string>): LabelError
    requires !HeaderValid(lines)
  {
    if Strip(lines[0]) != IGNORE then IgnoreExpected(Strip(lines[0]))
    else BackgroundExpected(Strip(lines[1]))
  }

  /** The stripped name of every line, `line.strip()` in the loop. */
  function StrippedNames(lines: seq<string>): (names: seq<string>)
    ensures |names| == |lines|
    ensures forall k :: 0 <= k < |lines| ==> names[k] == Strip(lines[k])
  {
    seq(|lines|, k requires 0 <= k < |lines| => Strip(lines[k]))
  }

  /** `ids` is the map the loop builds from `names`: every name is bound,
      to `k - 1` for the last index `k` that carries it. */
  ghost predicate IdsOf(names: seq<string>, ids: map<string, int>) {
    && (forall k :: 0 <= k < |names| ==> names[k] in ids && ids[names[k]] >= k - 1)
    && (forall name {:trigger name in ids} :: name in ids ==> 0 <= ids[name] + 1 < |names| && names[ids[name] + 1] == name)
  }

  /** One turn of the loop keeps `IdsOf`: binding the new last name to its
      id overrides any earlier binding of it. */
  lemma IdsStep(names: seq<string>, ids: map<string, int>)
    requires |names| > 0 && IdsOf(names[..|names| - 1], ids)
    ensures IdsOf(names, ids[names[|names| - 1] := |names| - 2])
  {
    var prefix := names[..|names| - 1];
    assert forall k :: 0 <= k < |prefix| ==> names[k] == prefix[k];
  }

  /** One turn of the loop on a valid header: bind the name at the last
      index `i` to `i - 1` and, unless it is the ignore line, append it. */
  function Extend(prev: Table, stripped: seq<string>): (t: Table)
    requires |stripped| > 0
    requires prev.names == (if |stripped| == 1 then [] else stripped[1..|stripped| - 1])
    requires IdsOf(stripped[..|stripped| - 1], prev.ids)
    ensures t.names == stripped[1..]
    ensures IdsOf(stripped, t.ids)
  {
    var i := |stripped| - 1;
    IdsStep(stripped, prev.ids);
    var names := if i == 0 then prev.names else prev.names + [stripped[i]];
    Table(names, prev.ids[stripped[i] := i - 1])
  }

  predicate NamesHeaderValid(stripped: seq<string>) {
    && (|stripped| > 0 ==> stripped[0] == IGNORE)
    && (|stripped| > 1 ==> stripped[1] == BACKGROUND)
  }

  /** The loading loop on the stripped names, one at a time in file order.
      It fails exactly on a bad header, with the first failing assertion;
      otherwise `names` is every name after the first and `ids` binds each
      name to the id of its last occurrence. */
  function ParseNames(stripped: seq<string>): (r: Result<Table, LabelError>)
    ensures r.Err? <==> !NamesHeaderValid(stripped)
    ensures r.Err? ==> (r.error ==
      if stripped[0] != IGNORE then IgnoreExpected(stripped[0]) else BackgroundExpected(stripped[1]))
    ensures r.Ok? ==> r.value.names == (if |stripped| == 0 then [] else stripped[1..])
    ensures r.Ok? ==> IdsOf(stripped, r.value.ids)
    decreases |stripped|
  {
    if |stripped| == 0 then Ok(Table([], map[]))
    else
      var prev :- ParseNames(stripped[..|stripped| - 1]);
      var i := |stripped| - 1;
      var name := stripped[i];
      if i == 0 && name != IGNORE then Err(IgnoreExpected(name))
      else if i == 1 && name != BACKGROUND then Err(BackgroundExpected(name))
      else Ok(Extend(prev, stripped))
  }

  /** The loading loop over the lines of the labels file: each line is
      stripped, then handled as `ParseNames` describes. */
  function ParseLabels(lines: seq<string>): (r: Result<Table, LabelError>)
    ensures r.Err? <==> !HeaderValid(lines)
    ensures r.Err? ==> r.error == HeaderError(lines)
    ensures r.Ok? ==> r.value.names == (if |lines| == 0 then [] else StrippedNames(lines)[1..])
    ensures r.Ok? ==> IdsOf(StrippedNames(lines), r.value.ids)
  {
    ParseNames(StrippedNames(lines))
  }

  /** The ignore name of line 0 is bound to -1 exactly when no later name
      repeats it. */
  lemma IgnoreIdOnNames(stripped: seq<string>, ids: map<string, int>)
    requires |stripped| > 0 && stripped[0] == IGNORE
    requires IdsOf(stripped, ids)
    ensures IGNORE in ids
    ensures ids[IGNORE] == -1 <==> IGNORE !in stripped[1..]
  {
    assert stripped[0] in ids;
    if IGNORE in stripped[1..] {
      var j :| 0 <= j < |stripped| - 1 && stripped[1..][j] == IGNORE;
      assert stripped[j + 1] == IGNORE;
    }
    if ids[IGNORE] != -1 {
      var k := ids[IGNORE] + 1;
      assert stripped[1..][k - 1] == stripped[k];
    }
  }

  /** On success the ignore name is bound to -1 and left out of `names`
      unless a later line repeats it; then it is in `names` and bound to the
      id of its last repetition. */
  lemma IgnoreExcludedUnlessRepeated(lines: seq<string>)
    requires |lines| > 0
    requires HeaderValid(lines)
    ensures var t := ParseLabels(lines).value;
      && (IGNORE in t.names <==> exists k :: 1 <= k < |lines| && Strip(lines[k]) == IGNORE)
      && IGNORE in t.ids
      && (t.ids[IGNORE] == -1 <==> IGNORE !in t.names)
  {
    var t := ParseLabels(lines).value;
    var st := StrippedNames(lines);
    IgnoreIdOnNames(st, t.ids);
    if IGNORE in t.names {
      var j :| 0 <= j < |t.names| && t.names[j] == IGNORE;
      assert t.names[j] == st[j + 1];
    }
    if exists k :: 1 <= k < |lines| && Strip(lines[k]) == IGNORE {
      var k :| 1 <= k < |lines| && Strip(lines[k]) == IGNORE;
      assert t.names[k - 1] == st[1..][k - 1];
    }
  }

  /** The text of `class_names.txt`: the names joined by line feeds. No
      names give the empty text; names without line feeds split back out of
      it. */
  function ClassNamesText(t: Table): (text: string)
    ensures |t.names| == 0 ==> text == []
    ensures |t.names| > 0 && (forall i :: 0 <= i < |t.names| ==> '\n' !in t.names[i]) ==>
      Split(text, '\n') == t.names
  {
    if |t.names| > 0 && forall i :: 0 <= i < |t.names| ==> '\n' !in t.names[i] then
      SplitJoin(t.names, '\n');
      Join(t.names, '\n')
    else
      Join(t.names, '\n')
  }

  /** Every class name parsed from `readlines()` output is free of line
      feeds, so the written text splits back into the class names whenever
      there is at least one. */
  lemma ClassNamesRoundTrip(lines: seq<string>)
    requires forall i :: 0 <= i < |lines| ==> IsLine(lines[i])
    ensures var r := ParseLabels(lines);
      r.Ok? && |r.value.names| > 0 ==> Split(ClassNamesText(r.value), '\n') == r.value.names
  {
    var r := ParseLabels(lines);
    if r.Ok? && |r.value.names| > 0 {
      var t := r.value;
      forall i | 0 <= i < |t.names|
        ensures '\n' !in t.names[i]
      {
        StripLineHasNoNewline(lines[i + 1]);
        assert t.names[i] == Strip(lines[i + 1]);
        assert NoNewline(t.names[i]);
      }
      SplitJoin(t.names, '\n');
    }
  }

  /** Loading a labels file: `readlines()`, then the loading loop, then the
      text written to `class_names.txt`. */
  function LoadLabels(text: string): (r: Result<(Table, string), LabelError>)
    ensures r.Err? <==> !HeaderValid(ReadLines(text))
    ensures r.Err? ==> r.error == HeaderError(ReadLines(text))
    ensures r.Ok? ==> r.value.0.names == (if |ReadLines(text)| == 0 then [] else StrippedNames(ReadLines(text))[1..])
    ensures r.Ok? ==> IdsOf(StrippedNames(ReadLines(text)), r.value.0.ids)
    ensures r.Ok? && |r.value.0.names| == 0 ==> r.value.1 == []
    ensures r.Ok? && |r.value.0.names| > 0 ==> Split(r.value.1, '\n') == r.value.0.names
    ensures r.Ok? && |r.value.0.names| > 0 ==> r.value.0.names[0] == BACKGROUND
  {
    var lines := ReadLines(text);
    var t :- ParseLabels(lines);
    ClassNamesRoundTrip(lines);
    Ok((t, ClassNamesText(t)))
  }

  /** The stripped lines of a labels file listing the two sentinels, "cat"
      and "dog" give the class names after the ignore line, written one per
      line with no line feed at the end. */
  lemma CatDogExample()
    ensures var r := ParseNames([IGNORE, BACKGROUND, "cat", "dog"]);
      && r.Ok?
      && r.value.names == [BACKGROUND, "cat", "dog"]
      && ClassNamesText(r.value) == "_background_\ncat\ndog"
  {
    var stripped := [IGNORE, BACKGROUND, "cat", "dog"];
    assert stripped[1..] == [BACKGROUND, "cat", "dog"];
    assert Join(["dog"], '\n') == "dog";
    assert Join(["cat", "dog"], '\n') == "cat\ndog";
    var t := ParseNames(stripped).value;
    assert ClassNamesText(t) == Join(t.names, '\n');
  }
}
