/** Merging nested patches onto a config, reading paths back, and expanding flat form entries into a patch. */
module ConfigPatch {
  import opened ConfigPaths

  datatype Option<T> = None | Some(value: T)

  /** A JSON value; arrays and scalars are atoms, they replace and are never merged. */
  datatype Json = Null | Atom(value: nat) | Obj(fields: map<string, Json>)

  const EMPTY: Json := Obj(map[])

  predicate UnsafeKey(key: string) {
    key == "__proto__" || key == "constructor" || key == "prototype"
  }

  predicate SafePath(path: seq<string>) {
    forall i :: 0 <= i < |path| ==> !UnsafeKey(path[i])
  }

  /** The fields of a plain object; anything else counts as having none. */
  function Fields(j: Json): map<string, Json> {
    if j.Obj? then j.fields else map[]
  }

  function ChildOf(j: Json, key: string): Json {
    if key in Fields(j) then Fields(j)[key] else Null
  }

  /** The patch names the key and may write it. */
  predicate Writes(patch: Json, key: string) {
    key in Fields(patch) && !UnsafeKey(key)
  }

  /** Objects merge key by key, null deletes, anything else replaces. */
  function Merge(base: Json, patch: Json): Json
    requires patch.Obj?
    decreases patch
  {
    Obj(map key | key in Fields(base).Keys + patch.fields.Keys
          && (if Writes(patch, key) then !patch.fields[key].Null? else key in Fields(base)) ::
        if !Writes(patch, key) then Fields(base)[key]
        else if patch.fields[key].Obj? then Merge(ChildOf(base, key), patch.fields[key])
        else patch.fields[key])
  }

  /** Key by key, each key of the patch applied once to a copy of the base. */
  method MergeConfigPatch(base: Json, patch: Json) returns (merged: Json)
    requires patch.Obj?
    ensures merged == Merge(base, patch)
    decreases patch
  {
    var fields := Fields(base);
    var rest := patch.fields.Keys;
    while rest != {}
      invariant rest <= patch.fields.Keys
      invariant forall key :: key in fields <==>
                  if key in patch.fields.Keys - rest then key in Merge(base, patch).fields else key in Fields(base)
      invariant forall key :: key in fields ==>
                  fields[key] == if key in patch.fields.Keys - rest then Merge(base,
                      patch).fields[key] else Fields(base)[key]
      decreases rest
    {
      var key :| key in rest;
      rest := rest - {key};
      if UnsafeKey(key) { continue; }
      var value := patch.fields[key];
      if value.Null? {
        fields := fields - {key};
        continue;
      }
      if value.Obj? {
        var child := MergeConfigPatch(if key in fields && fields[key].Obj? then fields[key] else EMPTY, value);
        MergeSeesOnlyFields(ChildOf(base, key), value);
        fields := fields[key := child];
      } else {
        fields := fields[key := value];
      }
    }
    assert fields == Merge(base, patch).fields;
    merged := Obj(fields);
  }

  lemma MergeSeesOnlyFields(base: Json, patch: Json)
    requires patch.Obj?
    ensures !base.Obj? ==> Merge(base, patch) == Merge(EMPTY, patch)
  {
    if !base.Obj? {
      forall key ensures ChildOf(base, key) == ChildOf(EMPTY, key) == Null { }
      assert Merge(base, patch).fields == Merge(EMPTY, patch).fields;
    }
  }

  /** Follow a path; reading through anything but an object finds nothing. */
  function Read(source: Option<Json>, path: seq<string>): Option<Json>
    decreases |path|
  {
    if path == [] then source
    else Read(Step(source, path[0]), path[1..])
  }

  function Step(source: Option<Json>, key: string): Option<Json> {
    if source.Some? && source.value.Obj? && key in source.value.fields then Some(source.value.fields[key]) else None
  }

  method ReadConfigPath(source: Json, path: string) returns (found: Option<Json>)
    ensures found == Read(Some(source), SplitFrom(path, ""))
  {
    var segments := SplitConfigPath(path);
    found := Some(source);
    var i := 0;
    assert segments[0..] == segments;
    while i < |segments|
      invariant 0 <= i <= |segments|
      invariant Read(found, segments[i..]) == Read(Some(source), segments)
    {
      if !(found.Some? && found.value.Obj?) {
        ReadNothing(found, segments[i..]);
        return None;
      }
      assert segments[i..][1..] == segments[i + 1..];
      found := Step(found, segments[i]);
      i := i + 1;
    }
  }

  lemma {:induction false} ReadNothing(source: Option<Json>, path: seq<string>)
    requires path != [] && !(source.Some? && source.value.Obj?)
    ensures Read(source, path) == None
    decreases |path|
  {
    if |path| > 1 {
      ReadNothing(None, path[1..]);
    }
  }

  /** Write a value at a path, making objects on the way where there are none. */
  function SetPath(j: Json, path: seq<string>, value: Json): (r: Json)
    requires path != []
    ensures r.Obj?
    decreases |path|
  {
    if |path| == 1 then Obj(Fields(j)[path[0] := value])
    else Obj(Fields(j)[path[0] := SetPath(ChildOf(j, path[0]), path[1..], value)])
  }

  datatype Entry = Entry(path: seq<string>, value: Json)

  function Expand(entries: seq<Entry>): (patch: Json)
    requires forall e :: e in entries ==> e.path != []
    ensures patch.Obj?
  {
    if entries == [] then EMPTY
    else
      var e := entries[|entries| - 1];
      var before := Expand(entries[..|entries| - 1]);
      if SafePath(e.path) then SetPath(before, e.path, e.value) else before
  }

  /** Entries as a form keeps them, with the path still joined. */
  function Parsed(entries: seq<(string, Json)>): (r: seq<Entry>)
    ensures forall e :: e in r ==> e.path != []
  {
    seq(|entries|, i requires 0 <= i < |entries| => Entry(SplitFrom(entries[i].0, ""), entries[i].1))
  }

  method ExpandConfigPatch(entries: seq<(string, Json)>) returns (patch: Json)
    ensures patch == Expand(Parsed(entries))
  {
    patch := EMPTY;
    for i := 0 to |entries|
      invariant patch == Expand(Parsed(entries)[..i])
    {
      assert Parsed(entries)[..i + 1][..i] == Parsed(entries)[..i];
      var segments := SplitConfigPath(entries[i].0);
      if exists k :: 0 <= k < |segments| && UnsafeKey(segments[k]) { continue; }
      patch := SetPath(patch, segments, entries[i].1);
    }
    assert Parsed(entries)[..|entries|] == Parsed(entries);
  }

  // ---------------------------------------------------------------- reading what was written

  /** Neither path leads through the other. */
  predicate Incomparable(p: seq<string>, q: seq<string>) {
    !(p <= q) && !(q <= p)
  }

  /** Along the path the patch runs out of keys before the path ends, and only through objects. */
  predicate Misses(patch: Json, path: seq<string>)
    decreases |path|
  {
    path != [] && patch.Obj?
    && (path[0] in patch.fields ==> Misses(patch.fields[path[0]], path[1..]))
  }

  /** What the patch holds at a safe path is what the merge holds there, null meaning nothing. */
  lemma {:induction false} MergeWritesLeaf(base: Json, patch: Json, path: seq<string>, value: Json)
    requires patch.Obj? && path != [] && SafePath(path) && !value.Obj?
    requires Read(Some(patch), path) == Some(value)
    ensures Read(Some(Merge(base, patch)), path) == if value.Null? then None else Some(value)
    decreases |path|
  {
    var key := path[0];
    var rest := path[1..];
    if key !in patch.fields || (rest != [] && !patch.fields[key].Obj?) {
      if rest != [] { ReadNothing(Step(Some(patch), key), rest); }
      assert false;
    }
    if rest == [] {
      assert Read(Some(patch), path) == Some(patch.fields[key]);
    } else {
      MergeWritesLeaf(ChildOf(base, key), patch.fields[key], rest, value);
    }
  }

  /** A path the patch misses reads the same before and after the merge. */
  lemma {:induction false} MergeLeavesTheRest(base: Json, patch: Json, path: seq<string>)
    requires patch.Obj? && Misses(patch, path)
    ensures Read(Some(Merge(base, patch)), path) == Read(Some(base), path)
    decreases |path|
  {
    var key := path[0];
    var rest := path[1..];
    if Writes(patch, key) {
      MergeLeavesTheRest(ChildOf(base, key), patch.fields[key], rest);
      if key !in Fields(base) {
        ReadNothing(Some(Null), rest);
        ReadNothing(None, rest);
      }
    }
  }

  lemma {:induction false} SetPathReadsBack(j: Json, path: seq<string>, value: Json)
    requires path != []
    ensures Read(Some(SetPath(j, path, value)), path) == Some(value)
    decreases |path|
  {
    if |path| > 1 {
      SetPathReadsBack(ChildOf(j, path[0]), path[1..], value);
    }
  }

  /** Writing at a path changes no path incomparable to it, and makes the patch reach none. */
  lemma {:induction false} SetPathLeavesTheRest(j: Json, path: seq<string>, value: Json, q: seq<string>)
    requires path != [] && Incomparable(path, q)
    ensures Read(Some(SetPath(j, path, value)), q) == Read(Some(j), q)
    ensures Misses(j, q) || j.Null? ==> Misses(SetPath(j, path, value), q)
    decreases |path|
  {
    assert q != [] by { assert !([] <= path) || q != []; }
    var key := path[0];
    if q[0] == key {
      assert path == [key] + path[1..] && q == [key] + q[1..];
      assert Incomparable(path[1..], q[1..]);
      assert path[1..] != [] && q[1..] != [];
      SetPathLeavesTheRest(ChildOf(j, key), path[1..], value, q[1..]);
      if !(j.Obj? && key in j.fields) {
        ReadNothing(Some(Null), q[1..]);
        ReadNothing(None, q[1..]);
      }
    } else if !j.Obj? {
      ReadNothing(Some(j), q);
      assert Step(Some(SetPath(j, path, value)), q[0]) == None;
      if q[1..] != [] { ReadNothing(None, q[1..]); }
    }
  }

  predicate PrefixFree(entries: seq<Entry>) {
    forall i, j :: 0 <= i < j < |entries| ==> Incomparable(entries[i].path, entries[j].path)
  }

  predicate SafeEntries(entries: seq<Entry>) {
    forall e :: e in entries ==> e.path != [] && SafePath(e.path)
  }

  /** The expanded patch holds each entry at its path and reaches no path incomparable to all of them. */
  lemma {:induction false} ExpandHoldsEntries(entries: seq<Entry>, i: nat)
    requires SafeEntries(entries) && PrefixFree(entries) && i < |entries|
    ensures Read(Some(Expand(entries)), entries[i].path) == Some(entries[i].value)
    decreases |entries|
  {
    var e := entries[|entries| - 1];
    var before := entries[..|entries| - 1];
    assert e in entries;
    if i == |entries| - 1 {
      SetPathReadsBack(Expand(before), e.path, e.value);
    } else {
      ExpandHoldsEntries(before, i);
      assert Incomparable(e.path, entries[i].path);
      SetPathLeavesTheRest(Expand(before), e.path, e.value, entries[i].path);
    }
  }

  lemma {:induction false} ExpandMisses(entries: seq<Entry>, q: seq<string>)
    requires SafeEntries(entries) && q != []
    requires forall e :: e in entries ==> Incomparable(e.path, q)
    ensures Misses(Expand(entries), q)
    decreases |entries|
  {
    if entries != [] {
      var e := entries[|entries| - 1];
      var before := entries[..|entries| - 1];
      assert e in entries;
      ExpandMisses(before, q);
      SetPathLeavesTheRest(Expand(before), e.path, e.value, q);
    }
  }

  // ---------------------------------------------------------------- the promises

  /**
   * Saving a form: for prefix-free safe paths, each entry that is not an object reads back from the
   * merged config, a null entry reads as missing, whatever the base held.
   */
  lemma SavedEntriesReadBack(base: Json, entries: seq<Entry>, i: nat)
    requires SafeEntries(entries) && PrefixFree(entries) && i < |entries| && !entries[i].value.Obj?
    ensures Read(Some(Merge(base, Expand(entries))), entries[i].path)
            == if entries[i].value.Null? then None else Some(entries[i].value)
  {
    ExpandHoldsEntries(entries, i);
    assert entries[i] in entries;
    MergeWritesLeaf(base, Expand(entries), entries[i].path, entries[i].value);
  }

  /** Every path incomparable to all of the form's reads as it did before. */
  lemma SavingLeavesOtherPaths(base: Json, entries: seq<Entry>, q: seq<string>)
    requires SafeEntries(entries) && q != []
    requires forall e :: e in entries ==> Incomparable(e.path, q)
    ensures Read(Some(Merge(base, Expand(entries))), q) == Read(Some(base), q)
  {
    ExpandMisses(entries, q);
    MergeLeavesTheRest(base, Expand(entries), q);
  }

  /** The same on the joined paths a form and the endpoint exchange. */
  lemma SavedFieldReadsBack(base: Json, paths: seq<seq<string>>, values: seq<Json>, i: nat)
    requires |paths| == |values| && i < |paths| && !values[i].Obj?
    requires forall k :: 0 <= k < |paths| ==> paths[k] != [] && SafePath(paths[k])
    requires forall j, k :: 0 <= j < k < |paths| ==> Incomparable(paths[j], paths[k])
    ensures var form := seq(|paths|, k requires 0 <= k < |paths| => (JoinConfigPath(paths[k]), values[k]));
            Read(Some(Merge(base, Expand(Parsed(form)))), SplitFrom(JoinConfigPath(paths[i]), ""))
            == if values[i].Null? then None else Some(values[i])
  {
    var form := seq(|paths|, k requires 0 <= k < |paths| => (JoinConfigPath(paths[k]), values[k]));
    forall k | 0 <= k < |paths| ensures Parsed(form)[k] == Entry(paths[k], values[k]) {
      SplitUndoesJoin(paths[k]);
    }
    SavedEntriesReadBack(base, Parsed(form), i);
  }

  /** Applying a patch twice is applying it once. */
  lemma {:induction false} MergeIsIdempotent(base: Json, patch: Json)
    requires patch.Obj?
    ensures Merge(Merge(base, patch), patch) == Merge(base, patch)
    decreases patch
  {
    var once := Merge(base, patch);
    var twice := Merge(once, patch);
    forall key | key in patch.fields && patch.fields[key].Obj? && !UnsafeKey(key)
      ensures ChildOf(twice, key) == ChildOf(once, key) && key in twice.fields && key in once.fields
    {
      MergeIsIdempotent(ChildOf(base, key), patch.fields[key]);
    }
    assert twice.fields == once.fields;
  }

  // ---------------------------------------------------------------- names that are never written

  /**
   * A merge leaves whatever the base holds under the three unsafe names, at every depth the patch
   * reaches by safe ones, and creates nothing there, on any base.
   */
  lemma {:induction false} UnsafeNamesAreNeverTouched(base: Json, patch: Json, above: seq<string>, name: string,
      below: seq<string>)
    requires patch.Obj? && name in {"__proto__", "constructor", "prototype"}
    requires Read(Some(patch), above).Some? && Read(Some(patch), above).value.Obj?
    requires forall k :: 0 <= k < |above| ==> above[k] !in {"__proto__", "constructor", "prototype"}
    ensures Read(Some(Merge(base, patch)), above + [name] + below) == Read(Some(base), above + [name] + below)
    decreases |above|
  {
    var path := above + [name] + below;
    if above == [] {
      assert path[0] == name && path[1..] == below;
      assert Merge(base, patch).Obj?;
      assert Step(Some(Merge(base, patch)), name) == Step(Some(base), name);
    } else {
      var key, rest := above[0], above[1..];
      assert path[0] == key && path[1..] == rest + [name] + below;
      ReadsThroughObjects(patch, above);
      UnsafeNamesAreNeverTouched(ChildOf(base, key), patch.fields[key], rest, name, below);
      if key !in Fields(base) {
        ReadNothing(Some(Null), path[1..]);
        ReadNothing(None, path[1..]);
      }
    }
  }

  lemma ReadsThroughObjects(j: Json, path: seq<string>)
    requires path != [] && Read(Some(j), path).Some? && Read(Some(j), path).value.Obj?
    ensures j.Obj? && path[0] in j.fields && Read(Some(j.fields[path[0]]), path[1..]) == Read(Some(j), path)
    ensures j.fields[path[0]].Obj?
  {
    if !(j.Obj? && path[0] in j.fields) {
      if path[1..] != [] { ReadNothing(None, path[1..]); }
      assert false;
    }
    if !j.fields[path[0]].Obj? {
      if path[1..] != [] { ReadNothing(Some(j.fields[path[0]]), path[1..]); }
      assert false;
    }
  }

  /**
   * An entry whose path has an unsafe name anywhere expands to nothing; any other is where it says,
   * over what came before.
   */
  lemma LastEntryDecides(entries: seq<Entry>, e: Entry)
    requires e.path != [] && forall x :: x in entries ==> x.path != []
    ensures if exists k :: 0 <= k < |e.path| && e.path[k] in {"__proto__", "constructor", "prototype"}
            then Expand(entries + [e]) == Expand(entries)
            else Read(Some(Expand(entries + [e])), e.path) == Some(e.value)
  {
    assert (entries + [e])[..|entries|] == entries;
    SetPathReadsBack(Expand(entries), e.path, e.value);
    if k :| 0 <= k < |e.path| && e.path[k] in {"__proto__", "constructor", "prototype"} {
      assert UnsafeKey(e.path[k]);
    }
  }

  /** Where the patch has an object, be it empty, the merged config has one. */
  lemma {:induction false} MergeMakesObjects(base: Json, patch: Json, path: seq<string>)
    requires patch.Obj? && Read(Some(patch), path).Some? && Read(Some(patch), path).value.Obj?
    requires forall k :: 0 <= k < |path| ==> path[k] !in {"__proto__", "constructor", "prototype"}
    ensures var merged := Read(Some(Merge(base, patch)), path); merged.Some? && merged.value.Obj?
    decreases |path|
  {
    if path != [] {
      ReadsThroughObjects(patch, path);
      MergeMakesObjects(ChildOf(base, path[0]), patch.fields[path[0]], path[1..]);
    }
  }
}
