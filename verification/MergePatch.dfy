/** JSON documents and the MergePatch algorithm of section 2 of RFC 7386. */
module MergePatch {
  import opened Basics

  /** Amount is the text of a quantity, in thousandths of its unit; Text is any other text. */
  datatype Json =
    | Null
    | Bool(b: bool)
    | Number(n: int)
    | Text(s: string)
    | Amount(milli: int)
    | Array(elems: seq<Json>)
    | Object(fields: map<string, Json>)

  /** The fields an object patch starts from: a target that is not an object counts as empty. */
  function FieldsOf(target: Option<Json>): map<string, Json> {
    if target.Some? && target.value.Object? then target.value.fields else map[]
  }

  function Field(fields: map<string, Json>, name: string): Option<Json> {
    if name in fields then Some(fields[name]) else None
  }

  function Merge(target: Option<Json>, patch: Json): Json
    decreases patch
  {
    if !patch.Object? then patch
    else
      var base := FieldsOf(target);
      Object(map name | name in base.Keys + patch.fields.Keys && (name in patch.fields ==> !patch.fields[name].Null?)
             :: if name in patch.fields then Merge(Field(base, name), patch.fields[name]) else base[name])
  }

  /** The value at a path of field names. */
  function Lookup(doc: Option<Json>, path: seq<string>): Option<Json>
    decreases |path|
  {
    if path == [] then doc else Lookup(Field(FieldsOf(doc), path[0]), path[1..])
  }

  /** The patch says something about this path: it names the path itself, a part of what lies
      there, or something the path lies in. */
  predicate Names(patch: Json, path: seq<string>)
    decreases |path|
  {
    path == [] || !patch.Object? || (path[0] in patch.fields && Names(patch.fields[path[0]], path[1..]))
  }

  /** Whatever a patch does not name is left as it was, at any depth, in any document. */
  lemma {:induction false} MergeFrame(target: Option<Json>, patch: Json, path: seq<string>)
    requires !Names(patch, path)
    ensures Lookup(Some(Merge(target, patch)), path) == Lookup(target, path)
    decreases |path|
  {
    var base, name := FieldsOf(target), path[0];
    if name in patch.fields && !patch.fields[name].Null? {
      MergeFrame(Field(base, name), patch.fields[name], path[1..]);
      assert Field(Merge(target, patch).fields, name) == Some(Merge(Field(base, name), patch.fields[name]));
    } else {
      assert name !in patch.fields;
      assert Field(Merge(target, patch).fields, name) == Field(base, name);
    }
  }

  /** Merging finds, at every place the patch reaches through objects only, what the patch puts there. */
  lemma {:induction false} MergeSets(target: Option<Json>, patch: Json, path: seq<string>, leaf: Json)
    requires Lookup(Some(patch), path) == Some(leaf) && !leaf.Object? && !leaf.Null?
    ensures Lookup(Some(Merge(target, patch)), path) == Some(leaf)
    decreases |path|
  {
    if path != [] {
      var name := path[0];
      if name in FieldsOf(Some(patch)) {
        if patch.fields[name].Null? {
          NothingBelowNull(path[1..]);
        }
        MergeSets(Field(FieldsOf(target), name), patch.fields[name], path[1..], leaf);
      } else {
        NothingBelowNone(path[1..]);
      }
    }
  }

  lemma {:induction false} NothingBelowNone(path: seq<string>)
    ensures Lookup(None, path) == None
  {
    if path != [] { NothingBelowNone(path[1..]); }
  }

  lemma NothingBelowNull(path: seq<string>)
    ensures Lookup(Some(Null), path) == if path == [] then Some(Null) else None
  {
    if path != [] { NothingBelowNone(path[1..]); }
  }

  /** A null in the patch takes away what is there, and an object makes what is there one. */
  lemma {:induction false} MergeRemoves(target: Option<Json>, patch: Json, path: seq<string>)
    requires path != [] && Lookup(Some(patch), path).Some?
    ensures Lookup(Some(patch), path) == Some(Null) ==> Lookup(Some(Merge(target, patch)), path) == None
    ensures Lookup(Some(patch), path).value.Object? ==>
              var there := Lookup(Some(Merge(target, patch)), path); there.Some? && there.value.Object?
    decreases |path|
  {
    var name, rest := path[0], path[1..];
    if name in FieldsOf(Some(patch)) {
      if rest != [] {
        if patch.fields[name].Null? {
          NothingBelowNull(rest);
        }
        MergeRemoves(Field(FieldsOf(target), name), patch.fields[name], rest);
      }
    } else {
      NothingBelowNone(rest);
    }
  }

  /** Applying a patch twice is applying it once. */
  lemma {:induction false} MergeIdempotent(target: Option<Json>, patch: Json)
    ensures Merge(Some(Merge(target, patch)), patch) == Merge(target, patch)
    decreases patch
  {
    if patch.Object? {
      var once := Merge(target, patch);
      var twice := Merge(Some(once), patch);
      forall name | name in once.fields
        ensures name in twice.fields && twice.fields[name] == once.fields[name]
      {
        if name in patch.fields {
          MergeIdempotent(Field(FieldsOf(target), name), patch.fields[name]);
        }
      }
      assert twice.fields.Keys == once.fields.Keys;
      assert twice.fields == once.fields;
    }
  }
}
