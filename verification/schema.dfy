/** buildSchema (lines 136-217) and the Schema object it returns. The loop over
    the flattened definitions adds one definition per turn; the keys are visited
    in no particular order. */
module Schemas {
  import opened Wrappers
  import opened Paths
  import opened Types
  import opened Builder
  import opened Definitions
  import opened Descriptions

  /** The keys of Values after the definitions `keys` have been added. */
  function StoredKeys(keys: set<string>, exclude: set<string>): set<string>
  {
    set k | k in keys && Admitted(k, exclude) :: ValueKey(k)
  }

  /** The namespaces built for the definitions `keys`: every non-empty path on
      the way from an admitted definition's namespace up to the top. */
  ghost function NamespacePaths(keys: set<string>, exclude: set<string>): set<string>
  {
    set k, p | k in keys && Admitted(k, exclude) && p in Ancestors(ParentPath(NormalizePath(k))) :: p
  }

  /** Every value stored under a key was built from an admitted definition with
      that key: its path is the definition's normalised path, its type the
      definition's type. */
  ghost predicate FromDefinitions(t: Tables, defs: map<string, TypeInfo>, keys: set<string>,
                                  exclude: set<string>)
  {
    forall key :: key in t.values ==>
      t.values[key] < |t.arena| &&
      exists k :: k in keys && k in defs && Admitted(k, exclude) && ValueKey(k) == key &&
                  t.arena[t.values[key]].flatName == NormalizePath(k) &&
                  t.arena[t.values[key]].typ == defs[k]
  }

  /** No namespace and no value has a description yet. */
  ghost predicate Undescribed(t: Tables)
  {
    (forall p :: p in t.namespaces ==> t.namespaces[p].description == "") &&
    (forall i :: 0 <= i < |t.arena| ==> t.arena[i].description == "")
  }

  const Empty := Tables(map[], map[], map[], map[], [])

  /** The empty tables are sound. */
  lemma EmptySound()
    ensures Sound(Empty) && Undescribed(Empty)
    ensures Empty.values.Keys == StoredKeys({}, {}) && Empty.namespaces.Keys == NamespacePaths({}, {})
  {
  }

  /** A loop turn for `raw` adds the key of `raw`, when it is admitted, to Values. */
  lemma AddedStoredKeys(t: Tables, raw: string, ti: TypeInfo, exclude: set<string>, keys: set<string>)
    requires t.values.Keys == StoredKeys(keys, exclude)
    ensures Added(t, raw, ti, exclude).values.Keys == StoredKeys(keys + {raw}, exclude)
  {
    StoredGrow(keys, raw, exclude);
    if Admitted(raw, exclude) {
      AddedStored(t, raw, ti, exclude);
    }
  }

  lemma StoredGrow(keys: set<string>, raw: string, exclude: set<string>)
    ensures StoredKeys(keys + {raw}, exclude) ==
            StoredKeys(keys, exclude) + (if Admitted(raw, exclude) then {ValueKey(raw)} else {})
  {
  }

  /** A loop turn for `raw` adds the namespaces of `raw`'s path, when it is admitted. */
  lemma AddedPaths(t: Tables, raw: string, ti: TypeInfo, exclude: set<string>, keys: set<string>)
    requires Tree(t.namespaces, t.arena, t.top, {}, {})
    requires t.namespaces.Keys == NamespacePaths(keys, exclude)
    ensures Added(t, raw, ti, exclude).namespaces.Keys == NamespacePaths(keys + {raw}, exclude)
  {
    PathsGrow(keys, raw, exclude);
    if Admitted(raw, exclude) {
      AddedKeys(t, raw, ti, exclude);
    }
  }

  lemma PathsGrow(keys: set<string>, raw: string, exclude: set<string>)
    ensures NamespacePaths(keys + {raw}, exclude) ==
            NamespacePaths(keys, exclude) +
            (if Admitted(raw, exclude) then Ancestors(ParentPath(NormalizePath(raw))) else {})
  {
    var a := NamespacePaths(keys + {raw}, exclude);
    var b := NamespacePaths(keys, exclude) +
             (if Admitted(raw, exclude) then Ancestors(ParentPath(NormalizePath(raw))) else {});
    forall p | p in a ensures p in b {
      var k :| k in keys + {raw} && Admitted(k, exclude) && p in Ancestors(ParentPath(NormalizePath(k)));
    }
  }

  /** A loop turn keeps every stored value traceable to its definition. */
  lemma AddedFromDefinitions(t: Tables, raw: string, defs: map<string, TypeInfo>, exclude: set<string>,
                             keys: set<string>)
    requires raw in defs
    requires FromDefinitions(t, defs, keys, exclude)
    ensures FromDefinitions(Added(t, raw, defs[raw], exclude), defs, keys + {raw}, exclude)
  {
    var r := Added(t, raw, defs[raw], exclude);
    if Admitted(raw, exclude) {
      AddedStored(t, raw, defs[raw], exclude);
      AddedArena(t, raw, defs[raw], exclude);
      var v := |t.arena|;
      assert r.arena[v].flatName == NormalizePath(raw) && r.arena[v].typ == defs[raw];
      assert forall i :: 0 <= i < v ==> r.arena[i] == t.arena[i];
      forall key | key in r.values
        ensures r.values[key] < |r.arena| &&
                exists k :: k in keys + {raw} && k in defs && Admitted(k, exclude) && ValueKey(k) == key &&
                            r.arena[r.values[key]].flatName == NormalizePath(k) &&
                            r.arena[r.values[key]].typ == defs[k]
      {
        if key == ValueKey(raw) {
          assert r.arena[r.values[key]].flatName == NormalizePath(raw);
        } else {
          var k :| k in keys && k in defs && Admitted(k, exclude) && ValueKey(k) == key &&
                   t.arena[t.values[key]].flatName == NormalizePath(k) &&
                   t.arena[t.values[key]].typ == defs[k];
          assert r.arena[r.values[key]] == t.arena[t.values[key]];
        }
      }
    }
  }

  /** A loop turn gives no namespace and no value a description. */
  lemma AddedUndescribed(t: Tables, raw: string, ti: TypeInfo, exclude: set<string>)
    requires Undescribed(t)
    ensures Undescribed(Added(t, raw, ti, exclude))
  {
    if Admitted(raw, exclude) {
      AddedKeeps(t, raw, ti, exclude);
      AddedArena(t, raw, ti, exclude);
      var r := Added(t, raw, ti, exclude);
      forall p | p in r.namespaces
        ensures r.namespaces[p].description == ""
      {
        if p in t.namespaces {
          assert Grown(t.namespaces[p], r.namespaces[p]);
        }
      }
    }
  }

  /** The tables after the definitions `done` have been added: sound, without
      descriptions, and holding exactly their values and namespaces. */
  ghost predicate Built(t: Tables, defs: map<string, TypeInfo>, done: set<string>, exclude: set<string>)
  {
    Sound(t) && Undescribed(t) &&
    t.values.Keys == StoredKeys(done, exclude) &&
    FromDefinitions(t, defs, done, exclude) &&
    t.namespaces.Keys == NamespacePaths(done, exclude)
  }

  /** A loop turn for one more definition keeps the tables built. */
  lemma AddedBuilt(t: Tables, raw: string, defs: map<string, TypeInfo>, exclude: set<string>, done: set<string>)
    requires raw in defs && Built(t, defs, done, exclude)
    ensures Built(Added(t, raw, defs[raw], exclude), defs, done + {raw}, exclude)
  {
    AddedSound(t, raw, defs[raw], exclude);
    AddedUndescribed(t, raw, defs[raw], exclude);
    AddedStoredKeys(t, raw, defs[raw], exclude, done);
    AddedFromDefinitions(t, raw, defs, exclude, done);
    AddedPaths(t, raw, defs[raw], exclude, done);
  }

  /** The loop of buildSchema over the flattened definitions `defs`, on the maps of
      the schema under construction. */
  method BuildTables(defs: map<string, TypeInfo>, exclude: set<string>) returns (t: Tables)
    ensures Sound(t) && Undescribed(t)
    ensures t.values.Keys == StoredKeys(defs.Keys, exclude)
    ensures FromDefinitions(t, defs, defs.Keys, exclude)
    ensures t.namespaces.Keys == NamespacePaths(defs.Keys, exclude)
  {
    t := Empty;
    EmptySound();
    var rest := defs.Keys;
    ghost var done: set<string> := {};
    while rest != {}
      invariant rest <= defs.Keys && done == defs.Keys - rest
      invariant Built(t, defs, done, exclude)
      decreases rest
    {
      var k :| k in rest;
      AddedBuilt(t, k, defs, exclude, done);
      t := AddDefinition(t, k, defs[k], exclude);
      rest := rest - {k};
      done := done + {k};
    }
  }

  /** An excluded name is never a key of Values, as long as no definition path
      carries the "base." prefix. */
  lemma ExcludedNotStored(keys: set<string>, exclude: set<string>, f: string)
    requires f in exclude
    requires forall k :: k in keys ==> NormalizePath(k) == k
    ensures f !in StoredKeys(keys, exclude)
  {
  }

  /** Exclusion looks at the raw path: "base.a.b" is stored under "a.b" even when
      "a.b" is excluded. */
  lemma ExclusionSeesRawPath()
    ensures Admitted("base.a.b", {"a.b"}) && ValueKey("base.a.b") == "a.b"
    ensures "a.b" in StoredKeys({"base.a.b"}, {"a.b"})
  {
    var raw, ex := "base.a.b", {"a.b"};
    NormalizeStripsRoot("a.b");
    assert NormalizePath(raw) == "a.b";
    assert ParentPath("a.b") == "a" by {
      assert "a.b"[..2] == "a." && "a.b"[2..] == "b" && "a.b"[..1] == "a";
      assert LastDot("a.b") == 1;
    }
    assert Admitted(raw, ex) && ValueKey(raw) == "a.b";
    assert raw in {raw};
  }

  /** Every base-level key of a built schema is a name that is not excluded. */
  lemma BaseNotExcluded(t: Tables, defs: map<string, TypeInfo>, exclude: set<string>)
    requires Sound(t) && FromDefinitions(t, defs, defs.Keys, exclude)
    ensures forall key :: key in t.base ==> key !in exclude && '.' !in key
  {
    forall key | key in t.base
      ensures key !in exclude
    {
      var k :| k in defs.Keys && k in defs && Admitted(k, exclude) && ValueKey(k) == key &&
               t.arena[t.values[key]].flatName == NormalizePath(k) &&
               t.arena[t.values[key]].typ == defs[k];
      KeyDot(NormalizePath(k));
    }
  }

  /** The schema: the version string, the base-level values by name, the top-level
      namespaces by name, every namespace by path, every value by key, and the
      arena holding the values themselves. */
  class Schema {
    var version: string
    var base: map<string, ValueRef>
    var top: map<string, string>
    var namespaces: map<string, Namespace>
    var values: map<string, ValueRef>
    var arena: seq<Value>

    /** The maps of the schema. */
    function Maps(): (t: Tables)
      reads this
      ensures t.namespaces == namespaces && t.arena == arena && t.values == values
    {
      Tables(base, top, namespaces, values, arena)
    }

    ghost predicate Valid()
      reads this
    {
      Sound(Maps())
    }

    constructor (version: string, t: Tables)
      ensures this.version == version && Maps() == t
    {
      this.version := version;
      base := t.base;
      top := t.top;
      namespaces := t.namespaces;
      values := t.values;
      arena := t.arena;
    }

    /** copyDescriptions from the top of the definition tree `node` onto this
        schema: only descriptions change, and the schema stays sound. A described
        group without a namespace is fatal and leaves the schema as it was. */
    method CopyDescriptions(node: Definition) returns (r: Result<(), Failure>)
      requires Valid()
      modifies this
      ensures Valid() && version == old(version)
      ensures r.Ok? <==> GroupsFound(old(Maps()), "", node, node.fields.Keys, false)
      ensures r.Err? ==> r.error.NoNamespace? && Missing(old(Maps()), "", node, node.fields.Keys, false, r.error.path)
      ensures r.Err? ==> Maps() == old(Maps())
      ensures r.Ok? ==> Reshaped(old(Maps()), Maps()) && Sourced(old(Maps()), Maps(), "", node, node.fields.Keys, false)
      ensures r.Ok? ==> Covered(Maps(), "", node, node.fields.Keys, false)
    {
      var t := Maps();
      var res := Descriptions.CopyDescriptions(t, "", node);
      if res.Err? {
        return Err(res.error);
      }
      ReshapedSound(t, res.value);
      namespaces := res.value.namespaces;
      arena := res.value.arena;
      r := Ok(());
    }
  }

  /** buildSchema: the schema of the flattened definitions `defs`, with the
      excluded ones left out. */
  method BuildSchema(version: string, defs: map<string, TypeInfo>, exclude: set<string>) returns (s: Schema)
    ensures fresh(s) && s.Valid() && s.version == version
    ensures Undescribed(s.Maps())
    ensures s.values.Keys == StoredKeys(defs.Keys, exclude)
    ensures FromDefinitions(s.Maps(), defs, defs.Keys, exclude)
    ensures s.namespaces.Keys == NamespacePaths(defs.Keys, exclude)
    ensures forall key :: key in s.base ==> key !in exclude && '.' !in key
  {
    var t := BuildTables(defs, exclude);
    BaseNotExcluded(t, defs, exclude);
    s := new Schema(version, t);
  }
}
