/** LoadFromFiles (schema/schema.go lines 66-75): merge the decoded files, flatten
    the merged definitions, build the schema from them and copy the descriptions
    onto it. Its contract is stated on the merged definition tree alone. */
module Pipeline {
  import opened Wrappers
  import opened Paths
  import opened Types
  import opened Definitions
  import opened Builder
  import opened Descriptions
  import opened Schemas

  /** The merged definitions of the decoded files, as one tree. */
  ghost function Loaded(files: seq<map<string, Definition>>): (tree: Definition)
    ensures tree.typ == "group" && tree.fields == Merged(files)
  {
    Group(Merged(files))
  }

  /** `p` is the dotted path of a field (a non-group definition) of `tree`. */
  ghost predicate FieldAt(tree: Definition, p: string)
  {
    exists d :: DefinedAt("", tree, p, d) && d.typ != "group"
  }

  /** Every field of `tree` has a type keyword the resolver knows. */
  ghost predicate TypesKnown(tree: Definition)
  {
    forall p, d :: DefinedAt("", tree, p, d) && d.typ != "group" ==> d.typ in KnownTypes
  }

  /** `p` is a namespace path of the schema of `tree`: a non-empty path above an
      admitted field's normalised path. */
  ghost predicate NamespaceFor(tree: Definition, exclude: set<string>, p: string)
  {
    exists k :: FieldAt(tree, k) && Admitted(k, exclude) && p in Ancestors(ParentPath(NormalizePath(k)))
  }

  /** Every described group of `tree` below the root has a namespace. */
  ghost predicate GroupsPlaced(tree: Definition, exclude: set<string>)
  {
    forall q, d :: (DefinedAt("", tree, q, d) && d.typ == "group" && d.description != "" &&
                    NormalizePath(q) != "") ==> NamespaceFor(tree, exclude, NormalizePath(q))
  }

  /** Every stored value comes from an admitted field of `tree`, with the field's
      normalised path and resolved type. */
  ghost predicate Typed(t: Tables, tree: Definition, exclude: set<string>)
  {
    forall key :: key in t.values ==>
      t.values[key] < |t.arena| &&
      exists k, d :: DefinedAt("", tree, k, d) && d.typ != "group" && Admitted(k, exclude) &&
                     ValueKey(k) == key && t.arena[t.values[key]].flatName == NormalizePath(k) &&
                     GetType(d.typ, k) == Ok(t.arena[t.values[key]].typ)
  }

  /** Every description of `t` was copied from a definition of `tree`, and every
      description of `tree` was copied wherever it has a namespace or value. */
  ghost predicate Described(t: Tables, tree: Definition)
  {
    (forall p :: p in t.namespaces ==>
       t.namespaces[p].description == "" ||
       GroupSource("", tree, tree.fields.Keys, t.values, false, p, t.namespaces[p].description)) &&
    (forall i :: 0 <= i < |t.arena| ==>
       t.arena[i].description == "" ||
       FieldSource("", tree, tree.fields.Keys, t.values, false, i, t.arena[i].description)) &&
    Covered(t, "", tree, tree.fields.Keys, false)
  }

  /** Visiting the children of the tree without skipping meets exactly the
      definitions of the tree. */
  lemma VisitsDefined(tree: Definition, values: map<string, ValueRef>, q: string, d: Definition)
    ensures Visits("", tree, tree.fields.Keys, values, false, q, d) <==> DefinedAt("", tree, q, d)
  {
    VisitedAll("", tree, q, d, values);
    if VisitedAt("", tree, q, d, values, false) {
      var k :| VisitedVia("", tree, k, q, d, values, false);
      assert k in tree.fields.Keys;
    }
  }

  /** The keys of the flattened definitions are the fields of the tree. */
  lemma FlatFields(tree: Definition, m: map<string, TypeInfo>)
    requires forall p :: p in m ==>
               exists d :: DefinedAt("", tree, p, d) && d.typ != "group" && GetType(d.typ, p) == Ok(m[p])
    requires forall p, d :: DefinedAt("", tree, p, d) && d.typ != "group" ==> p in m
    ensures forall p :: p in m <==> FieldAt(tree, p)
  {
  }

  /** The namespaces built from the flattened definitions are the namespace
      paths of the tree. */
  lemma NamespacesOfTree(tree: Definition, m: map<string, TypeInfo>, exclude: set<string>, p: string)
    requires forall p :: p in m <==> FieldAt(tree, p)
    ensures p in NamespacePaths(m.Keys, exclude) <==> NamespaceFor(tree, exclude, p)
  {
    if NamespaceFor(tree, exclude, p) {
      var k :| FieldAt(tree, k) && Admitted(k, exclude) && p in Ancestors(ParentPath(NormalizePath(k)));
      assert k in m.Keys;
    }
  }

  /** The values built from the flattened definitions are keyed by the admitted
      fields of the tree. */
  lemma ValuesOfTree(tree: Definition, m: map<string, TypeInfo>, exclude: set<string>, key: string)
    requires forall p :: p in m <==> FieldAt(tree, p)
    ensures key in StoredKeys(m.Keys, exclude) <==>
            exists k :: FieldAt(tree, k) && Admitted(k, exclude) && ValueKey(k) == key
  {
    if exists k :: FieldAt(tree, k) && Admitted(k, exclude) && ValueKey(k) == key {
      var k :| FieldAt(tree, k) && Admitted(k, exclude) && ValueKey(k) == key;
      assert k in m.Keys;
    }
  }

  /** The built values carry the types the tree gives their fields. */
  lemma TypedOfTree(t: Tables, tree: Definition, m: map<string, TypeInfo>, exclude: set<string>)
    requires forall p :: p in m ==>
               exists d :: DefinedAt("", tree, p, d) && d.typ != "group" && GetType(d.typ, p) == Ok(m[p])
    requires FromDefinitions(t, m, m.Keys, exclude)
    ensures Typed(t, tree, exclude)
  {
    forall key | key in t.values
      ensures exists k, d :: DefinedAt("", tree, k, d) && d.typ != "group" && Admitted(k, exclude) &&
                             ValueKey(k) == key && t.arena[t.values[key]].flatName == NormalizePath(k) &&
                             GetType(d.typ, k) == Ok(t.arena[t.values[key]].typ)
    {
      var k :| k in m.Keys && k in m && Admitted(k, exclude) && ValueKey(k) == key &&
               t.arena[t.values[key]].flatName == NormalizePath(k) && t.arena[t.values[key]].typ == m[k];
      var d :| DefinedAt("", tree, k, d) && d.typ != "group" && GetType(d.typ, k) == Ok(m[k]);
    }
  }

  /** Copying descriptions succeeds on the built schema exactly when every
      described group of the tree has a namespace. */
  lemma GroupsFoundPlaced(t: Tables, tree: Definition, exclude: set<string>)
    requires forall p :: p in t.namespaces <==> NamespaceFor(tree, exclude, p)
    ensures GroupsFound(t, "", tree, tree.fields.Keys, false) <==> GroupsPlaced(tree, exclude)
  {
    forall q, d ensures Visits("", tree, tree.fields.Keys, t.values, false, q, d) <==> DefinedAt("", tree, q, d) {
      VisitsDefined(tree, t.values, q, d);
    }
  }

  /** Copying descriptions onto undescribed tables leaves them described by the tree. */
  lemma DescribedByCopy(t: Tables, t': Tables, tree: Definition)
    requires Undescribed(t) && Reshaped(t, t')
    requires Sourced(t, t', "", tree, tree.fields.Keys, false) && Covered(t', "", tree, tree.fields.Keys, false)
    ensures Described(t', tree)
  {
  }

  /** The tables built from the fields of `tree`: sound, holding exactly the
      admitted fields and their namespaces, typed by the tree. */
  ghost predicate Shaped(t: Tables, tree: Definition, exclude: set<string>)
  {
    Sound(t) &&
    (forall key :: key in t.values <==> exists k :: FieldAt(tree, k) && Admitted(k, exclude) && ValueKey(k) == key) &&
    (forall p :: p in t.namespaces <==> NamespaceFor(tree, exclude, p)) &&
    (forall key :: key in t.base ==> key !in exclude && '.' !in key) &&
    Typed(t, tree, exclude)
  }

  /** The tables of the schema of `tree`: shaped by its fields and described by
      the tree. */
  ghost predicate Loads(t: Tables, tree: Definition, exclude: set<string>)
  {
    Shaped(t, tree, exclude) && Described(t, tree)
  }

  /** The schema built from the flattened fields of `tree` is shaped by them. */
  lemma BuiltShaped(t: Tables, tree: Definition, m: map<string, TypeInfo>, exclude: set<string>)
    requires forall p :: p in m ==>
               exists d :: DefinedAt("", tree, p, d) && d.typ != "group" && GetType(d.typ, p) == Ok(m[p])
    requires forall p, d :: DefinedAt("", tree, p, d) && d.typ != "group" ==> p in m
    requires Sound(t) && FromDefinitions(t, m, m.Keys, exclude)
    requires t.values.Keys == StoredKeys(m.Keys, exclude) && t.namespaces.Keys == NamespacePaths(m.Keys, exclude)
    requires forall key :: key in t.base ==> key !in exclude && '.' !in key
    ensures Shaped(t, tree, exclude)
  {
    FlatFields(tree, m);
    forall p ensures p in t.namespaces <==> NamespaceFor(tree, exclude, p) {
      NamespacesOfTree(tree, m, exclude, p);
    }
    forall key ensures key in t.values <==> exists k :: FieldAt(tree, k) && Admitted(k, exclude) && ValueKey(k) == key {
      ValuesOfTree(tree, m, exclude, key);
    }
    TypedOfTree(t, tree, m, exclude);
  }

  /** A missing namespace reported by the copy is that of a described group of
      the tree that lies above no admitted field. */
  lemma MissingUnplaced(t: Tables, tree: Definition, exclude: set<string>, path: string)
    requires forall p :: p in t.namespaces <==> NamespaceFor(tree, exclude, p)
    requires Missing(t, "", tree, tree.fields.Keys, false, path)
    ensures path != "" && !NamespaceFor(tree, exclude, path) && !GroupsPlaced(tree, exclude)
    ensures exists q, d :: DefinedAt("", tree, q, d) && d.typ == "group" && d.description != "" &&
                           NormalizePath(q) == path
  {
    var q, d :| Visits("", tree, tree.fields.Keys, t.values, false, q, d) && d.typ == "group" &&
                d.description != "" && NormalizePath(q) == path;
    VisitsDefined(tree, t.values, q, d);
  }

  /** Copying the descriptions of `tree` onto the undescribed schema built from it
      gives the schema of the tree. */
  lemma CopiedLoads(t: Tables, t': Tables, tree: Definition, exclude: set<string>)
    requires Shaped(t, tree, exclude) && Undescribed(t) && Reshaped(t, t')
    requires Sourced(t, t', "", tree, tree.fields.Keys, false) && Covered(t', "", tree, tree.fields.Keys, false)
    ensures Loads(t', tree, exclude)
  {
    ReshapedSound(t, t');
    TypedReshaped(t, t', tree, exclude);
    DescribedByCopy(t, t', tree);
  }

  /** Copying descriptions keeps the values' paths and types. */
  lemma TypedReshaped(t: Tables, t': Tables, tree: Definition, exclude: set<string>)
    requires Reshaped(t, t') && Typed(t, tree, exclude)
    ensures Typed(t', tree, exclude)
  {
    forall key | key in t'.values
      ensures t'.arena[t'.values[key]].flatName == t.arena[t.values[key]].flatName &&
              t'.arena[t'.values[key]].typ == t.arena[t.values[key]].typ
    {
    }
  }

  /** LoadFromFiles on already-decoded files: merge them, flatten the merged
      definitions, build the schema and copy the descriptions of the tree onto it.
      The result is the schema of the merged definitions with the excluded ones
      left out. An unknown type keyword and a described group without a namespace
      are fatal. */
  method LoadFromFiles(version: string, files: seq<map<string, Definition>>, exclude: set<string>)
    returns (r: Result<Schema, Failure>)
    ensures r.Ok? <==> TypesKnown(Loaded(files)) && GroupsPlaced(Loaded(files), exclude)
    ensures r.Err? && r.error.UnknownType? ==>
              exists p, d :: DefinedAt("", Loaded(files), p, d) && d.typ != "group" && d.typ !in KnownTypes &&
                             r.error == UnknownType(d.typ, p)
    ensures r.Err? && r.error.NoNamespace? ==>
              TypesKnown(Loaded(files)) && r.error.path != "" && !NamespaceFor(Loaded(files), exclude, r.error.path) &&
              exists q, d :: DefinedAt("", Loaded(files), q, d) && d.typ == "group" && d.description != "" &&
                             NormalizePath(q) == r.error.path
    ensures r.Ok? ==> fresh(r.value) && r.value.Valid() && r.value.version == version
    ensures r.Ok? ==> Loads(r.value.Maps(), Loaded(files), exclude)
  {
    var defs := MergeDefs(files);
    var tree := Group(defs);
    assert tree == Loaded(files);
    var flat := FlattenDefs("", tree);
    if flat.Err? {
      assert !TypesKnown(tree);
      return Err(flat.error);
    }
    assert TypesKnown(tree);
    var s := BuildSchema(version, flat.value, exclude);
    ghost var built := s.Maps();
    BuiltShaped(built, tree, flat.value, exclude);
    GroupsFoundPlaced(built, tree, exclude);
    var c := s.CopyDescriptions(tree);
    if c.Err? {
      MissingUnplaced(built, tree, exclude, c.error.path);
      return Err(c.error);
    }
    CopiedLoads(built, s.Maps(), tree, exclude);
    r := Ok(s);
  }
}
