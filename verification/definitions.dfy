/** Field definitions as decoded from the schema files, the merge of several files,
    and the flattening of the definition tree into dotted paths with resolved types. */
module Definitions {
  import opened Wrappers
  import opened Paths
  import opened Types

  /** One entry of a schema file. A "group" only contributes a namespace; any other
      `typ` is a type keyword. `fields` holds the nested entries, keyed by name. */
  datatype Definition = Definition(name: string, typ: string, description: string,
                                   fields: map<string, Definition>)

  /** A top-level mapping of definitions seen as an anonymous group node, so that the
      recursive passes can descend into `node.fields` and terminate on the tree. */
  function Group(defs: map<string, Definition>): (g: Definition)
    ensures g.fields == defs && g.typ == "group"
  {
    Definition("", "group", "", defs)
  }

  /** `d` sits at dotted path `p` below the child `k` of `node`, whose own path is
      `prefix`: either `d` is that child and `p` its path, or `d` lies deeper. */
  ghost predicate DefinedVia(prefix: string, node: Definition, k: string, p: string, d: Definition)
    decreases node, 0
  {
    k in node.fields &&
    ((Join(prefix, k) == p && node.fields[k] == d) ||
     DefinedAt(Join(prefix, k), node.fields[k], p, d))
  }

  /** `d` is a definition somewhere below `node` (whose path is `prefix`), and its
      dotted path is `p`; the top level uses prefix "" and gets no leading dot. */
  ghost predicate DefinedAt(prefix: string, node: Definition, p: string, d: Definition)
    decreases node, 1
  {
    exists k :: DefinedVia(prefix, node, k, p, d)
  }

  /** The merge of decoded files: every file's entries in turn, later files
      replacing earlier entries with the same key wholesale. */
  ghost function Merged(files: seq<map<string, Definition>>): map<string, Definition>
  {
    if files == [] then map[] else Merged(files[..|files| - 1]) + files[|files| - 1]
  }

  /** The key-override merge of loadDefs, over already-decoded files. The keys of
      one file are visited in no particular order. */
  method MergeDefs(files: seq<map<string, Definition>>) returns (defs: map<string, Definition>)
    ensures defs == Merged(files)
  {
    defs := map[];
    var i := 0;
    while i < |files|
      invariant 0 <= i <= |files|
      invariant defs == Merged(files[..i])
    {
      var file := files[i];
      var rest := file.Keys;
      ghost var before := defs;
      while rest != {}
        invariant rest <= file.Keys
        invariant defs.Keys == before.Keys + (file.Keys - rest)
        invariant forall k :: k in defs ==>
                    defs[k] == if k in file && k !in rest then file[k] else before[k]
        decreases rest
      {
        var k :| k in rest;
        defs := defs[k := file[k]];
        rest := rest - {k};
      }
      assert defs == before + file;
      assert files[..i + 1][..i] == files[..i];
      i := i + 1;
    }
    assert files[..i] == files;
  }

  /** A key is in the merge exactly when some file has it. */
  lemma {:induction false} MergedKeys(files: seq<map<string, Definition>>, k: string)
    ensures k in Merged(files) <==> exists i :: 0 <= i < |files| && k in files[i]
    decreases |files|
  {
    if files != [] {
      var init := files[..|files| - 1];
      MergedKeys(init, k);
      if exists i :: 0 <= i < |init| && k in init[i] {
        var i :| 0 <= i < |init| && k in init[i];
        assert k in files[i];
      }
      if exists i :: 0 <= i < |files| && k in files[i] {
        var i :| 0 <= i < |files| && k in files[i];
        if i < |init| {
          assert k in init[i];
        }
      }
    }
  }

  /** The last file that has a key decides its definition. */
  lemma {:induction false} MergedLastWins(files: seq<map<string, Definition>>, i: int, k: string)
    requires 0 <= i < |files| && k in files[i]
    requires forall j :: i < j < |files| ==> k !in files[j]
    ensures k in Merged(files) && Merged(files)[k] == files[i][k]
    decreases |files|
  {
    var init := files[..|files| - 1];
    if i < |files| - 1 {
      assert forall j :: i < j < |init| ==> init[j] == files[j];
      MergedLastWins(init, i, k);
    }
  }

  /** Every key of `m` is the path of a non-group definition below one of the
      children `done` of `node`, and maps to that definition's resolved type. */
  ghost predicate FlatSound(path: string, node: Definition, done: set<string>, m: map<string, TypeInfo>)
  {
    forall p :: p in m ==>
      exists k, d :: k in done && DefinedVia(path, node, k, p, d) && d.typ != "group" &&
                     GetType(d.typ, p) == Ok(m[p])
  }

  /** Every non-group definition below one of the children `done` of `node` has a
      known type and its path is a key of `m`. */
  ghost predicate FlatComplete(path: string, node: Definition, done: set<string>, m: map<string, TypeInfo>)
  {
    forall k, p, d :: k in done && DefinedVia(path, node, k, p, d) && d.typ != "group" ==>
      p in m && d.typ in KnownTypes
  }

  /** One turn of the flattening loop: the child `k` itself (unless it is a group)
      and then its flattened subtree `sub` are added to `m`. */
  lemma FlattenStep(path: string, node: Definition, done: set<string>, k: string,
                    m: map<string, TypeInfo>, sub: map<string, TypeInfo>)
    requires k in node.fields
    requires FlatSound(path, node, done, m) && FlatComplete(path, node, done, m)
    requires node.fields[k].typ != "group" ==> node.fields[k].typ in KnownTypes
    requires forall p :: p in sub ==>
               exists d :: DefinedAt(Join(path, k), node.fields[k], p, d) && d.typ != "group" &&
                           GetType(d.typ, p) == Ok(sub[p])
    requires forall p, d :: DefinedAt(Join(path, k), node.fields[k], p, d) && d.typ != "group" ==>
               p in sub && d.typ in KnownTypes
    ensures var fld := node.fields[k];
            var m1 := if fld.typ != "group" then m[Join(path, k) := GetType(fld.typ, Join(path, k)).value] else m;
            FlatSound(path, node, done + {k}, m1 + sub) && FlatComplete(path, node, done + {k}, m1 + sub)
  {
    var fld := node.fields[k];
    var fldPath := Join(path, k);
    var m1 := if fld.typ != "group" then m[fldPath := GetType(fld.typ, fldPath).value] else m;
    var m2 := m1 + sub;
    forall p | p in m2
      ensures exists k', d :: k' in done + {k} && DefinedVia(path, node, k', p, d) && d.typ != "group" &&
                              GetType(d.typ, p) == Ok(m2[p])
    {
      if p in sub {
        var d :| DefinedAt(fldPath, fld, p, d) && d.typ != "group" && GetType(d.typ, p) == Ok(sub[p]);
        assert DefinedVia(path, node, k, p, d);
      } else if fld.typ != "group" && p == fldPath {
        assert DefinedVia(path, node, k, p, fld);
      } else {
        var k', d :| k' in done && DefinedVia(path, node, k', p, d) && d.typ != "group" &&
                     GetType(d.typ, p) == Ok(m[p]);
      }
    }
    forall k', p, d | k' in done + {k} && DefinedVia(path, node, k', p, d) && d.typ != "group"
      ensures p in m2 && d.typ in KnownTypes
    {
      if k' == k && !(fldPath == p && fld == d) {
        assert DefinedAt(fldPath, fld, p, d);
      }
    }
  }

  /** flattenDefs: the dotted path of every non-group definition below `node`, with
      its resolved type; groups add only a prefix and are never resolved, since
      "group" is not one of the known type keywords. An unknown type keyword is fatal.
      Keys are visited in no particular order, so when two definitions share a
      path the one visited last decides its type, and when several have unknown
      types any one of them is reported. */
  method FlattenDefs(path: string, node: Definition) returns (r: Result<map<string, TypeInfo>, Failure>)
    ensures r.Ok? ==> forall p :: p in r.value ==>
              exists d :: DefinedAt(path, node, p, d) && d.typ != "group" && GetType(d.typ, p) == Ok(r.value[p])
    ensures r.Ok? ==> forall p, d :: DefinedAt(path, node, p, d) && d.typ != "group" ==> p in r.value
    ensures r.Ok? <==> forall p, d :: DefinedAt(path, node, p, d) && d.typ != "group" ==> d.typ in KnownTypes
    ensures r.Err? ==> exists p, d :: DefinedAt(path, node, p, d) && d.typ != "group" &&
                                       d.typ !in KnownTypes && r.error == UnknownType(d.typ, p)
    decreases node
  {
    var filtered: map<string, TypeInfo> := map[];
    var rest := node.fields.Keys;
    while rest != {}
      invariant rest <= node.fields.Keys
      invariant FlatSound(path, node, node.fields.Keys - rest, filtered)
      invariant FlatComplete(path, node, node.fields.Keys - rest, filtered)
      decreases rest
    {
      var k :| k in rest;
      var fld := node.fields[k];
      var fldPath := Join(path, k);
      ghost var m := filtered;
      if fld.typ != "group" {
        var t := GetType(fld.typ, fldPath);
        if t.Err? {
          assert DefinedVia(path, node, k, fldPath, fld);
          assert DefinedAt(path, node, fldPath, fld);
          return Err(t.error);
        }
        filtered := filtered[fldPath := t.value];
      }
      var sub := FlattenDefs(fldPath, fld);
      if sub.Err? {
        ghost var p, d :| DefinedAt(fldPath, fld, p, d) && d.typ != "group" &&
                          d.typ !in KnownTypes && sub.error == UnknownType(d.typ, p);
        assert DefinedVia(path, node, k, p, d);
        assert DefinedAt(path, node, p, d);
        return Err(sub.error);
      }
      FlattenStep(path, node, node.fields.Keys - rest, k, m, sub.value);
      filtered := filtered + sub.value;
      assert node.fields.Keys - (rest - {k}) == (node.fields.Keys - rest) + {k};
      rest := rest - {k};
    }
    r := Ok(filtered);
    FlattenDone(path, node, filtered);
  }

  /** When every child has been visited, the loop's invariants are the contract of
      the flattening. */
  lemma FlattenDone(path: string, node: Definition, m: map<string, TypeInfo>)
    requires FlatSound(path, node, node.fields.Keys, m) && FlatComplete(path, node, node.fields.Keys, m)
    ensures forall p :: p in m ==>
              exists d :: DefinedAt(path, node, p, d) && d.typ != "group" && GetType(d.typ, p) == Ok(m[p])
    ensures forall p, d :: DefinedAt(path, node, p, d) && d.typ != "group" ==> p in m && d.typ in KnownTypes
  {
    forall p, d | DefinedAt(path, node, p, d) && d.typ != "group"
      ensures p in m && d.typ in KnownTypes
    {
      assert DefinedAt(path, node, p, d);
      var k :| DefinedVia(path, node, k, p, d);
    }
    forall p | p in m
      ensures exists d :: DefinedAt(path, node, p, d) && d.typ != "group" && GetType(d.typ, p) == Ok(m[p])
    {
      var k, d :| k in node.fields.Keys && DefinedVia(path, node, k, p, d) && d.typ != "group" &&
                  GetType(d.typ, p) == Ok(m[p]);
      assert DefinedAt(path, node, p, d);
    }
  }
}
