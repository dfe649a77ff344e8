/** The `continue` of copyDescriptions (schema/schema.go line 237) on a small
    definition tree: an excluded object `a` holding a described keyword `a.b`.
    The flattened definitions are `a` and `a.b`; with `a` excluded only `a.b` is
    stored. As written, the traversal stops at `a`, whose value is missing, and
    `a.b` never gets its description; the corrected traversal copies it.
    A second tree shows the other side of the same line: an excluded object `a`
    holding a described group `a.g` without fields. No namespace is built for
    `a.g`; as written the traversal never reaches it and returns normally, while
    the corrected traversal reports the missing namespace. */
module Findings {
  import opened Wrappers
  import opened Paths
  import opened Definitions
  import opened Builder
  import opened Descriptions
  import opened Schemas
  import opened Pipeline

  const Field := Definition("b", "keyword", "y", map[])
  const Object := Definition("a", "object", "x", map["b" := Field])
  const Defs := Group(map["a" := Object])
  const Excluded: set<string> := {"a"}

  /** The keyword `a.b` has no fields below it. */
  lemma NothingBelowField(p: string, d: Definition)
    ensures !DefinedAt("a.b", Field, p, d)
  {
  }

  /** The definitions of the example are `a` and `a.b`, and nothing else. */
  lemma ExampleDefinitions(q: string, d: Definition)
    ensures DefinedAt("", Defs, q, d) <==> (q == "a" && d == Object) || (q == "a.b" && d == Field)
  {
    assert DefinedVia("a", Object, "b", "a.b", Field);
    assert DefinedVia("", Defs, "a", "a.b", Field);
    assert DefinedVia("", Defs, "a", "a", Object);
    if DefinedAt("", Defs, q, d) {
      assert DefinedAt("", Defs, q, d);
      var k :| DefinedVia("", Defs, k, q, d);
      assert k == "a";
      if !(q == "a" && d == Object) {
        assert DefinedAt("a", Object, q, d);
        var k' :| DefinedVia("a", Object, k', q, d);
        assert k' == "b" && Join("a", k') == "a.b";
        NothingBelowField(q, d);
      }
    }
  }

  lemma NothingVisitedBelowField(q: string, d: Definition, values: map<string, ValueRef>, skip: bool)
    ensures !VisitedAt("a.b", Field, q, d, values, skip)
  {
  }

  /** Whether or not it skips, the traversal of the example meets only `a` and `a.b`. */
  lemma ExampleVisits(values: map<string, ValueRef>, skip: bool, q: string, d: Definition)
    ensures Visits("", Defs, Defs.fields.Keys, values, skip, q, d) ==>
              (q == "a" && d == Object) || (q == "a.b" && d == Field)
  {
    if Visits("", Defs, Defs.fields.Keys, values, skip, q, d) {
      var k :| k in Defs.fields.Keys && VisitedVia("", Defs, k, q, d, values, skip);
      assert k == "a";
      if !(q == "a" && d == Object) {
        assert VisitedAt("a", Object, q, d, values, skip);
        var k' :| VisitedVia("a", Object, k', q, d, values, skip);
        assert k' == "b" && Join("a", k') == "a.b";
        NothingVisitedBelowField(q, d, values, skip);
      }
    }
  }

  /** With `a` excluded, the schema of the example stores only `a.b`. */
  lemma StoredExample()
    ensures StoredKeys({"a", "a.b"}, Excluded) == {"a.b"}
  {
    assert NormalizePath("a.b") == "a.b";
    assert "a.b"[..2] == "a.";
    assert LastDot("a.b") == 1;
    assert "a.b"[2..] == "b" && "a.b"[..1] == "a";
    assert SplitPath("a.b") == ("b", "a");
    assert ValueKey("a.b") == "a.b";
    assert Admitted("a.b", Excluded);
  }

  /** As written: whatever the traversal copies, the value of `a.b` keeps its
      empty description. */
  lemma AsWrittenLosesNested(t: Tables, r: Tables)
    requires t.values.Keys == {"a.b"} && t.values["a.b"] < |t.arena|
    requires t.arena[t.values["a.b"]].description == ""
    requires Reshaped(t, r) && Sourced(t, r, "", Defs, Defs.fields.Keys, true)
    ensures r.arena[t.values["a.b"]].description == ""
  {
    var i := t.values["a.b"];
    assert Skipped("a", Object, t.values);
  }

  /** Corrected: the value of `a.b` gets the description of `a.b`. */
  lemma CorrectedCopiesNested(t: Tables, r: Tables)
    requires t.values.Keys == {"a.b"} && t.values["a.b"] < |t.arena|
    requires t.arena[t.values["a.b"]].description == ""
    requires Reshaped(t, r) && Sourced(t, r, "", Defs, Defs.fields.Keys, false)
    requires Covered(r, "", Defs, Defs.fields.Keys, false)
    ensures r.arena[t.values["a.b"]].description == "y"
  {
    var i := t.values["a.b"];
    assert NormalizePath("a.b") == "a.b";
    assert VisitedVia("a", Object, "b", "a.b", Field, r.values, false);
    assert VisitedVia("", Defs, "a", "a.b", Field, r.values, false);
    assert Copied(r, "a.b", Field);
    assert FieldSource("", Defs, Defs.fields.Keys, t.values, false, i, r.arena[i].description);
    var q, d :| Visits("", Defs, Defs.fields.Keys, t.values, false, q, d) && d.typ != "group" &&
                d.description == r.arena[i].description &&
                NormalizePath(q) in t.values && t.values[NormalizePath(q)] == i;
    ExampleVisits(t.values, false, q, d);
  }

  /** The example run through flattenDefs, buildSchema and both versions of
      copyDescriptions: the description of `a.b` as each leaves it. */
  method CompareOnExample() returns (asWritten: string, corrected: string)
    ensures asWritten == "" && corrected == "y"
  {
    var flat := FlattenDefs("", Defs);
    if flat.Err? {
      ghost var p, d :| DefinedAt("", Defs, p, d) && d.typ != "group" && d.typ !in Types.KnownTypes;
      ExampleDefinitions(p, d);
      assert false;
      return "", "";
    }
    forall p, d ensures DefinedAt("", Defs, p, d) <==> (p == "a" && d == Object) || (p == "a.b" && d == Field) {
      ExampleDefinitions(p, d);
    }
    assert flat.value.Keys == {"a", "a.b"};
    var t := BuildTables(flat.value, Excluded);
    StoredExample();
    var i := t.values["a.b"];
    forall values, skip, q, d ensures Visits("", Defs, Defs.fields.Keys, values, skip, q, d) ==> d.typ != "group" {
      ExampleVisits(values, skip, q, d);
    }
    var w := CopyDescriptionsAsWritten(t, "", Defs);
    var c := CopyDescriptions(t, "", Defs);
    AsWrittenLosesNested(t, w.value);
    CorrectedCopiesNested(t, c.value);
    asWritten := w.value.arena[i].description;
    corrected := c.value.arena[i].description;
  }

  const Inner := Definition("g", "group", "d", map[])
  const Holder := Definition("a", "object", "x", map["g" := Inner])
  const Defs2 := Group(map["a" := Holder])

  /** The definitions of the second example are `a` and `a.g`, and nothing else. */
  lemma SecondDefinitions(q: string, d: Definition)
    ensures DefinedAt("", Defs2, q, d) <==> (q == "a" && d == Holder) || (q == "a.g" && d == Inner)
  {
    assert DefinedVia("a", Holder, "g", "a.g", Inner);
    assert DefinedVia("", Defs2, "a", "a.g", Inner);
    assert DefinedVia("", Defs2, "a", "a", Holder);
    if DefinedAt("", Defs2, q, d) {
      assert DefinedAt("", Defs2, q, d);
      var k :| DefinedVia("", Defs2, k, q, d);
      assert k == "a";
      if !(q == "a" && d == Holder) {
        assert DefinedAt("a", Holder, q, d);
        var k' :| DefinedVia("a", Holder, k', q, d);
        assert k' == "g" && Join("a", k') == "a.g";
        NothingBelowInner(q, d);
      }
    }
  }

  /** The group `a.g` has no fields below it. */
  lemma NothingBelowInner(p: string, d: Definition)
    ensures !DefinedAt("a.g", Inner, p, d)
  {
  }

  /** As written: with the value of `a` missing, the traversal skips `a` and
      finds no described group without a namespace. */
  lemma AsWrittenMissesGroup(t: Tables)
    requires "a" !in t.values
    ensures GroupsFound(t, "", Defs2, Defs2.fields.Keys, true)
  {
    assert NormalizePath("a") == "a";
    assert Skipped("a", Holder, t.values);
    forall q, d | Visits("", Defs2, Defs2.fields.Keys, t.values, true, q, d)
      ensures d.typ != "group"
    {
      var k :| k in Defs2.fields.Keys && VisitedVia("", Defs2, k, q, d, t.values, true);
      assert k == "a";
    }
  }

  /** Corrected: the traversal reaches `a.g` and reports its missing namespace. */
  lemma CorrectedReportsGroup(t: Tables)
    requires "a.g" !in t.namespaces
    ensures Missing(t, "", Defs2, Defs2.fields.Keys, false, "a.g")
    ensures !GroupsFound(t, "", Defs2, Defs2.fields.Keys, false)
  {
    assert NormalizePath("a.g") == "a.g";
    assert VisitedVia("a", Holder, "g", "a.g", Inner, t.values, false);
    assert VisitedVia("", Defs2, "a", "a.g", Inner, t.values, false);
  }

  /** Loading the second example fails: its described group `a.g` lies above no
      admitted field. */
  lemma LoadRejectsSecond()
    ensures !GroupsPlaced(Loaded([Defs2.fields]), Excluded)
  {
    assert Merged([Defs2.fields]) == Merged([]) + Defs2.fields;
    assert Loaded([Defs2.fields]) == Defs2;
    assert NormalizePath("a.g") == "a.g";
    assert DefinedVia("a", Holder, "g", "a.g", Inner);
    assert DefinedVia("", Defs2, "a", "a.g", Inner);
    if NamespaceFor(Defs2, Excluded, "a.g") {
      var k :| FieldAt(Defs2, k) && Admitted(k, Excluded) && "a.g" in Ancestors(ParentPath(NormalizePath(k)));
      var d :| DefinedAt("", Defs2, k, d) && d.typ != "group";
      SecondDefinitions(k, d);
      assert false;
    }
  }

  /** The second example run through flattenDefs, buildSchema and both versions of
      copyDescriptions: whether each returns normally. */
  method CompareMissingGroup() returns (asWritten: bool, corrected: bool)
    ensures asWritten && !corrected
  {
    var flat := FlattenDefs("", Defs2);
    if flat.Err? {
      ghost var p, d :| DefinedAt("", Defs2, p, d) && d.typ != "group" && d.typ !in Types.KnownTypes;
      SecondDefinitions(p, d);
      assert false;
      return true, false;
    }
    forall p, d ensures DefinedAt("", Defs2, p, d) <==> (p == "a" && d == Holder) || (p == "a.g" && d == Inner) {
      SecondDefinitions(p, d);
    }
    assert flat.value.Keys == {"a"};
    var t := BuildTables(flat.value, Excluded);
    assert NormalizePath("a") == "a";
    assert !Admitted("a", Excluded);
    assert t.values.Keys == {} && t.namespaces.Keys == {};
    AsWrittenMissesGroup(t);
    CorrectedReportsGroup(t);
    var w := CopyDescriptionsAsWritten(t, "", Defs2);
    var c := CopyDescriptions(t, "", Defs2);
    asWritten, corrected := w.Ok?, c.Ok?;
  }
}
