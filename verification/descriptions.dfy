/** copyDescriptions (lines 219-250): the descriptions of the definition tree are
    copied onto the namespaces and values the schema was built with. Only
    descriptions change; a described group without a namespace is fatal. */
module Descriptions {
  import opened Wrappers
  import opened Paths
  import opened Definitions
  import opened Builder

  /** The definition at dotted path `fq` is a described field whose value is
      missing from Values; the code as written does not descend below it. */
  predicate Skipped(fq: string, d: Definition, values: map<string, ValueRef>)
  {
    NormalizePath(fq) != "" && d.description != "" && d.typ != "group" && NormalizePath(fq) !in values
  }

  /** The traversal below `node` (whose path is `prefix`) visits `d` at path `q`
      through the child `k`. With `skip`, it does not descend below a skipped
      field; without, it visits every definition (see VisitedAll). */
  ghost predicate VisitedVia(prefix: string, node: Definition, k: string, q: string, d: Definition,
                             values: map<string, ValueRef>, skip: bool)
    decreases node, 0
  {
    k in node.fields &&
    ((Join(prefix, k) == q && node.fields[k] == d) ||
     (!(skip && Skipped(Join(prefix, k), node.fields[k], values)) &&
      VisitedAt(Join(prefix, k), node.fields[k], q, d, values, skip)))
  }

  ghost predicate VisitedAt(prefix: string, node: Definition, q: string, d: Definition,
                            values: map<string, ValueRef>, skip: bool)
    decreases node, 1
  {
    exists k :: VisitedVia(prefix, node, k, q, d, values, skip)
  }

  /** The traversal of the children `ks` of `node` visits `d` at path `q`. */
  ghost predicate Visits(root: string, node: Definition, ks: set<string>, values: map<string, ValueRef>,
                         skip: bool, q: string, d: Definition)
  {
    exists k :: k in ks && VisitedVia(root, node, k, q, d, values, skip)
  }

  /** Without skipping, the traversal visits exactly the definitions of the tree. */
  lemma {:induction false} VisitedAll(prefix: string, node: Definition, q: string, d: Definition,
                                      values: map<string, ValueRef>)
    ensures VisitedAt(prefix, node, q, d, values, false) <==> DefinedAt(prefix, node, q, d)
    decreases node
  {
    if VisitedAt(prefix, node, q, d, values, false) {
      assert VisitedAt(prefix, node, q, d, values, false);
      var k :| VisitedVia(prefix, node, k, q, d, values, false);
      if !(Join(prefix, k) == q && node.fields[k] == d) {
        VisitedAll(Join(prefix, k), node.fields[k], q, d, values);
      }
      assert DefinedVia(prefix, node, k, q, d);
    }
    if DefinedAt(prefix, node, q, d) {
      assert DefinedAt(prefix, node, q, d);
      var k :| DefinedVia(prefix, node, k, q, d);
      if !(Join(prefix, k) == q && node.fields[k] == d) {
        VisitedAll(Join(prefix, k), node.fields[k], q, d, values);
      }
      assert VisitedVia(prefix, node, k, q, d, values, false);
    }
  }

  /** Only descriptions differ between `t` and `t'`. */
  ghost predicate Reshaped(t: Tables, t': Tables)
  {
    t'.base == t.base && t'.top == t.top && t'.values == t.values &&
    t'.namespaces.Keys == t.namespaces.Keys &&
    (forall p :: p in t.namespaces ==>
       t'.namespaces[p] == t.namespaces[p].(description := t'.namespaces[p].description)) &&
    |t'.arena| == |t.arena| &&
    (forall i :: 0 <= i < |t.arena| ==> t'.arena[i] == t.arena[i].(description := t'.arena[i].description))
  }

  /** `desc` is the description of a visited group whose path normalises to `p`. */
  ghost predicate GroupSource(root: string, node: Definition, ks: set<string>, values: map<string, ValueRef>,
                              skip: bool, p: string, desc: string)
  {
    desc != "" &&
    exists q, d :: Visits(root, node, ks, values, skip, q, d) && d.typ == "group" &&
                   d.description == desc && NormalizePath(q) == p
  }

  /** `desc` is the description of a visited field whose path, normalised, is
      stored in Values as value `i`. */
  ghost predicate FieldSource(root: string, node: Definition, ks: set<string>, values: map<string, ValueRef>,
                              skip: bool, i: ValueRef, desc: string)
  {
    desc != "" &&
    exists q, d :: Visits(root, node, ks, values, skip, q, d) && d.typ != "group" &&
                   d.description == desc && NormalizePath(q) in values && values[NormalizePath(q)] == i
  }

  /** Every namespace description that changed from `t` to `t'` was copied from a
      visited group. */
  ghost predicate NamesSourced(t: Tables, t': Tables, root: string, node: Definition, ks: set<string>, skip: bool)
  {
    forall p :: p in t.namespaces && p in t'.namespaces ==>
      t'.namespaces[p].description == t.namespaces[p].description ||
      GroupSource(root, node, ks, t.values, skip, p, t'.namespaces[p].description)
  }

  /** Every value description that changed from `t` to `t'` was copied from a
      visited field. */
  ghost predicate ValuesSourced(t: Tables, t': Tables, root: string, node: Definition, ks: set<string>, skip: bool)
  {
    forall i :: 0 <= i < |t.arena| && i < |t'.arena| ==>
      t'.arena[i].description == t.arena[i].description ||
      FieldSource(root, node, ks, t.values, skip, i, t'.arena[i].description)
  }

  /** Every description that changed from `t` to `t'` was copied from a visited
      definition. */
  ghost predicate Sourced(t: Tables, t': Tables, root: string, node: Definition, ks: set<string>, skip: bool)
  {
    NamesSourced(t, t', root, node, ks, skip) && ValuesSourced(t, t', root, node, ks, skip)
  }

  /** The definition `d` at path `q` has had its description copied, if it has one:
      a group onto its namespace, which exists, a field onto its value, if any. */
  ghost predicate Copied(t: Tables, q: string, d: Definition)
  {
    d.description != "" && NormalizePath(q) != "" ==>
      (d.typ == "group" ==> NormalizePath(q) in t.namespaces &&
                            t.namespaces[NormalizePath(q)].description != "") &&
      (d.typ != "group" && NormalizePath(q) in t.values ==>
         t.values[NormalizePath(q)] < |t.arena| && t.arena[t.values[NormalizePath(q)]].description != "")
  }

  /** Every visited definition has had its description copied. */
  ghost predicate Covered(t: Tables, root: string, node: Definition, ks: set<string>, skip: bool)
  {
    forall q, d :: Visits(root, node, ks, t.values, skip, q, d) ==> Copied(t, q, d)
  }

  /** Every visited described group has a namespace. */
  ghost predicate GroupsFound(t: Tables, root: string, node: Definition, ks: set<string>, skip: bool)
  {
    forall q, d :: (Visits(root, node, ks, t.values, skip, q, d) && d.typ == "group" && d.description != "" &&
                    NormalizePath(q) != "") ==> NormalizePath(q) in t.namespaces
  }

  /** `p` is the missing namespace of a visited described group. */
  ghost predicate Missing(t: Tables, root: string, node: Definition, ks: set<string>, skip: bool, p: string)
  {
    p != "" && p !in t.namespaces &&
    exists q, d :: Visits(root, node, ks, t.values, skip, q, d) && d.typ == "group" && d.description != "" &&
                   NormalizePath(q) == p
  }

  /** The tables after the description of `d`, at dotted path `fq`, is assigned
      (lines 226-245): onto the namespace of a group, onto the value of a field
      stored in Values; nothing happens for the root or an empty description. */
  function Assigned(t: Tables, fq: string, d: Definition): (r: Tables)
    requires forall key :: key in t.values ==> t.values[key] < |t.arena|
    requires d.description != "" && NormalizePath(fq) != "" && d.typ == "group" ==> NormalizePath(fq) in t.namespaces
    ensures Reshaped(t, r) && Copied(r, fq, d)
  {
    var path := NormalizePath(fq);
    if path == "" || d.description == "" then t
    else if d.typ == "group" then
      t.(namespaces := t.namespaces[path := t.namespaces[path].(description := d.description)])
    else if path in t.values then
      t.(arena := t.arena[t.values[path] := t.arena[t.values[path]].(description := d.description)])
    else t
  }


  // ---------------------------------------------------------------------------
  // Visits below a child, and the sources they provide.
  // ---------------------------------------------------------------------------

  /** A visit in the subtree of the child `k`, which is not skipped, is a visit
      through `k`. */
  lemma Lift(root: string, node: Definition, k: string, values: map<string, ValueRef>, skip: bool,
             q: string, d: Definition)
    requires k in node.fields && !(skip && Skipped(Join(root, k), node.fields[k], values))
    requires Visits(Join(root, k), node.fields[k], node.fields[k].fields.Keys, values, skip, q, d)
    ensures VisitedVia(root, node, k, q, d, values, skip)
  {
    var k' :| k' in node.fields[k].fields.Keys && VisitedVia(Join(root, k), node.fields[k], k', q, d, values, skip);
    assert VisitedAt(Join(root, k), node.fields[k], q, d, values, skip);
  }

  /** A visit through `k` is the child itself or a visit in its subtree. */
  lemma Lower(root: string, node: Definition, k: string, values: map<string, ValueRef>, skip: bool,
              q: string, d: Definition)
    requires VisitedVia(root, node, k, q, d, values, skip)
    ensures (Join(root, k) == q && node.fields[k] == d) ||
            (!(skip && Skipped(Join(root, k), node.fields[k], values)) &&
             Visits(Join(root, k), node.fields[k], node.fields[k].fields.Keys, values, skip, q, d))
  {
    if !(Join(root, k) == q && node.fields[k] == d) {
      assert VisitedAt(Join(root, k), node.fields[k], q, d, values, skip);
      var k' :| VisitedVia(Join(root, k), node.fields[k], k', q, d, values, skip);
    }
  }

  lemma GroupSourceMore(root: string, node: Definition, ks: set<string>, k: string, values: map<string, ValueRef>,
                        skip: bool, p: string, desc: string)
    requires GroupSource(root, node, ks, values, skip, p, desc)
    ensures GroupSource(root, node, ks + {k}, values, skip, p, desc)
  {
    var q, d :| Visits(root, node, ks, values, skip, q, d) && d.typ == "group" &&
                d.description == desc && NormalizePath(q) == p;
    var k' :| k' in ks && VisitedVia(root, node, k', q, d, values, skip);
    assert Visits(root, node, ks + {k}, values, skip, q, d);
  }

  lemma FieldSourceMore(root: string, node: Definition, ks: set<string>, k: string, values: map<string, ValueRef>,
                        skip: bool, i: ValueRef, desc: string)
    requires FieldSource(root, node, ks, values, skip, i, desc)
    ensures FieldSource(root, node, ks + {k}, values, skip, i, desc)
  {
    var q, d :| Visits(root, node, ks, values, skip, q, d) && d.typ != "group" &&
                d.description == desc && NormalizePath(q) in values && values[NormalizePath(q)] == i;
    var k' :| k' in ks && VisitedVia(root, node, k', q, d, values, skip);
    assert Visits(root, node, ks + {k}, values, skip, q, d);
  }

  lemma GroupSourceLift(root: string, node: Definition, ks: set<string>, k: string, values: map<string, ValueRef>,
                        skip: bool, p: string, desc: string)
    requires k in ks && k in node.fields && !(skip && Skipped(Join(root, k), node.fields[k], values))
    requires GroupSource(Join(root, k), node.fields[k], node.fields[k].fields.Keys, values, skip, p, desc)
    ensures GroupSource(root, node, ks, values, skip, p, desc)
  {
    var q, d :| Visits(Join(root, k), node.fields[k], node.fields[k].fields.Keys, values, skip, q, d) &&
                d.typ == "group" && d.description == desc && NormalizePath(q) == p;
    Lift(root, node, k, values, skip, q, d);
    assert Visits(root, node, ks, values, skip, q, d);
  }

  lemma FieldSourceLift(root: string, node: Definition, ks: set<string>, k: string, values: map<string, ValueRef>,
                        skip: bool, i: ValueRef, desc: string)
    requires k in ks && k in node.fields && !(skip && Skipped(Join(root, k), node.fields[k], values))
    requires FieldSource(Join(root, k), node.fields[k], node.fields[k].fields.Keys, values, skip, i, desc)
    ensures FieldSource(root, node, ks, values, skip, i, desc)
  {
    var q, d :| Visits(Join(root, k), node.fields[k], node.fields[k].fields.Keys, values, skip, q, d) &&
                d.typ != "group" && d.description == desc && NormalizePath(q) in values && values[NormalizePath(q)] == i;
    Lift(root, node, k, values, skip, q, d);
    assert Visits(root, node, ks, values, skip, q, d);
  }

  // ---------------------------------------------------------------------------
  // One turn of the loop over the children, invariant by invariant.
  // ---------------------------------------------------------------------------

  /** The invariant of the loop over the children of `node`: only descriptions
      changed, each copied from a definition visited through the children `ks`
      done so far, and every definition visited through them is copied. */
  ghost predicate Progress(t: Tables, c: Tables, root: string, node: Definition, ks: set<string>, skip: bool)
  {
    Reshaped(t, c) && Sourced(t, c, root, node, ks, skip) && Covered(c, root, node, ks, skip)
  }

  /** The assignment for the child `k` is the only namespace change that `k`
      contributes itself. */
  lemma AssignedNames(t: Tables, cur: Tables, root: string, node: Definition, ks: set<string>, k: string,
                      skip: bool)
    requires k in node.fields && Reshaped(t, cur) && NamesSourced(t, cur, root, node, ks, skip)
    requires forall key :: key in cur.values ==> cur.values[key] < |cur.arena|
    requires var d := node.fields[k];
             d.description != "" && NormalizePath(Join(root, k)) != "" && d.typ == "group" ==>
               NormalizePath(Join(root, k)) in cur.namespaces
    ensures NamesSourced(t, Assigned(cur, Join(root, k), node.fields[k]), root, node, ks + {k}, skip)
  {
    var fq := Join(root, k);
    var d := node.fields[k];
    var c1 := Assigned(cur, fq, d);
    forall p | p in t.namespaces && p in c1.namespaces
      ensures c1.namespaces[p].description == t.namespaces[p].description ||
              GroupSource(root, node, ks + {k}, t.values, skip, p, c1.namespaces[p].description)
    {
      if c1.namespaces[p].description != cur.namespaces[p].description {
        assert VisitedVia(root, node, k, fq, d, t.values, skip);
        assert Visits(root, node, ks + {k}, t.values, skip, fq, d);
      } else if cur.namespaces[p].description != t.namespaces[p].description {
        GroupSourceMore(root, node, ks, k, t.values, skip, p, cur.namespaces[p].description);
      }
    }
  }

  /** The assignment for the child `k` is the only value change that `k`
      contributes itself. */
  lemma AssignedValues(t: Tables, cur: Tables, root: string, node: Definition, ks: set<string>, k: string,
                       skip: bool)
    requires k in node.fields && Reshaped(t, cur) && ValuesSourced(t, cur, root, node, ks, skip)
    requires forall key :: key in cur.values ==> cur.values[key] < |cur.arena|
    requires var d := node.fields[k];
             d.description != "" && NormalizePath(Join(root, k)) != "" && d.typ == "group" ==>
               NormalizePath(Join(root, k)) in cur.namespaces
    ensures ValuesSourced(t, Assigned(cur, Join(root, k), node.fields[k]), root, node, ks + {k}, skip)
  {
    var fq := Join(root, k);
    var d := node.fields[k];
    var c1 := Assigned(cur, fq, d);
    forall i | 0 <= i < |t.arena| && i < |c1.arena|
      ensures c1.arena[i].description == t.arena[i].description ||
              FieldSource(root, node, ks + {k}, t.values, skip, i, c1.arena[i].description)
    {
      if c1.arena[i].description != cur.arena[i].description {
        assert VisitedVia(root, node, k, fq, d, t.values, skip);
        assert Visits(root, node, ks + {k}, t.values, skip, fq, d);
      } else if cur.arena[i].description != t.arena[i].description {
        FieldSourceMore(root, node, ks, k, t.values, skip, i, cur.arena[i].description);
      }
    }
  }

  /** Assigning a description keeps every copied description non-empty. */
  lemma AssignedCovered(c: Tables, fq: string, d: Definition, root: string, node: Definition, ks: set<string>,
                        skip: bool)
    requires forall key :: key in c.values ==> c.values[key] < |c.arena|
    requires d.description != "" && NormalizePath(fq) != "" && d.typ == "group" ==> NormalizePath(fq) in c.namespaces
    requires Covered(c, root, node, ks, skip)
    ensures Covered(Assigned(c, fq, d), root, node, ks, skip)
  {
    var c1 := Assigned(c, fq, d);
    forall q, d' | Visits(root, node, ks, c1.values, skip, q, d')
      ensures Copied(c1, q, d')
    {
      assert Copied(c, q, d');
    }
  }

  /** The first half of a turn: the description of the child `k` is assigned. */
  lemma TurnAssigned(t: Tables, cur: Tables, root: string, node: Definition, ks: set<string>, k: string,
                     skip: bool)
    requires k in node.fields && Progress(t, cur, root, node, ks, skip)
    requires forall key :: key in cur.values ==> cur.values[key] < |cur.arena|
    requires var d := node.fields[k];
             d.description != "" && NormalizePath(Join(root, k)) != "" && d.typ == "group" ==>
               NormalizePath(Join(root, k)) in cur.namespaces
    ensures var c1 := Assigned(cur, Join(root, k), node.fields[k]);
            Reshaped(t, c1) && Sourced(t, c1, root, node, ks + {k}, skip) && Covered(c1, root, node, ks, skip)
  {
    AssignedNames(t, cur, root, node, ks, k, skip);
    AssignedValues(t, cur, root, node, ks, k, skip);
    AssignedCovered(cur, Join(root, k), node.fields[k], root, node, ks, skip);
  }

  /** A change whose descriptions all come from visited definitions keeps every
      copied description non-empty. */
  lemma CoveredKept(a: Tables, b: Tables, root: string, node: Definition, ks: set<string>,
                    root': string, node': Definition, ks': set<string>, skip: bool)
    requires Reshaped(a, b) && Sourced(a, b, root, node, ks, skip) && Covered(a, root', node', ks', skip)
    ensures Covered(b, root', node', ks', skip)
  {
    forall q, d | Visits(root', node', ks', b.values, skip, q, d)
      ensures Copied(b, q, d)
    {
      assert Copied(a, q, d);
    }
  }

  /** The namespace descriptions the subtree of `k` copies come from groups
      visited through `k`. */
  lemma ChainNames(t: Tables, c1: Tables, c2: Tables, root: string, node: Definition, ks: set<string>,
                   k: string, skip: bool)
    requires k in ks && k in node.fields && !(skip && Skipped(Join(root, k), node.fields[k], t.values))
    requires Reshaped(t, c1) && Reshaped(c1, c2)
    requires NamesSourced(t, c1, root, node, ks, skip)
    requires NamesSourced(c1, c2, Join(root, k), node.fields[k], node.fields[k].fields.Keys, skip)
    ensures NamesSourced(t, c2, root, node, ks, skip)
  {
    forall p | p in t.namespaces && p in c2.namespaces
      ensures c2.namespaces[p].description == t.namespaces[p].description ||
              GroupSource(root, node, ks, t.values, skip, p, c2.namespaces[p].description)
    {
      if c2.namespaces[p].description != c1.namespaces[p].description {
        GroupSourceLift(root, node, ks, k, t.values, skip, p, c2.namespaces[p].description);
      }
    }
  }

  /** The value descriptions the subtree of `k` copies come from fields visited
      through `k`. */
  lemma ChainValues(t: Tables, c1: Tables, c2: Tables, root: string, node: Definition, ks: set<string>,
                    k: string, skip: bool)
    requires k in ks && k in node.fields && !(skip && Skipped(Join(root, k), node.fields[k], t.values))
    requires Reshaped(t, c1) && Reshaped(c1, c2)
    requires ValuesSourced(t, c1, root, node, ks, skip)
    requires ValuesSourced(c1, c2, Join(root, k), node.fields[k], node.fields[k].fields.Keys, skip)
    ensures ValuesSourced(t, c2, root, node, ks, skip)
  {
    forall i | 0 <= i < |t.arena| && i < |c2.arena|
      ensures c2.arena[i].description == t.arena[i].description ||
              FieldSource(root, node, ks, t.values, skip, i, c2.arena[i].description)
    {
      if c2.arena[i].description != c1.arena[i].description {
        FieldSourceLift(root, node, ks, k, t.values, skip, i, c2.arena[i].description);
      }
    }
  }

  /** Once the child `k`, and its subtree unless it is skipped, are copied, the
      children `ks + {k}` are covered. */
  lemma CoveredJoin(c: Tables, root: string, node: Definition, ks: set<string>, k: string, skip: bool)
    requires k in node.fields
    requires Covered(c, root, node, ks, skip) && Copied(c, Join(root, k), node.fields[k])
    requires !(skip && Skipped(Join(root, k), node.fields[k], c.values)) ==>
               Covered(c, Join(root, k), node.fields[k], node.fields[k].fields.Keys, skip)
    ensures Covered(c, root, node, ks + {k}, skip)
  {
    forall q, d | Visits(root, node, ks + {k}, c.values, skip, q, d)
      ensures Copied(c, q, d)
    {
      var k' :| k' in ks + {k} && VisitedVia(root, node, k', q, d, c.values, skip);
      if k' != k {
        assert Visits(root, node, ks, c.values, skip, q, d);
      } else {
        Lower(root, node, k, c.values, skip, q, d);
      }
    }
  }

  /** A turn that skips the subtree of `k` completes it. */
  lemma TurnSkipped(t: Tables, c1: Tables, root: string, node: Definition, ks: set<string>, k: string, skip: bool)
    requires k in node.fields && skip && Skipped(Join(root, k), node.fields[k], c1.values)
    requires Reshaped(t, c1) && Sourced(t, c1, root, node, ks + {k}, skip) && Covered(c1, root, node, ks, skip)
    requires Copied(c1, Join(root, k), node.fields[k])
    ensures Progress(t, c1, root, node, ks + {k}, skip)
  {
    CoveredJoin(c1, root, node, ks, k, skip);
  }

  /** A turn that descends into the subtree of `k` completes it. */
  lemma TurnDescended(t: Tables, c1: Tables, c2: Tables, root: string, node: Definition, ks: set<string>,
                      k: string, skip: bool)
    requires k in node.fields && !(skip && Skipped(Join(root, k), node.fields[k], c1.values))
    requires Reshaped(t, c1) && Sourced(t, c1, root, node, ks + {k}, skip) && Covered(c1, root, node, ks, skip)
    requires Copied(c1, Join(root, k), node.fields[k])
    requires Progress(c1, c2, Join(root, k), node.fields[k], node.fields[k].fields.Keys, skip)
    ensures Progress(t, c2, root, node, ks + {k}, skip)
  {
    var fq := Join(root, k);
    var sub := node.fields[k];
    ChainNames(t, c1, c2, root, node, ks + {k}, k, skip);
    ChainValues(t, c1, c2, root, node, ks + {k}, k, skip);
    CoveredKept(c1, c2, fq, sub, sub.fields.Keys, root, node, ks, skip);
    assert Copied(c2, fq, sub) by {
      assert Copied(c1, fq, sub);
    }
    CoveredJoin(c2, root, node, ks, k, skip);
  }

  /** A described group at the child `k` without a namespace is missing. */
  lemma MissingHere(t: Tables, root: string, node: Definition, k: string, skip: bool)
    requires k in node.fields
    requires var d := node.fields[k];
             d.description != "" && NormalizePath(Join(root, k)) != "" && d.typ == "group" &&
             NormalizePath(Join(root, k)) !in t.namespaces
    ensures Missing(t, root, node, node.fields.Keys, skip, NormalizePath(Join(root, k)))
    ensures !GroupsFound(t, root, node, node.fields.Keys, skip)
  {
    assert VisitedVia(root, node, k, Join(root, k), node.fields[k], t.values, skip);
    assert Visits(root, node, node.fields.Keys, t.values, skip, Join(root, k), node.fields[k]);
  }

  /** A namespace missing in the subtree of `k` is missing for `node` too. */
  lemma MissingLift(t: Tables, c: Tables, root: string, node: Definition, k: string, skip: bool, p: string)
    requires k in node.fields && !(skip && Skipped(Join(root, k), node.fields[k], t.values))
    requires Reshaped(t, c) && Missing(c, Join(root, k), node.fields[k], node.fields[k].fields.Keys, skip, p)
    ensures Missing(t, root, node, node.fields.Keys, skip, p)
    ensures !GroupsFound(t, root, node, node.fields.Keys, skip)
  {
    var q, d :| Visits(Join(root, k), node.fields[k], node.fields[k].fields.Keys, c.values, skip, q, d) &&
                d.typ == "group" && d.description != "" && NormalizePath(q) == p;
    Lift(root, node, k, t.values, skip, q, d);
    assert Visits(root, node, node.fields.Keys, t.values, skip, q, d);
  }

  /** Covered children have all their described groups' namespaces. */
  lemma CoveredFound(t: Tables, c: Tables, root: string, node: Definition, ks: set<string>, skip: bool)
    requires Reshaped(t, c) && Covered(c, root, node, ks, skip)
    ensures GroupsFound(t, root, node, ks, skip)
  {
    forall q, d | Visits(root, node, ks, t.values, skip, q, d) && d.typ == "group" && d.description != "" &&
                  NormalizePath(q) != ""
      ensures NormalizePath(q) in t.namespaces
    {
      assert Copied(c, q, d);
    }
  }

  // ---------------------------------------------------------------------------
  // Descriptions play no part in the soundness of the schema.
  // ---------------------------------------------------------------------------

  lemma ReshapedKeyed(t: Tables, t': Tables)
    requires Reshaped(t, t') && Keyed(t.namespaces)
    ensures Keyed(t'.namespaces)
  {
    forall p | p in t'.namespaces
      ensures p != "" && t'.namespaces[p].flatName == p && t'.namespaces[p].name == Leaf(p)
    {
      assert t'.namespaces[p].flatName == t.namespaces[p].flatName;
    }
  }

  lemma ReshapedLinked(t: Tables, t': Tables)
    requires Reshaped(t, t') && Linked(t.namespaces, {})
    ensures Linked(t'.namespaces, {})
  {
    forall p | p in t'.namespaces
      ensures t'.namespaces[p].parent == ParentOf(p) && (ParentPath(p) != "" ==> ParentPath(p) in t'.namespaces)
    {
      assert t'.namespaces[p].parent == t.namespaces[p].parent;
    }
  }

  lemma ReshapedChildren(t: Tables, t': Tables)
    requires Reshaped(t, t') && ChildrenListed(t.namespaces)
    ensures ChildrenListed(t'.namespaces)
  {
    var ns, ns' := t.namespaces, t'.namespaces;
    forall p | p in ns'
      ensures NoDuplicates(ns'[p].children) &&
              forall q :: q in ns'[p].children <==> q in ns' && ns'[q].parent == Some(p)
    {
      assert ns'[p].children == ns[p].children;
      forall q ensures q in ns'[p].children <==> q in ns' && ns'[q].parent == Some(p)
      {
        if q in ns' {
          assert ns'[q].parent == ns[q].parent;
        }
      }
    }
  }

  lemma ReshapedValuesListed(t: Tables, t': Tables)
    requires Reshaped(t, t') && ValuesListed(t.namespaces, t.arena)
    ensures ValuesListed(t'.namespaces, t'.arena)
  {
    var ns, ns' := t.namespaces, t'.namespaces;
    forall p | p in ns'
      ensures NoDuplicates(ns'[p].values) &&
              forall i :: i in ns'[p].values <==> 0 <= i < |t'.arena| && t'.arena[i].parent == Some(p)
    {
      assert ns'[p].values == ns[p].values;
      forall i ensures i in ns'[p].values <==> 0 <= i < |t'.arena| && t'.arena[i].parent == Some(p)
      {
        if 0 <= i < |t'.arena| {
          assert t'.arena[i].parent == t.arena[i].parent;
        }
      }
    }
  }

  lemma ReshapedPlaced(t: Tables, t': Tables)
    requires Reshaped(t, t') && Placed(t.arena, t.namespaces, {})
    ensures Placed(t'.arena, t'.namespaces, {})
  {
    forall i | 0 <= i < |t'.arena|
      ensures t'.arena[i].name == Leaf(t'.arena[i].flatName) &&
              t'.arena[i].parent == ParentOf(t'.arena[i].flatName) &&
              (ParentPath(t'.arena[i].flatName) != "" ==> ParentPath(t'.arena[i].flatName) in t'.namespaces)
    {
      assert t'.arena[i].flatName == t.arena[i].flatName;
    }
  }

  lemma ReshapedIndexed(t: Tables, t': Tables)
    requires Reshaped(t, t') && Indexed(t.values, t.base, t.arena)
    ensures Indexed(t'.values, t'.base, t'.arena)
  {
    forall k | k in t'.values
      ensures t'.values[k] < |t'.arena| && KeyOf(t'.arena[t'.values[k]].flatName) == k
    {
      assert t'.arena[t.values[k]].flatName == t.arena[t.values[k]].flatName;
    }
  }

  /** Copying descriptions keeps a sound schema sound: the tree and the indexes
      do not depend on descriptions. */
  lemma ReshapedSound(t: Tables, t': Tables)
    requires Sound(t) && Reshaped(t, t')
    ensures Sound(t')
  {
    ReshapedKeyed(t, t');
    ReshapedLinked(t, t');
    ReshapedChildren(t, t');
    ReshapedValuesListed(t, t');
    ReshapedPlaced(t, t');
    ReshapedIndexed(t, t');
  }

  // ---------------------------------------------------------------------------
  // The traversal itself.
  // ---------------------------------------------------------------------------

  /** copyDescriptions, with the evident intent of line 237: a described field
      that has no value is passed over, and the fields below it are still
      visited. Keys are visited in no particular order; when several
      definitions describe the same namespace or value, the one visited last
      wins. A described group without a namespace is fatal. */
  method CopyDescriptions(t: Tables, root: string, node: Definition) returns (r: Result<Tables, Failure>)
    requires forall key :: key in t.values ==> t.values[key] < |t.arena|
    ensures r.Ok? <==> GroupsFound(t, root, node, node.fields.Keys, false)
    ensures r.Err? ==> r.error.NoNamespace? && Missing(t, root, node, node.fields.Keys, false, r.error.path)
    ensures r.Ok? ==> Reshaped(t, r.value) && Sourced(t, r.value, root, node, node.fields.Keys, false) &&
                      Covered(r.value, root, node, node.fields.Keys, false)
  {
    r := CopyChildren(t, root, node, false);
  }

  /** copyDescriptions as written: a described field that has no value ends the
      turn with `continue`, so the fields below it are never visited. */
  method CopyDescriptionsAsWritten(t: Tables, root: string, node: Definition) returns (r: Result<Tables, Failure>)
    requires forall key :: key in t.values ==> t.values[key] < |t.arena|
    ensures r.Ok? <==> GroupsFound(t, root, node, node.fields.Keys, true)
    ensures r.Err? ==> r.error.NoNamespace? && Missing(t, root, node, node.fields.Keys, true, r.error.path)
    ensures r.Ok? ==> Reshaped(t, r.value) && Sourced(t, r.value, root, node, node.fields.Keys, true) &&
                      Covered(r.value, root, node, node.fields.Keys, true)
  {
    r := CopyChildren(t, root, node, true);
  }

  /** The loop of copyDescriptions over the children of `node`, whose path is
      `root`; `skip` selects the code as written (true) or as intended (false). */
  method CopyChildren(t: Tables, root: string, node: Definition, skip: bool) returns (r: Result<Tables, Failure>)
    requires forall key :: key in t.values ==> t.values[key] < |t.arena|
    ensures r.Ok? <==> GroupsFound(t, root, node, node.fields.Keys, skip)
    ensures r.Err? ==> r.error.NoNamespace? && Missing(t, root, node, node.fields.Keys, skip, r.error.path)
    ensures r.Ok? ==> Progress(t, r.value, root, node, node.fields.Keys, skip)
    decreases node, 1
  {
    var cur := t;
    var rest := node.fields.Keys;
    ghost var done: set<string> := {};
    while rest != {}
      invariant rest <= node.fields.Keys && done == node.fields.Keys - rest
      invariant Progress(t, cur, root, node, done, skip)
      decreases rest
    {
      var k :| k in rest;
      var next := CopyChild(t, cur, root, node, done, k, skip);
      if next.Err? {
        return next;
      }
      cur := next.value;
      rest := rest - {k};
      done := done + {k};
    }
    assert done == node.fields.Keys;
    CoveredFound(t, cur, root, node, done, skip);
    r := Ok(cur);
  }

  /** One turn of the loop, for the child `k` of `node`: its description is
      assigned, then its own fields are visited unless it is skipped. */
  method CopyChild(t: Tables, cur: Tables, root: string, node: Definition, ghost done: set<string>, k: string,
                   skip: bool) returns (r: Result<Tables, Failure>)
    requires forall key :: key in t.values ==> t.values[key] < |t.arena|
    requires k in node.fields && Progress(t, cur, root, node, done, skip)
    ensures r.Err? ==> r.error.NoNamespace? && Missing(t, root, node, node.fields.Keys, skip, r.error.path) &&
                       !GroupsFound(t, root, node, node.fields.Keys, skip)
    ensures r.Ok? ==> Progress(t, r.value, root, node, done + {k}, skip)
    decreases node, 0
  {
    var def := node.fields[k];
    var fqName := Join(root, k);
    var path := NormalizePath(fqName);
    if path != "" && def.description != "" && def.typ == "group" && path !in cur.namespaces {
      MissingHere(t, root, node, k, skip);
      return Err(NoNamespace(path));
    }
    TurnAssigned(t, cur, root, node, done, k, skip);
    var c1 := Assigned(cur, fqName, def);
    if skip && Skipped(fqName, def, c1.values) {
      TurnSkipped(t, c1, root, node, done, k, skip);
      return Ok(c1);
    }
    var sub := CopyChildren(c1, fqName, def, skip);
    if sub.Err? {
      MissingLift(t, c1, root, node, k, skip, sub.error.path);
      return sub;
    }
    TurnDescended(t, c1, sub.value, root, node, done, k, skip);
    r := sub;
  }
}
