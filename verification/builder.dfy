/** buildSchema: the cross-linked tree of namespaces and values built from the
    flattened definitions. Namespaces are identified by their dotted path; values
    live in an arena and are identified by their index in it, because a later
    definition may replace the entry under the same key while the earlier value
    stays attached to its namespace. */
module Builder {
  import opened Wrappers
  import opened Paths
  import opened Types

  /** The index of a value in the schema's arena (stands for a *Value pointer). */
  type ValueRef = nat

  /** A namespace: its parent namespace (by path), its last path segment, its full
      path, its description, and the namespaces and values directly inside it. */
  datatype Namespace = Namespace(parent: Option<string>, name: string, flatName: string,
                                 description: string, children: seq<string>, values: seq<ValueRef>)

  /** A value: the namespace it is attached to, its type, its last path segment, its
      normalised path and its description. */
  datatype Value = Value(parent: Option<string>, typ: TypeInfo, name: string, flatName: string,
                         description: string)

  predicate NoDuplicates<T(==)>(s: seq<T>)
  {
    forall i, j :: 0 <= i < j < |s| ==> s[i] != s[j]
  }

  /** The namespace that should hold whatever sits at path `p`: none at the top level. */
  function ParentOf(p: string): Option<string>
  {
    if ParentPath(p) == "" then None else Some(ParentPath(p))
  }

  /** A parent path that makes a value base-level (line 154): none, or the root. */
  predicate IsBasePath(path: string)
  {
    path == "" || path == Root
  }

  /** The key under which a value with normalised path `flat` is stored: its last
      segment when it is base-level, its full path otherwise. */
  function KeyOf(flat: string): string
  {
    if IsBasePath(ParentPath(flat)) then Leaf(flat) else flat
  }

  /** The key of the value built from raw flattened path `raw`. */
  function ValueKey(raw: string): string
  {
    KeyOf(NormalizePath(raw))
  }

  /** A raw path survives exclusion: it is not excluded itself, and when it is
      base-level its last segment is not excluded either. */
  predicate Admitted(raw: string, exclude: set<string>)
  {
    raw !in exclude &&
    (IsBasePath(ParentPath(NormalizePath(raw))) ==> Leaf(NormalizePath(raw)) !in exclude)
  }

  function Pending(current: Option<string>): set<string>
  {
    if current.Some? then {current.value} else {}
  }

  function PendingValue(val: Option<ValueRef>): set<ValueRef>
  {
    if val.Some? then {val.value} else {}
  }

  // ---------------------------------------------------------------------------
  // The invariants of the tree, stated over the arena's values. `pending` holds
  // the namespaces created during the current walk that are not linked to their
  // parent yet; `pendingVals` the value that is not attached to its namespace yet.
  // ---------------------------------------------------------------------------

  /** Each namespace is stored under its own full path and named by its last segment. */
  ghost predicate Keyed(ns: map<string, Namespace>)
  {
    forall p {:trigger ns[p]} :: p in ns ==> p != "" && ns[p].flatName == p && ns[p].name == Leaf(p)
  }

  /** Each linked namespace points to the namespace of its parent path, which exists;
      a pending one points nowhere yet. */
  ghost predicate Linked(ns: map<string, Namespace>, pending: set<string>)
  {
    forall p {:trigger ns[p]} :: p in ns ==>
      if p in pending then ns[p].parent.None?
      else ns[p].parent == ParentOf(p) && (ParentPath(p) != "" ==> ParentPath(p) in ns)
  }

  /** A namespace lists, once each, exactly the namespaces whose parent it is. */
  ghost predicate ChildrenListed(ns: map<string, Namespace>)
  {
    forall p {:trigger ns[p]} :: p in ns ==>
      NoDuplicates(ns[p].children) &&
      forall q :: q in ns[p].children <==> q in ns && ns[q].parent == Some(p)
  }

  /** A namespace lists, once each, exactly the values whose parent it is. */
  ghost predicate ValuesListed(ns: map<string, Namespace>, arena: seq<Value>)
  {
    forall p {:trigger ns[p]} :: p in ns ==>
      NoDuplicates(ns[p].values) &&
      forall i :: i in ns[p].values <==> 0 <= i < |arena| && arena[i].parent == Some(p)
  }

  /** Each attached value is named by its last segment and points to the namespace
      of its parent path, which exists; a pending value points nowhere yet. */
  ghost predicate Placed(arena: seq<Value>, ns: map<string, Namespace>, pendingVals: set<ValueRef>)
  {
    forall i :: 0 <= i < |arena| ==>
      arena[i].name == Leaf(arena[i].flatName) &&
      if i in pendingVals then arena[i].parent.None?
      else arena[i].parent == ParentOf(arena[i].flatName) &&
           (ParentPath(arena[i].flatName) != "" ==> ParentPath(arena[i].flatName) in ns)
  }

  /** Top holds top-level namespaces under their simple name, and every linked
      top-level namespace has its simple name in Top. */
  ghost predicate Rooted(top: map<string, string>, ns: map<string, Namespace>, pending: set<string>)
  {
    (forall n :: n in top ==> top[n] in ns && ParentPath(top[n]) == "" && Leaf(top[n]) == n) &&
    (forall p {:trigger ns[p]} :: p in ns && p !in pending && ParentPath(p) == "" ==> Leaf(p) in top)
  }

  /** The namespace tree with its pending parts. */
  ghost predicate Tree(ns: map<string, Namespace>, arena: seq<Value>, top: map<string, string>,
                       pending: set<string>, pendingVals: set<ValueRef>)
  {
    Keyed(ns) && Linked(ns, pending) && ChildrenListed(ns) && ValuesListed(ns, arena) &&
    Placed(arena, ns, pendingVals) && Rooted(top, ns, pending)
  }

  /** Values maps each key to a value whose path gives that key; Base holds exactly
      the keys without a dot (the base-level ones), with the same values. */
  ghost predicate Indexed(values: map<string, ValueRef>, base: map<string, ValueRef>, arena: seq<Value>)
  {
    (forall k :: k in values ==> values[k] < |arena| && KeyOf(arena[values[k]].flatName) == k) &&
    (forall k :: k in base <==> k in values && '.' !in k) &&
    (forall k :: k in base ==> base[k] == values[k])
  }

  /** A namespace that existed before an update keeps its place and description,
      and its children and values are only appended to. */
  ghost predicate Grown(before: Namespace, after: Namespace)
  {
    after.parent == before.parent && after.name == before.name && after.flatName == before.flatName &&
    after.description == before.description &&
    before.children <= after.children && before.values <= after.values
  }

  // ---------------------------------------------------------------------------
  // The steps of the walk (lines 157-213), each keeping the tree invariants. Each
  // invariant is carried over by a lemma of its own.
  // ---------------------------------------------------------------------------

  /** A base-level key has no dot; a key of a value nested deeper is its full path,
      which has one. */
  lemma KeyDot(flat: string)
    ensures '.' in KeyOf(flat) <==> !IsBasePath(ParentPath(flat))
  {
    if !IsBasePath(ParentPath(flat)) {
      assert '.' in flat;
    }
  }

  // Registering a new, not yet attached value (lines 157-172).

  lemma AppendValueListed(ns: map<string, Namespace>, arena: seq<Value>, val: Value)
    requires ValuesListed(ns, arena) && val.parent.None?
    ensures ValuesListed(ns, arena + [val])
  {
    var arena' := arena + [val];
    forall p | p in ns
      ensures forall i :: i in ns[p].values <==> 0 <= i < |arena'| && arena'[i].parent == Some(p)
    {
      forall i | 0 <= i < |arena'| && arena'[i].parent == Some(p)
        ensures i in ns[p].values
      {
        assert arena'[i] == arena[i];
      }
    }
  }

  lemma AppendValuePlaced(ns: map<string, Namespace>, arena: seq<Value>, val: Value)
    requires Placed(arena, ns, {}) && val.parent.None? && val.name == Leaf(val.flatName)
    ensures Placed(arena + [val], ns, {|arena|})
  {
    var arena' := arena + [val];
    forall i | 0 <= i < |arena'|
      ensures arena'[i].name == Leaf(arena'[i].flatName)
      ensures if i in {|arena|} then arena'[i].parent.None?
              else arena'[i].parent == ParentOf(arena'[i].flatName) &&
                   (ParentPath(arena'[i].flatName) != "" ==> ParentPath(arena'[i].flatName) in ns)
    {
      if i < |arena| {
        assert arena'[i] == arena[i];
      }
    }
  }

  lemma AppendValueIndexed(values: map<string, ValueRef>, base: map<string, ValueRef>, arena: seq<Value>,
                           val: Value, values': map<string, ValueRef>, base': map<string, ValueRef>)
    requires Indexed(values, base, arena)
    requires values' == values[KeyOf(val.flatName) := |arena|]
    requires base' == if '.' in KeyOf(val.flatName) then base else base[KeyOf(val.flatName) := |arena|]
    ensures Indexed(values', base', arena + [val])
  {
    AppendValueKeys(values, arena, val);
    AppendValueBase(values, base, |arena|, KeyOf(val.flatName));
  }

  lemma AppendValueBase(values: map<string, ValueRef>, base: map<string, ValueRef>, v: ValueRef, k: string)
    requires (forall j :: j in base <==> j in values && '.' !in j) && (forall j :: j in base ==> base[j] == values[j])
    ensures var values' := values[k := v];
            var base' := if '.' in k then base else base[k := v];
            (forall j :: j in base' <==> j in values' && '.' !in j) && (forall j :: j in base' ==> base'[j] == values'[j])
  {
  }

  lemma AppendValueKeys(values: map<string, ValueRef>, arena: seq<Value>, val: Value)
    requires forall k :: k in values ==> values[k] < |arena| && KeyOf(arena[values[k]].flatName) == k
    ensures var values' := values[KeyOf(val.flatName) := |arena|];
            forall k :: k in values' ==> values'[k] < |arena + [val]| && KeyOf((arena + [val])[values'[k]].flatName) == k
  {
    var arena' := arena + [val];
    var values' := values[KeyOf(val.flatName) := |arena|];
    forall j | j in values'
      ensures values'[j] < |arena'| && KeyOf(arena'[values'[j]].flatName) == j
    {
      if j != KeyOf(val.flatName) {
        assert arena'[values[j]] == arena[values[j]];
      }
    }
  }

  // Creating the namespace for path `q` (lines 182-188): it starts pending.

  function NewNamespace(q: string): Namespace
  {
    Namespace(None, Leaf(q), q, "", [], [])
  }

  lemma CreateLinked(ns: map<string, Namespace>, pending: set<string>, q: string)
    requires Linked(ns, pending) && q !in ns
    ensures Linked(ns[q := NewNamespace(q)], pending + {q})
  {
    var ns' := ns[q := NewNamespace(q)];
    forall p | p in ns'
      ensures if p in pending + {q} then ns'[p].parent.None?
              else ns'[p].parent == ParentOf(p) && (ParentPath(p) != "" ==> ParentPath(p) in ns')
    {
      if p != q {
        assert ns'[p] == ns[p];
      }
    }
  }

  lemma CreateChildren(ns: map<string, Namespace>, pending: set<string>, q: string)
    requires ChildrenListed(ns) && Linked(ns, pending) && q !in ns
    ensures ChildrenListed(ns[q := NewNamespace(q)])
  {
    var ns' := ns[q := NewNamespace(q)];
    forall p | p in ns'
      ensures NoDuplicates(ns'[p].children)
      ensures forall r :: r in ns'[p].children <==> r in ns' && ns'[r].parent == Some(p)
    {
      forall r | r in ns' && ns'[r].parent == Some(p)
        ensures r in ns'[p].children
      {
        assert r != q;
        assert ns'[r] == ns[r];
        if p == q {
          assert false;
        }
      }
    }
  }

  lemma CreateValues(ns: map<string, Namespace>, arena: seq<Value>, pendingVals: set<ValueRef>, q: string)
    requires ValuesListed(ns, arena) && Placed(arena, ns, pendingVals) && q !in ns
    ensures ValuesListed(ns[q := NewNamespace(q)], arena)
  {
    var ns' := ns[q := NewNamespace(q)];
    forall p | p in ns'
      ensures NoDuplicates(ns'[p].values)
      ensures forall i :: i in ns'[p].values <==> 0 <= i < |arena| && arena[i].parent == Some(p)
    {
      forall i | 0 <= i < |arena| && arena[i].parent == Some(p)
        ensures i in ns'[p].values
      {
        if p == q {
          assert false;
        }
      }
    }
  }

  lemma CreateRooted(top: map<string, string>, ns: map<string, Namespace>, pending: set<string>, q: string)
    requires Rooted(top, ns, pending) && q !in ns
    ensures Rooted(top, ns[q := NewNamespace(q)], pending + {q})
  {
    var ns' := ns[q := NewNamespace(q)];
    forall p | p in ns' && p !in pending + {q} && ParentPath(p) == ""
      ensures Leaf(p) in top
    {
      assert ns[p] == ns[p];
    }
  }

  lemma CreateNamespace(ns: map<string, Namespace>, arena: seq<Value>, top: map<string, string>,
                        pending: set<string>, pendingVals: set<ValueRef>, q: string)
    requires Tree(ns, arena, top, pending, pendingVals)
    requires q !in ns && q != ""
    ensures Tree(ns[q := NewNamespace(q)], arena, top, pending + {q}, pendingVals)
  {
    var ns' := ns[q := NewNamespace(q)];
    assert Keyed(ns') by {
      forall p | p in ns'
        ensures p != "" && ns'[p].flatName == p && ns'[p].name == Leaf(p)
      {
        if p != q {
          assert ns'[p] == ns[p];
        }
      }
    }
    CreateLinked(ns, pending, q);
    CreateChildren(ns, pending, q);
    CreateValues(ns, arena, pendingVals, q);
    assert Placed(arena, ns', pendingVals);
    CreateRooted(top, ns, pending, q);
  }

  // Attaching the pending value `v` to the namespace `q` of its parent path
  // (lines 190-195).

  lemma AttachListed(ns: map<string, Namespace>, arena: seq<Value>, v: ValueRef, q: string)
    requires ValuesListed(ns, arena)
    requires v < |arena| && q in ns && arena[v].parent.None?
    ensures ValuesListed(ns[q := ns[q].(values := ns[q].values + [v])],
                         arena[v := arena[v].(parent := Some(q))])
  {
    var ns' := ns[q := ns[q].(values := ns[q].values + [v])];
    var arena' := arena[v := arena[v].(parent := Some(q))];
    assert v !in ns[q].values;
    forall p | p in ns'
      ensures NoDuplicates(ns'[p].values)
      ensures forall i :: i in ns'[p].values <==> 0 <= i < |arena'| && arena'[i].parent == Some(p)
    {
      if p == q {
        assert ns'[p].values == ns[q].values + [v];
      } else {
        assert ns'[p] == ns[p];
      }
    }
  }

  lemma AttachPlaced(ns: map<string, Namespace>, arena: seq<Value>, v: ValueRef, q: string)
    requires Placed(arena, ns, {v})
    requires v < |arena| && q in ns && q != "" && ParentPath(arena[v].flatName) == q
    ensures Placed(arena[v := arena[v].(parent := Some(q))], ns, {})
  {
    var arena' := arena[v := arena[v].(parent := Some(q))];
    forall i | 0 <= i < |arena'|
      ensures arena'[i].name == Leaf(arena'[i].flatName)
      ensures arena'[i].parent == ParentOf(arena'[i].flatName) &&
              (ParentPath(arena'[i].flatName) != "" ==> ParentPath(arena'[i].flatName) in ns)
    {
      if i != v {
        assert arena'[i] == arena[i];
      }
    }
  }

  function SetValues(ns: map<string, Namespace>, q: string, vs: seq<ValueRef>): (r: map<string, Namespace>)
    requires q in ns
    ensures r.Keys == ns.Keys
  {
    ns[q := ns[q].(values := vs)]
  }

  lemma KeyedSetValues(ns: map<string, Namespace>, q: string, vs: seq<ValueRef>)
    requires Keyed(ns) && q in ns
    ensures Keyed(SetValues(ns, q, vs))
  {
    var ns' := SetValues(ns, q, vs);
    forall p | p in ns'
      ensures p != "" && ns'[p].flatName == p && ns'[p].name == Leaf(p)
    {
      assert ns[p].flatName == p;
    }
  }

  lemma LinkedSetValues(ns: map<string, Namespace>, pending: set<string>, q: string, vs: seq<ValueRef>)
    requires Linked(ns, pending) && q in ns
    ensures Linked(SetValues(ns, q, vs), pending)
  {
    var ns' := SetValues(ns, q, vs);
    forall p | p in ns'
      ensures if p in pending then ns'[p].parent.None?
              else ns'[p].parent == ParentOf(p) && (ParentPath(p) != "" ==> ParentPath(p) in ns')
    {
      assert ns'[p].parent == ns[p].parent;
    }
  }

  lemma ChildrenSetValues(ns: map<string, Namespace>, q: string, vs: seq<ValueRef>)
    requires ChildrenListed(ns) && q in ns
    ensures ChildrenListed(SetValues(ns, q, vs))
  {
    var ns' := SetValues(ns, q, vs);
    forall p | p in ns'
      ensures NoDuplicates(ns'[p].children)
      ensures forall r :: r in ns'[p].children <==> r in ns' && ns'[r].parent == Some(p)
    {
      assert ns'[p].children == ns[p].children;
      forall r | r in ns'
        ensures ns'[r].parent == ns[r].parent
      {
      }
    }
  }

  lemma RootedSetValues(top: map<string, string>, ns: map<string, Namespace>, pending: set<string>,
                        q: string, vs: seq<ValueRef>)
    requires Rooted(top, ns, pending) && q in ns
    ensures Rooted(top, SetValues(ns, q, vs), pending)
  {
    var ns' := SetValues(ns, q, vs);
    forall p | p in ns' && p !in pending && ParentPath(p) == ""
      ensures Leaf(p) in top
    {
      assert ns[p] == ns[p];
    }
  }

  lemma PlacedSetValues(arena: seq<Value>, ns: map<string, Namespace>, q: string, vs: seq<ValueRef>)
    requires Placed(arena, ns, {}) && q in ns
    ensures Placed(arena, SetValues(ns, q, vs), {})
  {
  }

  lemma AttachValue(ns: map<string, Namespace>, arena: seq<Value>, top: map<string, string>,
                    pending: set<string>, v: ValueRef, q: string)
    requires Tree(ns, arena, top, pending, {v})
    requires v < |arena| && q in ns && q != "" && ParentPath(arena[v].flatName) == q
    ensures Tree(SetValues(ns, q, ns[q].values + [v]), arena[v := arena[v].(parent := Some(q))],
                 top, pending, {})
  {
    var vs := ns[q].values + [v];
    KeyedSetValues(ns, q, vs);
    LinkedSetValues(ns, pending, q, vs);
    ChildrenSetValues(ns, q, vs);
    AttachListed(ns, arena, v, q);
    AttachPlaced(ns, arena, v, q);
    PlacedSetValues(arena[v := arena[v].(parent := Some(q))], ns, q, vs);
    RootedSetValues(top, ns, pending, q, vs);
  }

  // Linking the pending namespace `c` below the namespace `q` of its parent path
  // (lines 196-200).

  function Adopt(ns: map<string, Namespace>, c: string, q: string): (r: map<string, Namespace>)
    requires c in ns && q in ns
    ensures r.Keys == ns.Keys
  {
    var ns1 := ns[c := ns[c].(parent := Some(q))];
    ns1[q := ns1[q].(children := ns1[q].children + [c])]
  }

  lemma AdoptLinked(ns: map<string, Namespace>, pending: set<string>, c: string, q: string)
    requires Linked(ns, pending)
    requires c in ns && q in ns && q != "" && ParentPath(c) == q && c != q
    ensures Linked(Adopt(ns, c, q), pending - {c})
  {
    var ns' := Adopt(ns, c, q);
    forall p | p in ns'
      ensures if p in pending - {c} then ns'[p].parent.None?
              else ns'[p].parent == ParentOf(p) && (ParentPath(p) != "" ==> ParentPath(p) in ns')
    {
      if p != c {
        assert ns'[p].parent == ns[p].parent;
      }
    }
  }

  lemma AdoptChildren(ns: map<string, Namespace>, pending: set<string>, c: string, q: string)
    requires ChildrenListed(ns) && Linked(ns, pending)
    requires c in pending && c in ns && q in ns && c != q
    ensures ChildrenListed(Adopt(ns, c, q))
  {
    var ns' := Adopt(ns, c, q);
    assert c !in ns[q].children;
    forall p | p in ns'
      ensures NoDuplicates(ns'[p].children)
      ensures forall r :: r in ns'[p].children <==> r in ns' && ns'[r].parent == Some(p)
    {
      if p == q {
        assert ns'[p].children == ns[q].children + [c];
      } else {
        assert ns'[p].children == ns[p].children;
      }
    }
  }

  lemma KeyedAdopt(ns: map<string, Namespace>, c: string, q: string)
    requires Keyed(ns) && c in ns && q in ns
    ensures Keyed(Adopt(ns, c, q))
  {
    var ns' := Adopt(ns, c, q);
    forall p | p in ns'
      ensures p != "" && ns'[p].flatName == p && ns'[p].name == Leaf(p)
    {
      var ns1 := ns[c := ns[c].(parent := Some(q))];
      assert ns1[p].flatName == ns[p].flatName && ns1[p].name == ns[p].name;
      assert ns'[p].flatName == ns1[p].flatName && ns'[p].name == ns1[p].name;
    }
  }

  lemma ValuesAdopt(ns: map<string, Namespace>, arena: seq<Value>, c: string, q: string)
    requires ValuesListed(ns, arena) && c in ns && q in ns
    ensures ValuesListed(Adopt(ns, c, q), arena)
  {
    var ns' := Adopt(ns, c, q);
    forall p | p in ns'
      ensures NoDuplicates(ns'[p].values)
      ensures forall i :: i in ns'[p].values <==> 0 <= i < |arena| && arena[i].parent == Some(p)
    {
      assert ns'[p].values == ns[p].values;
    }
  }

  lemma PlacedAdopt(arena: seq<Value>, ns: map<string, Namespace>, pendingVals: set<ValueRef>, c: string, q: string)
    requires Placed(arena, ns, pendingVals) && c in ns && q in ns
    ensures Placed(arena, Adopt(ns, c, q), pendingVals)
  {
  }

  lemma RootedAdopt(top: map<string, string>, ns: map<string, Namespace>, pending: set<string>, c: string, q: string)
    requires Rooted(top, ns, pending) && c in ns && q in ns && ParentPath(c) != ""
    ensures Rooted(top, Adopt(ns, c, q), pending - {c})
  {
    var ns' := Adopt(ns, c, q);
    forall p | p in ns' && p !in pending - {c} && ParentPath(p) == ""
      ensures Leaf(p) in top
    {
      assert ns[p] == ns[p];
    }
  }

  lemma LinkChild(ns: map<string, Namespace>, arena: seq<Value>, top: map<string, string>,
                  pending: set<string>, pendingVals: set<ValueRef>, c: string, q: string)
    requires Tree(ns, arena, top, pending, pendingVals)
    requires c in pending && c in ns && q in ns && q != "" && ParentPath(c) == q
    ensures Tree(Adopt(ns, c, q), arena, top, pending - {c}, pendingVals)
  {
    assert c != q by { assert |q| < |c|; }
    KeyedAdopt(ns, c, q);
    AdoptLinked(ns, pending, c, q);
    AdoptChildren(ns, pending, c, q);
    ValuesAdopt(ns, arena, c, q);
    PlacedAdopt(arena, ns, pendingVals, c, q);
    RootedAdopt(top, ns, pending, c, q);
  }

  // Registering the namespace `r` the walk ended on as a new top-level namespace
  // (lines 210-213).

  lemma AddTopRooted(top: map<string, string>, ns: map<string, Namespace>, r: string)
    requires Rooted(top, ns, {r})
    requires r in ns && ParentPath(r) == ""
    ensures Rooted(top[Leaf(r) := r], ns, {})
  {
  }

  lemma AddTopLinked(ns: map<string, Namespace>, r: string)
    requires Linked(ns, {r})
    requires r in ns && ParentPath(r) == ""
    ensures Linked(ns, {})
  {
  }

  lemma AddTop(ns: map<string, Namespace>, arena: seq<Value>, top: map<string, string>, r: string)
    requires Tree(ns, arena, top, {r}, {})
    requires r in ns && ParentPath(r) == ""
    ensures Tree(ns, arena, top[Leaf(r) := r], {}, {})
  {
    AddTopRooted(top, ns, r);
    AddTopLinked(ns, r);
  }

  /** Without pending namespaces, all ancestors of a namespace exist. */
  lemma {:induction false} AncestorsPresent(ns: map<string, Namespace>, p: string)
    requires Linked(ns, {}) && Keyed(ns)
    requires p in ns
    ensures Ancestors(p) <= ns.Keys
    decreases |p|
  {
    if ParentPath(p) != "" {
      AncestorsPresent(ns, ParentPath(p));
    }
  }

  /** A path is never its own parent path. */
  lemma ParentDiffers(p: string)
    requires ParentPath(p) != ""
    ensures ParentPath(p) != p
  {
    assert |ParentPath(p)| < |p|;
  }

  /** A pending value at the top level is already where it belongs: nowhere. */
  lemma SettleTopValue(arena: seq<Value>, ns: map<string, Namespace>, v: ValueRef)
    requires Placed(arena, ns, {v})
    requires v < |arena| && ParentPath(arena[v].flatName) == ""
    ensures Placed(arena, ns, {})
  {
  }

  // ---------------------------------------------------------------------------
  // The walk up a value's path (lines 174-207), as functions of the maps.
  // ---------------------------------------------------------------------------

  /** The namespaces after one turn of the walk at `fullPath` (lines 177-200): the
      namespace is created when missing, the pending value `val` is attached to it,
      and the namespace `current` created in the previous turn is linked below it
      while it has no parent. */
  function StepNamespaces(ns: map<string, Namespace>, fullPath: string, current: Option<string>,
                          val: Option<ValueRef>): (r: map<string, Namespace>)
    requires current.Some? ==> current.value in ns
    ensures r.Keys == ns.Keys + {fullPath}
  {
    LinkedBelow(AttachedTo(Created(ns, fullPath), fullPath, val), fullPath, current)
  }

  /** Lines 180-188: the namespace `q`, created when missing. */
  function Created(ns: map<string, Namespace>, q: string): (r: map<string, Namespace>)
    ensures r.Keys == ns.Keys + {q}
  {
    if q in ns then ns else ns[q := NewNamespace(q)]
  }

  /** Lines 190-195: the pending value, if any, appended to the values of `q`. */
  function AttachedTo(ns: map<string, Namespace>, q: string, val: Option<ValueRef>): (r: map<string, Namespace>)
    requires q in ns
    ensures r.Keys == ns.Keys
  {
    if val.Some? then SetValues(ns, q, ns[q].values + [val.value]) else ns
  }

  /** Lines 196-200: the namespace `current`, if any and still without a parent,
      appended to the children of `q`. */
  function LinkedBelow(ns: map<string, Namespace>, q: string, current: Option<string>): (r: map<string, Namespace>)
    requires q in ns && (current.Some? ==> current.value in ns)
    ensures r.Keys == ns.Keys
  {
    if current.Some? && ns[current.value].parent.None? then Adopt(ns, current.value, q) else ns
  }

  /** One turn of the walk leaves every other namespace in place with its
      description, and only appends to its children and values; a new namespace
      has no description yet. */
  lemma StepKeeps(ns: map<string, Namespace>, fullPath: string, current: Option<string>, val: Option<ValueRef>)
    requires current.Some? ==> current.value in ns
    ensures var r := StepNamespaces(ns, fullPath, current, val);
            (fullPath !in ns ==> r[fullPath].description == "") &&
            (forall p :: p in ns && Some(p) != current ==> Grown(ns[p], r[p])) &&
            (forall p :: p in ns ==> r[p].description == ns[p].description)
  {
    var n1 := Created(ns, fullPath);
    var n2 := AttachedTo(n1, fullPath, val);
    var r := LinkedBelow(n2, fullPath, current);
    assert r == StepNamespaces(ns, fullPath, current, val);
    CreatedKeeps(ns, fullPath);
    AttachedKeeps(n1, fullPath, val);
    LinkedKeeps(n2, fullPath, current);
    forall p | p in ns && Some(p) != current
      ensures Grown(ns[p], r[p])
    {
      GrownTransitive(n1[p], n2[p], r[p]);
    }
  }

  /** Creating a namespace leaves the others as they were; the new one has no
      description. */
  lemma CreatedKeeps(ns: map<string, Namespace>, q: string)
    ensures forall p :: p in ns ==> Created(ns, q)[p] == ns[p]
    ensures q !in ns ==> Created(ns, q)[q].description == ""
  {
  }

  /** Attaching a value only appends to the values of its namespace. */
  lemma AttachedKeeps(ns: map<string, Namespace>, q: string, val: Option<ValueRef>)
    requires q in ns
    ensures forall p :: p in ns ==> Grown(ns[p], AttachedTo(ns, q, val)[p])
  {
  }

  /** Linking a new namespace changes only its parent and appends to the children
      of `q`. */
  lemma LinkedKeeps(ns: map<string, Namespace>, q: string, current: Option<string>)
    requires q in ns && (current.Some? ==> current.value in ns)
    ensures forall p :: p in ns && Some(p) != current ==> Grown(ns[p], LinkedBelow(ns, q, current)[p])
    ensures forall p :: p in ns ==> LinkedBelow(ns, q, current)[p].description == ns[p].description
  {
  }

  /** The arena after one turn of the walk at `fullPath`: the pending value, if
      any, now points to that namespace. */
  function StepArena(arena: seq<Value>, fullPath: string, val: Option<ValueRef>): seq<Value>
    requires val.Some? ==> val.value < |arena|
  {
    if val.Some? then arena[val.value := arena[val.value].(parent := Some(fullPath))] else arena
  }

  /** The walk from namespace path `path` towards the root (lines 174-207): one turn
      per path segment, stopping after the first namespace that already existed.
      Answers the namespaces, the arena, and the namespace the walk ended on when
      it created a new top-level namespace. */
  function Walk(ns: map<string, Namespace>, arena: seq<Value>, path: string, current: Option<string>,
                val: Option<ValueRef>): (r: (map<string, Namespace>, seq<Value>, Option<string>))
    requires current.Some? ==> current.value in ns
    requires val.Some? ==> val.value < |arena|
    ensures ns.Keys <= r.0.Keys
    ensures r.2.Some? ==> r.2.value in r.0
    decreases |path|
  {
    if path == "" then (ns, arena, current)
    else
      var ns' := StepNamespaces(ns, path, current, val);
      var arena' := StepArena(arena, path, val);
      if path in ns then (ns', arena', None)
      else Walk(ns', arena', ParentPath(path), Some(path), None)
  }

  /** The walk changes only the pending value's parent in the arena: it points to
      the namespace of the first path visited. */
  lemma {:induction false} WalkArena(ns: map<string, Namespace>, arena: seq<Value>, path: string,
                                     current: Option<string>, val: Option<ValueRef>)
    requires current.Some? ==> current.value in ns
    requires val.Some? ==> val.value < |arena|
    ensures var r := Walk(ns, arena, path, current, val);
            |r.1| == |arena| &&
            (forall i :: 0 <= i < |arena| && Some(i) != val ==> r.1[i] == arena[i]) &&
            (val.Some? ==> r.1[val.value] == if path == "" then arena[val.value]
                                              else arena[val.value].(parent := Some(path)))
    decreases |path|
  {
    if path != "" && path !in ns {
      WalkArena(StepNamespaces(ns, path, current, val), StepArena(arena, path, val), ParentPath(path), Some(path), None);
    }
  }

  /** The walk leaves the namespaces that existed in place with their
      descriptions, only appending to their children and values, and gives the
      namespaces it creates no description. */
  lemma {:induction false} WalkKeeps(ns: map<string, Namespace>, arena: seq<Value>, path: string,
                                     current: Option<string>, val: Option<ValueRef>)
    requires current.Some? ==> current.value in ns
    requires val.Some? ==> val.value < |arena|
    ensures var r := Walk(ns, arena, path, current, val);
            (forall p :: p in ns && Some(p) != current ==> Grown(ns[p], r.0[p])) &&
            (forall p :: p in ns ==> r.0[p].description == ns[p].description) &&
            (forall p :: p in r.0 && p !in ns ==> r.0[p].description == "")
    decreases |path|
  {
    if path != "" {
      StepKeeps(ns, path, current, val);
      if path !in ns {
        var ns' := StepNamespaces(ns, path, current, val);
        WalkKeeps(ns', StepArena(arena, path, val), ParentPath(path), Some(path), None);
        var r := Walk(ns, arena, path, current, val);
        forall p | p in ns && Some(p) != current
          ensures Grown(ns[p], r.0[p])
        {
          GrownTransitive(ns[p], ns'[p], r.0[p]);
        }
      }
    }
  }

  lemma GrownTransitive(a: Namespace, b: Namespace, c: Namespace)
    requires Grown(a, b) && Grown(b, c)
    ensures Grown(a, c)
  {
  }

  /** Creating the namespace `q` when missing keeps the tree; a new one is pending. */
  lemma CreatedTree(ns: map<string, Namespace>, arena: seq<Value>, top: map<string, string>,
                    pending: set<string>, pendingVals: set<ValueRef>, q: string)
    requires Tree(ns, arena, top, pending, pendingVals) && q != ""
    ensures Tree(Created(ns, q), arena, top, pending + (if q in ns then {} else {q}), pendingVals)
  {
    if q !in ns {
      CreateNamespace(ns, arena, top, pending, pendingVals, q);
    } else {
      assert pending + {} == pending;
    }
  }

  /** Attaching the pending value, if any, to the namespace of its parent path
      keeps the tree and leaves no value pending. */
  lemma AttachedTree(ns: map<string, Namespace>, arena: seq<Value>, top: map<string, string>,
                     pending: set<string>, q: string, val: Option<ValueRef>)
    requires Tree(ns, arena, top, pending, PendingValue(val))
    requires q in ns && q != ""
    requires val.Some? ==> val.value < |arena| && ParentPath(arena[val.value].flatName) == q
    ensures Tree(AttachedTo(ns, q, val), StepArena(arena, q, val), top, pending, {})
  {
    if val.Some? {
      assert PendingValue(val) == {val.value};
      AttachValue(ns, arena, top, pending, val.value, q);
    }
  }

  /** Linking the pending namespace `current`, if any, below the namespace of its
      parent path keeps the tree and leaves it no longer pending. */
  lemma LinkedTree(ns: map<string, Namespace>, arena: seq<Value>, top: map<string, string>,
                   pending: set<string>, q: string, current: Option<string>)
    requires Tree(ns, arena, top, pending, {})
    requires q in ns && q != ""
    requires current.Some? ==> current.value in pending && current.value in ns && ParentPath(current.value) == q
    ensures Tree(LinkedBelow(ns, q, current), arena, top, pending - Pending(current), {})
  {
    if current.Some? {
      assert ns[current.value].parent.None?;
      LinkChild(ns, arena, top, pending, {}, current.value, q);
    } else {
      assert pending - {} == pending;
    }
  }

  /** Attaching the pending value and then linking the pending namespace `current`
      keeps the tree, with neither of them pending any more. */
  lemma AttachLinkTree(ns: map<string, Namespace>, arena: seq<Value>, top: map<string, string>,
                       pending: set<string>, q: string, current: Option<string>, val: Option<ValueRef>)
    requires Tree(ns, arena, top, pending, PendingValue(val))
    requires q in ns && q != ""
    requires current.Some? ==> current.value in pending && current.value in ns && ParentPath(current.value) == q
    requires val.Some? ==> val.value < |arena| && ParentPath(arena[val.value].flatName) == q
    ensures Tree(LinkedBelow(AttachedTo(ns, q, val), q, current), StepArena(arena, q, val), top,
                 pending - Pending(current), {})
  {
    AttachedTree(ns, arena, top, pending, q, val);
    LinkedTree(AttachedTo(ns, q, val), StepArena(arena, q, val), top, pending, q, current);
  }

  /** One turn of the walk keeps the tree: the namespace it created, if any, is the
      only one still waiting for its parent. */
  lemma StepTree(ns: map<string, Namespace>, arena: seq<Value>, top: map<string, string>,
                 fullPath: string, current: Option<string>, val: Option<ValueRef>)
    requires Tree(ns, arena, top, Pending(current), PendingValue(val))
    requires fullPath != ""
    requires current.Some? ==> current.value in ns && ParentPath(current.value) == fullPath
    requires val.Some? ==> val.value < |arena| && ParentPath(arena[val.value].flatName) == fullPath
    ensures Tree(StepNamespaces(ns, fullPath, current, val), StepArena(arena, fullPath, val), top,
                 if fullPath in ns then {} else {fullPath}, {})
  {
    CreatedTree(ns, arena, top, Pending(current), PendingValue(val), fullPath);
    AttachLinkTree(Created(ns, fullPath), arena, top, Pending(current) + (if fullPath in ns then {} else {fullPath}),
                   fullPath, current, val);
    if current.Some? {
      ParentDiffers(current.value);
    }
    LinkedLeaves(current, if fullPath in ns then {} else {fullPath});
  }

  /** Linking `current` leaves pending exactly the namespaces created besides it. */
  lemma LinkedLeaves(current: Option<string>, created: set<string>)
    requires current.Some? ==> current.value !in created
    ensures (Pending(current) + created) - Pending(current) == created
  {
  }

  /** The walk keeps the tree; it ends on a new top-level namespace, if any, that
      is still waiting to be registered in Top. */
  lemma {:induction false} WalkTree(ns: map<string, Namespace>, arena: seq<Value>, top: map<string, string>,
                                    path: string, current: Option<string>, val: Option<ValueRef>)
    requires Tree(ns, arena, top, Pending(current), PendingValue(val))
    requires current.Some? ==> current.value in ns && ParentPath(current.value) == path
    requires val.Some? ==> val.value < |arena| && ParentPath(arena[val.value].flatName) == path
    ensures var r := Walk(ns, arena, path, current, val);
            Tree(r.0, r.1, top, Pending(r.2), {}) && (r.2.Some? ==> ParentPath(r.2.value) == "")
    decreases |path|
  {
    if path == "" {
      if val.Some? {
        SettleTopValue(arena, ns, val.value);
      }
    } else {
      StepTree(ns, arena, top, path, current, val);
      if path !in ns {
        WalkTree(StepNamespaces(ns, path, current, val), StepArena(arena, path, val), top,
                 ParentPath(path), Some(path), None);
      }
    }
  }

  /** A turn at a namespace that already existed ends the walk with all the
      ancestors of that namespace present. */
  lemma StepStops(ns: map<string, Namespace>, arena: seq<Value>, top: map<string, string>,
                  fullPath: string, current: Option<string>, val: Option<ValueRef>)
    requires Tree(ns, arena, top, Pending(current), PendingValue(val))
    requires fullPath in ns && fullPath != ""
    requires current.Some? ==> current.value in ns && ParentPath(current.value) == fullPath
    requires val.Some? ==> val.value < |arena| && ParentPath(arena[val.value].flatName) == fullPath
    ensures Ancestors(fullPath) <= ns.Keys
  {
    StepTree(ns, arena, top, fullPath, current, val);
    AncestorsPresent(StepNamespaces(ns, fullPath, current, val), fullPath);
  }

  /** The walk creates exactly the missing namespaces on `path` and above. */
  lemma {:induction false} WalkKeys(ns: map<string, Namespace>, arena: seq<Value>, top: map<string, string>,
                                    path: string, current: Option<string>, val: Option<ValueRef>)
    requires Tree(ns, arena, top, Pending(current), PendingValue(val))
    requires current.Some? ==> current.value in ns && ParentPath(current.value) == path
    requires val.Some? ==> val.value < |arena| && ParentPath(arena[val.value].flatName) == path
    ensures Walk(ns, arena, path, current, val).0.Keys == ns.Keys + Ancestors(path)
    decreases |path|
  {
    if path != "" {
      if path in ns {
        StepStops(ns, arena, top, path, current, val);
        SubsetAbsorbed(ns.Keys, Ancestors(path));
      } else {
        StepTree(ns, arena, top, path, current, val);
        WalkKeys(StepNamespaces(ns, path, current, val), StepArena(arena, path, val), top,
                 ParentPath(path), Some(path), None);
        UnionRegrouped(ns.Keys, path, Ancestors(ParentPath(path)));
      }
    }
  }

  lemma SubsetAbsorbed(a: set<string>, b: set<string>)
    requires b <= a
    ensures a + b == a
  {
  }

  lemma UnionRegrouped(a: set<string>, p: string, b: set<string>)
    ensures (a + {p}) + b == a + ({p} + b)
  {
  }

  // ---------------------------------------------------------------------------
  // One turn of the loop of buildSchema (lines 146-214).
  // ---------------------------------------------------------------------------

  /** The maps a schema is built in: Base, Top, Namespaces and Values, plus the
      arena holding every value created. */
  datatype Tables = Tables(base: map<string, ValueRef>, top: map<string, string>,
                           namespaces: map<string, Namespace>, values: map<string, ValueRef>,
                           arena: seq<Value>)

  /** The tree is complete, nothing is pending, and Values and Base index the arena. */
  ghost predicate Sound(t: Tables)
  {
    Tree(t.namespaces, t.arena, t.top, {}, {}) && Indexed(t.values, t.base, t.arena)
  }

  /** The namespace reached from `p` by following parent links until there is
      none: a top-level namespace on the path of `p`. */
  ghost function Outermost(ns: map<string, Namespace>, p: string): (q: string)
    requires Keyed(ns) && Linked(ns, {}) && p in ns
    ensures q in ns && ns[q].parent.None? && q in Ancestors(p)
    decreases |p|
  {
    match ns[p].parent
    case None => p
    case Some(up) => Outermost(ns, up)
  }

  /** Following parent links from any namespace of a sound schema ends at a
      top-level namespace whose simple name is a key of Top, and Top maps every
      key to a top-level namespace of that name. */
  lemma ParentsReachTop(t: Tables, p: string)
    requires Sound(t) && p in t.namespaces
    ensures var q := Outermost(t.namespaces, p);
            ParentPath(q) == "" && t.namespaces[q].name in t.top &&
            t.top[t.namespaces[q].name] in t.namespaces && t.namespaces[t.top[t.namespaces[q].name]].parent.None? &&
            t.namespaces[t.top[t.namespaces[q].name]].name == t.namespaces[q].name
  {
    var q := Outermost(t.namespaces, p);
    assert t.namespaces[q].parent == ParentOf(q);
    var r := t.top[Leaf(q)];
    assert t.namespaces[r].parent == ParentOf(r);
  }

  /** The value created for flattened path `raw` of type `ti`, not attached yet. */
  function NewValue(raw: string, ti: TypeInfo): Value
  {
    Value(None, ti, Leaf(NormalizePath(raw)), NormalizePath(raw), "")
  }

  /** The walk of a loop turn: from the parent path of the new value, with the new
      value pending. */
  function Walked(t: Tables, raw: string, ti: TypeInfo): (map<string, Namespace>, seq<Value>, Option<string>)
  {
    Walk(t.namespaces, t.arena + [NewValue(raw, ti)], ParentPath(NormalizePath(raw)), None, Some(|t.arena|))
  }

  /** The tables after the loop turn for flattened path `raw` of type `ti`: an
      excluded path changes nothing; otherwise the value is stored under its key,
      and the walk builds and links the namespaces of its path. */
  function Added(t: Tables, raw: string, ti: TypeInfo, exclude: set<string>): Tables
  {
    if !Admitted(raw, exclude) then t
    else
      var flat := NormalizePath(raw);
      var v := |t.arena|;
      var w := Walked(t, raw, ti);
      Tables(if IsBasePath(ParentPath(flat)) then t.base[Leaf(flat) := v] else t.base,
             if w.2.Some? then t.top[w.0[w.2.value].name := w.2.value] else t.top,
             w.0,
             t.values[KeyOf(flat) := v],
             w.1)
  }

  /** Appending the new value keeps the tree, with that value pending. */
  lemma AppendedTree(t: Tables, raw: string, ti: TypeInfo)
    requires Tree(t.namespaces, t.arena, t.top, {}, {})
    ensures Tree(t.namespaces, t.arena + [NewValue(raw, ti)], t.top, Pending(None), PendingValue(Some(|t.arena|)))
  {
    AppendValueListed(t.namespaces, t.arena, NewValue(raw, ti));
    AppendValuePlaced(t.namespaces, t.arena, NewValue(raw, ti));
    assert PendingValue(Some(|t.arena|)) == {|t.arena|} && Pending(None) == {};
  }

  /** The walk gives the new value its parent and leaves the arena otherwise as it
      was. */
  lemma WalkedArena(t: Tables, raw: string, ti: TypeInfo)
    ensures var flat := NormalizePath(raw);
            Walked(t, raw, ti).1 == t.arena + [Value(ParentOf(flat), ti, Leaf(flat), flat, "")]
  {
    var n := |t.arena|;
    var w1 := Walked(t, raw, ti).1;
    WalkArena(t.namespaces, t.arena + [NewValue(raw, ti)], ParentPath(NormalizePath(raw)), None, Some(n));
    WalkedLast(t, raw, ti, w1);
    LastReplaced(t.arena, NewValue(raw, ti), w1);
  }

  /** A sequence that agrees with `a + [y]` except at its last element. */
  lemma LastReplaced(a: seq<Value>, y: Value, w: seq<Value>)
    requires |w| == |a + [y]|
    requires forall i :: 0 <= i < |a + [y]| && Some(i) != Some(|a|) ==> w[i] == (a + [y])[i]
    ensures w == a + [w[|a|]]
  {
    assert forall i :: 0 <= i < |a| ==> w[i] == (a + [y])[i] == a[i];
  }

  lemma WalkedLast(t: Tables, raw: string, ti: TypeInfo, w1: seq<Value>)
    requires |w1| == |t.arena| + 1
    requires w1[|t.arena|] == if ParentPath(NormalizePath(raw)) == "" then NewValue(raw, ti)
                              else NewValue(raw, ti).(parent := Some(ParentPath(NormalizePath(raw))))
    ensures var flat := NormalizePath(raw);
            w1[|t.arena|] == Value(ParentOf(flat), ti, Leaf(flat), flat, "")
  {
  }

  /** An admitted path adds exactly one value to the arena, attached to the
      namespace of its parent path (none at the top level); earlier values are
      untouched. */
  lemma AddedArena(t: Tables, raw: string, ti: TypeInfo, exclude: set<string>)
    requires Admitted(raw, exclude)
    ensures var flat := NormalizePath(raw);
            Added(t, raw, ti, exclude).arena == t.arena + [Value(ParentOf(flat), ti, Leaf(flat), flat, "")]
  {
    WalkedArena(t, raw, ti);
  }

  /** An admitted path stores the new value under its key in Values, and in Base
      too when the key has no dot. */
  lemma AddedStored(t: Tables, raw: string, ti: TypeInfo, exclude: set<string>)
    requires Admitted(raw, exclude)
    ensures var r := Added(t, raw, ti, exclude);
            var k := ValueKey(raw);
            r.values == t.values[k := |t.arena|] &&
            r.base == (if '.' in k then t.base else t.base[k := |t.arena|])
  {
    KeyDot(NormalizePath(raw));
  }

  /** Values and Base keep indexing the arena. */
  lemma AddedIndexed(t: Tables, raw: string, ti: TypeInfo, exclude: set<string>)
    requires Indexed(t.values, t.base, t.arena) && Admitted(raw, exclude)
    ensures var r := Added(t, raw, ti, exclude);
            Indexed(r.values, r.base, r.arena)
  {
    var flat := NormalizePath(raw);
    AddedStored(t, raw, ti, exclude);
    AddedArena(t, raw, ti, exclude);
    var r := Added(t, raw, ti, exclude);
    AppendValueIndexed(t.values, t.base, t.arena, Value(ParentOf(flat), ti, Leaf(flat), flat, ""), r.values, r.base);
  }

  /** An admitted path keeps the namespace tree complete: the walk links what it
      creates, and a new top-level namespace is registered in Top. */
  lemma AddedTree(t: Tables, raw: string, ti: TypeInfo, exclude: set<string>)
    requires Tree(t.namespaces, t.arena, t.top, {}, {}) && Admitted(raw, exclude)
    ensures var r := Added(t, raw, ti, exclude);
            Tree(r.namespaces, r.arena, r.top, {}, {})
  {
    AppendedTree(t, raw, ti);
    WalkTree(t.namespaces, t.arena + [NewValue(raw, ti)], t.top, ParentPath(NormalizePath(raw)), None, Some(|t.arena|));
    var w := Walked(t, raw, ti);
    if w.2.Some? {
      AddTop(w.0, w.1, t.top, w.2.value);
    } else {
      assert Pending(w.2) == {};
    }
  }

  /** A loop turn keeps the schema sound, and an excluded path changes nothing. */
  lemma AddedSound(t: Tables, raw: string, ti: TypeInfo, exclude: set<string>)
    requires Sound(t)
    ensures Sound(Added(t, raw, ti, exclude))
    ensures !Admitted(raw, exclude) ==> Added(t, raw, ti, exclude) == t
  {
    if Admitted(raw, exclude) {
      AddedTree(t, raw, ti, exclude);
      AddedIndexed(t, raw, ti, exclude);
    }
  }

  /** An admitted path creates exactly the missing namespaces of its parent path
      and its ancestors. */
  lemma AddedKeys(t: Tables, raw: string, ti: TypeInfo, exclude: set<string>)
    requires Tree(t.namespaces, t.arena, t.top, {}, {}) && Admitted(raw, exclude)
    ensures Added(t, raw, ti, exclude).namespaces.Keys == t.namespaces.Keys + Ancestors(ParentPath(NormalizePath(raw)))
  {
    AppendedTree(t, raw, ti);
    WalkKeys(t.namespaces, t.arena + [NewValue(raw, ti)], t.top, ParentPath(NormalizePath(raw)), None, Some(|t.arena|));
  }

  /** Namespaces that existed keep their place and description and are only
      appended to; the ones a loop turn creates have no description yet. */
  lemma AddedKeeps(t: Tables, raw: string, ti: TypeInfo, exclude: set<string>)
    ensures var r := Added(t, raw, ti, exclude);
            (forall p :: p in t.namespaces ==> Grown(t.namespaces[p], r.namespaces[p])) &&
            (forall p :: p in r.namespaces && p !in t.namespaces ==> r.namespaces[p].description == "")
  {
    if Admitted(raw, exclude) {
      WalkKeeps(t.namespaces, t.arena + [NewValue(raw, ti)], ParentPath(NormalizePath(raw)), None, Some(|t.arena|));
    } else {
      forall p | p in t.namespaces
        ensures Grown(t.namespaces[p], t.namespaces[p])
      {
      }
    }
  }

  /** A bare "base" key normalises to "": its value is stored under the empty name
      in Base and Values, and no namespace is created. */
  lemma BareBaseStored(t: Tables, ti: TypeInfo, exclude: set<string>)
    requires "base" !in exclude && "" !in exclude
    ensures var r := Added(t, "base", ti, exclude);
            r.base == t.base["" := |t.arena|] && r.values == t.values["" := |t.arena|] &&
            r.namespaces == t.namespaces && r.top == t.top
  {
    NormalizeRoot();
    assert SplitPath("") == ("", "");
  }

  /** "base.base.x" loses one "base." prefix only: its parent path "base" makes it
      base-level, so it is stored in Base as "x", and the walk still creates the
      namespace "base". */
  lemma DoubleBaseStored(t: Tables, ti: TypeInfo, exclude: set<string>)
    requires Tree(t.namespaces, t.arena, t.top, {}, {})
    requires "base.base.x" !in exclude && "x" !in exclude
    ensures var r := Added(t, "base.base.x", ti, exclude);
            r.base == t.base["x" := |t.arena|] && r.values == t.values["x" := |t.arena|] &&
            r.namespaces.Keys == t.namespaces.Keys + {"base"}
  {
    var raw := "base.base.x";
    assert NormalizePath(raw) == "base.x" by {
      NormalizeStripsRoot("base.x");
    }
    assert SplitPath("base.x") == ("x", "base") by {
      assert "base.x"[..5] == "base." && "base.x"[5..] == "x" && "base.x"[..4] == "base";
      assert LastDot("base.x") == 4;
    }
    assert Ancestors("base") == {"base"} by {
      assert SplitPath("base").1 == "";
    }
    assert Admitted(raw, exclude) && ValueKey(raw) == "x";
    AddedStored(t, raw, ti, exclude);
    AddedKeys(t, raw, ti, exclude);
  }

  /** The loop turn of buildSchema for flattened path `raw` of type `ti`: apply the
      exclusions, store the value, then walk its parent path from the right. The
      same turn is also written as the function Added: the loop is what the code
      does, and the function is what the lemmas about a turn are stated on, since
      lemmas cannot call a method. */
  method AddDefinition(t: Tables, raw: string, ti: TypeInfo, exclude: set<string>) returns (r: Tables)
    ensures r == Added(t, raw, ti, exclude)
  {
    r := t;
    if raw in exclude {
      return;
    }
    var fullName := NormalizePath(raw);
    var name, path := Leaf(fullName), ParentPath(fullName);
    var isBase := path == Root || path == "";
    if isBase && name in exclude {
      return;
    }
    var v: ValueRef := |t.arena|;
    var base: map<string, ValueRef> := t.base;
    var values: map<string, ValueRef> := t.values;
    if isBase {
      base := base[name := v];
      values := values[name := v];
    } else {
      values := values[fullName := v];
    }
    var ns, arena, current := WalkUp(t.namespaces, t.arena + [Value(None, ti, name, fullName, "")], path, None, Some(v));
    var top := t.top;
    if current.Some? {
      top := top[ns[current.value].name := current.value];
    }
    r := Tables(base, top, ns, values, arena);
  }

  /** The walk of lines 174-207: one turn per segment of `path`, from the right,
      until a namespace that already existed has been visited. The recursive
      function Walk states the same walk for the lemmas; this loop is proved to
      compute it. */
  method WalkUp(ns0: map<string, Namespace>, arena0: seq<Value>, path0: string, current0: Option<string>,
                val0: Option<ValueRef>)
    returns (ns: map<string, Namespace>, arena: seq<Value>, current: Option<string>)
    requires current0.Some? ==> current0.value in ns0
    requires val0.Some? ==> val0.value < |arena0|
    ensures (ns, arena, current) == Walk(ns0, arena0, path0, current0, val0)
  {
    ns, arena, current := ns0, arena0, current0;
    var path: string, val: Option<ValueRef> := path0, val0;
    while path != ""
      invariant current.Some? ==> current.value in ns
      invariant val.Some? ==> val.value < |arena|
      invariant Walk(ns, arena, path, current, val) == Walk(ns0, arena0, path0, current0, val0)
      decreases |path|
    {
      var fullPath := path;
      var name;
      name, path := Leaf(fullPath), ParentPath(fullPath);
      var newNS := fullPath !in ns;
      if newNS {
        ns := ns[fullPath := Namespace(None, name, fullPath, "", [], [])];
      }
      if val.Some? {
        arena := arena[val.value := arena[val.value].(parent := Some(fullPath))];
        ns := SetValues(ns, fullPath, ns[fullPath].values + [val.value]);
        val := None;
      }
      if current.Some? && ns[current.value].parent.None? {
        ns := Adopt(ns, current.value, fullPath);
      }
      if !newNS {
        current := None;
        return;
      }
      current := Some(fullPath);
    }
  }
}
