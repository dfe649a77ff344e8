/** Dotted-path helpers of the schema package: splitting a path at its last dot,
    stripping the "base" root prefix, joining a prefix with a key, and the set of
    namespace paths above a path. */
module Paths {

  /** Index of the last '.' in `s`, or -1 when there is none (strings.LastIndexByte). */
  function LastDot(s: string): (i: int)
    ensures -1 <= i < |s|
    ensures i >= 0 ==> s[i] == '.'
    ensures forall j :: i < j < |s| ==> s[j] != '.'
  {
    if s == [] then -1
    else if s[|s| - 1] == '.' then |s| - 1
    else LastDot(s[..|s| - 1])
  }

  /** splitPath: the part after the last dot (the name) and the part before it (the
      parent path); a path without a dot is all name. */
  function SplitPath(s: string): (r: (string, string))
    ensures '.' !in s ==> r == (s, "")
    ensures '.' in s ==> '.' !in r.0 && r.1 + "." + r.0 == s
    ensures s != "" ==> |r.1| < |s|
  {
    var i := LastDot(s);
    if i < 0 then (s, "")
    else
      assert s == s[..i] + "." + s[i + 1..];
      (s[i + 1..], s[..i])
  }

  /** The last segment of a path. */
  function Leaf(s: string): string { SplitPath(s).0 }

  /** The path of the enclosing namespace; "" when there is none. */
  function ParentPath(s: string): string { SplitPath(s).1 }

  /** The prefix stripped by normalizePath: "base" addresses the schema root. */
  const Root := "base"

  predicate HasRootPrefix(s: string)
  {
    |s| > |Root| && s[..|Root|] == Root && s[|Root|] == '.'
  }

  /** normalizePath: "base" becomes "", "base.<rest>" becomes "<rest>", and every
      other path is returned unchanged. */
  function NormalizePath(s: string): (r: string)
    ensures s == Root ==> r == ""
    ensures HasRootPrefix(s) ==> Root + "." + r == s
    ensures s != Root && !HasRootPrefix(s) ==> r == s
  {
    if s == Root then ""
    else if HasRootPrefix(s) then
      assert s == Root + "." + s[|Root| + 1..];
      s[|Root| + 1..]
    else s
  }

  /** The dotted path of key `k` below `prefix`; at the top level (empty prefix) the
      key itself, without a leading dot. */
  function Join(prefix: string, k: string): string
  {
    if prefix == "" then k else prefix + "." + k
  }

  /** The non-empty paths met when splitting `p` from the right until nothing is
      left: `p` itself, its parent path, that one's parent path, and so on. */
  function Ancestors(p: string): set<string>
    decreases |p|
  {
    if p == "" then {} else {p} + Ancestors(ParentPath(p))
  }

  lemma NormalizeRoot()
    ensures NormalizePath("base") == ""
  {
  }

  lemma {:induction false} NormalizeStripsRoot(t: string)
    ensures NormalizePath("base." + t) == t
  {
    var s := "base." + t;
    assert s[..4] == "base" && s[4] == '.';
    assert HasRootPrefix(s);
  }

  lemma {:induction false} NormalizeKeepsOtherPaths(s: string)
    requires s != "base"
    requires forall t :: s != "base." + t
    ensures NormalizePath(s) == s
  {
    if HasRootPrefix(s) {
      assert s == "base." + s[5..];
    }
  }

  /** "baseline.x" and "basex" look like the root prefix but are not. */
  lemma NormalizeLookalikes()
    ensures NormalizePath("baseline.x") == "baseline.x"
    ensures NormalizePath("basex") == "basex"
  {
    assert !HasRootPrefix("baseline.x") by { assert "baseline.x"[4] == 'l'; }
    assert !HasRootPrefix("basex") by { assert "basex"[4] == 'x'; }
  }

  /** Normalising is not idempotent: only one "base." prefix is stripped. */
  lemma NormalizeStripsOnce()
    ensures NormalizePath("base.base.x") == "base.x"
    ensures NormalizePath(NormalizePath("base.base.x")) == "x"
  {
    NormalizeStripsRoot("base.x");
    NormalizeStripsRoot("x");
  }

  /** Splitting a joined path gives back the key and the prefix, as long as the key
      has no dot of its own. */
  lemma {:induction false} SplitJoin(prefix: string, k: string)
    requires prefix != "" && '.' !in k
    ensures SplitPath(Join(prefix, k)) == (k, prefix)
  {
    var s := prefix + "." + k;
    assert s[|prefix|] == '.';
    assert '.' in s;
    var r := SplitPath(s);
    var i := LastDot(s);
    assert i == |prefix| by {
      assert forall j :: |prefix| < j < |s| ==> s[j] == k[j - |prefix| - 1];
    }
    assert s[i + 1..] == k && s[..i] == prefix;
  }

  /** Every ancestor is non-empty, no longer than the path, and its own parent path
      (when there is one) is an ancestor too. */
  lemma {:induction false} AncestorsShape(p: string, q: string)
    requires q in Ancestors(p)
    ensures q != "" && |q| <= |p|
    ensures ParentPath(q) != "" ==> ParentPath(q) in Ancestors(p)
    decreases |p|
  {
    if q != p {
      AncestorsShape(ParentPath(p), q);
    }
  }
}
