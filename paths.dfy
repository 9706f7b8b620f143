/**
 * Windows path handling as the bootstrapper uses it: joining a directory and
 * a name, and the base name of a path (Go's filepath.Join and filepath.Base).
 */
module Paths {

  /** The separator filepath.Join writes on Windows. */
  const Sep: char := '\\'

  /** os.IsPathSeparator on Windows accepts both slashes. */
  predicate IsPathSeparator(c: char)
  {
    c == '/' || c == '\\'
  }

  predicate NoSeparator(s: string)
  {
    forall i :: 0 <= i < |s| ==> !IsPathSeparator(s[i])
  }

  /** A name that denotes a single directory entry. */
  predicate IsEntryName(n: string)
  {
    n != "" && NoSeparator(n)
  }

  function Join(dir: string, name: string): string
  {
    dir + [Sep] + name
  }

  /** `p` with its trailing separators removed. */
  function TrimTrailingSeparators(p: string): (r: string)
    ensures |r| <= |p| && r == p[..|r|]
    ensures r == "" || !IsPathSeparator(r[|r| - 1])
    ensures forall i :: |r| <= i < |p| ==> IsPathSeparator(p[i])
  {
    if p != "" && IsPathSeparator(p[|p| - 1]) then TrimTrailingSeparators(p[..|p| - 1]) else p
  }

  /** The text after the last separator of `p`. */
  function LastElement(p: string): (r: string)
    ensures |r| <= |p| && r == p[|p| - |r|..]
    ensures NoSeparator(r)
    ensures |r| < |p| ==> IsPathSeparator(p[|p| - |r| - 1])
  {
    if p == "" || IsPathSeparator(p[|p| - 1]) then ""
    else
      var e := LastElement(p[..|p| - 1]);
      e + [p[|p| - 1]]
  }

  /**
   * filepath.Base: "." for the empty path, a lone separator for a path of separators only,
   * and otherwise the last element of the path once its trailing separators are removed.
   */
  function Base(p: string): (r: string)
    ensures r != ""
    ensures r == "." || r == [Sep] || (NoSeparator(r) && |r| <= |p|)
  {
    if p == "" then "."
    else
      var trimmed := TrimTrailingSeparators(p);
      var last := LastElement(trimmed);
      if last == "" then [Sep] else last
  }

  /**
   * `r` is the last element of `t`: a non-empty, separator-free tail of `t`
   * that starts right after a separator or at the start of `t`.
   */
  predicate IsLastElementOf(r: string, t: string)
  {
    IsEntryName(r) && |r| <= |t| && r == t[|t| - |r|..] && (|r| == |t| || IsPathSeparator(t[|t| - |r| - 1]))
  }

  /** Base picks out the last element of a path that is not made of separators only. */
  lemma BaseIsLastElement(p: string)
    ensures TrimTrailingSeparators(p) != "" ==> IsLastElementOf(Base(p), TrimTrailingSeparators(p))
  {
    var t := TrimTrailingSeparators(p);
    if t != "" {
      LastElementOfName(t);
      assert Base(p) == LastElement(t);
    }
  }

  /** The two paths without a last element: the empty path and a path of separators only. */
  lemma BaseWithoutElement(p: string)
    ensures p == "" ==> Base(p) == "."
    ensures p != "" && TrimTrailingSeparators(p) == "" ==> Base(p) == [Sep]
  {
  }

  /** A path that does not end in a separator has a non-empty last element. */
  lemma LastElementOfName(t: string)
    requires t != "" && !IsPathSeparator(t[|t| - 1])
    ensures LastElement(t) != ""
  {
    assert LastElement(t) == LastElement(t[..|t| - 1]) + [t[|t| - 1]];
  }

  /** The check the kubelet unit's --cloud-config value must pass: Base gave a real file name. */
  predicate IsUsableBase(b: string)
  {
    b != "" && b != "." && !IsPathSeparator(b[0])
  }

  /** The last element of a joined path is the name that was joined. */
  lemma {:induction false} LastElementAfterSeparator(dir: string, name: string)
    requires NoSeparator(name)
    ensures LastElement(dir + [Sep] + name) == name
    decreases |name|
  {
    var p := dir + [Sep] + name;
    if name == "" {
    } else {
      var front := name[..|name| - 1];
      assert p[..|p| - 1] == dir + [Sep] + front;
      LastElementAfterSeparator(dir, front);
      assert name == front + [name[|name| - 1]];
    }
  }

  /** Base undoes Join for an entry name. */
  lemma BaseOfJoin(dir: string, name: string)
    requires IsEntryName(name)
    ensures Base(Join(dir, name)) == name
  {
    LastElementAfterSeparator(dir, name);
  }

  /** A base name that passes the check is a non-empty name without separators. */
  lemma UsableBaseIsEntryName(p: string)
    requires IsUsableBase(Base(p))
    ensures IsEntryName(Base(p))
  {
  }

  /** A path made of a single slash, as in `--cloud-config=/`, has no usable base name. */
  lemma RootHasNoUsableBase()
    ensures !IsUsableBase(Base("/"))
  {
    assert TrimTrailingSeparators("/") == "";
  }
}
