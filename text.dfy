/**
 * String operations the bootstrapper relies on: locating the first occurrence
 * of a pattern, replacing it, and splitting and joining on a separator.
 */
module Text {
  import opened Errors

  /** `pat` occurs in `s` starting at position `i`. */
  predicate OccursAt(s: string, pat: string, i: nat)
  {
    i + |pat| <= |s| && s[i..i + |pat|] == pat
  }

  /**
   * `pat` matches `s` from position `i` on, one character at a time; the
   * search below uses this form, OccursAt is what it means (MatchesOccurs).
   */
  predicate Matches(s: string, pat: string, i: nat)
    decreases |pat|
  {
    |pat| == 0 || (i < |s| && s[i] == pat[0] && Matches(s, pat[1..], i + 1))
  }

  lemma {:induction false} MatchesOccurs(s: string, pat: string, i: nat)
    requires i + |pat| <= |s|
    ensures Matches(s, pat, i) <==> OccursAt(s, pat, i)
    decreases |pat|
  {
    if |pat| > 0 {
      MatchesOccurs(s, pat[1..], i + 1);
      var t := s[i..i + |pat|];
      assert t[0] == s[i] && t[1..] == s[i + 1..i + |pat|];
      assert t == [t[0]] + t[1..];
      assert pat == [pat[0]] + pat[1..];
    }
  }

  /** The first position at or after `from` where `pat` occurs in `s`. */
  function FindFrom(s: string, pat: string, from: nat): (r: Option<nat>)
    ensures r.Some? ==> from <= r.value && r.value + |pat| <= |s|
    decreases |s| - from
  {
    if from + |pat| > |s| then None
    else if Matches(s, pat, from) then Some(from)
    else FindFrom(s, pat, from + 1)
  }

  /** The first occurrence of `pat` in `s`, as strings.Index finds it. */
  function Find(s: string, pat: string): (r: Option<nat>)
    ensures r.Some? ==> r.value + |pat| <= |s|
  {
    FindFrom(s, pat, 0)
  }

  /** FindFrom finds an occurrence, skips none, and finds one whenever there is one. */
  lemma {:induction false} FindFromFirst(s: string, pat: string, from: nat)
    ensures FindFrom(s, pat, from).Some? ==> OccursAt(s, pat, FindFrom(s, pat, from).value)
    ensures forall j: nat :: from <= j && (FindFrom(s, pat, from).None? || j < FindFrom(s, pat, from).value)
                             ==> !OccursAt(s, pat, j)
    decreases |s| - from
  {
    if from + |pat| <= |s| {
      MatchesOccurs(s, pat, from);
      if !Matches(s, pat, from) {
        FindFromFirst(s, pat, from + 1);
      }
    }
  }

  /** Find gives an occurrence, the first one, and None only when there is none. */
  lemma FindFirst(s: string, pat: string)
    ensures Find(s, pat).Some? ==> OccursAt(s, pat, Find(s, pat).value)
    ensures Find(s, pat).Some? ==> forall j: nat :: j < Find(s, pat).value ==> !OccursAt(s, pat, j)
    ensures Find(s, pat).None? ==> forall j: nat :: !OccursAt(s, pat, j)
  {
    FindFromFirst(s, pat, 0);
  }

  predicate Contains(s: string, pat: string)
  {
    Find(s, pat).Some?
  }

  /** strings.Replace(s, pat, rep, 1): the first occurrence of `pat`, if any, becomes `rep`. */
  function ReplaceFirst(s: string, pat: string, rep: string): (r: string)
    ensures Find(s, pat).None? ==> r == s
    ensures Find(s, pat).Some? ==> |r| == |s| - |pat| + |rep|
  {
    match Find(s, pat)
    case None => s
    case Some(i) => s[..i] + rep + s[i + |pat|..]
  }

  /** What ReplaceFirst keeps and what it puts in place of the first occurrence. */
  lemma ReplaceFirstParts(s: string, pat: string, rep: string)
    requires Find(s, pat).Some?
    ensures var i, r := Find(s, pat).value, ReplaceFirst(s, pat, rep);
      r[..i] == s[..i] && r[i..i + |rep|] == rep && r[i + |rep|..] == s[i + |pat|..]
  {
  }

  /** Pieces joined with `sep` between consecutive pieces (strings.Join). */
  function Join(ts: seq<string>, sep: string): string
  {
    if |ts| == 0 then ""
    else if |ts| == 1 then ts[0]
    else ts[0] + sep + Join(ts[1..], sep)
  }

  /** strings.Split: the pieces of `s` between the occurrences of `sep`. */
  function Split(s: string, sep: string): (r: seq<string>)
    requires |sep| > 0
    ensures |r| > 0
    ensures forall k :: 0 <= k < |r| ==> !Contains(r[k], sep)
    decreases |s|
  {
    match Find(s, sep)
    case None => [s]
    case Some(i) =>
      PrefixBeforeFirst(s, sep, i);
      [s[..i]] + Split(s[i + |sep|..], sep)
  }

  /** Nothing before the first occurrence contains the pattern. */
  lemma PrefixBeforeFirst(s: string, pat: string, i: nat)
    requires |pat| > 0 && Find(s, pat) == Some(i)
    ensures !Contains(s[..i], pat)
  {
    FindFirst(s, pat);
    if Contains(s[..i], pat) {
      var j := Find(s[..i], pat).value;
      FindFirst(s[..i], pat);
      assert s[..i][j..j + |pat|] == s[j..j + |pat|];
      assert OccursAt(s, pat, j);
      assert false;
    }
  }

  lemma OccursAtHead(s: string, pat: string, i: nat)
    requires |pat| > 0 && OccursAt(s, pat, i)
    ensures i < |s| && s[i] == pat[0]
  {
    assert s[i..i + |pat|][0] == pat[0];
  }

  /** A string without the separator's first character does not contain it. */
  lemma NotContainsWithoutHead(s: string, pat: string)
    requires |pat| > 0 && pat[0] !in s
    ensures !Contains(s, pat)
  {
    if Contains(s, pat) {
      FindFirst(s, pat);
      OccursAtHead(s, pat, Find(s, pat).value);
    }
  }

  /** The separator's first occurrence after a piece free of its first character. */
  lemma FindAfterFreePiece(a: string, sep: string, b: string)
    requires |sep| > 0 && sep[0] !in a
    ensures Find(a + sep + b, sep) == Some(|a|)
  {
    var s := a + sep + b;
    assert s[|a|..|a| + |sep|] == sep;
    assert OccursAt(s, sep, |a|);
    FindFirst(s, sep);
    var i := Find(s, sep).value;
    if i < |a| {
      OccursAtHead(s, sep, i);
    }
  }

  /** Joining the pieces of a split gives back the string. */
  lemma {:induction false} JoinSplit(s: string, sep: string)
    requires |sep| > 0
    ensures Join(Split(s, sep), sep) == s
    decreases |s|
  {
    match Find(s, sep)
    case None =>
    case Some(i) =>
      var rest := Split(s[i + |sep|..], sep);
      JoinSplit(s[i + |sep|..], sep);
      FindFirst(s, sep);
      assert ([s[..i]] + rest)[1..] == rest;
      assert s[..i] + sep + s[i + |sep|..] == s;
  }

  /** Splitting joined pieces gives back the pieces, when no piece holds the separator's first character. */
  lemma {:induction false} SplitJoin(ts: seq<string>, sep: string)
    requires |ts| > 0 && |sep| > 0
    requires forall k :: 0 <= k < |ts| ==> sep[0] !in ts[k]
    ensures Split(Join(ts, sep), sep) == ts
  {
    if |ts| == 1 {
      NotContainsWithoutHead(ts[0], sep);
    } else {
      var rest := Join(ts[1..], sep);
      FindAfterFreePiece(ts[0], sep, rest);
      var s := ts[0] + sep + rest;
      assert s[..|ts[0]|] == ts[0];
      assert s[|ts[0]| + |sep|..] == rest;
      SplitJoin(ts[1..], sep);
      assert ts == [ts[0]] + ts[1..];
    }
  }

  lemma OccursInAppend(a: string, b: string, pat: string, i: nat)
    requires OccursAt(b, pat, i)
    ensures OccursAt(a + b, pat, |a| + i)
  {
    assert (a + b)[|a| + i..|a| + i + |pat|] == b[i..i + |pat|];
  }

  lemma OccursInPrefix(a: string, b: string, pat: string, i: nat)
    requires OccursAt(a, pat, i)
    ensures OccursAt(a + b, pat, i)
  {
    assert (a + b)[i..i + |pat|] == a[i..i + |pat|];
  }

  /** Every piece of a join is a substring of it. */
  lemma {:induction false} JoinContainsPiece(ts: seq<string>, sep: string, k: nat)
    requires k < |ts|
    ensures Contains(Join(ts, sep), ts[k])
  {
    var pos: nat;
    if |ts| == 1 {
      assert OccursAt(ts[0], ts[0], 0);
      pos := 0;
    } else if k == 0 {
      assert OccursAt(ts[0], ts[0], 0);
      OccursInPrefix(ts[0], sep + Join(ts[1..], sep), ts[0], 0);
      assert ts[0] + sep + Join(ts[1..], sep) == ts[0] + (sep + Join(ts[1..], sep));
      pos := 0;
    } else {
      JoinContainsPiece(ts[1..], sep, k - 1);
      var j := Find(Join(ts[1..], sep), ts[k]).value;
      FindFirst(Join(ts[1..], sep), ts[k]);
      OccursInAppend(ts[0] + sep, Join(ts[1..], sep), ts[k], j);
      pos := |ts[0] + sep| + j;
    }
    assert OccursAt(Join(ts, sep), ts[k], pos);
    FindFirst(Join(ts, sep), ts[k]);
  }

  /** `s` has no character `c`; stated by recursion so that it unfolds one step at a time. */
  predicate Lacks(s: string, c: char)
  {
    s == [] || (s[0] != c && Lacks(s[1..], c))
  }

  lemma {:induction false} LacksIsNotIn(s: string, c: char)
    ensures Lacks(s, c) <==> c !in s
  {
    if s != [] {
      LacksIsNotIn(s[1..], c);
      assert s == [s[0]] + s[1..];
    }
  }

  /** An occurrence with none before it is the first occurrence. */
  lemma FindIs(s: string, pat: string, t: nat)
    requires OccursAt(s, pat, t)
    requires forall q: nat :: q < t ==> !OccursAt(s, pat, q)
    ensures Find(s, pat) == Some(t)
  {
    FindFirst(s, pat);
  }

  /** Replacing text after the first occurrence of a pattern does not move that occurrence. */
  lemma FindBeforeReplacement(x: string, w: string, w2: string, y: string, pat: string, k: nat)
    requires Find(x + w + y, pat) == Some(k) && k + |pat| <= |x|
    ensures Find(x + w2 + y, pat) == Some(k)
  {
    var s, s2 := x + w + y, x + w2 + y;
    FindFirst(s, pat);
    OccursBeforeReplacement(x, w, w2, y, pat, k);
    forall q: nat | q < k
      ensures !OccursAt(s2, pat, q)
    {
      OccursBeforeReplacement(x, w, w2, y, pat, q);
    }
    FindIs(s2, pat, k);
  }

  /** An occurrence that ends before the replaced text is unaffected by the replacement. */
  lemma OccursBeforeReplacement(x: string, w: string, w2: string, y: string, pat: string, q: nat)
    requires q + |pat| <= |x|
    ensures OccursAt(x + w + y, pat, q) <==> OccursAt(x + w2 + y, pat, q)
  {
    assert (x + w + y)[q..q + |pat|] == x[q..q + |pat|] == (x + w2 + y)[q..q + |pat|];
  }

  /** An occurrence that starts after the replaced text moves with it. */
  lemma OccursAfterReplacement(x: string, w: string, w2: string, y: string, pat: string, k: nat)
    ensures OccursAt(x + w + y, pat, |x| + |w| + k) <==> OccursAt(x + w2 + y, pat, |x| + |w2| + k)
  {
    if k + |pat| <= |y| {
      assert (x + w + y)[|x| + |w| + k..|x| + |w| + k + |pat|] == y[k..k + |pat|];
      assert (x + w2 + y)[|x| + |w2| + k..|x| + |w2| + k + |pat|] == y[k..k + |pat|];
    }
  }

  /**
   * No occurrence overlaps `w2` when the pattern's first and last characters are
   * not in `w2` and `w2` has a character (at `j`) the pattern lacks.
   */
  lemma NoOccurrenceOverlapping(x: string, w2: string, y: string, pat: string, q: nat, j: nat)
    requires |pat| > 0 && j < |w2| && w2[j] !in pat
    requires pat[0] !in w2 && pat[|pat| - 1] !in w2
    requires q < |x| + |w2| && |x| < q + |pat|
    ensures !OccursAt(x + w2 + y, pat, q)
  {
    var s2 := x + w2 + y;
    if q + |pat| <= |s2| {
      var seg := s2[q..q + |pat|];
      if q >= |x| {
        assert seg[0] == w2[q - |x|];
      } else if q + |pat| <= |x| + |w2| {
        assert seg[|pat| - 1] == w2[q + |pat| - 1 - |x|];
      } else {
        assert seg[|x| + j - q] == w2[j];
      }
    }
  }

  /**
   * Replacing `w` by `w2` ahead of the first occurrence of a pattern shifts that
   * occurrence by the difference in length, provided no occurrence can overlap
   * `w2`: the pattern's first and last characters are not in `w2`, and `w2` has a
   * character (at `j`) the pattern lacks.
   */
  lemma FindAfterReplacement(x: string, w: string, w2: string, y: string, pat: string, k: nat, j: nat)
    requires |pat| > 0 && j < |w2| && Lacks(pat, w2[j])
    requires Lacks(w2, pat[0]) && Lacks(w2, pat[|pat| - 1])
    requires Find(x + w + y, pat) == Some(|x| + |w| + k)
    ensures Find(x + w2 + y, pat) == Some(|x| + |w2| + k)
  {
    LacksIsNotIn(pat, w2[j]);
    LacksIsNotIn(w2, pat[0]);
    LacksIsNotIn(w2, pat[|pat| - 1]);
    var s, s2 := x + w + y, x + w2 + y;
    FindFirst(s, pat);
    OccursAfterReplacement(x, w, w2, y, pat, k);
    NoneBeforeAfterReplacement(x, w, w2, y, pat, k, j);
    FindIs(s2, pat, |x| + |w2| + k);
  }

  /** Under the same conditions, no occurrence ahead of the shifted one appears. */
  lemma NoneBeforeAfterReplacement(x: string, w: string, w2: string, y: string, pat: string, k: nat, j: nat)
    requires |pat| > 0 && j < |w2| && w2[j] !in pat
    requires pat[0] !in w2 && pat[|pat| - 1] !in w2
    requires forall q: nat :: q < |x| + |w| + k ==> !OccursAt(x + w + y, pat, q)
    ensures forall q: nat :: q < |x| + |w2| + k ==> !OccursAt(x + w2 + y, pat, q)
  {
    forall q: nat | q < |x| + |w2| + k
      ensures !OccursAt(x + w2 + y, pat, q)
    {
      if q + |pat| <= |x| {
        OccursBeforeReplacement(x, w, w2, y, pat, q);
      } else if q >= |x| + |w2| {
        OccursAfterReplacement(x, w, w2, y, pat, q - |x| - |w2|);
      } else {
        NoOccurrenceOverlapping(x, w2, y, pat, q, j);
      }
    }
  }

  /** Replacing the first occurrence, when it is the one right after `x`. */
  lemma ReplaceAt(x: string, pat: string, y: string, rep: string)
    requires Find(x + pat + y, pat) == Some(|x|)
    ensures ReplaceFirst(x + pat + y, pat, rep) == x + rep + y
  {
    var s := x + pat + y;
    assert s[..|x|] == x;
    assert s[|x| + |pat|..] == y;
  }
}
