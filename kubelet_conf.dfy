/**
 * Rewriting the Linux kubelet configuration (compact JSON text) for a Windows
 * node. The rewrite is textual so that every byte it does not edit, and the
 * order of all members, stays as it was:
 *   1. the CA file path becomes `<installDir>\kubelet-ca.crt`, JSON-escaped;
 *   2. the cgroup driver `systemd` becomes `cgroupfs`;
 *   3. `"cgroupsPerQOS":false` is inserted right after the
 *      `volumeStatsAggPeriod` member;
 *   4. `"enforceNodeAllocatable":[]` becomes the last top-level member.
 */
module KubeletConf {
  import opened Errors
  import opened Text
  import Paths

  const CaPosixPath: string := "/etc/kubernetes/kubelet-ca.crt"
  const CaFileName: string := "kubelet-ca.crt"
  const CgroupSystemd: string := "\"cgroupDriver\":\"systemd\""
  const CgroupCgroupfs: string := "\"cgroupDriver\":\"cgroupfs\""
  const VolumeStatsKey: string := "\"volumeStatsAggPeriod\""
  const QosMember: string := ",\"cgroupsPerQOS\":false"
  const EnforceMember: string := ",\"enforceNodeAllocatable\":[]"

  /** A backslash inside a JSON string is written as two backslashes. */
  function EscapeBackslashes(s: string): string
  {
    if s == [] then []
    else (if s[0] == '\\' then "\\\\" else [s[0]]) + EscapeBackslashes(s[1..])
  }

  /** JSON unescaping of backslash pairs, the reader's side of EscapeBackslashes. */
  function UnescapeBackslashes(s: string): string
  {
    if s == [] then []
    else if s[0] == '\\' && |s| >= 2 then [s[1]] + UnescapeBackslashes(s[2..])
    else [s[0]] + UnescapeBackslashes(s[1..])
  }

  /** The CA file under the install directory, as it is written inside the JSON text. */
  function WindowsCaPath(installDir: string): string
  {
    EscapeBackslashes(Paths.Join(installDir, CaFileName))
  }

  /** The first position at or after `from` that ends a scalar member value: a `,` or a `}`. */
  function ValueEnd(s: string, from: nat): (r: Option<nat>)
    ensures r.Some? ==> from <= r.value < |s| && (s[r.value] == ',' || s[r.value] == '}')
    ensures forall i :: from <= i < |s| && (r.None? || i < r.value) ==> s[i] != ',' && s[i] != '}'
    decreases |s| - from
  {
    if from >= |s| then None
    else if s[from] == ',' || s[from] == '}' then Some(from)
    else ValueEnd(s, from + 1)
  }

  /**
   * The anchors the rewrite looks for and the members it writes. The rewrite is
   * stated over any anchors so that its proofs do not depend on their spelling.
   */
  datatype Anchors = Anchors(
    caPosixPath: string,
    cgroupSystemd: string,
    cgroupCgroupfs: string,
    volumeStatsKey: string,
    qosMember: string,
    enforceMember: string)

  const KubeletAnchors: Anchors :=
    Anchors(CaPosixPath, CgroupSystemd, CgroupCgroupfs, VolumeStatsKey, QosMember, EnforceMember)

  /** The four edits with the given anchors; `caPath` replaces the POSIX CA path. */
  function Rewrite(an: Anchors, caPath: string, conf: string): (r: Result<string>)
    ensures !Contains(conf, an.caPosixPath) ==> r == Err(MissingKubeletField("clientCAFile"))
    ensures r.Ok? ==> |r.value| > 0 && r.value[|r.value| - 1] == '}'
  {
    if !Contains(conf, an.caPosixPath) then Err(MissingKubeletField("clientCAFile"))
    else SwitchDriver(an, ReplaceFirst(conf, an.caPosixPath, caPath))
  }

  /** Second edit: the systemd cgroup driver becomes cgroupfs. */
  function SwitchDriver(an: Anchors, s1: string): (r: Result<string>)
    ensures !Contains(s1, an.cgroupSystemd) ==> r == Err(MissingKubeletField("cgroupDriver"))
    ensures r.Ok? ==> |r.value| > 0 && r.value[|r.value| - 1] == '}'
  {
    if !Contains(s1, an.cgroupSystemd) then Err(MissingKubeletField("cgroupDriver"))
    else InsertQos(an, ReplaceFirst(s1, an.cgroupSystemd, an.cgroupCgroupfs))
  }

  /** Third edit: the QoS member goes right after the value of the volumeStatsAggPeriod member. */
  function InsertQos(an: Anchors, s2: string): (r: Result<string>)
    ensures Find(s2, an.volumeStatsKey).None? ==> r == Err(MissingKubeletField("volumeStatsAggPeriod"))
    ensures r.Ok? ==> |r.value| > 0 && r.value[|r.value| - 1] == '}'
  {
    match Find(s2, an.volumeStatsKey)
    case None => Err(MissingKubeletField("volumeStatsAggPeriod"))
    case Some(k) =>
      match ValueEnd(s2, k + |an.volumeStatsKey|)
      case None => Err(MissingKubeletField("volumeStatsAggPeriod"))
      case Some(e) => AppendEnforce(an, s2[..e] + an.qosMember + s2[e..])
  }

  /** Fourth edit: the enforceNodeAllocatable member goes before the closing brace. */
  function AppendEnforce(an: Anchors, s3: string): (r: Result<string>)
    ensures s3 == [] || s3[|s3| - 1] != '}' ==> r == Err(KubeletConfigNotObject)
    ensures r.Ok? ==> s3 != [] && |r.value| > 0 && r.value[|r.value| - 1] == '}'
    ensures r.Ok? ==> r.value[..|r.value| - 1] == s3[..|s3| - 1] + an.enforceMember
  {
    if s3 == [] || s3[|s3| - 1] != '}' then Err(KubeletConfigNotObject)
    else Ok(s3[..|s3| - 1] + an.enforceMember + "}")
  }

  /** The kubelet configuration rewritten for Windows, or the first anchor found missing. */
  function PrepKubeletConfForWindows(installDir: string, conf: string): (r: Result<string>)
    ensures !Contains(conf, CaPosixPath) ==> r == Err(MissingKubeletField("clientCAFile"))
    ensures r.Ok? ==> |r.value| > 0 && r.value[|r.value| - 1] == '}'
  {
    Rewrite(KubeletAnchors, WindowsCaPath(installDir), conf)
  }

  /** Unescaping gives back what was escaped. */
  lemma {:induction false} UnescapeEscape(s: string)
    ensures UnescapeBackslashes(EscapeBackslashes(s)) == s
  {
    if s != [] {
      UnescapeEscape(s[1..]);
      var head := if s[0] == '\\' then "\\\\" else [s[0]];
      var e := head + EscapeBackslashes(s[1..]);
      if s[0] == '\\' {
        assert e[2..] == EscapeBackslashes(s[1..]);
      } else {
        assert e[1..] == EscapeBackslashes(s[1..]);
      }
      assert s == [s[0]] + s[1..];
    }
  }

  /** Escaping keeps every character other than the backslash, and adds none. */
  lemma {:induction false} EscapeKeepsCharacters(s: string, c: char)
    ensures c in EscapeBackslashes(s) <==> c in s
  {
    if s != [] {
      EscapeKeepsCharacters(s[1..], c);
      assert s == [s[0]] + s[1..];
    }
  }

  /** The CA path in JSON form: no quote when the install directory has none, and a backslash. */
  lemma WindowsCaPathShape(installDir: string)
    requires '"' !in installDir
    ensures '"' !in WindowsCaPath(installDir)
    ensures var n := |EscapeBackslashes(installDir)|;
      n < |WindowsCaPath(installDir)| && WindowsCaPath(installDir)[n] == '\\'
  {
    CaFileNameIsPlain();
    EscapedJoinShape(installDir, CaFileName);
  }

  lemma CaFileNameIsPlain()
    ensures '"' !in CaFileName && '\\' !in CaFileName
  {
  }

  lemma EscapedJoinShape(dir: string, name: string)
    requires '"' !in dir && '"' !in name && '\\' !in name
    ensures '"' !in EscapeBackslashes(Paths.Join(dir, name))
    ensures var n := |EscapeBackslashes(dir)|;
      n < |EscapeBackslashes(Paths.Join(dir, name))| && EscapeBackslashes(Paths.Join(dir, name))[n] == '\\'
  {
    EscapeJoin(dir, name);
    EscapeKeepsCharacters(dir, '"');
  }

  /** A JSON reader gets the joined CA path back from its escaped form. */
  lemma WindowsCaPathUnescapes(installDir: string)
    ensures UnescapeBackslashes(WindowsCaPath(installDir)) == Paths.Join(installDir, CaFileName)
  {
    UnescapeEscape(Paths.Join(installDir, CaFileName));
  }

  /** Escaping a joined path escapes its separator. */
  lemma EscapeJoin(dir: string, name: string)
    requires '\\' !in name
    ensures EscapeBackslashes(Paths.Join(dir, name)) == EscapeBackslashes(dir) + "\\\\" + name
  {
    EscapeAppend(dir + [Paths.Sep], name);
    EscapeAppend(dir, [Paths.Sep]);
    EscapeWithoutBackslash(name);
  }

  /** The install directory of the unit test, `C:\k`, gives `C:\\k\\kubelet-ca.crt`. */
  lemma WindowsCaPathExample(installDir: string)
    requires installDir == "C:\\k"
    ensures WindowsCaPath(installDir) == "C:\\\\k\\\\kubelet-ca.crt"
  {
    EscapeJoin(installDir, CaFileName);
    assert Paths.Join("C:", "k") == installDir;
    EscapeJoin("C:", "k");
    EscapeWithoutBackslash("C:");
  }

  lemma {:induction false} EscapeWithoutBackslash(s: string)
    requires '\\' !in s
    ensures EscapeBackslashes(s) == s
  {
    if s != [] {
      EscapeWithoutBackslash(s[1..]);
      assert s == [s[0]] + s[1..];
    }
  }

  lemma {:induction false} EscapeAppend(a: string, b: string)
    ensures EscapeBackslashes(a + b) == EscapeBackslashes(a) + EscapeBackslashes(b)
  {
    if a != [] {
      assert (a + b)[1..] == a[1..] + b;
      EscapeAppend(a[1..], b);
    } else {
      assert a + b == b;
    }
  }

  /** A JSON member name or member text: it starts and ends with a quote and has no backslash. */
  predicate IsQuotedText(p: string)
  {
    |p| >= 2 && p[0] == '"' && p[|p| - 1] == '"' && '\\' !in p
  }

  /**
   * The rewrite on a configuration shaped like the kubelet's own: the CA path,
   * then the `volumeStatsAggPeriod` member whose value `v` is followed by a comma,
   * then the systemd cgroup driver, then the rest up to the closing brace. Each
   * anchor's first occurrence is the one shown. The result differs from the input
   * only in the four edits; every other byte stays in place and in order.
   */
  lemma RewriteShape(an: Anchors, w: string, j: nat, a: string, b: string, v: string, c: string, d: string)
    requires IsQuotedText(an.cgroupSystemd) && IsQuotedText(an.volumeStatsKey)
    requires Lacks(w, '"') && j < |w| && w[j] == '\\'
    requires Lacks(v, ',') && Lacks(v, '}')
    requires Find(a + an.caPosixPath + b + an.volumeStatsKey + v + "," + c + an.cgroupSystemd + d + "}", an.caPosixPath)
             == Some(|a|)
    requires Find(a + an.caPosixPath + b + an.volumeStatsKey + v + "," + c + an.cgroupSystemd + d + "}", an.volumeStatsKey)
             == Some(|a + an.caPosixPath + b|)
    requires Find(a + an.caPosixPath + b + an.volumeStatsKey + v + "," + c + an.cgroupSystemd + d + "}", an.cgroupSystemd)
             == Some(|a + an.caPosixPath + b + an.volumeStatsKey + v + "," + c|)
    ensures Rewrite(an, w, a + an.caPosixPath + b + an.volumeStatsKey + v + "," + c + an.cgroupSystemd + d + "}")
         == Ok(a + w + b + an.volumeStatsKey + v + an.qosMember + "," + c + an.cgroupCgroupfs + d + an.enforceMember + "}")
  {
    FrontEdits(an, w, j, a, b, v, c, d);
    VolumeStatsStep(an, w, j, a, b, v, c, d);
    BackEdits(an, a + w + b + an.volumeStatsKey, v, c, an.cgroupCgroupfs, d);
  }

  /** The first two edits on the kubelet-shaped configuration. */
  lemma FrontEdits(an: Anchors, w: string, j: nat, a: string, b: string, v: string, c: string, d: string)
    requires IsQuotedText(an.cgroupSystemd)
    requires Lacks(w, '"') && j < |w| && w[j] == '\\'
    requires Find(a + an.caPosixPath + b + an.volumeStatsKey + v + "," + c + an.cgroupSystemd + d + "}", an.caPosixPath)
             == Some(|a|)
    requires Find(a + an.caPosixPath + b + an.volumeStatsKey + v + "," + c + an.cgroupSystemd + d + "}", an.cgroupSystemd)
             == Some(|a + an.caPosixPath + b + an.volumeStatsKey + v + "," + c|)
    ensures Rewrite(an, w, a + an.caPosixPath + b + an.volumeStatsKey + v + "," + c + an.cgroupSystemd + d + "}")
         == InsertQos(an, (a + w + b + an.volumeStatsKey) + v + ("," + c + an.cgroupCgroupfs + d + "}"))
  {
    var ca, cs, cf, vol := an.caPosixPath, an.cgroupSystemd, an.cgroupCgroupfs, an.volumeStatsKey;
    var mid := b + vol + v + "," + c;
    var rest := mid + cs + d + "}";
    SplitAtCa(a, ca, b, vol, v, c, cs, d);
    ReplaceCaAt(an, w, a, rest);
    DriverStep(an, w, j, a, b, v, c, d);
    SplitAtDriver(a, w, mid, cs, d);
    SwitchDriverAt(an, a + w + mid, d + "}");
    SplitAtValue(a, w, b, vol, v, c, cf, d);
  }

  /** The last two edits, once the volumeStatsAggPeriod key is found right before the value `v`. */
  lemma BackEdits(an: Anchors, key: string, v: string, c: string, cf: string, d: string)
    requires |key| >= |an.volumeStatsKey|
    requires Find(key + v + ("," + c + cf + d + "}"), an.volumeStatsKey) == Some(|key| - |an.volumeStatsKey|)
    requires Lacks(v, ',') && Lacks(v, '}')
    ensures InsertQos(an, key + v + ("," + c + cf + d + "}"))
         == Ok(key + v + an.qosMember + "," + c + cf + d + an.enforceMember + "}")
  {
    InsertQosAt(an, key, v, "," + c + cf + d + "}");
    SplitAtBrace(key + v, an.qosMember, c, cf, d);
    AppendEnforceAt(an, key + v + an.qosMember + "," + c + cf + d);
  }

  /** The first edit, when the first CA path is the one right after `a`. */
  lemma ReplaceCaAt(an: Anchors, w: string, a: string, rest: string)
    requires Find(a + an.caPosixPath + rest, an.caPosixPath) == Some(|a|)
    ensures Rewrite(an, w, a + an.caPosixPath + rest) == SwitchDriver(an, a + w + rest)
  {
    ReplaceAt(a, an.caPosixPath, rest, w);
  }

  /** The second edit, when the first systemd driver is the one right after `p`. */
  lemma SwitchDriverAt(an: Anchors, p: string, q: string)
    requires Find(p + an.cgroupSystemd + q, an.cgroupSystemd) == Some(|p|)
    ensures SwitchDriver(an, p + an.cgroupSystemd + q) == InsertQos(an, p + an.cgroupCgroupfs + q)
  {
    ReplaceAt(p, an.cgroupSystemd, q, an.cgroupCgroupfs);
  }

  /** The fourth edit on a text that closes with a brace. */
  lemma AppendEnforceAt(an: Anchors, x: string)
    ensures AppendEnforce(an, x + "}") == Ok(x + an.enforceMember + "}")
  {
    assert (x + "}")[..|x|] == x;
  }

  /** The cgroup driver is found after the rewritten CA path. */
  lemma DriverStep(an: Anchors, w: string, j: nat, a: string, b: string, v: string, c: string, d: string)
    requires IsQuotedText(an.cgroupSystemd)
    requires Lacks(w, '"') && j < |w| && w[j] == '\\'
    requires Find(a + an.caPosixPath + b + an.volumeStatsKey + v + "," + c + an.cgroupSystemd + d + "}", an.cgroupSystemd)
             == Some(|a + an.caPosixPath + b + an.volumeStatsKey + v + "," + c|)
    ensures var mid := b + an.volumeStatsKey + v + "," + c;
      Find((a + w + mid) + an.cgroupSystemd + (d + "}"), an.cgroupSystemd) == Some(|a + w + mid|)
  {
    var ca, cs, cf, vol := an.caPosixPath, an.cgroupSystemd, an.cgroupCgroupfs, an.volumeStatsKey;
    var mid := b + vol + v + "," + c;
    var rest := mid + cs + d + "}";
    LacksIsNotIn(cs, '\\');
    SplitAtCa(a, ca, b, vol, v, c, cs, d);
    FindAfterReplacement(a, ca, w, rest, cs, |mid|, j);
    SplitAtDriver(a, w, mid, cs, d);
  }

  /** The volumeStatsAggPeriod key is found after the rewritten CA path and before the rewritten driver. */
  lemma VolumeStatsFound(an: Anchors, w: string, j: nat, a: string, b: string, v: string, c: string, d: string)
    requires IsQuotedText(an.volumeStatsKey)
    requires Lacks(w, '"') && j < |w| && w[j] == '\\'
    requires Find(a + an.caPosixPath + b + an.volumeStatsKey + v + "," + c + an.cgroupSystemd + d + "}", an.volumeStatsKey)
             == Some(|a + an.caPosixPath + b|)
    ensures var mid := b + an.volumeStatsKey + v + "," + c;
      Find((a + w + mid) + an.cgroupCgroupfs + (d + "}"), an.volumeStatsKey) == Some(|a + w + b|)
  {
    var mid := b + an.volumeStatsKey + v + "," + c;
    VolumeStatsAfterCa(an, w, j, a, b, v, c, d);
    SplitAtDriver(a, w, mid, an.cgroupSystemd, d);
    FindBeforeReplacement(a + w + mid, an.cgroupSystemd, an.cgroupCgroupfs, d + "}", an.volumeStatsKey, |a + w + b|);
  }

  /** The volumeStatsAggPeriod key is found after the rewritten CA path. */
  lemma VolumeStatsAfterCa(an: Anchors, w: string, j: nat, a: string, b: string, v: string, c: string, d: string)
    requires IsQuotedText(an.volumeStatsKey)
    requires Lacks(w, '"') && j < |w| && w[j] == '\\'
    requires Find(a + an.caPosixPath + b + an.volumeStatsKey + v + "," + c + an.cgroupSystemd + d + "}", an.volumeStatsKey)
             == Some(|a + an.caPosixPath + b|)
    ensures Find(a + w + (b + an.volumeStatsKey + v + "," + c + an.cgroupSystemd + d + "}"), an.volumeStatsKey)
         == Some(|a| + |w| + |b|)
  {
    var ca, vol := an.caPosixPath, an.volumeStatsKey;
    FindAfterCa(a, ca, b, vol, v, c, an.cgroupSystemd, d);
    QuotedSurvivesPathRewrite(a, ca, w, b + vol + v + "," + c + an.cgroupSystemd + d + "}", vol, |b|, j);
  }

  /** A quoted key after the CA path is found at the same offset from it once the path is rewritten. */
  lemma QuotedSurvivesPathRewrite(x: string, ca: string, w: string, y: string, key: string, k: nat, j: nat)
    requires IsQuotedText(key)
    requires Lacks(w, '"') && j < |w| && w[j] == '\\'
    requires Find(x + ca + y, key) == Some(|x| + |ca| + k)
    ensures Find(x + w + y, key) == Some(|x| + |w| + k)
  {
    LacksIsNotIn(key, '\\');
    FindAfterReplacement(x, ca, w, y, key, k, j);
  }

  /** The same position, in the grouping the third edit works on. */
  lemma VolumeStatsStep(an: Anchors, w: string, j: nat, a: string, b: string, v: string, c: string, d: string)
    requires IsQuotedText(an.volumeStatsKey)
    requires Lacks(w, '"') && j < |w| && w[j] == '\\'
    requires Find(a + an.caPosixPath + b + an.volumeStatsKey + v + "," + c + an.cgroupSystemd + d + "}", an.volumeStatsKey)
             == Some(|a + an.caPosixPath + b|)
    ensures Find((a + w + b + an.volumeStatsKey) + v + ("," + c + an.cgroupCgroupfs + d + "}"), an.volumeStatsKey)
         == Some(|a + w + b + an.volumeStatsKey| - |an.volumeStatsKey|)
  {
    VolumeStatsFound(an, w, j, a, b, v, c, d);
    SplitAtValue(a, w, b, an.volumeStatsKey, v, c, an.cgroupCgroupfs, d);
  }

  /** The QoS member goes after a value `v` that directly follows the first volumeStatsAggPeriod key. */
  lemma InsertQosAt(an: Anchors, key: string, v: string, post: string)
    requires |key| >= |an.volumeStatsKey|
    requires Find(key + v + post, an.volumeStatsKey) == Some(|key| - |an.volumeStatsKey|)
    requires Lacks(v, ',') && Lacks(v, '}') && post != [] && post[0] == ','
    ensures InsertQos(an, key + v + post) == AppendEnforce(an, key + v + an.qosMember + post)
  {
    ValueEndStep(key, v, post, an.qosMember);
  }

  /** The value `v` after the key ends at the comma that follows it; the new member goes there. */
  lemma ValueEndStep(key: string, v: string, post: string, qos: string)
    requires Lacks(v, ',') && Lacks(v, '}')
    requires post != [] && post[0] == ','
    ensures ValueEnd(key + v + post, |key|) == Some(|key + v|)
    ensures (key + v + post)[..|key + v|] + qos + (key + v + post)[|key + v|..] == key + v + qos + post
  {
    LacksIsNotIn(v, ',');
    LacksIsNotIn(v, '}');
    assert (key + v)[|key|..] == v;
    ValueEndAfter(key + v, post, |key|);
    assert (key + v + post)[..|key + v|] == key + v;
    assert (key + v + post)[|key + v|..] == post;
  }

  // Regroupings of the pieces that RewriteShape steps through.

  lemma FindAfterCa(a: string, ca: string, b: string, vol: string, v: string, c: string, cs: string, d: string)
    requires Find(a + ca + b + vol + v + "," + c + cs + d + "}", vol) == Some(|a + ca + b|)
    ensures Find(a + ca + (b + vol + v + "," + c + cs + d + "}"), vol) == Some(|a| + |ca| + |b|)
  {
    SplitAtCa(a, ca, b, vol, v, c, cs, d);
  }

  lemma SplitAtCa(a: string, ca: string, b: string, vol: string, v: string, c: string, cs: string, d: string)
    ensures a + ca + b + vol + v + "," + c + cs + d + "}" == a + ca + (b + vol + v + "," + c + cs + d + "}")
  {
  }

  lemma SplitAtDriver(a: string, w: string, mid: string, cs: string, d: string)
    ensures a + w + (mid + cs + d + "}") == (a + w + mid) + cs + (d + "}")
  {
  }

  lemma SplitAtValue(a: string, w: string, b: string, vol: string, v: string, c: string, cf: string, d: string)
    ensures (a + w + (b + vol + v + "," + c)) + cf + (d + "}") == (a + w + b + vol) + v + ("," + c + cf + d + "}")
  {
  }

  lemma SplitAtBrace(pre: string, qos: string, c: string, cf: string, d: string)
    ensures pre + qos + ("," + c + cf + d + "}") == (pre + qos + "," + c + cf + d) + "}"
    ensures ((pre + qos + "," + c + cf + d) + "}")[..|pre + qos + "," + c + cf + d|] == pre + qos + "," + c + cf + d
  {
  }

  /** The value that starts at `from` in `pre` runs to the end of `pre` when `post` opens with a comma. */
  lemma ValueEndAfter(pre: string, post: string, from: nat)
    requires from <= |pre| && post != [] && post[0] == ','
    requires ',' !in pre[from..] && '}' !in pre[from..]
    ensures ValueEnd(pre + post, from) == Some(|pre|)
    decreases |pre| - from
  {
    if from < |pre| {
      assert pre[from] == pre[from..][0];
      assert pre[from + 1..] == pre[from..][1..];
      ValueEndAfter(pre, post, from + 1);
    }
  }

  /** The Windows rewrite of a kubelet-shaped configuration, as RewriteShape describes it. */
  lemma PrepKubeletConfShape(installDir: string, a: string, b: string, v: string, c: string, d: string)
    requires '"' !in installDir
    requires ',' !in v && '}' !in v
    requires Find(a + CaPosixPath + b + VolumeStatsKey + v + "," + c + CgroupSystemd + d + "}", CaPosixPath)
             == Some(|a|)
    requires Find(a + CaPosixPath + b + VolumeStatsKey + v + "," + c + CgroupSystemd + d + "}", VolumeStatsKey)
             == Some(|a + CaPosixPath + b|)
    requires Find(a + CaPosixPath + b + VolumeStatsKey + v + "," + c + CgroupSystemd + d + "}", CgroupSystemd)
             == Some(|a + CaPosixPath + b + VolumeStatsKey + v + "," + c|)
    ensures PrepKubeletConfForWindows(installDir, a + CaPosixPath + b + VolumeStatsKey + v + "," + c + CgroupSystemd + d + "}")
         == Ok(a + WindowsCaPath(installDir) + b + VolumeStatsKey + v + QosMember + "," + c + CgroupCgroupfs + d + EnforceMember + "}")
  {
    var w := WindowsCaPath(installDir);
    WindowsCaPathShape(installDir);
    LacksIsNotIn(w, '"');
    LacksIsNotIn(v, ',');
    LacksIsNotIn(v, '}');
    AnchorsAreQuoted();
    RewriteShape(KubeletAnchors, w, |EscapeBackslashes(installDir)|, a, b, v, c, d);
  }

  lemma AnchorsAreQuoted()
    ensures IsQuotedText(CgroupSystemd) && IsQuotedText(VolumeStatsKey)
  {
  }
}
