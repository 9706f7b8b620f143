/**
 * The kubelet command line's CNI flags: the command is split at spaces into
 * tokens, every token that sets one of the four CNI flags is dropped, and the
 * canonical settings are appended.
 */
module CniArgs {
  import opened Text

  const ResolvConf: string := "--resolv-conf"
  const NetworkPlugin: string := "--network-plugin"
  const CniBinDir: string := "--cni-bin-dir"
  const CniConfDir: string := "--cni-conf-dir"

  const CniFlags: seq<string> := [ResolvConf, NetworkPlugin, CniBinDir, CniConfDir]

  /**
   * A token that sets `flag`: the bare flag, or the flag, `=` and whatever
   * follows, even another flag glued on without a space.
   */
  predicate IsFlagToken(t: string, flag: string)
  {
    t == flag || flag + "=" <= t
  }

  predicate IsCniToken(t: string)
  {
    IsFlagToken(t, ResolvConf) || IsFlagToken(t, NetworkPlugin) || IsFlagToken(t, CniBinDir) || IsFlagToken(t, CniConfDir)
  }

  /** The settings appended, in order: no resolv.conf, the CNI plugin, and the two install locations. */
  function Canonical(binDir: string, confDir: string): seq<string>
  {
    [ResolvConf + "=\"\"", NetworkPlugin + "=cni", CniBinDir + "=" + binDir, CniConfDir + "=" + confDir]
  }

  /** The tokens that set none of the CNI flags, in their original order. */
  function Kept(ts: seq<string>): (r: seq<string>)
    ensures |r| <= |ts|
    ensures forall t :: t in r <==> t in ts && !IsCniToken(t)
  {
    if ts == [] then []
    else
      assert forall t :: t in ts <==> t == ts[0] || t in ts[1..];
      (if IsCniToken(ts[0]) then [] else [ts[0]]) + Kept(ts[1..])
  }

  /** The command line after the CNI flags have been reset. */
  function UpdatedCommand(cmd: string, binDir: string, confDir: string): string
  {
    Join(Kept(Split(cmd, " ")) + Canonical(binDir, confDir), " ")
  }

  /** How many tokens set `flag`. */
  function CountFlag(ts: seq<string>, flag: string): nat
  {
    if ts == [] then 0 else (if IsFlagToken(ts[0], flag) then 1 else 0) + CountFlag(ts[1..], flag)
  }

  // Which flag a token sets is told by its third and seventh characters.

  lemma FlagTokenHead(t: string, flag: string)
    requires |flag| >= 7 && IsFlagToken(t, flag)
    ensures |t| >= 7 && t[2] == flag[2] && t[6] == flag[6]
  {
    if t != flag {
      assert t[..|flag| + 1] == flag + "=";
      assert t[2] == (flag + "=")[2];
      assert t[6] == (flag + "=")[6];
    }
  }

  lemma CniFlagHeads()
    ensures |ResolvConf| >= 7 && ResolvConf[2] == 'r'
    ensures |NetworkPlugin| >= 7 && NetworkPlugin[2] == 'n'
    ensures |CniBinDir| >= 7 && CniBinDir[2] == 'c' && CniBinDir[6] == 'b'
    ensures |CniConfDir| >= 7 && CniConfDir[2] == 'c' && CniConfDir[6] == 'c'
  {
  }

  lemma SettingIsFlagToken(flag: string, value: string)
    ensures IsFlagToken(flag + "=" + value, flag)
  {
    assert (flag + "=" + value)[..|flag| + 1] == flag + "=";
  }

  /** The canonical settings each set their own flag and no other. */
  lemma CanonicalSetsOwnFlag(binDir: string, confDir: string, i: nat, j: nat)
    requires i < 4 && j < 4
    ensures IsFlagToken(Canonical(binDir, confDir)[i], CniFlags[j]) <==> i == j
  {
    var c := Canonical(binDir, confDir);
    var values := ["\"\"", "cni", binDir, confDir];
    CniFlagHeads();
    assert c[i] == CniFlags[i] + "=" + values[i];
    SettingIsFlagToken(CniFlags[i], values[i]);
    if i != j && IsFlagToken(c[i], CniFlags[j]) {
      FlagTokenHead(c[i], CniFlags[j]);
      FlagTokenHead(c[i], CniFlags[i]);
    }
  }

  lemma KeptAppend(a: seq<string>, b: seq<string>)
    ensures Kept(a + b) == Kept(a) + Kept(b)
  {
    if a != [] {
      assert (a + b)[0] == a[0] && (a + b)[1..] == a[1..] + b;
      KeptAppend(a[1..], b);
      var h := if IsCniToken(a[0]) then [] else [a[0]];
      assert Kept(a + b) == h + (Kept(a[1..]) + Kept(b));
      assert h + (Kept(a[1..]) + Kept(b)) == (h + Kept(a[1..])) + Kept(b);
    } else {
      assert a + b == b;
    }
  }

  /** Nothing the filter keeps is dropped by a second pass. */
  lemma {:induction false} KeptWithoutCniTokens(ts: seq<string>)
    requires forall k :: 0 <= k < |ts| ==> !IsCniToken(ts[k])
    ensures Kept(ts) == ts
  {
    if ts != [] {
      assert !IsCniToken(ts[0]);
      assert forall k :: 0 <= k < |ts[1..]| ==> ts[1..][k] == ts[k + 1];
      KeptWithoutCniTokens(ts[1..]);
      assert ts == [ts[0]] + ts[1..];
    }
  }

  lemma KeptDropsCanonical(binDir: string, confDir: string)
    ensures Kept(Canonical(binDir, confDir)) == []
  {
    var c := Canonical(binDir, confDir);
    forall i | 0 <= i < 4
      ensures IsCniToken(c[i])
    {
      CanonicalSetsOwnFlag(binDir, confDir, i, i);
    }
    KeptOnlyCniTokens(c);
  }

  lemma {:induction false} KeptOnlyCniTokens(ts: seq<string>)
    requires forall k :: 0 <= k < |ts| ==> IsCniToken(ts[k])
    ensures Kept(ts) == []
  {
    if ts != [] {
      assert IsCniToken(ts[0]);
      assert forall k :: 0 <= k < |ts[1..]| ==> ts[1..][k] == ts[k + 1];
      KeptOnlyCniTokens(ts[1..]);
    }
  }

  lemma NoSpaceInPieces(cmd: string)
    ensures forall k :: 0 <= k < |Split(cmd, " ")| ==> ' ' !in Split(cmd, " ")[k]
  {
    forall k | 0 <= k < |Split(cmd, " ")|
      ensures ' ' !in Split(cmd, " ")[k]
    {
      var t := Split(cmd, " ")[k];
      if ' ' in t {
        var i :| 0 <= i < |t| && t[i] == ' ';
        assert t[i..i + 1] == " ";
        assert OccursAt(t, " ", i);
        FindFirst(t, " ");
      }
    }
  }

  /** The tokens of the updated command: the kept ones, then the canonical settings. */
  lemma TokensOfUpdated(cmd: string, binDir: string, confDir: string)
    requires ' ' !in binDir && ' ' !in confDir
    ensures Split(UpdatedCommand(cmd, binDir, confDir), " ") == Kept(Split(cmd, " ")) + Canonical(binDir, confDir)
  {
    var ks := Kept(Split(cmd, " "));
    var c := Canonical(binDir, confDir);
    NoSpaceInPieces(cmd);
    assert ' ' !in c[0] && ' ' !in c[1];
    assert ' ' !in c[2] by { assert c[2] == CniBinDir + "=" + binDir; }
    assert ' ' !in c[3] by { assert c[3] == CniConfDir + "=" + confDir; }
    forall k | 0 <= k < |ks + c|
      ensures " "[0] !in (ks + c)[k]
    {
      if k < |ks| {
        assert ks[k] in ks;
      }
    }
    SplitJoin(ks + c, " ");
  }

  /** Updating twice gives the command updating once gives. */
  lemma UpdateIsIdempotent(cmd: string, binDir: string, confDir: string)
    requires ' ' !in binDir && ' ' !in confDir
    ensures UpdatedCommand(UpdatedCommand(cmd, binDir, confDir), binDir, confDir) == UpdatedCommand(cmd, binDir, confDir)
  {
    var ks := Kept(Split(cmd, " "));
    var c := Canonical(binDir, confDir);
    TokensOfUpdated(cmd, binDir, confDir);
    KeptAppend(ks, c);
    KeptDropsCanonical(binDir, confDir);
    forall k | 0 <= k < |ks|
      ensures !IsCniToken(ks[k])
    {
      assert ks[k] in ks;
    }
    KeptWithoutCniTokens(ks);
    assert ks + [] == ks;
  }

  lemma CountAppend(a: seq<string>, b: seq<string>, flag: string)
    ensures CountFlag(a + b, flag) == CountFlag(a, flag) + CountFlag(b, flag)
  {
    if a != [] {
      assert (a + b)[0] == a[0] && (a + b)[1..] == a[1..] + b;
      CountAppend(a[1..], b, flag);
    } else {
      assert a + b == b;
    }
  }

  lemma {:induction false} CountWithoutCniTokens(ts: seq<string>, flag: string)
    requires flag in CniFlags
    requires forall k :: 0 <= k < |ts| ==> !IsCniToken(ts[k])
    ensures CountFlag(ts, flag) == 0
  {
    if ts != [] {
      assert !IsCniToken(ts[0]);
      assert !IsFlagToken(ts[0], flag);
      assert forall k :: 0 <= k < |ts[1..]| ==> ts[1..][k] == ts[k + 1];
      CountWithoutCniTokens(ts[1..], flag);
    }
  }

  lemma CountInCanonical(binDir: string, confDir: string, i: nat)
    requires i < 4
    ensures CountFlag(Canonical(binDir, confDir), CniFlags[i]) == 1
  {
    var c := Canonical(binDir, confDir);
    CanonicalSetsOwnFlag(binDir, confDir, 0, i);
    CanonicalSetsOwnFlag(binDir, confDir, 1, i);
    CanonicalSetsOwnFlag(binDir, confDir, 2, i);
    CanonicalSetsOwnFlag(binDir, confDir, 3, i);
    var f := CniFlags[i];
    assert CountFlag(c[3..], f) == (if i == 3 then 1 else 0) by {
      assert c[3..][0] == c[3] && c[3..][1..] == [];
    }
    assert CountFlag(c[2..], f) == (if i >= 2 then 1 else 0) by {
      assert c[2..][0] == c[2] && c[2..][1..] == c[3..];
    }
    assert CountFlag(c[1..], f) == (if i >= 1 then 1 else 0) by {
      assert c[1..][0] == c[1] && c[1..][1..] == c[2..];
    }
  }

  /**
   * After the update each CNI flag is set by exactly one token, its canonical
   * setting: earlier values of the flag, glued to a following flag or not, are gone.
   */
  lemma EachCniFlagOnce(cmd: string, binDir: string, confDir: string, i: nat)
    requires ' ' !in binDir && ' ' !in confDir && i < 4
    ensures var ts := Split(UpdatedCommand(cmd, binDir, confDir), " ");
      CountFlag(ts, CniFlags[i]) == 1 &&
      Canonical(binDir, confDir)[i] in ts &&
      forall k :: 0 <= k < |ts| && IsFlagToken(ts[k], CniFlags[i]) ==> ts[k] == Canonical(binDir, confDir)[i]
  {
    var ks := Kept(Split(cmd, " "));
    var c := Canonical(binDir, confDir);
    var ts := ks + c;
    TokensOfUpdated(cmd, binDir, confDir);
    forall k | 0 <= k < |ks|
      ensures !IsCniToken(ks[k])
    {
      assert ks[k] in ks;
    }
    CountAppend(ks, c, CniFlags[i]);
    CountWithoutCniTokens(ks, CniFlags[i]);
    CountInCanonical(binDir, confDir, i);
    assert ts[|ks| + i] == c[i];
    forall k | 0 <= k < |ks|
      ensures !IsFlagToken(ts[k], CniFlags[i])
    {
      assert ts[k] == ks[k];
    }
    forall k | |ks| <= k < |ts| && IsFlagToken(ts[k], CniFlags[i])
      ensures ts[k] == c[i]
    {
      CanonicalSetsOwnFlag(binDir, confDir, k - |ks|, i);
    }
  }

  /** Every canonical setting occurs in the updated command line as text. */
  lemma UpdatedContainsCanonical(cmd: string, binDir: string, confDir: string, i: nat)
    requires i < 4
    ensures Contains(UpdatedCommand(cmd, binDir, confDir), Canonical(binDir, confDir)[i])
  {
    var ks := Kept(Split(cmd, " "));
    JoinContainsPiece(ks + Canonical(binDir, confDir), " ", |ks| + i);
  }

  /** Tokens that set no CNI flag are kept, in order: the update only appends after them. */
  lemma OtherTokensKept(cmd: string, binDir: string, confDir: string)
    requires ' ' !in binDir && ' ' !in confDir
    ensures var ts := Split(UpdatedCommand(cmd, binDir, confDir), " ");
      |ts| >= 4 && ts[..|ts| - 4] == Kept(Split(cmd, " ")) &&
      forall t :: t in Split(cmd, " ") && !IsCniToken(t) ==> t in ts
  {
    TokensOfUpdated(cmd, binDir, confDir);
    var ks := Kept(Split(cmd, " "));
    assert (ks + Canonical(binDir, confDir))[..|ks|] == ks;
  }
}
