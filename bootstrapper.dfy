/**
 * The Windows node bootstrapper: the install layout, the kubelet arguments it
 * accumulates and the file system it works on, with the steps that parse the
 * ignition document and that install and configure CNI.
 */
module Bootstrapper {
  import opened Errors
  import opened Paths
  import opened FileSystem
  import opened Translate
  import opened Ignition
  import Text
  import CniArgs

  /** Where the CNI binaries go, relative to the install directory. */
  const CniDirName: string := "cni"
  /** Where the CNI configuration goes, relative to the install directory. */
  const CniConfigDirName: string := "cni\\config"

  /** The directories MkdirAll creates for the CNI configuration directory, from the install directory down. */
  function CniDirs(installDir: string): seq<string>
  {
    [installDir, Join(installDir, CniDirName), Join(installDir, CniConfigDirName)]
  }

  /**
   * Creating the CNI directories succeeds unless one of them is a regular
   * file; afterwards `<installDir>\cni` and `<installDir>\cni\config` are directories.
   */
  lemma CniDirsCreated(fs: FileMap, installDir: string)
    requires forall k :: 0 <= k < 3 ==> !IsFile(fs, CniDirs(installDir)[k])
    ensures MakeDirs(fs, CniDirs(installDir)).Ok?
    ensures var r := MakeDirs(fs, CniDirs(installDir)).value;
      IsDir(r, Join(installDir, "cni")) && IsDir(r, Join(Join(installDir, "cni"), "config"))
  {
    MakeDirsSpec(fs, CniDirs(installDir));
    assert Join(Join(installDir, "cni"), "config") == CniDirs(installDir)[2];
  }

  /** The configuration directory is an entry of the CNI binary directory. */
  lemma ConfigDirNested(installDir: string)
    ensures IsChildOf(Join(installDir, CniConfigDirName), Join(installDir, CniDirName))
  {
    var dir := Join(installDir, CniDirName);
    assert Join(installDir, CniConfigDirName) == Join(dir, "config");
    JoinIsChild(dir, "config");
  }

  /** Where the CNI configuration goes in the configuration directory `cfgDir`. */
  function ConfigTarget(cfgDir: string, cniConfig: string): string
  {
    Join(cfgDir, Base(cniConfig))
  }

  /**
   * When copying the CNI files succeeds, in terms of the file system before
   * the copy: the CNI path is a directory with at least one entry, every
   * regular file in it can be copied into the binary directory, and the
   * configuration file can then be copied into the configuration directory.
   */
  predicate CopyPossible(fs0: FileMap, binDir: string, cfgDir: string, cniPath: string, cniConfig: string)
  {
    IsDir(fs0, cniPath) && Entries(fs0, cniPath) != {} &&
    CopyableInto(fs0, FileEntries(fs0, cniPath), binDir) &&
    (IsFile(fs0, cniConfig) || IsTargetOf(cniConfig, FileEntries(fs0, cniPath), cniPath, binDir)) &&
    IsDir(fs0, cfgDir) && !IsDir(fs0, ConfigTarget(cfgDir, cniConfig))
  }

  /**
   * What copying the CNI files leaves behind: every regular file of the CNI
   * path under its binary target, the configuration under its target (with
   * its original data unless a binary was copied over it first), and every
   * other path as it was.
   */
  ghost predicate CniFilesCopied(fs0: FileMap, fs2: FileMap, binDir: string, cfgDir: string, cniPath: string, cniConfig: string)
  {
    var files := FileEntries(fs0, cniPath);
    var cfg := ConfigTarget(cfgDir, cniConfig);
    (forall p :: p in files ==> Join(binDir, Base(p)) in fs2 && fs2[Join(binDir, Base(p))] == fs0[p]) &&
    IsFile(fs2, cfg) &&
    (!IsTargetOf(cniConfig, files, cniPath, binDir) ==> cniConfig in fs0 && fs2[cfg] == fs0[cniConfig]) &&
    (forall q {:trigger IsTargetOf(q, files, cniPath, binDir)} ::
      q != cfg && !IsTargetOf(q, files, cniPath, binDir) ==> (q in fs2 <==> q in fs0) && (q in fs2 ==> fs2[q] == fs0[q]))
  }

  /** The configuration's target is never a binary's target. */
  lemma ConfigTargetIsNotBinary(binDir: string, cfgDir: string, cniPath: string, cniConfig: string, files: set<string>)
    requires IsChildOf(cfgDir, binDir)
    ensures !IsTargetOf(ConfigTarget(cfgDir, cniConfig), files, cniPath, binDir)
  {
    NestedIsNoChild(binDir, cfgDir, Base(cniConfig));
  }

  /** After the binaries are copied, the configuration copy succeeds exactly when the original file system allowed it. */
  lemma ConfigCopyCondition(fs0: FileMap, fs1: FileMap, binDir: string, cfgDir: string, cniPath: string, cniConfig: string)
    requires IsChildOf(cfgDir, binDir)
    requires IsDir(fs0, cniPath) && Entries(fs0, cniPath) != {}
    requires CopyableInto(fs0, FileEntries(fs0, cniPath), binDir)
    requires CopiedTo(fs0, fs1, FileEntries(fs0, cniPath), cniPath, binDir)
    ensures CopyInto(fs1, cniConfig, cfgDir).Ok? <==> CopyPossible(fs0, binDir, cfgDir, cniPath, cniConfig)
  {
    var files := FileEntries(fs0, cniPath);
    var cfg := ConfigTarget(cfgDir, cniConfig);
    CopyKeepsKinds(fs0, fs1, files, cniPath, binDir, cfgDir);
    CopyKeepsKinds(fs0, fs1, files, cniPath, binDir, cfg);
    CopyKeepsKinds(fs0, fs1, files, cniPath, binDir, cniConfig);
    assert CopyPossible(fs0, binDir, cfgDir, cniPath, cniConfig) <==>
           IsDir(fs0, cfgDir) && IsFile(fs1, cniConfig) && !IsDir(fs0, cfg);
  }

  /** Every binary is in place after the configuration copy, which lands elsewhere. */
  lemma BinariesSurviveConfig(fs0: FileMap, fs1: FileMap, fs2: FileMap, binDir: string, cfgDir: string, cniPath: string, cniConfig: string)
    requires IsChildOf(cfgDir, binDir)
    requires SourcesCopied(fs0, fs1, FileEntries(fs0, cniPath), cniPath, binDir)
    requires CopyInto(fs1, cniConfig, cfgDir).Ok? && fs2 == CopyInto(fs1, cniConfig, cfgDir).value
    ensures forall p :: p in FileEntries(fs0, cniPath) ==> Join(binDir, Base(p)) in fs2 && fs2[Join(binDir, Base(p))] == fs0[p]
  {
    var files := FileEntries(fs0, cniPath);
    var cfg := ConfigTarget(cfgDir, cniConfig);
    ConfigTargetIsNotBinary(binDir, cfgDir, cniPath, cniConfig, files);
    CopyIntoSpec(fs1, cniConfig, cfgDir);
    forall p | p in files
      ensures Join(binDir, Base(p)) in fs2 && fs2[Join(binDir, Base(p))] == fs0[p]
    {
      TargetsApart(p, files, cniPath, binDir, cfg);
    }
  }

  /** Every path that is neither a binary's target nor the configuration's is as it was. */
  lemma OthersSurviveConfig(fs0: FileMap, fs1: FileMap, fs2: FileMap, binDir: string, cfgDir: string, cniPath: string, cniConfig: string)
    requires OthersKept(fs0, fs1, FileEntries(fs0, cniPath), cniPath, binDir)
    requires CopyInto(fs1, cniConfig, cfgDir).Ok? && fs2 == CopyInto(fs1, cniConfig, cfgDir).value
    ensures forall q {:trigger IsTargetOf(q, FileEntries(fs0, cniPath), cniPath, binDir)} ::
              q != ConfigTarget(cfgDir, cniConfig) && !IsTargetOf(q, FileEntries(fs0, cniPath), cniPath, binDir) ==>
                          (q in fs2 <==> q in fs0) && (q in fs2 ==> fs2[q] == fs0[q])
  {
    CopyIntoSpec(fs1, cniConfig, cfgDir);
  }

  /** The binaries copied and then the configuration: together they leave what CniFilesCopied describes. */
  lemma ConfigCopied(fs0: FileMap, fs1: FileMap, binDir: string, cfgDir: string, cniPath: string, cniConfig: string)
    requires IsChildOf(cfgDir, binDir)
    requires CopiedTo(fs0, fs1, FileEntries(fs0, cniPath), cniPath, binDir)
    requires CopyInto(fs1, cniConfig, cfgDir).Ok?
    ensures CniFilesCopied(fs0, CopyInto(fs1, cniConfig, cfgDir).value, binDir, cfgDir, cniPath, cniConfig)
  {
    var files := FileEntries(fs0, cniPath);
    var fs2 := CopyInto(fs1, cniConfig, cfgDir).value;
    BinariesSurviveConfig(fs0, fs1, fs2, binDir, cfgDir, cniPath, cniConfig);
    OthersSurviveConfig(fs0, fs1, fs2, binDir, cfgDir, cniPath, cniConfig);
    CopyIntoSpec(fs1, cniConfig, cfgDir);
    if !IsTargetOf(cniConfig, files, cniPath, binDir) {
      CopiedToOutside(fs0, fs1, files, cniPath, binDir, cniConfig);
    }
  }

  /**
   * After the directories are made and the files copied: the binary
   * directory exists, the configuration is in place, and every binary holds
   * the data it had in the CNI path before anything changed.
   */
  lemma CniLayoutInstalled(fs0: FileMap, fs1: FileMap, fs2: FileMap, installDir: string, binDir: string, cfgDir: string,
                           cniPath: string, cniConfig: string)
    requires IsChildOf(cfgDir, binDir)
    requires MakeDirs(fs0, [installDir, binDir, cfgDir]) == Ok(fs1)
    requires CniFilesCopied(fs1, fs2, binDir, cfgDir, cniPath, cniConfig)
    ensures IsDir(fs2, binDir) && IsFile(fs2, ConfigTarget(cfgDir, cniConfig))
    ensures forall p :: p in FileEntries(fs0, cniPath) ==> Join(binDir, Base(p)) in fs2 && fs2[Join(binDir, Base(p))] == fs0[p]
  {
    var dirs := [installDir, binDir, cfgDir];
    MakeDirsSpec(fs0, dirs);
    assert IsDir(fs1, dirs[1]);
    forall p | p in FileEntries(fs0, cniPath)
      ensures p in FileEntries(fs1, cniPath) && fs1[p] == fs0[p]
    {
      assert p !in dirs;
    }
    assert !IsTargetOf(binDir, FileEntries(fs1, cniPath), cniPath, binDir);
    assert |ConfigTarget(cfgDir, cniConfig)| > |binDir|;
  }

  /**
   * The configuration directory made before the copy is still a directory
   * afterwards: no binary lands on it, since the copy refuses a target that is
   * a directory, and the configuration's own target lies below it.
   */
  lemma ConfigDirSurvives(fs1: FileMap, fs2: FileMap, binDir: string, cfgDir: string, cniPath: string, cniConfig: string)
    requires CopyPossible(fs1, binDir, cfgDir, cniPath, cniConfig)
    requires CniFilesCopied(fs1, fs2, binDir, cfgDir, cniPath, cniConfig)
    ensures IsDir(fs2, cfgDir)
  {
    var files := FileEntries(fs1, cniPath);
    assert !IsTargetOf(cfgDir, files, cniPath, binDir) by {
      if IsTargetOf(cfgDir, files, cniPath, binDir) {
        SourceOfTarget(cfgDir, files, cniPath, binDir);
        assert false;
      }
    }
    assert |ConfigTarget(cfgDir, cniConfig)| > |cfgDir|;
  }

  /**
   * The copy of the CNI files on a file system: every regular file directly
   * inside `cniPath` into `binDir`, then `cniConfig` into `cfgDir`.
   */
  method CopyCni(fs: FileMap, binDir: string, cfgDir: string, cniPath: string, cniConfig: string) returns (r: Result<FileMap>)
    requires IsChildOf(cfgDir, binDir)
    ensures !IsDir(fs, cniPath) ==> r == Err(CniPathRead(cniPath))
    ensures IsDir(fs, cniPath) && Entries(fs, cniPath) == {} ==> r == Err(NoFilesPresent(cniPath))
    ensures r.Err? ==> r.error.CniPathRead? || r.error.NoFilesPresent? || r.error.CopyFailed?
    ensures r.Ok? <==> CopyPossible(fs, binDir, cfgDir, cniPath, cniConfig)
    ensures r.Ok? ==> CniFilesCopied(fs, r.value, binDir, cfgDir, cniPath, cniConfig)
  {
    if !IsDir(fs, cniPath) {
      return Err(CniPathRead(cniPath));
    }
    if Entries(fs, cniPath) == {} {
      return Err(NoFilesPresent(cniPath));
    }
    var files := FileEntries(fs, cniPath);
    var binaries := CopyFiles(fs, files, cniPath, binDir);
    if binaries.Err? {
      return Err(binaries.error);
    }
    ConfigCopyCondition(fs, binaries.value, binDir, cfgDir, cniPath, cniConfig);
    var copied := CopyInto(binaries.value, cniConfig, cfgDir);
    if copied.Err? {
      return copied;
    }
    ConfigCopied(fs, binaries.value, binDir, cfgDir, cniPath, cniConfig);
    return copied;
  }

  class WinNodeBootstrapper {
    const installDir: string
    /** The directory holding the CNI binaries to install. */
    const cniPath: string
    /** The CNI configuration file to install. */
    const cniConfig: string
    /** Where the CNI binaries are installed: `<installDir>\cni`. */
    const cniInstallDir: string
    /** Where the CNI configuration is installed: `<installDir>\cni\config`. */
    const cniConfigInstallDir: string
    /** The kubelet arguments gathered while bootstrapping, by name. */
    var kubeletArgs: map<string, string>
    var fs: FileMap

    /** The install layout hangs off the install directory, the configuration directory inside the binary one. */
    predicate Valid()
    {
      cniInstallDir == Join(installDir, CniDirName) && cniConfigInstallDir == Join(installDir, CniConfigDirName) &&
      IsChildOf(cniConfigInstallDir, cniInstallDir)
    }

    constructor(installDir: string, cniPath: string, cniConfig: string, fs: FileMap)
      ensures this.installDir == installDir && this.cniPath == cniPath && this.cniConfig == cniConfig
      ensures Valid() && kubeletArgs == map[] && this.fs == fs
    {
      this.installDir := installDir;
      this.cniPath := cniPath;
      this.cniConfig := cniConfig;
      cniInstallDir := Join(installDir, CniDirName);
      cniConfigInstallDir := Join(installDir, CniConfigDirName);
      kubeletArgs := map[];
      this.fs := fs;
      ConfigDirNested(installDir);
    }

    /**
     * Walks the ignition document: the kubelet unit's `--cloud-config` flags
     * first, then every file with a translation, which is decoded, translated,
     * written and, for the cloud configuration, recorded in the kubelet arguments.
     */
    method ParseIgnitionFileContents(doc: Document, table: map<string, FileTranslation>) returns (r: Outcome)
      modifies this
      ensures Walk(installDir, doc, table, old(fs), old(kubeletArgs)).Ok? ==>
                r == Pass && (fs, kubeletArgs) == Walk(installDir, doc, table, old(fs), old(kubeletArgs)).value
      ensures Walk(installDir, doc, table, old(fs), old(kubeletArgs)).Err? ==>
                r == Fail(Walk(installDir, doc, table, old(fs), old(kubeletArgs)).error)
    {
      var registered := CollectCloudConfigs(installDir, doc.units);
      if registered.Err? {
        return Fail(registered.error);
      }
      var cloud := registered.value;
      var files := doc.files;
      var k := 0;
      while k < |files|
        invariant 0 <= k <= |files|
        invariant ApplyFiles(installDir, files[k..], table, cloud, fs, kubeletArgs) == Walk(installDir, doc, table, old(fs), old(kubeletArgs))
      {
        assert files[k..][0] == files[k] && files[k..][1..] == files[k + 1..];
        ghost var walked := ApplyFiles(installDir, files[k..], table, cloud, fs, kubeletArgs);
        var rule := RuleFor(table, cloud, files[k].path);
        if rule.Some? {
          var out := TranslateFile(installDir, files[k].source, rule.value.transform);
          if out.Err? {
            assert walked == Err(out.error);
            return Fail(out.error);
          }
          if IsDir(fs, rule.value.dest) {
            assert walked == Err(WriteFailed(rule.value.dest));
            return Fail(WriteFailed(rule.value.dest));
          }
          fs := fs[rule.value.dest := File(out.value)];
          if rule.value.transform.CloudConfig? {
            kubeletArgs := kubeletArgs[CloudConfigArg := rule.value.dest];
          }
        }
        assert walked == ApplyFiles(installDir, files[k + 1..], table, cloud, fs, kubeletArgs);
        k := k + 1;
      }
      return Pass;
    }

    /**
     * The CNI inputs, checked in order: the install directory exists, the CNI
     * path exists and is a directory, the CNI configuration exists and is a
     * regular file. The first check that fails names the error.
     */
    function CheckCniInputs(): (r: Outcome)
      reads this
      ensures r == Pass <==> installDir in fs && IsDir(fs, cniPath) && IsFile(fs, cniConfig)
      ensures r == Fail(InstallDirAccess(installDir)) <==> installDir !in fs
      ensures r == Fail(CniPathAccess(cniPath)) <==> installDir in fs && cniPath !in fs
      ensures r == Fail(CniPathIsFile(cniPath)) <==> installDir in fs && IsFile(fs, cniPath)
      ensures r == Fail(CniConfigAccess(cniConfig)) <==> installDir in fs && IsDir(fs, cniPath) && cniConfig !in fs
      ensures r == Fail(CniConfigIsDir(cniConfig)) <==> installDir in fs && IsDir(fs, cniPath) && IsDir(fs, cniConfig)
    {
      if installDir !in fs then Fail(InstallDirAccess(installDir))
      else if cniPath !in fs then Fail(CniPathAccess(cniPath))
      else if fs[cniPath].File? then Fail(CniPathIsFile(cniPath))
      else if cniConfig !in fs then Fail(CniConfigAccess(cniConfig))
      else if fs[cniConfig] == Dir then Fail(CniConfigIsDir(cniConfig))
      else Pass
    }

    /** The directories of the install layout, from the install directory down: CniDirs when Valid. */
    function LayoutDirs(): (r: seq<string>)
      ensures Valid() ==> r == CniDirs(installDir)
    {
      [installDir, cniInstallDir, cniConfigInstallDir]
    }

    /** MkdirAll of the CNI configuration directory, which also creates the CNI binary directory. */
    method EnsureCniDirIsPresent() returns (r: Outcome)
      modifies this
      ensures MakeDirs(old(fs), LayoutDirs()).Ok? ==> r == Pass && fs == MakeDirs(old(fs), LayoutDirs()).value
      ensures MakeDirs(old(fs), LayoutDirs()).Err? ==> r == Fail(MakeDirs(old(fs), LayoutDirs()).error)
      ensures fs == MakeDirsPartial(old(fs), LayoutDirs())
      ensures kubeletArgs == old(kubeletArgs)
    {
      var dirs := LayoutDirs();
      var i := 0;
      while i < |dirs|
        invariant 0 <= i <= |dirs|
        invariant MakeDirs(fs, dirs[i..]) == MakeDirs(old(fs), dirs)
        invariant MakeDirsPartial(fs, dirs[i..]) == MakeDirsPartial(old(fs), dirs)
        invariant kubeletArgs == old(kubeletArgs)
      {
        assert dirs[i..][0] == dirs[i] && dirs[i..][1..] == dirs[i + 1..];
        if IsFile(fs, dirs[i]) {
          return Fail(DirCreationFailed(dirs[i]));
        }
        fs := fs[dirs[i] := Dir];
        i := i + 1;
      }
      return Pass;
    }

    /**
     * Copies every regular file directly inside the CNI path into the CNI
     * install directory, then the CNI configuration into the configuration
     * install directory. An unreadable CNI path and an empty one are errors.
     */
    method CopyCniFiles() returns (r: Outcome)
      requires Valid()
      modifies this
      ensures !IsDir(old(fs), cniPath) ==> r == Fail(CniPathRead(cniPath)) && fs == old(fs)
      ensures IsDir(old(fs), cniPath) && Entries(old(fs), cniPath) == {} ==> r == Fail(NoFilesPresent(cniPath)) && fs == old(fs)
      ensures r.Fail? ==> r.error.CniPathRead? || r.error.NoFilesPresent? || r.error.CopyFailed?
      ensures r.Pass? <==> CopyPossible(old(fs), cniInstallDir, cniConfigInstallDir, cniPath, cniConfig)
      ensures r.Pass? ==> CniFilesCopied(old(fs), fs, cniInstallDir, cniConfigInstallDir, cniPath, cniConfig)
      ensures kubeletArgs == old(kubeletArgs)
    {
      ghost var fs0 := fs;
      var copied := CopyCni(fs, cniInstallDir, cniConfigInstallDir, cniPath, cniConfig);
      if copied.Err? {
        return Fail(copied.error);
      }
      fs := copied.value;
      return Pass;
    }

    /** updateKubeletArgsForCNI: the CNI flags of the kubelet command line, reset to the install layout. */
    method UpdateKubeletArgsForCni(cmd: string) returns (r: string)
      ensures r == CniArgs.UpdatedCommand(cmd, cniInstallDir, cniConfigInstallDir)
    {
      var tokens := Text.Split(cmd, " ");
      var kept: seq<string> := [];
      var i := 0;
      while i < |tokens|
        invariant 0 <= i <= |tokens|
        invariant kept == CniArgs.Kept(tokens[..i])
      {
        CniArgs.KeptAppend(tokens[..i], [tokens[i]]);
        assert tokens[..i + 1] == tokens[..i] + [tokens[i]];
        if !CniArgs.IsCniToken(tokens[i]) {
          kept := kept + [tokens[i]];
        }
        i := i + 1;
      }
      assert tokens[..i] == tokens;
      r := Text.Join(kept + CniArgs.Canonical(cniInstallDir, cniConfigInstallDir), " ");
    }

    /**
     * ConfigureCNI: with the kubelet service's start command (absent when the
     * service is not installed), check the inputs, create the directories,
     * copy the files, and return the start command to write back.
     */
    method ConfigureCni(service: Option<string>) returns (r: Result<string>)
      requires Valid()
      modifies this
      ensures service.None? ==> r == Err(KubeletServiceMissing) && fs == old(fs)
      ensures service.Some? && old(CheckCniInputs()).Fail? ==> r == Err(old(CheckCniInputs()).error) && fs == old(fs)
      ensures service.Some? && old(CheckCniInputs()) == Pass && MakeDirs(old(fs), LayoutDirs()).Err? ==>
                r == Err(MakeDirs(old(fs), LayoutDirs()).error) && fs == MakeDirsPartial(old(fs), LayoutDirs())
      ensures r.Ok? <==> service.Some? && old(CheckCniInputs()) == Pass && MakeDirs(old(fs), LayoutDirs()).Ok? &&
                         CopyPossible(MakeDirs(old(fs), LayoutDirs()).value, cniInstallDir, cniConfigInstallDir, cniPath, cniConfig)
      ensures r.Ok? ==> r.value == CniArgs.UpdatedCommand(service.value, cniInstallDir, cniConfigInstallDir)
      ensures r.Ok? ==> CniFilesCopied(MakeDirs(old(fs), LayoutDirs()).value, fs, cniInstallDir, cniConfigInstallDir, cniPath, cniConfig)
      ensures r.Ok? ==> IsDir(fs, cniInstallDir) && IsDir(fs, cniConfigInstallDir) &&
                        IsFile(fs, ConfigTarget(cniConfigInstallDir, cniConfig))
      ensures r.Ok? ==> forall p :: p in FileEntries(old(fs), cniPath) ==>
                          Join(cniInstallDir, Base(p)) in fs && fs[Join(cniInstallDir, Base(p))] == old(fs)[p]
      ensures kubeletArgs == old(kubeletArgs)
    {
      if service.None? {
        return Err(KubeletServiceMissing);
      }
      var checked := CheckCniInputs();
      if checked.Fail? {
        return Err(checked.error);
      }
      ghost var fs0 := fs;
      var made := EnsureCniDirIsPresent();
      if made.Fail? {
        return Err(made.error);
      }
      ghost var fs1 := fs;
      var copied := CopyCniFiles();
      if copied.Fail? {
        return Err(copied.error);
      }
      CniLayoutInstalled(fs0, fs1, fs, installDir, cniInstallDir, cniConfigInstallDir, cniPath, cniConfig);
      ConfigDirSurvives(fs1, fs, cniInstallDir, cniConfigInstallDir, cniPath, cniConfig);
      var cmd := UpdateKubeletArgsForCni(service.value);
      return Ok(cmd);
    }
  }
}
