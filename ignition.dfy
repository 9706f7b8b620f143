/**
 * The ignition walker: the kubelet unit's `--cloud-config=<path>` flag
 * registers the cloud-config translation for the ignition file at <path>,
 * then every ignition file with a translation is decoded, translated and
 * written under the install directory.
 */
module Ignition {
  import opened Errors
  import Text
  import opened Paths
  import opened FileSystem
  import opened Translate
  import CloudConf
  import DataUri

  const KubeletUnit: string := "kubelet.service"
  const CloudConfigFlag: string := "--cloud-config="
  /** The kubelet argument that names the written cloud configuration. */
  const CloudConfigArg: string := "cloud-config"

  /** A file entry of the ignition document's storage section. */
  datatype FileEntry = FileEntry(path: string, source: string)

  /** A systemd unit of the ignition document. */
  datatype UnitEntry = UnitEntry(name: string, contents: string)

  /** The ignition document, already parsed from its JSON text. */
  datatype Document = Document(files: seq<FileEntry>, units: seq<UnitEntry>)

  /** Where a file is written and how its decoded contents are translated. */
  datatype FileTranslation = FileTranslation(dest: string, transform: Transform)

  // --- strings.Fields on unit text ---

  /** The white space strings.Fields splits at (unicode.IsSpace). */
  predicate IsBlank(c: char)
  {
    c == ' ' || ('\t' <= c <= '\r') || c == '\U{85}' || c == '\U{A0}' || c == '\U{1680}' ||
    ('\U{2000}' <= c <= '\U{200A}') || c == '\U{2028}' || c == '\U{2029}' || c == '\U{202F}' ||
    c == '\U{205F}' || c == '\U{3000}'
  }

  predicate NoBlank(w: string)
  {
    forall i :: 0 <= i < |w| ==> !IsBlank(w[i])
  }

  /** The length of the word `s` starts with: up to the first blank. */
  function WordLength(s: string): (n: nat)
    requires s != [] && !IsBlank(s[0])
    ensures 0 < n <= |s| && NoBlank(s[..n]) && (n == |s| || IsBlank(s[n]))
  {
    if |s| == 1 || IsBlank(s[1]) then 1
    else
      var m := WordLength(s[1..]);
      assert s[..m + 1] == [s[0]] + s[1..][..m];
      m + 1
  }

  /** strings.Fields: the maximal runs of non-blank characters, in order. */
  function Fields(s: string): (r: seq<string>)
    ensures forall k :: 0 <= k < |r| ==> r[k] != [] && NoBlank(r[k])
    decreases |s|
  {
    if s == [] then []
    else if IsBlank(s[0]) then Fields(s[1..])
    else
      var n := WordLength(s);
      [s[..n]] + Fields(s[n..])
  }

  lemma {:induction false} WordLengthOf(w: string, rest: string)
    requires w != [] && NoBlank(w) && (rest == [] || IsBlank(rest[0]))
    ensures WordLength(w + rest) == |w|
    decreases |w|
  {
    var s := w + rest;
    if |w| == 1 {
      if |s| > 1 {
        assert s[1] == rest[0];
      }
    } else {
      assert s[1] == w[1];
      assert s[1..] == w[1..] + rest;
      WordLengthOf(w[1..], rest);
    }
  }

  lemma FieldsWord(w: string, rest: string)
    requires w != [] && NoBlank(w) && (rest == [] || IsBlank(rest[0]))
    ensures Fields(w + rest) == [w] + Fields(rest)
  {
    var s := w + rest;
    WordLengthOf(w, rest);
    assert s[..|w|] == w && s[|w|..] == rest;
  }

  /** Fields takes apart words joined by single spaces. */
  lemma {:induction false} FieldsOfWords(ws: seq<string>)
    requires forall k :: 0 <= k < |ws| ==> ws[k] != [] && NoBlank(ws[k])
    ensures Fields(Text.Join(ws, " ")) == ws
  {
    if |ws| == 1 {
      FieldsWord(ws[0], "");
      assert ws[0] + "" == ws[0];
    } else if |ws| > 1 {
      FieldsOfWords(ws[1..]);
      FieldsOfMoreWords(ws);
    }
  }

  /** Fields of two or more joined words: the first word, then the fields of the others. */
  lemma FieldsOfMoreWords(ws: seq<string>)
    requires |ws| > 1 && ws[0] != [] && NoBlank(ws[0])
    requires Fields(Text.Join(ws[1..], " ")) == ws[1..]
    ensures Fields(Text.Join(ws, " ")) == ws
  {
    var j := Text.Join(ws[1..], " ");
    FieldsWord(ws[0], " " + j);
    assert (" " + j)[1..] == j;
    assert ws[0] + " " + j == ws[0] + (" " + j);
    assert ws == [ws[0]] + ws[1..];
  }

  // --- the kubelet unit's --cloud-config flag ---

  /** The flag words of every kubelet unit, unit after unit. */
  function KubeletFields(units: seq<UnitEntry>): seq<string>
  {
    if units == [] then []
    else (if units[0].name == KubeletUnit then Fields(units[0].contents) else []) + KubeletFields(units[1..])
  }

  /** `p` is the value of some `--cloud-config=` word. */
  predicate HasCloudConfig(words: seq<string>, p: string)
  {
    exists k :: 0 <= k < |words| && words[k] == CloudConfigFlag + p
  }

  /** Where the cloud configuration named `p` in the kubelet unit is written. */
  function CloudConfDest(installDir: string, p: string): string
  {
    Join(installDir, Base(p))
  }

  /**
   * Registering the cloud configuration for every `--cloud-config=<p>` word:
   * the result maps each ignition path <p> to its destination; a value whose
   * base name is empty, "." or a separator is an error.
   */
  function RegisterWords(installDir: string, words: seq<string>, cloud: map<string, string>): Result<map<string, string>>
  {
    if words == [] then Ok(cloud)
    else if CloudConfigFlag <= words[0] then
      var p := words[0][|CloudConfigFlag|..];
      if !IsUsableBase(Base(p)) then Err(InvalidCloudConfigArg(p))
      else RegisterWords(installDir, words[1..], cloud[p := CloudConfDest(installDir, p)])
    else RegisterWords(installDir, words[1..], cloud)
  }

  function RegisterUnits(installDir: string, units: seq<UnitEntry>): Result<map<string, string>>
  {
    RegisterWords(installDir, KubeletFields(units), map[])
  }

  /** The `--cloud-config` values among the words of one kubelet unit, registered on top of `cloud`. */
  method CollectUnitCloudConfigs(installDir: string, words: seq<string>, cloud: map<string, string>) returns (r: Result<map<string, string>>)
    ensures r == RegisterWords(installDir, words, cloud)
  {
    var registered := cloud;
    var j := 0;
    while j < |words|
      invariant 0 <= j <= |words|
      invariant RegisterWords(installDir, words[j..], registered) == RegisterWords(installDir, words, cloud)
    {
      assert words[j..][0] == words[j] && words[j..][1..] == words[j + 1..];
      if CloudConfigFlag <= words[j] {
        var p := words[j][|CloudConfigFlag|..];
        if !IsUsableBase(Base(p)) {
          return Err(InvalidCloudConfigArg(p));
        }
        registered := registered[p := CloudConfDest(installDir, p)];
      }
      j := j + 1;
    }
    assert words[j..] == [];
    return Ok(registered);
  }

  /** The registrations one unit contributes on top of `cloud`: those of its words if it is the kubelet unit. */
  function RegisterUnit(installDir: string, u: UnitEntry, cloud: map<string, string>): Result<map<string, string>>
  {
    if u.name == KubeletUnit then RegisterWords(installDir, Fields(u.contents), cloud) else Ok(cloud)
  }

  /** Registration unit by unit, stopping at the first unit that fails. */
  function RegisterUnitsFrom(installDir: string, units: seq<UnitEntry>, cloud: map<string, string>): Result<map<string, string>>
    decreases |units|
  {
    if units == [] then Ok(cloud)
    else
      match RegisterUnit(installDir, units[0], cloud)
      case Err(e) => Err(e)
      case Ok(c) => RegisterUnitsFrom(installDir, units[1..], c)
  }

  /** Unit by unit registration agrees with registering all the kubelet units' words in one pass. */
  lemma {:induction false} RegisterUnitsFromSpec(installDir: string, units: seq<UnitEntry>, cloud: map<string, string>)
    ensures RegisterUnitsFrom(installDir, units, cloud) == RegisterWords(installDir, KubeletFields(units), cloud)
    decreases |units|
  {
    if units != [] {
      RegisterUnitAt(installDir, units, 0, cloud);
      assert units[0..] == units;
      match RegisterUnit(installDir, units[0], cloud)
      case Err(e) =>
      case Ok(c) => RegisterUnitsFromSpec(installDir, units[1..], c);
    }
  }

  /** The `--cloud-config` values of the kubelet units, each registered with its destination under the install directory. */
  method CollectCloudConfigs(installDir: string, units: seq<UnitEntry>) returns (r: Result<map<string, string>>)
    ensures r == RegisterUnits(installDir, units)
  {
    RegisterUnitsFromSpec(installDir, units, map[]);
    var cloud: map<string, string> := map[];
    var i := 0;
    assert units[i..] == units;
    while i < |units|
      invariant 0 <= i <= |units|
      invariant RegisterUnitsFrom(installDir, units[i..], cloud) == RegisterUnits(installDir, units)
    {
      assert units[i..][0] == units[i] && units[i..][1..] == units[i + 1..];
      if units[i].name == KubeletUnit {
        var registered := CollectUnitCloudConfigs(installDir, Fields(units[i].contents), cloud);
        if registered.Err? {
          return registered;
        }
        cloud := registered.value;
      }
      i := i + 1;
    }
    assert units[i..] == [];
    return Ok(cloud);
  }

  /** Registering from unit `i` on: the words of unit `i`, if it is the kubelet unit, then the rest. */
  lemma RegisterUnitAt(installDir: string, units: seq<UnitEntry>, i: nat, cloud: map<string, string>)
    requires i < |units|
    ensures units[i].name != KubeletUnit ==>
              RegisterWords(installDir, KubeletFields(units[i..]), cloud) == RegisterWords(installDir, KubeletFields(units[i + 1..]), cloud)
    ensures units[i].name == KubeletUnit ==>
              var unit := RegisterWords(installDir, Fields(units[i].contents), cloud);
              RegisterWords(installDir, KubeletFields(units[i..]), cloud) ==
                if unit.Err? then unit else RegisterWords(installDir, KubeletFields(units[i + 1..]), unit.value)
  {
    KubeletFieldsAt(units, i);
    RegisterWordsAppend(installDir, Fields(units[i].contents), KubeletFields(units[i + 1..]), cloud);
  }

  /** The words the kubelet units contribute from position `i` on: those of unit `i`, then the rest. */
  lemma KubeletFieldsAt(units: seq<UnitEntry>, i: nat)
    requires i < |units|
    ensures units[i].name == KubeletUnit ==> KubeletFields(units[i..]) == Fields(units[i].contents) + KubeletFields(units[i + 1..])
    ensures units[i].name != KubeletUnit ==> KubeletFields(units[i..]) == KubeletFields(units[i + 1..])
  {
    assert units[i..][0] == units[i] && units[i..][1..] == units[i + 1..];
    assert [] + KubeletFields(units[i + 1..]) == KubeletFields(units[i + 1..]);
  }

  /** Registering two runs of words is registering the first, then the second from where the first left off. */
  lemma {:induction false} RegisterWordsAppend(installDir: string, a: seq<string>, b: seq<string>, cloud: map<string, string>)
    ensures RegisterWords(installDir, a, cloud).Err? ==> RegisterWords(installDir, a + b, cloud) == RegisterWords(installDir, a, cloud)
    ensures RegisterWords(installDir, a, cloud).Ok? ==>
              RegisterWords(installDir, a + b, cloud) == RegisterWords(installDir, b, RegisterWords(installDir, a, cloud).value)
    decreases |a|
  {
    if a == [] {
      assert a + b == b;
    } else {
      assert (a + b)[0] == a[0] && (a + b)[1..] == a[1..] + b;
      if CloudConfigFlag <= a[0] {
        var p := a[0][|CloudConfigFlag|..];
        if IsUsableBase(Base(p)) {
          RegisterWordsAppend(installDir, a[1..], b, cloud[p := CloudConfDest(installDir, p)]);
        }
      } else {
        RegisterWordsAppend(installDir, a[1..], b, cloud);
      }
    }
  }

  lemma HasCloudConfigCons(words: seq<string>, p: string)
    requires words != []
    ensures HasCloudConfig(words, p) <==>
      (CloudConfigFlag <= words[0] && p == words[0][|CloudConfigFlag|..]) || HasCloudConfig(words[1..], p)
  {
    if CloudConfigFlag <= words[0] && p == words[0][|CloudConfigFlag|..] {
      assert words[0] == CloudConfigFlag + p;
    }
    if words[0] == CloudConfigFlag + p {
      assert words[0][..|CloudConfigFlag|] == CloudConfigFlag;
    }
    if HasCloudConfig(words[1..], p) {
      var k :| 0 <= k < |words[1..]| && words[1..][k] == CloudConfigFlag + p;
      assert words[k + 1] == CloudConfigFlag + p;
    }
    if HasCloudConfig(words, p) {
      var k :| 0 <= k < |words| && words[k] == CloudConfigFlag + p;
      if k > 0 {
        assert words[1..][k - 1] == CloudConfigFlag + p;
      }
    }
  }

  /**
   * Registration succeeds exactly when every `--cloud-config` value has a
   * usable base name; it then adds one entry per value, mapping it to the
   * install directory joined with that base name, and keeps the other entries.
   * A failure names a value without a usable base name.
   */
  lemma RegisterWordsSpec(installDir: string, words: seq<string>, cloud: map<string, string>)
    ensures RegisterWords(installDir, words, cloud).Ok? <==>
      forall p :: HasCloudConfig(words, p) ==> IsUsableBase(Base(p))
    ensures RegisterWords(installDir, words, cloud).Ok? ==>
      var r := RegisterWords(installDir, words, cloud).value;
      forall p :: (p in r <==> p in cloud || HasCloudConfig(words, p)) &&
        (HasCloudConfig(words, p) ==> r[p] == CloudConfDest(installDir, p)) &&
        (!HasCloudConfig(words, p) && p in cloud ==> r[p] == cloud[p])
    ensures RegisterWords(installDir, words, cloud).Err? ==>
      exists p :: HasCloudConfig(words, p) && !IsUsableBase(Base(p)) &&
        RegisterWords(installDir, words, cloud).error == InvalidCloudConfigArg(p)
  {
    RegisterWordsOutcome(installDir, words, cloud);
    RegisterWordsValue(installDir, words, cloud);
  }

  /** Whether registration succeeds, and which value a failure names. */
  lemma {:induction false} RegisterWordsOutcome(installDir: string, words: seq<string>, cloud: map<string, string>)
    ensures RegisterWords(installDir, words, cloud).Ok? <==>
      forall p :: HasCloudConfig(words, p) ==> IsUsableBase(Base(p))
    ensures RegisterWords(installDir, words, cloud).Err? ==>
      exists p :: HasCloudConfig(words, p) && !IsUsableBase(Base(p)) &&
        RegisterWords(installDir, words, cloud).error == InvalidCloudConfigArg(p)
    decreases |words|
  {
    if words == [] {
      return;
    }
    forall p
      ensures HasCloudConfig(words, p) <==>
        (CloudConfigFlag <= words[0] && p == words[0][|CloudConfigFlag|..]) || HasCloudConfig(words[1..], p)
    {
      HasCloudConfigCons(words, p);
    }
    if CloudConfigFlag <= words[0] {
      var p0 := words[0][|CloudConfigFlag|..];
      if IsUsableBase(Base(p0)) {
        RegisterWordsOutcome(installDir, words[1..], cloud[p0 := CloudConfDest(installDir, p0)]);
      }
    } else {
      RegisterWordsOutcome(installDir, words[1..], cloud);
    }
  }

  /** What a successful registration holds. */
  lemma {:induction false} RegisterWordsValue(installDir: string, words: seq<string>, cloud: map<string, string>)
    ensures RegisterWords(installDir, words, cloud).Ok? ==>
      var r := RegisterWords(installDir, words, cloud).value;
      forall p :: (p in r <==> p in cloud || HasCloudConfig(words, p)) &&
        (HasCloudConfig(words, p) ==> r[p] == CloudConfDest(installDir, p)) &&
        (!HasCloudConfig(words, p) && p in cloud ==> r[p] == cloud[p])
    decreases |words|
  {
    if words == [] || RegisterWords(installDir, words, cloud).Err? {
      return;
    }
    var c1 := cloud;
    if CloudConfigFlag <= words[0] {
      var p0 := words[0][|CloudConfigFlag|..];
      c1 := cloud[p0 := CloudConfDest(installDir, p0)];
    }
    assert RegisterWords(installDir, words, cloud) == RegisterWords(installDir, words[1..], c1);
    RegisterWordsValue(installDir, words[1..], c1);
    var r := RegisterWords(installDir, words, cloud).value;
    forall p
      ensures (p in r <==> p in cloud || HasCloudConfig(words, p)) &&
        (HasCloudConfig(words, p) ==> r[p] == CloudConfDest(installDir, p)) &&
        (!HasCloudConfig(words, p) && p in cloud ==> r[p] == cloud[p])
    {
      HasCloudConfigCons(words, p);
    }
  }

  // --- translating and writing the files ---

  /** The translation an ignition file gets: a registered cloud configuration overrides the caller's table. */
  function RuleFor(table: map<string, FileTranslation>, cloud: map<string, string>, path: string): Option<FileTranslation>
  {
    if path in cloud then Some(FileTranslation(cloud[path], CloudConfig))
    else if path in table then Some(table[path])
    else None
  }

  /**
   * Every ignition file with a translation is decoded, translated and written
   * to its destination, in document order; writing the cloud configuration
   * also points the kubelet's `cloud-config` argument at it. The first
   * failure ends the walk.
   */
  function ApplyFiles(installDir: string, files: seq<FileEntry>, table: map<string, FileTranslation>,
                      cloud: map<string, string>, fs: FileMap, args: map<string, string>)
    : Result<(FileMap, map<string, string>)>
    decreases |files|
  {
    if files == [] then Ok((fs, args))
    else
      match RuleFor(table, cloud, files[0].path)
      case None => ApplyFiles(installDir, files[1..], table, cloud, fs, args)
      case Some(rule) =>
        match TranslateFile(installDir, files[0].source, rule.transform)
        case Err(e) => Err(e)
        case Ok(out) =>
          if IsDir(fs, rule.dest) then Err(WriteFailed(rule.dest))
          else
            var args' := if rule.transform.CloudConfig? then args[CloudConfigArg := rule.dest] else args;
            ApplyFiles(installDir, files[1..], table, cloud, fs[rule.dest := File(out)], args')
  }

  /** parseIgnitionFileContents on an already parsed document: units first, then files. */
  function Walk(installDir: string, doc: Document, table: map<string, FileTranslation>, fs: FileMap, args: map<string, string>)
    : Result<(FileMap, map<string, string>)>
  {
    match RegisterUnits(installDir, doc.units)
    case Err(e) => Err(e)
    case Ok(cloud) => ApplyFiles(installDir, doc.files, table, cloud, fs, args)
  }

  /** `d` is the destination of a cloud-config translation. */
  predicate IsCloudRule(rule: Option<FileTranslation>, d: string)
  {
    rule.Some? && rule.value.transform.CloudConfig? && rule.value.dest == d
  }

  /** `q` is the destination of some file's translation. */
  predicate IsDestination(installDir: string, files: seq<FileEntry>, table: map<string, FileTranslation>,
                          cloud: map<string, string>, q: string)
  {
    exists k :: 0 <= k < |files| && RuleFor(table, cloud, files[k].path).Some? && RuleFor(table, cloud, files[k].path).value.dest == q
  }

  /** A successful walk over the files writes only the destinations of translated files. */
  lemma {:induction false} ApplyFilesWritesDestinations(installDir: string, files: seq<FileEntry>, table: map<string, FileTranslation>,
                                                         cloud: map<string, string>, fs: FileMap, args: map<string, string>)
    requires ApplyFiles(installDir, files, table, cloud, fs, args).Ok?
    ensures var fs' := ApplyFiles(installDir, files, table, cloud, fs, args).value.0;
      forall q :: !IsDestination(installDir, files, table, cloud, q) ==> (q in fs' <==> q in fs) && (q in fs ==> fs'[q] == fs[q])
    decreases |files|
  {
    if files != [] {
      var rest := files[1..];
      assert forall k :: 0 <= k < |rest| ==> rest[k] == files[k + 1];
      match RuleFor(table, cloud, files[0].path)
      case None =>
        ApplyFilesWritesDestinations(installDir, rest, table, cloud, fs, args);
      case Some(rule) =>
        var out := TranslateFile(installDir, files[0].source, rule.transform).value;
        var args1 := if rule.transform.CloudConfig? then args[CloudConfigArg := rule.dest] else args;
        ApplyFilesWritesDestinations(installDir, rest, table, cloud, fs[rule.dest := File(out)], args1);
        assert IsDestination(installDir, files, table, cloud, rule.dest) by {
          assert RuleFor(table, cloud, files[0].path).value.dest == rule.dest;
        }
    }
  }

  /**
   * A successful walk over the files changes only the `cloud-config`
   * argument, and that one only to the destination of a cloud-config
   * translation.
   */
  lemma {:induction false} ApplyFilesSetsCloudArg(installDir: string, files: seq<FileEntry>, table: map<string, FileTranslation>,
                                                   cloud: map<string, string>, fs: FileMap, args: map<string, string>)
    requires ApplyFiles(installDir, files, table, cloud, fs, args).Ok?
    ensures var args' := ApplyFiles(installDir, files, table, cloud, fs, args).value.1;
      (forall key :: key != CloudConfigArg ==> (key in args' <==> key in args) && (key in args ==> args'[key] == args[key])) &&
      (CloudConfigArg in args' ==>
        (CloudConfigArg in args && args'[CloudConfigArg] == args[CloudConfigArg]) ||
        exists k :: 0 <= k < |files| && IsCloudRule(RuleFor(table, cloud, files[k].path), args'[CloudConfigArg]))
    decreases |files|
  {
    if files != [] {
      var rest := files[1..];
      match RuleFor(table, cloud, files[0].path)
      case None =>
        ApplyFilesSetsCloudArg(installDir, rest, table, cloud, fs, args);
        var args' := ApplyFiles(installDir, files, table, cloud, fs, args).value.1;
        if CloudConfigArg in args' {
          CloudRuleInRest(table, cloud, files, args'[CloudConfigArg]);
        }
      case Some(rule) =>
        var out := TranslateFile(installDir, files[0].source, rule.transform).value;
        var args1 := if rule.transform.CloudConfig? then args[CloudConfigArg := rule.dest] else args;
        ApplyFilesSetsCloudArg(installDir, rest, table, cloud, fs[rule.dest := File(out)], args1);
        var args' := ApplyFiles(installDir, files, table, cloud, fs, args).value.1;
        if CloudConfigArg in args' && !(CloudConfigArg in args && args'[CloudConfigArg] == args[CloudConfigArg]) {
          if CloudConfigArg in args1 && args'[CloudConfigArg] == args1[CloudConfigArg] {
            assert IsCloudRule(RuleFor(table, cloud, files[0].path), args'[CloudConfigArg]);
          } else {
            CloudRuleInRest(table, cloud, files, args'[CloudConfigArg]);
          }
        }
    }
  }

  /** A cloud-config translation among the later files is one among all of them. */
  lemma CloudRuleInRest(table: map<string, FileTranslation>, cloud: map<string, string>, files: seq<FileEntry>, d: string)
    requires files != []
    ensures (exists k :: 0 <= k < |files[1..]| && IsCloudRule(RuleFor(table, cloud, files[1..][k].path), d)) ==>
            exists k :: 0 <= k < |files| && IsCloudRule(RuleFor(table, cloud, files[k].path), d)
  {
    if exists k :: 0 <= k < |files[1..]| && IsCloudRule(RuleFor(table, cloud, files[1..][k].path), d) {
      var k :| 0 <= k < |files[1..]| && IsCloudRule(RuleFor(table, cloud, files[1..][k].path), d);
      assert files[1..][k] == files[k + 1];
    }
  }

  /** Files without a translation are not written: with none, nothing changes. */
  lemma {:induction false} ApplyWithoutRules(installDir: string, files: seq<FileEntry>, table: map<string, FileTranslation>,
                                             cloud: map<string, string>, fs: FileMap, args: map<string, string>)
    requires forall k :: 0 <= k < |files| ==> RuleFor(table, cloud, files[k].path).None?
    ensures ApplyFiles(installDir, files, table, cloud, fs, args) == Ok((fs, args))
    decreases |files|
  {
    if files != [] {
      assert forall k :: 0 <= k < |files[1..]| ==> files[1..][k] == files[k + 1];
      ApplyWithoutRules(installDir, files[1..], table, cloud, fs, args);
    }
  }

  // --- the three cloud-configuration cases ---

  /**
   * A kubelet unit naming the ignition file of an embedded cloud configuration:
   * the configuration is written, rendered as `key: value` items, to the
   * install directory under its base name, and the kubelet's `cloud-config`
   * argument names that file.
   */
  lemma CloudConfExtraction(installDir: string, p: string, es: seq<CloudConf.Entry>, contents: string,
                            table: map<string, FileTranslation>, fs: FileMap, args: map<string, string>)
    requires HasCloudConfig(Fields(contents), p) && IsUsableBase(Base(p))
    requires forall q :: HasCloudConfig(Fields(contents), q) ==> q == p
    requires forall k :: 0 <= k < |es| ==> CloudConf.WellFormed(es[k])
    requires DataUri.IsByteString(CloudConf.Serialize(es))
    requires !IsDir(fs, CloudConfDest(installDir, p))
    ensures var d := CloudConfDest(installDir, p);
      Walk(installDir, Document([FileEntry(p, DataUri.EncodeDataUri(CloudConf.Serialize(es)))], [UnitEntry(KubeletUnit, contents)]), table, fs, args)
        == Ok((fs[d := File(CloudConf.Render(es))], args[CloudConfigArg := d]))
  {
    var d := CloudConfDest(installDir, p);
    KubeletUnitRegisters(installDir, p, contents);
    var cloud := map[p := d];
    assert RuleFor(table, cloud, p) == Some(FileTranslation(d, CloudConfig));
    TranslateCloudConfig(installDir, es);
    var files := [FileEntry(p, DataUri.EncodeDataUri(CloudConf.Serialize(es)))];
    assert ApplyFiles(installDir, files[1..], table, cloud, fs[d := File(CloudConf.Render(es))], args[CloudConfigArg := d])
        == Ok((fs[d := File(CloudConf.Render(es))], args[CloudConfigArg := d]));
  }

  /** Words with a single `--cloud-config` value register that value alone, with its destination. */
  lemma RegisterSingleValue(installDir: string, words: seq<string>, p: string)
    requires HasCloudConfig(words, p) && IsUsableBase(Base(p))
    requires forall q :: HasCloudConfig(words, q) ==> q == p
    ensures RegisterWords(installDir, words, map[]) == Ok(map[p := CloudConfDest(installDir, p)])
  {
    RegisterWordsSpec(installDir, words, map[]);
    assert RegisterWords(installDir, words, map[]).Ok? by {
      forall q | HasCloudConfig(words, q) ensures IsUsableBase(Base(q)) {
        assert q == p;
      }
    }
    var r := RegisterWords(installDir, words, map[]).value;
    var m := map[p := CloudConfDest(installDir, p)];
    assert p in r && r[p] == m[p];
    forall q | q in r ensures q in m && r[q] == m[q] {
      assert HasCloudConfig(words, q);
    }
    assert r == m;
  }

  /** A kubelet unit with a single `--cloud-config` value registers that value alone, with its destination. */
  lemma KubeletUnitRegisters(installDir: string, p: string, contents: string)
    requires HasCloudConfig(Fields(contents), p) && IsUsableBase(Base(p))
    requires forall q :: HasCloudConfig(Fields(contents), q) ==> q == p
    ensures RegisterUnits(installDir, [UnitEntry(KubeletUnit, contents)]) == Ok(map[p := CloudConfDest(installDir, p)])
  {
    var units := [UnitEntry(KubeletUnit, contents)];
    var words := Fields(contents);
    assert KubeletFields(units) == words by {
      assert KubeletFields(units[1..]) == [];
      assert words + [] == words;
    }
    RegisterSingleValue(installDir, words, p);
  }

  /**
   * An ignition document whose files include no registered one: with an
   * empty caller table nothing is written and no `cloud-config` argument is set.
   */
  lemma CloudConfNotPresent(installDir: string, doc: Document, fs: FileMap, args: map<string, string>)
    requires forall p :: HasCloudConfig(KubeletFields(doc.units), p) ==> IsUsableBase(Base(p))
    requires forall k, p :: 0 <= k < |doc.files| && HasCloudConfig(KubeletFields(doc.units), p) ==> doc.files[k].path != p
    ensures Walk(installDir, doc, map[], fs, args) == Ok((fs, args))
  {
    RegisterWordsSpec(installDir, KubeletFields(doc.units), map[]);
    var cloud := RegisterUnits(installDir, doc.units).value;
    ApplyWithoutRules(installDir, doc.files, map[], cloud, fs, args);
  }

  /** A `--cloud-config` value without a usable base name fails the walk, whatever the files. */
  lemma CloudConfInvalidNames(installDir: string, doc: Document, table: map<string, FileTranslation>,
                              fs: FileMap, args: map<string, string>, p: string)
    requires HasCloudConfig(KubeletFields(doc.units), p) && !IsUsableBase(Base(p))
    ensures Walk(installDir, doc, table, fs, args).Err?
    ensures Walk(installDir, doc, table, fs, args).error.InvalidCloudConfigArg?
  {
    RegisterWordsSpec(installDir, KubeletFields(doc.units), map[]);
  }

  lemma HasCloudConfigAppend(a: seq<string>, b: seq<string>, p: string)
    requires HasCloudConfig(a, p)
    ensures HasCloudConfig(a + b, p)
  {
    var k :| 0 <= k < |a| && a[k] == CloudConfigFlag + p;
    assert (a + b)[k] == a[k];
  }

  /** A command line whose words include `--cloud-config=<p>` declares <p>. */
  lemma WordsDeclare(before: seq<string>, p: string, after: seq<string>)
    requires forall k :: 0 <= k < |before| ==> before[k] != [] && NoBlank(before[k])
    requires forall k :: 0 <= k < |after| ==> after[k] != [] && NoBlank(after[k])
    requires NoBlank(p)
    ensures HasCloudConfig(Fields(Text.Join(before + [CloudConfigFlag + p] + after, " ")), p)
  {
    var ws := before + [CloudConfigFlag + p] + after;
    FlagWordIsWord(p);
    WordsOfConcat(before, CloudConfigFlag + p, after);
    FieldsOfWords(ws);
    assert ws[|before|] == CloudConfigFlag + p;
  }

  lemma FlagWordIsWord(p: string)
    requires NoBlank(p)
    ensures NoBlank(CloudConfigFlag + p)
  {
    var f := CloudConfigFlag;
    assert NoBlank(f);
    forall i | 0 <= i < |f + p|
      ensures !IsBlank((f + p)[i])
    {
      if i < |f| {
        assert (f + p)[i] == f[i];
      } else {
        assert (f + p)[i] == p[i - |f|];
      }
    }
  }

  lemma WordsOfConcat(before: seq<string>, w: string, after: seq<string>)
    requires forall k :: 0 <= k < |before| ==> before[k] != [] && NoBlank(before[k])
    requires forall k :: 0 <= k < |after| ==> after[k] != [] && NoBlank(after[k])
    requires w != [] && NoBlank(w)
    ensures var ws := before + [w] + after; forall k :: 0 <= k < |ws| ==> ws[k] != [] && NoBlank(ws[k])
  {
    var ws := before + [w] + after;
    forall k | 0 <= k < |ws|
      ensures ws[k] != [] && NoBlank(ws[k])
    {
      if k < |before| {
        assert ws[k] == before[k];
      } else if k > |before| {
        assert ws[k] == after[k - |before| - 1];
      } else {
        assert ws[k] == w;
      }
    }
  }

  /**
   * `--cloud-config=/` among the kubelet unit's words (WordsDeclare shows
   * how a command line puts it there): the base name of "/" is a
   * separator, so the walk fails.
   */
  lemma CloudConfRootRefused(installDir: string, doc: Document, table: map<string, FileTranslation>,
                             fs: FileMap, args: map<string, string>)
    requires |doc.units| > 0 && doc.units[0].name == KubeletUnit
    requires HasCloudConfig(Fields(doc.units[0].contents), "/")
    ensures Walk(installDir, doc, table, fs, args).Err?
    ensures Walk(installDir, doc, table, fs, args).error.InvalidCloudConfigArg?
  {
    assert KubeletFields(doc.units) == Fields(doc.units[0].contents) + KubeletFields(doc.units[1..]);
    HasCloudConfigAppend(Fields(doc.units[0].contents), KubeletFields(doc.units[1..]), "/");
    RootHasNoUsableBase();
    CloudConfInvalidNames(installDir, doc, table, fs, args, "/");
  }
}
