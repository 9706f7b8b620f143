# Windows node bootstrapper, modelled in Dafny

This project models the core of the Windows Machine Config Bootstrapper
(`pkg/bootstrapper`). The bootstrapper turns a Linux worker's ignition
document into a Windows kubelet installation. It then installs and configures
CNI on the node. The behaviour modelled is the one fixed by the package's
unit tests in `pkg/bootstrapper/bootstrapper_test.go`. The production file
`pkg/bootstrapper/bootstrapper.go` is not part of this model, so every
operation below is reconstructed from what those tests demand.

The modules follow the pieces of the bootstrapper:

- `Errors` holds the error kinds and their fixed messages, plus `Result`, `Outcome` and `Option`.
- `Text` covers searching, first-occurrence replacement, `Split` and `Join` on strings.
- `Paths` has the Windows `Join` and Go's `filepath.Base`.
- `DataUri` covers `data:,` URIs (RFC 2397) and percent-decoding (section 2.1 of RFC 3986).
- `KubeletConf` is `prepKubeletConfForWindows`, a byte-exact textual rewrite of the kubelet JSON configuration:
  - the CA path is rebased under the install directory;
  - `cgroupDriver` becomes `cgroupfs`;
  - `"cgroupsPerQOS":false` is inserted after `volumeStatsAggPeriod`;
  - `"enforceNodeAllocatable":[]` is appended as the last member.
- `CloudConf` is the cloud-configuration extractor. It parses a flat JSON object and renders it as `{\n\t` + `key: value` items joined by `,\n\t` + `\n}`.
- `Translate` is `translateFile`: decode the data URI, then apply the file's translation function.
- `Ignition` is the ignition walker. The `--cloud-config=<p>` words of the kubelet unit's text register `<p>` for translation into `<installDir>\<base of p>`. Every file with a translation is then decoded, translated and written. The cloud configuration's destination is recorded as the kubelet argument `cloud-config`.
- `FileSystem` is the abstract file system (path ↦ `File(data)` | `Dir`), with `MkdirAll` and file copy.
- `CniArgs` is the kubelet command line's CNI flags. The command is split at spaces. Every token setting `--resolv-conf`, `--network-plugin`, `--cni-bin-dir` or `--cni-conf-dir` is dropped, and the canonical settings are appended.
- `Bootstrapper` holds the install layout and the class `WinNodeBootstrapper`. Its fields are the kubelet argument map and the file system. Its methods walk the ignition document, check the CNI inputs, create the CNI directories, copy the CNI files, rewrite the CNI flags and orchestrate `ConfigureCNI`.

The walker could work in either of two orders: walk the files first and match each one only against the caller's translation table, or gather the kubelet unit's `--cloud-config` values first. The tests decide for the second, and the model follows them:

- The walker registers the kubelet unit's `--cloud-config` values before it walks the files.
- The cloud configuration is written even when the caller's translation table is empty (`bootstrapper_test.go:172-174`). So its translation rule comes from the kubelet unit, not from the caller's table.

## Model

| member | source | states |
|---|---|---|
| DataUri.DataUriRoundTrip | pkg/bootstrapper/bootstrapper_test.go:29-50 | decoding the `data:,` URI of any byte string gives that byte string back |
| DataUri.DecodeEncode | pkg/bootstrapper/bootstrapper_test.go:29 | percent-decoding undoes percent-encoding for every byte string |
| DataUri.DecodePlain | pkg/bootstrapper/bootstrapper_test.go:29 | text without `%` decodes to itself |
| DataUri.DecodeAppend | pkg/bootstrapper/bootstrapper_test.go:29 | decoding distributes over concatenation, and an undecodable tail makes the whole undecodable |
| DataUri.CertificateEscapesDecode | pkg/bootstrapper/bootstrapper_test.go:29-50 | a `data:,` URI made of any sequence of plain runs without `%` and upper-case escapes of bytes (as the test certificate is, with its `%20`, `%0A`, `%2B`, `%2F` and `%3D`) decodes to the runs with every escape replaced by its byte |
| DataUri.PiecesDecode | pkg/bootstrapper/bootstrapper_test.go:29 | percent-decoding such a sequence of runs and escapes yields the runs with every escape replaced by its byte |
| DataUri.PieceDecodes | pkg/bootstrapper/bootstrapper_test.go:29 | a single plain run decodes to itself and a single escape `%XY` decodes to the byte `0xXY` |
| DataUri.DecodeDataUri | pkg/bootstrapper/bootstrapper_test.go:29 | a source without the `data:,` prefix is refused, and a decoded payload is never longer than the encoded one |
| Translate.TranslateFile | pkg/bootstrapper/bootstrapper_test.go:26-88 | a decoding failure is returned as it is, a failing translation function is reported as a translation failure, and with no translation function the result is exactly the decoded payload |
| Translate.TranslateVerbatim | pkg/bootstrapper/bootstrapper_test.go:26-51 | with no translation function the file is exactly the decoded payload |
| Translate.TranslateCustom | pkg/bootstrapper/bootstrapper_test.go:52-79 | with a translation function the file is that function applied to the decoded payload |
| Translate.IdentityIsVerbatim | pkg/bootstrapper/bootstrapper_test.go:26-79 | the identity function translates every source exactly as no function does |
| Translate.TranslateCertificate | pkg/bootstrapper/bootstrapper_test.go:26-79 | any source made of plain runs and byte escapes, as both certificates are, translates with no function to the runs with every escape resolved, and with the "suffix" function of the second case to that text followed by `suffix` |
| Translate.TranslateRefusesOtherSchemes | pkg/bootstrapper/bootstrapper_test.go:84-85 | a source that is not a `data:,` URI is an error whatever the translation |
| Translate.TranslateCloudConfig | pkg/bootstrapper/bootstrapper_test.go:172-189 | the data URI of a serialized flat cloud configuration translates to its `key: value` rendering |
| KubeletConf.PrepKubeletConfShape | pkg/bootstrapper/bootstrapper_test.go:101-112 | for a configuration with the Linux CA path, then `volumeStatsAggPeriod`, then the systemd cgroup driver, the output is exact: CA path replaced, `cgroupsPerQOS` inserted after the period value, driver switched, `enforceNodeAllocatable` appended last, every other byte unchanged |
| KubeletConf.PrepKubeletConfForWindows | pkg/bootstrapper/bootstrapper_test.go:109-112 | a configuration without the Linux CA path is an error, and a rewritten one still ends with `}` |
| KubeletConf.SwitchDriver | pkg/bootstrapper/bootstrapper_test.go:103-104 | a configuration without the systemd cgroup driver is an error |
| KubeletConf.InsertQos | pkg/bootstrapper/bootstrapper_test.go:103-104 | a configuration without `volumeStatsAggPeriod` is an error |
| KubeletConf.AppendEnforce | pkg/bootstrapper/bootstrapper_test.go:104 | `enforceNodeAllocatable` becomes the last member, everything before the closing brace is unchanged, and a text not ending in `}` is an error |
| KubeletConf.ValueEnd | pkg/bootstrapper/bootstrapper_test.go:104 | the end of a member's value is the first `,` or `}` after it |
| KubeletConf.WindowsCaPathExample | pkg/bootstrapper/bootstrapper_test.go:103-104 | with install directory `C:\k` the CA path written is `C:\\k\\kubelet-ca.crt` |
| KubeletConf.WindowsCaPathUnescapes | pkg/bootstrapper/bootstrapper_test.go:103-104 | the CA path written is the JSON escape of the install directory joined with `kubelet-ca.crt` |
| KubeletConf.UnescapeEscape | pkg/bootstrapper/bootstrapper_test.go:104 | JSON-unescaping backslashes undoes escaping them |
| KubeletConf.EscapeAppend | pkg/bootstrapper/bootstrapper_test.go:104 | escaping backslashes distributes over concatenation |
| CloudConf.ParseSerialize | pkg/bootstrapper/bootstrapper_test.go:159 | parsing a serialized flat object gives back its members in order |
| CloudConf.ParseMembersOf | pkg/bootstrapper/bootstrapper_test.go:159 | parsing a serialized, non-empty member list gives back the members |
| CloudConf.ExtractSerialized | pkg/bootstrapper/bootstrapper_test.go:172-189 | extracting a serialized flat object gives its rendering |
| CloudConf.ExtractRefusesNonObject | pkg/bootstrapper/bootstrapper_test.go:172-173 | input that does not start with `{` is a syntax error |
| CloudConf.RenderSplitsIntoItems | pkg/bootstrapper/bootstrapper_test.go:180-189 | the rendering starts with `{` and ends with `}`, and without its `{\n\t` and `\n}` it splits at `,\n\t` into exactly one `key: value` item per member |
| CloudConf.ItemSplitsAtColon | pkg/bootstrapper/bootstrapper_test.go:205-208 | an item splits at `:` into exactly two parts, the key and the value |
| Paths.Base | pkg/bootstrapper/bootstrapper_test.go:420-421 | a base name is never empty. It is ".", a lone separator, or a separator-free name no longer than the path |
| Paths.BaseIsLastElement | pkg/bootstrapper/bootstrapper_test.go:420-421 | when the path is not all separators, its base name is its last element: a non-empty, separator-free tail of the path without its trailing separators, starting right after a separator or at the start |
| Paths.BaseWithoutElement | pkg/bootstrapper/bootstrapper_test.go:258-261 | the base name of the empty path is ".", and that of a path of separators only is a lone separator |
| Paths.BaseOfJoin | pkg/bootstrapper/bootstrapper_test.go:420-421 | the base name of `dir\name` is `name` |
| Paths.RootHasNoUsableBase | pkg/bootstrapper/bootstrapper_test.go:258-261 | the base name of `/` is not usable as a file name |
| Ignition.Fields | pkg/bootstrapper/bootstrapper_test.go:159 | the words of a unit's text are non-empty and blank-free |
| Ignition.FieldsOfWords | pkg/bootstrapper/bootstrapper_test.go:159 | splitting blank-free words joined by spaces gives the words back |
| Ignition.WordsDeclare | pkg/bootstrapper/bootstrapper_test.go:159 | a unit text with the word `--cloud-config=<p>` declares `p` |
| Ignition.CollectUnitCloudConfigs | pkg/bootstrapper/bootstrapper_test.go:220-224 | the loop over a unit's words registers exactly what RegisterWords specifies |
| Ignition.CollectCloudConfigs | pkg/bootstrapper/bootstrapper_test.go:220-224 | the loop over the units registers the kubelet unit's `--cloud-config` values as RegisterUnits specifies |
| Ignition.RegisterUnitsFromSpec | pkg/bootstrapper/bootstrapper_test.go:220-224 | registering unit by unit, stopping at the first failing unit, gives the same outcome as registering all the kubelet units' words in one pass |
| Ignition.RegisterWordsSpec | pkg/bootstrapper/bootstrapper_test.go:256-268 | registration succeeds iff every `--cloud-config` value has a usable base name. On success each value maps to `<installDir>\<base>` and nothing else is added. On failure the error names an offending value |
| Ignition.RegisterWordsAppend | pkg/bootstrapper/bootstrapper_test.go:159 | registering two word lists in a row is registering their concatenation |
| Ignition.RegisterSingleValue | pkg/bootstrapper/bootstrapper_test.go:220-224 | words whose only `--cloud-config` value is `p`, with a usable base name, register exactly `p ↦ <installDir>\<base of p>` |
| Ignition.KubeletUnitRegisters | pkg/bootstrapper/bootstrapper_test.go:220-224 | a kubelet unit whose only `--cloud-config` value is `p` registers exactly `p ↦ <installDir>\<base of p>` |
| Ignition.ApplyFilesWritesDestinations | pkg/bootstrapper/bootstrapper_test.go:245-249 | walking the files changes no path other than the destinations of translated files |
| Ignition.ApplyFilesSetsCloudArg | pkg/bootstrapper/bootstrapper_test.go:251-253 | walking the files changes no kubelet argument but `cloud-config`, which ends up unchanged or set to the destination of a cloud-configuration rule |
| Ignition.ApplyWithoutRules | pkg/bootstrapper/bootstrapper_test.go:245-253 | files with no translation change neither the file system nor the kubelet arguments |
| Ignition.CloudConfExtraction | pkg/bootstrapper/bootstrapper_test.go:167-224 | with an empty caller table, a kubelet unit declaring `--cloud-config=p` and a file at `p` holding a flat cloud configuration make the walk write its rendering to `<installDir>\<base of p>` and set `cloud-config` to that path, with nothing else changed |
| Ignition.CloudConfNotPresent | pkg/bootstrapper/bootstrapper_test.go:229-253 | when no file is at a declared cloud-configuration path and the caller table is empty, the walk succeeds and changes neither the file system nor the kubelet arguments |
| Ignition.CloudConfInvalidNames | pkg/bootstrapper/bootstrapper_test.go:258-268 | a kubelet unit declaring a `--cloud-config` value without a usable base name makes the walk fail with an invalid-argument error |
| Ignition.CloudConfRootRefused | pkg/bootstrapper/bootstrapper_test.go:258-268 | in particular `--cloud-config=/` fails the walk with an invalid-argument error, whatever the files and the table |
| FileSystem.FileEntries | pkg/bootstrapper/bootstrapper_test.go:394-400 | the files copied from a directory are its direct entries that are regular files, not its subdirectories |
| FileSystem.ChildName | pkg/bootstrapper/bootstrapper_test.go:420 | a direct entry is its directory joined with its base name |
| FileSystem.MakeDirsSpec | pkg/bootstrapper/bootstrapper_test.go:273-287 | creating directories succeeds iff none of them is a regular file. Afterwards all of them are directories and nothing else changed. On failure the error names a regular file in the way |
| FileSystem.MakeDirsIdempotent | pkg/bootstrapper/bootstrapper_test.go:414-416 | creating the same directories again changes nothing |
| FileSystem.MakeDirsPartialSpec | pkg/bootstrapper/bootstrapper_test.go:273-287 | the state left behind by directory creation is the created state on success. When it stops at a regular file `dirs[k]`, it is the state that creating just the directories before `dirs[k]` gives |
| FileSystem.CopyInto | pkg/bootstrapper/bootstrapper_test.go:418-422 | a copy succeeds iff the source is a regular file, the target directory exists and the target is not a directory. It adds exactly the target path, and its error is a copy error |
| FileSystem.CopyIntoSpec | pkg/bootstrapper/bootstrapper_test.go:418-422 | after a copy the target holds the source's data and every other path is as it was |
| FileSystem.CopyFiles | pkg/bootstrapper/bootstrapper_test.go:418-420 | copying a set of files succeeds iff every one of them can be copied. Afterwards each source's data is at `<dir>\<base>` and every path that is no target is as it was |
| FileSystem.CopyKeepsKinds | pkg/bootstrapper/bootstrapper_test.go:418-422 | copying makes no directory and removes none, and the regular files afterwards are the earlier ones plus the targets |
| FileSystem.NestedIsNoChild | pkg/bootstrapper/bootstrapper_test.go:410-411 | an entry of a subdirectory is never a direct entry of the parent |
| Bootstrapper.CniDirsCreated | pkg/bootstrapper/bootstrapper_test.go:284-286 | unless one of them is a regular file, creating the layout's directories succeeds, and `<installDir>\cni` and `<installDir>\cni\config` are then directories |
| Bootstrapper.ConfigDirNested | pkg/bootstrapper/bootstrapper_test.go:410-411 | the configuration install directory is a direct entry of the CNI install directory |
| Bootstrapper.ConfigTargetIsNotBinary | pkg/bootstrapper/bootstrapper_test.go:418-422 | the configuration's target is never a binary's target |
| Bootstrapper.ConfigCopyCondition | pkg/bootstrapper/bootstrapper_test.go:418-422 | after the binaries are copied, the configuration copy succeeds iff the original file system allowed it |
| Bootstrapper.ConfigCopied | pkg/bootstrapper/bootstrapper_test.go:418-422 | copying the binaries and then the configuration leaves every binary and the configuration at their targets, and every other path as it was |
| Bootstrapper.CniLayoutInstalled | pkg/bootstrapper/bootstrapper_test.go:414-422 | after the directories are created and the files copied, the binary directory exists, the configuration is in place, and every binary holds its original data |
| Bootstrapper.ConfigDirSurvives | pkg/bootstrapper/bootstrapper_test.go:414-422 | a configuration directory that existed before a successful copy is still a directory after it |
| Bootstrapper.CopyCni | pkg/bootstrapper/bootstrapper_test.go:352-423 | the whole CNI copy on a file system. It fails with "error reading CNI path" or "no files present" in those cases. It succeeds iff CopyPossible holds, and then leaves what CniFilesCopied describes |
| Bootstrapper.WinNodeBootstrapper.constructor | pkg/bootstrapper/bootstrapper_test.go:406-412 | the install layout is `<installDir>\cni` and `<installDir>\cni\config`, and the kubelet arguments start empty |
| Bootstrapper.WinNodeBootstrapper.ParseIgnitionFileContents | pkg/bootstrapper/bootstrapper_test.go:167-173 | the method's new file system and kubelet arguments, or its error, are exactly those of the walk specification Walk |
| Bootstrapper.WinNodeBootstrapper.CheckCniInputs | pkg/bootstrapper/bootstrapper_test.go:290-348 | the checks run in a fixed order: install directory present, CNI path present, CNI path not a file, configuration present, configuration not a directory. Each error holds exactly when the earlier checks pass and its own fails, and success holds iff all pass |
| Bootstrapper.WinNodeBootstrapper.LayoutDirs | pkg/bootstrapper/bootstrapper_test.go:284-286 | the directories MkdirAll creates are the install directory, the CNI directory and its configuration directory |
| Bootstrapper.WinNodeBootstrapper.EnsureCniDirIsPresent | pkg/bootstrapper/bootstrapper_test.go:273-287 | the loop creates the layout's directories exactly as MakeDirs specifies: the same outcome, and the same new file system on success. On failure the file system is MakeDirsPartial's, with the directories before the regular file in the way created. The kubelet arguments are unchanged |
| Bootstrapper.WinNodeBootstrapper.CopyCniFiles | pkg/bootstrapper/bootstrapper_test.go:352-423 | an unreadable CNI path fails with "error reading CNI path" and an empty one with "no files present", both without changes. Success holds iff CopyPossible, and then every binary and the configuration are copied into the layout, everything else unchanged |
| Bootstrapper.WinNodeBootstrapper.UpdateKubeletArgsForCni | pkg/bootstrapper/bootstrapper_test.go:426-465 | the loop produces exactly the command CniArgs.UpdatedCommand specifies |
| Bootstrapper.WinNodeBootstrapper.ConfigureCni | test/e2e/configure_cni_test.go:27-37 | a missing kubelet service fails with "kubelet service is not present", and a failing input check returns its error, both without changes. A failing directory creation returns its error and leaves the directories before the file in the way. Success holds iff the service is present, the checks pass, the directories can be created and the copy is possible in the resulting file system. Then both CNI directories are directories, every binary and the configuration are copied as CniFilesCopied describes with everything else unchanged, and the result is the updated start command |
| CniArgs.Kept | pkg/bootstrapper/bootstrapper_test.go:451-458 | the tokens kept are exactly those that set no CNI flag |
| CniArgs.TokensOfUpdated | pkg/bootstrapper/bootstrapper_test.go:442-448 | for install locations without spaces, the updated command's tokens are the kept tokens followed by the four canonical settings |
| CniArgs.EachCniFlagOnce | pkg/bootstrapper/bootstrapper_test.go:458-465 | for install locations without spaces, after the update each CNI flag is set by exactly one token, its canonical setting. So an old `--cni-conf-dir=...cni.conf` value, or an old value glued to the next flag, is gone |
| CniArgs.UpdatedContainsCanonical | pkg/bootstrapper/bootstrapper_test.go:444-448 | the updated command contains `--resolv-conf=""`, `--network-plugin=cni`, `--cni-bin-dir=<bin>` and `--cni-conf-dir=<conf>` as text |
| CniArgs.OtherTokensKept | pkg/bootstrapper/bootstrapper_test.go:428-431 | for install locations without spaces, every token setting no CNI flag is kept in order ahead of the four appended settings |
| CniArgs.UpdateIsIdempotent | pkg/bootstrapper/bootstrapper_test.go:458 | for install locations without spaces, updating an updated command changes nothing |
| CniArgs.CanonicalSetsOwnFlag | pkg/bootstrapper/bootstrapper_test.go:445-448 | each canonical setting sets its own flag and no other |
| Text.SplitJoin | pkg/bootstrapper/bootstrapper_test.go:189 | splitting pieces joined by a separator that none of them contains gives the pieces back |
| Text.JoinSplit | pkg/bootstrapper/bootstrapper_test.go:189 | joining the pieces of a split gives the text back |
| Text.FindFirst | pkg/bootstrapper/bootstrapper_test.go:103-104 | a found position is the first occurrence, and a failed search means there is none |
| Text.ReplaceFirstParts | pkg/bootstrapper/bootstrapper_test.go:103-104 | replacing the first occurrence keeps the text before and after it |

## Left out

- The ignition JSON document is not parsed. The walker takes it already split into file entries (path, data URI source) and units (name, text). Other ignition fields are not modelled.
- The kubelet unit's other `ExecStart` flags are not gathered into the kubelet arguments. Only `--cloud-config=` words of the unit's text are read.
- Paths are joined with the Windows separator `\`. The test at `bootstrapper_test.go:174` uses Go's `path.Join`, which joins with `/`. The model does not distinguish the two spellings of a path.
- The cloud-configuration extractor handles flat objects of string values without escapes and of any bare token (a run of characters up to the next delimiter), whatever its text. Nested objects, arrays, string escapes and duplicate keys are not modelled.
- File permissions, ownership, temporary directories and the volume part of Windows paths are not modelled. The ancestors of the install directory are not tracked.
- The Windows service manager is not modelled. The kubelet service is an `Option` of its start command, and writing the command back to the service is left to the caller.
- Bootstrapper.WinNodeBootstrapper.ParseIgnitionFileContents: when the walk fails, its contract leaves the file system and kubelet arguments unspecified. The files written before the failure stay on disk.
- Bootstrapper.WinNodeBootstrapper.ConfigureCni: when the copy fails after some binaries are copied, its contract leaves the partial file system unspecified.
- Bootstrapper.WinNodeBootstrapper.CopyCniFiles: when a copy fails after some binaries are copied, its contract leaves the partial file system unspecified. The earlier failures (`CniPathRead`, `NoFilesPresent`) leave it unchanged.
- Ignition.ApplyFiles: a write fails only when a directory sits at the destination. It succeeds even when the destination's directory is absent, where Go's file write fails with "no such file or directory"; the model neither creates that directory nor reports its absence. FileSystem.CopyInto, by contrast, requires its target directory to exist.
- CloudConf.Render: keys and values are rendered without their JSON quotes, as the extractor's `key: value` rendering prescribes. The test's example configuration keeps the quotes, and none of the test's assertions tells the two forms apart.
- CniArgs.EachCniFlagOnce: the test's `NotContains` is textual. The model proves token-level absence, plus textual presence of the canonical settings in UpdatedContainsCanonical.
- FileSystem.CopyFiles: the CNI path is read as a set of entries, so the model does not fix the order of the copies.
- Bootstrapper.CopyCni: the configuration file can itself be overwritten by a binary copy (it sits in the CNI install directory under a binary's base name). In that case the model says only that the configuration's copy is a regular file, not whose data it holds.
- CniArgs.TokensOfUpdated: proved only when the CNI binary and configuration directories contain no space. The install directory comes from the `--install-dir` flag and may hold one. Then a canonical setting splits into two tokens at the space.
- CniArgs.UpdateIsIdempotent: proved only for directories without spaces. With a space, the fragment after it sets no CNI flag, so a second update keeps it and appends the settings again; the update is then not idempotent.
- CniArgs.EachCniFlagOnce: proved only for directories without spaces, for the same reason.
- CniArgs.OtherTokensKept: proved only for directories without spaces, for the same reason.
- Paths.Join: it appends one `\` and the name and does no cleaning, unlike `filepath.Join`. Trailing separators, `.`, `..` and doubled separators are kept, so `C:\k\` joined with `cni` gives `C:\k\\cni`.
- Ignition.KubeletFields: it reads every word of the kubelet unit's text, not only the `ExecStart` command line. A `--cloud-config=` word on another line of the unit also registers a translation.
- Bootstrapper.WinNodeBootstrapper.UpdateKubeletArgsForCni: the command is split at single spaces. A tab or a newline is part of a token, and two spaces in a row make an empty token.
