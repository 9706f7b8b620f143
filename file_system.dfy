/**
 * The part of the Windows file system the bootstrapper touches: a map from
 * full paths to regular files and directories, directory listings,
 * MkdirAll and copying a file into a directory.
 */
module FileSystem {
  import opened Errors
  import opened Paths

  datatype Node = File(data: string) | Dir

  type FileMap = map<string, Node>

  predicate IsDir(fs: FileMap, p: string)
  {
    p in fs && fs[p] == Dir
  }

  predicate IsFile(fs: FileMap, p: string)
  {
    p in fs && fs[p].File?
  }

  /** `p` names an entry directly inside `dir`. */
  predicate IsChildOf(p: string, dir: string)
  {
    |p| > |dir| + 1 && p[..|dir| + 1] == dir + [Sep] && IsEntryName(p[|dir| + 1..])
  }

  /** The name a directory listing reports for a child: its base name. */
  function ChildName(p: string, dir: string): (n: string)
    requires IsChildOf(p, dir)
    ensures IsEntryName(n) && Join(dir, n) == p && Base(p) == n
  {
    var n := p[|dir| + 1..];
    assert Join(dir, n) == p;
    BaseOfJoin(dir, n);
    n
  }

  /** What ReadDir lists for `dir`: every entry directly inside it. */
  function Entries(fs: FileMap, dir: string): set<string>
  {
    set p | p in fs && IsChildOf(p, dir)
  }

  /** The regular files among the entries of `dir`. */
  function FileEntries(fs: FileMap, dir: string): (r: set<string>)
    ensures r <= Entries(fs, dir)
    ensures forall p :: p in r ==> IsChildOf(p, dir) && IsFile(fs, p)
  {
    set p | p in fs && IsChildOf(p, dir) && fs[p].File?
  }

  lemma JoinIsChild(dir: string, name: string)
    requires IsEntryName(name)
    ensures IsChildOf(Join(dir, name), dir) && ChildName(Join(dir, name), dir) == name
  {
    var p := Join(dir, name);
    assert p[..|dir| + 1] == dir + [Sep];
    assert p[|dir| + 1..] == name;
  }

  /**
   * MkdirAll over the directories of a path from the top down: an existing
   * directory is kept, a missing one is created, a regular file in the way fails.
   */
  function MakeDirs(fs: FileMap, dirs: seq<string>): Result<FileMap>
    decreases |dirs|
  {
    if dirs == [] then Ok(fs)
    else if IsFile(fs, dirs[0]) then Err(DirCreationFailed(dirs[0]))
    else MakeDirs(fs[dirs[0] := Dir], dirs[1..])
  }

  /**
   * MakeDirs succeeds exactly when none of the directories is a regular file;
   * then every one of them is a directory and every other path is untouched.
   * A failure names one of the files in the way.
   */
  lemma {:induction false} MakeDirsSpec(fs: FileMap, dirs: seq<string>)
    ensures MakeDirs(fs, dirs).Ok? <==> forall k :: 0 <= k < |dirs| ==> !IsFile(fs, dirs[k])
    ensures MakeDirs(fs, dirs).Ok? ==>
      var r := MakeDirs(fs, dirs).value;
      (forall k :: 0 <= k < |dirs| ==> IsDir(r, dirs[k])) &&
      (forall p :: p !in dirs ==> (p in r <==> p in fs) && (p in fs ==> r[p] == fs[p]))
    ensures MakeDirs(fs, dirs).Err? ==>
      exists k :: 0 <= k < |dirs| && IsFile(fs, dirs[k]) && MakeDirs(fs, dirs).error == DirCreationFailed(dirs[k])
    decreases |dirs|
  {
    if dirs != [] && !IsFile(fs, dirs[0]) {
      var fs1 := fs[dirs[0] := Dir];
      var rest := dirs[1..];
      MakeDirsSpec(fs1, rest);
      assert forall k :: 1 <= k < |dirs| ==> dirs[k] == rest[k - 1];
      assert forall k :: 0 <= k < |rest| ==> (IsFile(fs1, rest[k]) <==> IsFile(fs, rest[k]));
      if MakeDirs(fs, dirs).Ok? {
        var r := MakeDirs(fs, dirs).value;
        assert IsDir(r, dirs[0]) by {
          if dirs[0] in rest {
            var k :| 0 <= k < |rest| && rest[k] == dirs[0];
          }
        }
      } else {
        var k :| 0 <= k < |rest| && IsFile(fs1, rest[k]) && MakeDirs(fs1, rest).error == DirCreationFailed(rest[k]);
        assert dirs[k + 1] == rest[k];
      }
    }
  }

  /** A directory path made twice is made once: MakeDirs is idempotent. */
  lemma MakeDirsIdempotent(fs: FileMap, dirs: seq<string>)
    requires MakeDirs(fs, dirs).Ok?
    ensures MakeDirs(MakeDirs(fs, dirs).value, dirs) == MakeDirs(fs, dirs)
  {
    var r := MakeDirs(fs, dirs).value;
    MakeDirsSpec(fs, dirs);
    MakeDirsSpec(r, dirs);
    var r2 := MakeDirs(r, dirs).value;
    forall p | p in r || p in r2
      ensures p in r && p in r2 && r2[p] == r[p]
    {
      if p in dirs {
        var k :| 0 <= k < |dirs| && dirs[k] == p;
      }
    }
    assert r2 == r;
  }

  /**
   * The file system MakeDirs leaves behind, also when it stops: the directories
   * before the first regular file in the way have been made, nothing after it.
   */
  function MakeDirsPartial(fs: FileMap, dirs: seq<string>): FileMap
    decreases |dirs|
  {
    if dirs == [] || IsFile(fs, dirs[0]) then fs
    else MakeDirsPartial(fs[dirs[0] := Dir], dirs[1..])
  }

  /**
   * On success the partial state is the made state; on failure at `dirs[k]` it is
   * the state that making just the directories before `dirs[k]` gives.
   */
  lemma {:induction false} MakeDirsPartialSpec(fs: FileMap, dirs: seq<string>)
    ensures MakeDirs(fs, dirs).Ok? ==> MakeDirsPartial(fs, dirs) == MakeDirs(fs, dirs).value
    ensures MakeDirs(fs, dirs).Err? ==>
      exists k :: 0 <= k < |dirs| && IsFile(fs, dirs[k]) && MakeDirs(fs, dirs).error == DirCreationFailed(dirs[k]) &&
                  MakeDirs(fs, dirs[..k]) == Ok(MakeDirsPartial(fs, dirs))
    decreases |dirs|
  {
    if dirs == [] {
    } else if IsFile(fs, dirs[0]) {
      assert dirs[..0] == [];
    } else {
      var fs1 := fs[dirs[0] := Dir];
      var rest := dirs[1..];
      MakeDirsPartialSpec(fs1, rest);
      if MakeDirs(fs, dirs).Err? {
        var k :| 0 <= k < |rest| && IsFile(fs1, rest[k]) && MakeDirs(fs1, rest).error == DirCreationFailed(rest[k]) &&
                 MakeDirs(fs1, rest[..k]) == Ok(MakeDirsPartial(fs1, rest));
        assert dirs[k + 1] == rest[k];
        assert dirs[..k + 1][0] == dirs[0] && dirs[..k + 1][1..] == rest[..k];
      }
    }
  }

  /**
   * Copying a regular file into a directory under its own base name; the copy
   * fails when the source is not a regular file, the directory does not exist,
   * or a directory already has the target's name.
   */
  function CopyInto(fs: FileMap, src: string, dir: string): (r: Result<FileMap>)
    ensures r.Ok? <==> IsFile(fs, src) && IsDir(fs, dir) && !IsDir(fs, Join(dir, Base(src)))
    ensures r.Err? ==> r.error.CopyFailed?
    ensures r.Ok? ==> r.value.Keys == fs.Keys + {Join(dir, Base(src))}
  {
    var target := Join(dir, Base(src));
    if !IsFile(fs, src) then Err(CopyFailed(src))
    else if !IsDir(fs, dir) || IsDir(fs, target) then Err(CopyFailed(target))
    else Ok(fs[target := fs[src]])
  }

  /** A successful copy leaves the source's data under the target and changes no other path. */
  lemma CopyIntoSpec(fs: FileMap, src: string, dir: string)
    requires CopyInto(fs, src, dir).Ok?
    ensures var r := CopyInto(fs, src, dir).value;
      IsFile(r, Join(dir, Base(src))) && r[Join(dir, Base(src))] == fs[src] &&
      forall p :: p != Join(dir, Base(src)) ==> (p in r <==> p in fs) && (p in fs ==> r[p] == fs[p])
  {
  }

  /** Every file of `files` can be copied into `dir`: the directory exists and no directory has a target's name. */
  predicate CopyableInto(fs: FileMap, files: set<string>, dir: string)
  {
    forall p :: p in files ==> IsDir(fs, dir) && !IsDir(fs, Join(dir, Base(p)))
  }

  /**
   * `q` is where one of `files`, entries of `src`, lands when copied into
   * `dir`: an entry of `dir` whose namesake in `src` is among `files`.
   */
  predicate IsTargetOf(q: string, files: set<string>, src: string, dir: string)
  {
    IsChildOf(q, dir) && Join(src, Base(q)) in files
  }

  /** An entry of `src` copied into `dir` lands on a target, and on one of `files` exactly when it is one of them. */
  lemma TargetOfCopy(p: string, files: set<string>, src: string, dir: string)
    requires IsChildOf(p, src)
    ensures IsChildOf(Join(dir, Base(p)), dir) && Base(Join(dir, Base(p))) == Base(p)
    ensures IsTargetOf(Join(dir, Base(p)), files, src, dir) <==> p in files
  {
    var n := ChildName(p, src);
    JoinIsChild(dir, n);
    BaseOfJoin(dir, n);
  }

  /** A target is where its source lands. */
  lemma SourceOfTarget(q: string, files: set<string>, src: string, dir: string)
    requires IsTargetOf(q, files, src, dir)
    ensures var p := Join(src, Base(q)); IsChildOf(p, src) && Join(dir, Base(p)) == q
  {
    var n := ChildName(q, dir);
    JoinIsChild(src, n);
    BaseOfJoin(src, n);
  }

  /** Each of `files`, entries of `src`, has its data in `fs1` under its name in `dir`. */
  ghost predicate SourcesCopied(fs0: FileMap, fs1: FileMap, files: set<string>, src: string, dir: string)
  {
    forall p {:trigger p in files} ::
      p in files ==> IsChildOf(p, src) && p in fs0 && Join(dir, Base(p)) in fs1 && fs1[Join(dir, Base(p))] == fs0[p]
  }

  /** Every path that is not a target of `files` is as it was. */
  ghost predicate OthersKept(fs0: FileMap, fs1: FileMap, files: set<string>, src: string, dir: string)
  {
    forall q {:trigger IsTargetOf(q, files, src, dir)} ::
      !IsTargetOf(q, files, src, dir) ==> (q in fs1 <==> q in fs0) && (q in fs1 ==> fs1[q] == fs0[q])
  }

  /** `fs1` is `fs0` with each of `files`, entries of `src`, copied into `dir`, and no other path changed. */
  ghost predicate CopiedTo(fs0: FileMap, fs1: FileMap, files: set<string>, src: string, dir: string)
  {
    SourcesCopied(fs0, fs1, files, src, dir) && OthersKept(fs0, fs1, files, src, dir)
  }

  /** Nothing copied, nothing changed. */
  lemma CopiedToNothing(fs0: FileMap, src: string, dir: string)
    ensures CopiedTo(fs0, fs0, {}, src, dir)
  {
  }

  lemma CopiedToOutside(fs0: FileMap, fs1: FileMap, files: set<string>, src: string, dir: string, q: string)
    requires CopiedTo(fs0, fs1, files, src, dir) && !IsTargetOf(q, files, src, dir)
    ensures (q in fs1 <==> q in fs0) && (q in fs1 ==> fs1[q] == fs0[q])
  {
  }

  /** A copied source and a path that is no target of `files` land apart. */
  lemma TargetsApart(d: string, files: set<string>, src: string, dir: string, t: string)
    requires d in files && IsChildOf(d, src)
    requires !IsTargetOf(t, files, src, dir)
    ensures Join(dir, Base(d)) != t
  {
    TargetOfCopy(d, files, src, dir);
  }

  /** A source copied before keeps its data when `p`, whose target is no earlier target, is copied. */
  lemma SourceCopiedAt(fs0: FileMap, fs1: FileMap, files: set<string>, src: string, dir: string, p: string, d: string)
    requires d in files && IsChildOf(d, src) && d in fs0
    requires !IsTargetOf(Join(dir, Base(p)), files, src, dir)
    requires Join(dir, Base(d)) in fs1 && fs1[Join(dir, Base(d))] == fs0[d]
    requires p in fs1
    ensures var fs2 := fs1[Join(dir, Base(p)) := fs1[p]];
      Join(dir, Base(d)) in fs2 && fs2[Join(dir, Base(d))] == fs0[d]
  {
    TargetsApart(d, files, src, dir, Join(dir, Base(p)));
  }

  /** Copying one more entry extends the copy: the sources copied so far and the new one are in place... */
  lemma SourcesCopiedExtend(fs0: FileMap, fs1: FileMap, files: set<string>, src: string, dir: string, p: string)
    requires IsChildOf(p, src) && p in fs0 && p in fs1 && fs1[p] == fs0[p]
    requires !IsTargetOf(Join(dir, Base(p)), files, src, dir)
    requires SourcesCopied(fs0, fs1, files, src, dir)
    ensures SourcesCopied(fs0, fs1[Join(dir, Base(p)) := fs1[p]], files + {p}, src, dir)
  {
    var fs2 := fs1[Join(dir, Base(p)) := fs1[p]];
    forall d | d in files + {p}
      ensures IsChildOf(d, src) && d in fs0 && Join(dir, Base(d)) in fs2 && fs2[Join(dir, Base(d))] == fs0[d]
    {
      if d != p {
        SourceCopiedAt(fs0, fs1, files, src, dir, p, d);
      }
    }
  }

  /** ...and every other path. */
  lemma OthersKeptExtend(fs0: FileMap, fs1: FileMap, files: set<string>, src: string, dir: string, p: string)
    requires IsChildOf(p, src) && p in fs1
    requires OthersKept(fs0, fs1, files, src, dir)
    ensures OthersKept(fs0, fs1[Join(dir, Base(p)) := fs1[p]], files + {p}, src, dir)
  {
    var t := Join(dir, Base(p));
    var fs2 := fs1[t := fs1[p]];
    var all := files + {p};
    TargetOfCopy(p, all, src, dir);
    forall q | !IsTargetOf(q, all, src, dir)
      ensures (q in fs2 <==> q in fs0) && (q in fs2 ==> fs2[q] == fs0[q])
    {
      assert q != t && !IsTargetOf(q, files, src, dir);
    }
    assert OthersKept(fs0, fs2, all, src, dir);
  }

  /**
   * One more copy of an entry of `src` into `dir` succeeds exactly when the
   * directory exists and no directory has the target's name, as it was
   * before anything was copied.
   */
  lemma CopyCondition(fs0: FileMap, fs1: FileMap, src: string, dir: string, done: set<string>, p: string)
    requires IsChildOf(p, src) && IsFile(fs0, p) && p !in done
    requires CopiedTo(fs0, fs1, done, src, dir)
    ensures CopyInto(fs1, p, dir).Ok? <==> IsDir(fs0, dir) && !IsDir(fs0, Join(dir, Base(p)))
  {
    var n := ChildName(p, src);
    var t := Join(dir, Base(p));
    TargetOfCopy(p, done, src, dir);
    assert !IsTargetOf(p, done, src, dir);
    assert !IsTargetOf(dir, done, src, dir);
    assert !IsTargetOf(t, done, src, dir);
    assert IsFile(fs1, p);
    assert IsDir(fs1, dir) == IsDir(fs0, dir);
    assert IsDir(fs1, t) == IsDir(fs0, t);
  }

  /** A successful copy of one more entry extends the copy. */
  lemma CopyExtends(fs0: FileMap, fs1: FileMap, src: string, dir: string, done: set<string>, p: string)
    requires IsChildOf(p, src) && IsFile(fs0, p) && p !in done
    requires CopiedTo(fs0, fs1, done, src, dir)
    requires CopyInto(fs1, p, dir).Ok?
    ensures CopiedTo(fs0, CopyInto(fs1, p, dir).value, done + {p}, src, dir)
  {
    var n := ChildName(p, src);
    TargetOfCopy(p, done, src, dir);
    assert !IsTargetOf(p, done, src, dir);
    SourcesCopiedExtend(fs0, fs1, done, src, dir, p);
    OthersKeptExtend(fs0, fs1, done, src, dir, p);
  }

  /** A file that can be copied keeps a copyable set copyable. */
  lemma CopyableExtend(fs: FileMap, done: set<string>, dir: string, p: string)
    requires CopyableInto(fs, done, dir)
    requires IsDir(fs, dir) && !IsDir(fs, Join(dir, Base(p)))
    ensures CopyableInto(fs, done + {p}, dir)
  {
    forall q | q in done + {p}
      ensures IsDir(fs, dir) && !IsDir(fs, Join(dir, Base(q)))
    {
      if q != p {
        assert q in done;
      }
    }
  }

  /** Moving `p` from the files left to do to the files done. */
  lemma DoneGrows(files: set<string>, todo: set<string>, p: string)
    requires p in todo && todo <= files
    ensures (files - todo) + {p} == files - (todo - {p})
  {
  }

  /**
   * One turn of the copy loop: with the entries of `files` outside `todo`
   * copied, copying `p` either fails, and then `files` was not copyable, or
   * extends the copy to `p`.
   */
  lemma CopyFilesStep(fs: FileMap, current: FileMap, files: set<string>, src: string, dir: string, todo: set<string>, p: string)
    requires forall q :: q in files ==> IsChildOf(q, src) && IsFile(fs, q)
    requires todo <= files && p in todo
    requires CopyableInto(fs, files - todo, dir) && CopiedTo(fs, current, files - todo, src, dir)
    ensures CopyInto(current, p, dir).Err? ==> !CopyableInto(fs, files, dir) && CopyInto(current, p, dir).error.CopyFailed?
    ensures CopyInto(current, p, dir).Ok? ==>
              CopyableInto(fs, files - (todo - {p}), dir) &&
              CopiedTo(fs, CopyInto(current, p, dir).value, files - (todo - {p}), src, dir)
  {
    DoneGrows(files, todo, p);
    CopyCondition(fs, current, src, dir, files - todo, p);
    if CopyInto(current, p, dir).Ok? {
      CopyableExtend(fs, files - todo, dir, p);
      CopyExtends(fs, current, src, dir, files - todo, p);
    }
  }

  /**
   * Copies each of `files`, regular files directly inside `src`, into `dir`,
   * one at a time in no particular order; the first copy that fails stops it.
   */
  method CopyFiles(fs: FileMap, files: set<string>, src: string, dir: string) returns (r: Result<FileMap>)
    requires forall p :: p in files ==> IsChildOf(p, src) && IsFile(fs, p)
    ensures r.Ok? <==> CopyableInto(fs, files, dir)
    ensures r.Err? ==> r.error.CopyFailed?
    ensures r.Ok? ==> CopiedTo(fs, r.value, files, src, dir)
  {
    var current := fs;
    var todo := files;
    CopiedToNothing(fs, src, dir);
    while todo != {}
      invariant todo <= files
      invariant CopyableInto(fs, files - todo, dir) && CopiedTo(fs, current, files - todo, src, dir)
      decreases |todo|
    {
      var p :| p in todo;
      CopyFilesStep(fs, current, files, src, dir, todo, p);
      var copied := CopyInto(current, p, dir);
      if copied.Err? {
        return copied;
      }
      current := copied.value;
      todo := todo - {p};
    }
    assert files - todo == files;
    return Ok(current);
  }

  /**
   * Copying regular files where no directory stood changes no path's kind
   * except the targets, which become regular files.
   */
  lemma CopyKeepsKinds(fs0: FileMap, fs1: FileMap, files: set<string>, src: string, dir: string, q: string)
    requires forall p :: p in files ==> IsFile(fs0, p)
    requires CopyableInto(fs0, files, dir) && CopiedTo(fs0, fs1, files, src, dir)
    ensures IsDir(fs1, q) <==> IsDir(fs0, q)
    ensures IsFile(fs1, q) <==> IsFile(fs0, q) || IsTargetOf(q, files, src, dir)
  {
    if IsTargetOf(q, files, src, dir) {
      SourceOfTarget(q, files, src, dir);
    } else {
      CopiedToOutside(fs0, fs1, files, src, dir, q);
    }
  }

  /** Nothing inside a subdirectory of `dir` is itself an entry of `dir`. */
  lemma NestedIsNoChild(dir: string, sub: string, b: string)
    requires IsChildOf(sub, dir)
    ensures !IsChildOf(Join(sub, b), dir)
  {
    var c := ChildName(sub, dir);
    var n := |dir| + 1;
    assert Join(sub, b) == Join(dir, c) + [Sep] + b;
    assert Join(sub, b)[n..] == c + [Sep] + b;
    assert (c + [Sep] + b)[|c|] == Sep;
  }
}
