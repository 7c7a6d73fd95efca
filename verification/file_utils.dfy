/** utils/file_utils.py: pickle checkpoints. The filesystem is a map from
    absolute path to entry; pickling is lossless, so a file holds the value
    written to it. Paths are POSIX paths, and `os.path.join` and
    `os.path.dirname` follow Python's posixpath. */
module FileUtils {
  import opened Wrappers
  import opened Text

  datatype Entry<V> = Dir | File(value: V)

  /** Absolute path to entry; the root is an entry like any other. */
  type FileSystem<V> = map<string, Entry<V>>

  /** `os.path.exists(p)`; the empty path never exists. */
  predicate Exists<V>(fs: FileSystem<V>, p: string) {
    p != "" && p in fs
  }

  predicate IsDir<V>(fs: FileSystem<V>, p: string) {
    Exists(fs, p) && fs[p].Dir?
  }

  /** `os.path.join(a, b)` for two components. */
  function PathJoin(a: string, b: string): string {
    if StartsWith(b, "/") then b
    else if |a| == 0 || EndsWith(a, "/") then a + b
    else a + "/" + b
  }

  /** The position just after the last `/` of `p`, or 0. */
  function AfterLastSlash(p: string): (i: nat)
    ensures i <= |p|
    ensures i > 0 ==> p[i - 1] == '/'
    ensures forall k :: i <= k < |p| ==> p[k] != '/'
    decreases |p|
  {
    if |p| == 0 then 0
    else if p[|p| - 1] == '/' then |p|
    else AfterLastSlash(p[..|p| - 1])
  }

  predicate AllSlashes(s: string) {
    forall k :: 0 <= k < |s| ==> s[k] == '/'
  }

  /** Drops trailing `/` characters. */
  function RStripSlashes(s: string): (r: string)
    ensures |r| <= |s| && r == s[..|r|]
    ensures |r| > 0 ==> r[|r| - 1] != '/'
    decreases |s|
  {
    if |s| > 0 && s[|s| - 1] == '/' then RStripSlashes(s[..|s| - 1]) else s
  }

  /** `os.path.dirname(p)`: everything before the last `/`, trailing slashes
      dropped unless the head is nothing but slashes. */
  function DirName(p: string): (d: string)
    ensures |d| <= |p| && d == p[..|d|]
  {
    var head := p[..AfterLastSlash(p)];
    if |head| > 0 && !AllSlashes(head) then RStripSlashes(head) else head
  }

  /** A path with no `/` has an empty directory part. */
  lemma DirNameBare(p: string)
    requires forall k :: 0 <= k < |p| ==> p[k] != '/'
    ensures DirName(p) == ""
  {
    AfterLastSlashNone(p);
  }

  lemma {:induction false} AfterLastSlashNone(p: string)
    requires forall k :: 0 <= k < |p| ==> p[k] != '/'
    ensures AfterLastSlash(p) == 0
    decreases |p|
  {
    if |p| > 0 {
      AfterLastSlashNone(p[..|p| - 1]);
    }
  }

  /** The directory part of `dir + "/" + name`, for a name without `/` and
      a directory not ending in `/`, is the directory. */
  lemma DirNameJoin(dir: string, name: string)
    requires |dir| > 0 && dir[|dir| - 1] != '/' && !AllSlashes(dir)
    requires |name| > 0 && forall k :: 0 <= k < |name| ==> name[k] != '/'
    ensures DirName(dir + "/" + name) == dir
  {
    var p := dir + "/" + name;
    AfterLastSlashAt(p, |dir| + 1);
    assert p[..|dir| + 1] == dir + "/";
    assert (dir + "/")[..|dir|] == dir;
    assert !AllSlashes(dir + "/") by {
      var k :| 0 <= k < |dir| && dir[k] != '/';
      assert (dir + "/")[k] == dir[k];
    }
    assert RStripSlashes(dir + "/") == dir;
  }

  lemma {:induction false} AfterLastSlashAt(p: string, i: nat)
    requires 0 < i <= |p| && p[i - 1] == '/'
    requires forall k :: i <= k < |p| ==> p[k] != '/'
    ensures AfterLastSlash(p) == i
    decreases |p|
  {
    if |p| > i {
      AfterLastSlashAt(p[..|p| - 1], i);
    }
  }

  /** `full_path(data_filepath, name_file)` */
  function FullPath(dataFilepath: string, nameFile: string): string {
    PathJoin(dataFilepath, "commits_" + nameFile + ".pkl")
  }

  /** The checkpoint file sits directly in the given directory. */
  lemma FullPathDir(dataFilepath: string, nameFile: string)
    requires |dataFilepath| > 0 && dataFilepath[|dataFilepath| - 1] != '/' && !AllSlashes(dataFilepath)
    requires forall k :: 0 <= k < |nameFile| ==> nameFile[k] != '/'
    ensures FullPath(dataFilepath, nameFile) == dataFilepath + "/commits_" + nameFile + ".pkl"
    ensures DirName(FullPath(dataFilepath, nameFile)) == dataFilepath
  {
    var name := "commits_" + nameFile + ".pkl";
    assert forall k :: 0 <= k < |name| ==> name[k] != '/' by {
      forall k | 0 <= k < |name| ensures name[k] != '/' {
        if 8 <= k < 8 + |nameFile| {
          assert name[k] == nameFile[k - 8];
        }
      }
    }
    assert !StartsWith(name, "/") by {
      assert name[0] == 'c';
    }
    assert dataFilepath + "/" + name == dataFilepath + "/commits_" + nameFile + ".pkl";
    DirNameJoin(dataFilepath, name);
  }

  /** The directories `os.makedirs(d)` must find or create, shortest first:
      each proper prefix of `d` ending just before a `/`, then `d`. The root
      and empty prefixes are skipped. */
  function DirChain(d: string): (r: seq<string>)
    ensures |d| > 0 ==> |r| > 0 && r[|r| - 1] == d
    ensures forall k :: 0 <= k < |r| ==> 0 < |r[k]| <= |d| && r[k] == d[..|r[k]|]
    decreases |d|
  {
    if |d| == 0 then []
    else
      var parent := RStripSlashes(d[..AfterLastSlash(d[..|d| - 1])]);
      assert parent == d[..|parent|];
      assert |parent| < |d|;
      var chain := DirChain(parent);
      assert forall k :: 0 <= k < |chain| ==> chain[k] == d[..|chain[k]|] by {
        forall k | 0 <= k < |chain| ensures chain[k] == d[..|chain[k]|] {
          assert chain[k] == parent[..|chain[k]|];
        }
      }
      chain + [d]
  }

  /** `os.makedirs(d)`: the empty path is an error, a component that is a
      file is an error, and every missing component becomes a directory. */
  function MakeDirs<V>(fs: FileSystem<V>, d: string): (r: Result<FileSystem<V>>)
    ensures r.Ok? ==> IsDir(r.value, d) && forall p :: p in fs ==> p in r.value && r.value[p] == fs[p]
    ensures r.Ok? ==> forall p :: p in r.value && p !in fs ==> |p| <= |d| && p == d[..|p|]
    ensures d == "" ==> r == Err(FileNotFound(""))
  {
    if d == "" then Err(FileNotFound(""))
    else MakeChain(fs, DirChain(d), d)
  }

  function MakeChain<V>(fs: FileSystem<V>, chain: seq<string>, d: string): (r: Result<FileSystem<V>>)
    requires d != "" && forall k :: 0 <= k < |chain| ==> chain[k] != ""
    requires |chain| > 0 ==> chain[|chain| - 1] == d
    requires |chain| == 0 ==> IsDir(fs, d)
    ensures r.Ok? ==> IsDir(r.value, d) && forall p :: p in fs ==> p in r.value && r.value[p] == fs[p]
    ensures r.Ok? ==> forall p :: p in r.value && p !in fs ==> p in chain
    decreases |chain|
  {
    if |chain| == 0 then Ok(fs)
    else
      var p := chain[0];
      if p in fs && fs[p].File? then Err(NotADirectory(p))
      else
        var fs1 := if Exists(fs, p) then fs else fs[p := Dir];
        if |chain| == 1 then Ok(fs1)
        else MakeChain(fs1, chain[1..], d)
  }

  /** `open(path, "wb")` followed by `pickle.dump`: the parent must be a
      directory, and the path must not be one. */
  function WriteFile<V>(fs: FileSystem<V>, path: string, value: V): (r: Result<FileSystem<V>>)
    ensures r.Ok? ==> r.value == fs[path := File(value)]
  {
    var dir := DirName(path);
    if IsDir(fs, path) then Err(IsADirectory(path))
    else if dir != "" && !Exists(fs, dir) then Err(FileNotFound(path))
    else if dir != "" && !IsDir(fs, dir) then Err(NotADirectory(path))
    else Ok(fs[path := File(value)])
  }

  /** `save_commits(commits, file_path)` and `save_variable(variable,
      file_path)`: create the parent directory when it is missing, then
      write the file. */
  function SavePickle<V>(fs: FileSystem<V>, value: V, path: string): (r: Result<FileSystem<V>>)
  {
    var dir := DirName(path);
    var prepared := if !Exists(fs, dir) then MakeDirs(fs, dir) else Ok(fs);
    match prepared
    case Err(e) => Err(e)
    case Ok(fs1) => WriteFile(fs1, path, value)
  }

  function SaveCommits<V>(fs: FileSystem<V>, commits: V, filePath: string): (r: Result<FileSystem<V>>)
    ensures r.Ok? ==> filePath in r.value && r.value[filePath] == File(commits)
    ensures r.Ok? ==> forall p :: p in fs && p != filePath ==> p in r.value && r.value[p] == fs[p]
    ensures r.Ok? ==> forall p :: p in r.value && p !in fs ==> |p| <= |filePath| && p == filePath[..|p|]
    ensures DirName(filePath) == "" ==> r == Err(FileNotFound(""))
  {
    SavePickle(fs, commits, filePath)
  }

  /** `save_variable` does what `save_commits` does, on every input. */
  function SaveVariable<V>(fs: FileSystem<V>, variable: V, filePath: string): (r: Result<FileSystem<V>>)
    ensures r == SaveCommits(fs, variable, filePath)
  {
    SavePickle(fs, variable, filePath)
  }

  /** `load_commits(file_path)`: nothing at the path gives `None`, a file
      gives its value, a directory cannot be opened. */
  function LoadCommits<V>(fs: FileSystem<V>, filePath: string): (r: Result<Option<V>>)
    ensures !Exists(fs, filePath) <==> r == Ok(None)
    ensures Exists(fs, filePath) && fs[filePath].File? ==> r == Ok(Some(fs[filePath].value))
  {
    if !Exists(fs, filePath) then Ok(None)
    else if IsDir(fs, filePath) then Err(IsADirectory(filePath))
    else Ok(Some(fs[filePath].value))
  }

  /** Loading what was just saved gives the saved value back. */
  lemma SaveLoadRoundTrip<V>(fs: FileSystem<V>, value: V, path: string)
    requires SaveCommits(fs, value, path).Ok?
    ensures LoadCommits(SaveCommits(fs, value, path).value, path) == Ok(Some(value))
  {
  }

  /** Saving twice to one path leaves the second value, and loading cannot
      tell the first save happened. */
  lemma LastSaveWins<V>(fs: FileSystem<V>, v1: V, v2: V, path: string)
    requires SaveCommits(fs, v1, path).Ok?
    ensures SaveCommits(SaveCommits(fs, v1, path).value, v2, path).Ok?
    ensures LoadCommits(SaveCommits(SaveCommits(fs, v1, path).value, v2, path).value, path) == Ok(Some(v2))
  {
    var fs1 := SaveCommits(fs, v1, path).value;
    assert Exists(fs1, path) && !IsDir(fs1, path);
    var dir := DirName(path);
    if dir != "" {
      assert IsDir(fs1, dir) by {
        SavedParentIsDir(fs, v1, path);
      }
    }
  }

  /** Whether a save succeeds depends on the filesystem and the path, not
      on the value being saved. */
  lemma SaveOutcomeIgnoresValue<V>(fs: FileSystem<V>, v1: V, v2: V, path: string)
    ensures SaveCommits(fs, v1, path).Ok? <==> SaveCommits(fs, v2, path).Ok?
  {
  }

  /** After a successful save the parent directory exists as a
      directory. */
  lemma SavedParentIsDir<V>(fs: FileSystem<V>, value: V, path: string)
    requires SaveCommits(fs, value, path).Ok? && DirName(path) != ""
    ensures IsDir(SaveCommits(fs, value, path).value, DirName(path))
  {
  }

  /** Saving to a path whose directory part is empty fails: `os.makedirs`
      is called with the empty string. */
  lemma BareFileNameFails<V>(fs: FileSystem<V>, value: V, name: string)
    requires forall k :: 0 <= k < |name| ==> name[k] != '/'
    ensures SaveCommits(fs, value, name).Err?
    ensures SaveVariable(fs, value, name).Err?
  {
    DirNameBare(name);
  }
}
