/**
 * The disk as the sorter sees it: file contents by full path and the set of directories.
 * `shutil.move`, `os.makedirs`, `os.rmdir`, `send2trash` and plain writes become updates of
 * these two fields; whether an operation is refused (a locked file, a permission problem) is
 * decided by the callers' outcome parameters.
 */
module FileSystems {
  import opened Paths

  type Files = map<Path, string>

  /** The files after moving `src` to `dst`: the contents travel, `src` is gone, `dst` is overwritten. */
  function Moved(files: Files, src: Path, dst: Path): (r: Files)
    requires src in files
    ensures dst in r && r[dst] == files[src]
    ensures src != dst ==> src !in r
    ensures forall p :: p != src && p != dst ==> (p in r <==> p in files) && (p in files ==> r[p] == files[p])
  {
    (files - {src})[dst := files[src]]
  }

  /** `p` and every ancestor of it that has at least one component: what `os.makedirs(p)` ensures exist. */
  function Ancestry(p: Path): (r: set<Path>)
    ensures forall q :: q in r <==> 0 < |q| <= |p| && p[..|q|] == q
    decreases |p|
  {
    if |p| == 0 then {}
    else
      var up := Ancestry(p[..|p| - 1]);
      assert p[..|p|] == p;
      forall q: Path | 0 < |q| <= |p| - 1
        ensures p[..|p| - 1][..|q|] == p[..|q|]
      {
      }
      up + {p}
  }

  class FileSystem {
    var files: Files
    var dirs: set<Path>

    constructor(files: Files, dirs: set<Path>)
      ensures this.files == files && this.dirs == dirs
    {
      this.files := files;
      this.dirs := dirs;
    }

    /** `os.path.exists(p)`. */
    predicate Exists(p: Path)
      reads this
    {
      p in files || p in dirs
    }

    /** `shutil.move(src, dst)` of a file onto a file path. */
    method Move(src: Path, dst: Path)
      requires src in files
      modifies this
      ensures files == Moved(old(files), src, dst) && dirs == old(dirs)
    {
      files := (files - {src})[dst := files[src]];
    }

    /** `os.makedirs(p, exist_ok=True)`. */
    method MakeDirs(p: Path)
      modifies this
      ensures dirs == old(dirs) + Ancestry(p) && files == old(files)
    {
      dirs := dirs + Ancestry(p);
    }

    /** `open(p, "w").write(content)`. */
    method WriteFile(p: Path, content: string)
      modifies this
      ensures files == old(files)[p := content] && dirs == old(dirs)
    {
      files := files[p := content];
    }

    /** `os.rmdir(d)`. */
    method RemoveDir(d: Path)
      modifies this
      ensures dirs == old(dirs) - {d} && files == old(files)
    {
      dirs := dirs - {d};
    }

    /** `send2trash(p)` of a file. */
    method Trash(p: Path)
      modifies this
      ensures files == old(files) - {p} && dirs == old(dirs)
    {
      files := files - {p};
    }
  }
}
