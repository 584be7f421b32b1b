/**
 * `PostProcessingManager` of `scripts/post_processing_manager.py` over the abstract disk:
 * collecting the files below a folder, selecting input files whose base name also occurs in
 * the output tree, trashing them with a bounded retry loop, and pruning empty directories
 * below each input folder from the deepest up.
 */
module PostProcessing {
  import opened Paths
  import opened FileSystems

  /** `b` lies somewhere inside the directory `a`. */
  predicate StrictlyBelow(a: Path, b: Path) {
    |a| < |b| && b[..|a|] == a
  }

  /** `p` is a direct entry of the directory `d`. */
  predicate ChildOf(p: Path, d: Path) {
    |p| == |d| + 1 && p[..|d|] == d
  }

  /** `os.listdir(d)` is empty: no file and no directory directly inside `d`. */
  predicate IsEmptyDir(files: Files, dirs: set<Path>, d: Path) {
    (forall p :: p in files ==> !ChildOf(p, d)) && (forall e :: e in dirs ==> !ChildOf(e, d))
  }

  /** Every file below `folder`: what the `os.walk` in `_get_all_files` joins up. */
  function FilesUnder(files: Files, folder: Path): (r: set<Path>)
    ensures forall p :: p in r <==> p in files && StrictlyBelow(folder, p)
  {
    set p | p in files && StrictlyBelow(folder, p)
  }

  /** `_get_all_files`: the full path of every file below `folder`. */
  method GetAllFiles(fs: FileSystem, folder: Path) returns (fileSet: set<Path>)
    ensures fileSet == FilesUnder(fs.files, folder)
  {
    fileSet := {};
    var rest := fs.files.Keys;
    while rest != {}
      invariant rest <= fs.files.Keys
      invariant forall p :: p in fileSet <==> p in fs.files && p !in rest && StrictlyBelow(folder, p)
      decreases |rest|
    {
      var p :| p in rest;
      if StrictlyBelow(folder, p) {
        fileSet := fileSet + {p};
      }
      rest := rest - {p};
    }
  }

  /** The base names occurring among a set of files. */
  function Basenames(files: set<Path>): (r: set<string>)
    ensures forall f :: f in files ==> Basename(f) in r
  {
    set f | f in files :: Basename(f)
  }

  /** The input files `compare_and_clean` deletes: their base name is also the base name of an output file. */
  function Duplicates(inputFiles: set<Path>, outputFiles: set<Path>): (r: set<Path>)
    ensures forall f :: f in r <==> f in inputFiles && Basename(f) in Basenames(outputFiles)
  {
    set f | f in inputFiles && Basename(f) in Basenames(outputFiles)
  }

  /** A selected input file shares its base name with some output file, and every such file is selected. */
  lemma DuplicatesShareNames(inputFiles: set<Path>, outputFiles: set<Path>, f: Path)
    requires f in inputFiles
    ensures f in Duplicates(inputFiles, outputFiles) <==> exists o :: o in outputFiles && Basename(o) == Basename(f)
  {
    if f in Duplicates(inputFiles, outputFiles) {
      var o :| o in outputFiles && Basename(o) == Basename(f);
    }
  }

  /**
   * The selection as shipped: the bare base name is looked up among the output files' full
   * paths, so it matches only an output file that is itself a bare name.
   */
  function DuplicatesAsWritten(inputFiles: set<Path>, outputFiles: set<Path>): set<Path> {
    set f | f in inputFiles && [Basename(f)] in outputFiles
  }

  /** Below a named output folder every file has at least two components, so nothing is ever selected as shipped. */
  lemma AsWrittenSelectsNothing(files: Files, input: Path, output: Path)
    requires |output| > 0
    ensures DuplicatesAsWritten(FilesUnder(files, input), FilesUnder(files, output)) == {}
  {
    forall f | f in FilesUnder(files, input)
      ensures [Basename(f)] !in FilesUnder(files, output)
    {
    }
  }

  /** A file copied into the output tree: selected by name, missed as shipped. */
  lemma AsWrittenMissesCopy(input: Path, output: Path)
    requires input == ["in", "a.png"] && output == ["out", "a.png"]
    ensures input in Duplicates({input}, {output})
    ensures DuplicatesAsWritten({input}, {output}) == {}
  {
    assert Basename(output) in Basenames({output});
  }

  /** What one `send2trash` attempt on an existing file does. */
  datatype TrashOutcome = Trashed | TrashPermissionError | TrashOtherError

  /** The number of attempts `compare_and_clean` gives each deletion (the default of `retries`). */
  const DeleteRetries: nat := 3

  /** The first attempt from `i` on, below `retries`, at which trashing `p` succeeds; `retries` if none. */
  function FirstTrashed(trash: (Path, nat) -> TrashOutcome, p: Path, i: nat, retries: nat): (r: nat)
    ensures i <= retries ==> i <= r <= retries
    ensures r < retries ==> trash(p, r) == Trashed
    decreases retries - i
  {
    if i >= retries then retries
    else if trash(p, i) == Trashed then i
    else FirstTrashed(trash, p, i + 1, retries)
  }

  /** The attempt found is the first success: every earlier attempt was refused. */
  lemma {:induction false} FirstTrashedFirst(trash: (Path, nat) -> TrashOutcome, p: Path, i: nat, retries: nat, j: nat)
    requires i <= j < FirstTrashed(trash, p, i, retries)
    ensures trash(p, j) != Trashed
    decreases retries - i
  {
    if i < j {
      FirstTrashedFirst(trash, p, i + 1, retries, j);
    }
  }

  /** A successful attempt bounds the first one. */
  lemma {:induction false} FirstTrashedAtMost(trash: (Path, nat) -> TrashOutcome, p: Path, i: nat, retries: nat, j: nat)
    requires i <= j < retries && trash(p, j) == Trashed
    ensures FirstTrashed(trash, p, i, retries) <= j
    decreases retries - i
  {
    if i < j && trash(p, i) != Trashed {
      FirstTrashedAtMost(trash, p, i + 1, retries, j);
    }
  }

  /** `p` goes to the trash within `retries` attempts. */
  predicate Deletes(trash: (Path, nat) -> TrashOutcome, p: Path, retries: nat) {
    FirstTrashed(trash, p, 0, retries) < retries
  }

  /** Deletion happens exactly when one of the `retries` attempts succeeds. */
  lemma DeletesExactly(trash: (Path, nat) -> TrashOutcome, p: Path, retries: nat)
    ensures Deletes(trash, p, retries) <==> exists k :: 0 <= k < retries && trash(p, k) == Trashed
  {
    if k :| 0 <= k < retries && trash(p, k) == Trashed {
      FirstTrashedAtMost(trash, p, 0, retries, k);
    }
  }

  /**
   * `delete_file_with_retry`: at most `retries` attempts, stopping at the first success or when
   * the file is not there (`FileNotFoundError`); a refused attempt leads to the next one.
   */
  method DeleteFileWithRetry(fs: FileSystem, p: Path, retries: nat, trash: (Path, nat) -> TrashOutcome) returns (tries: nat)
    modifies fs
    ensures fs.dirs == old(fs.dirs)
    ensures fs.files == if p in old(fs.files) && Deletes(trash, p, retries) then old(fs.files) - {p} else old(fs.files)
    ensures tries <= retries
    ensures tries == if retries == 0 then 0
      else if p !in old(fs.files) then 1
      else if Deletes(trash, p, retries) then FirstTrashed(trash, p, 0, retries) + 1
      else retries
  {
    tries := 0;
    for attempt := 0 to retries
      invariant fs.files == old(fs.files) && fs.dirs == old(fs.dirs)
      invariant tries == attempt
      invariant attempt > 0 ==> p in fs.files
      invariant attempt <= FirstTrashed(trash, p, 0, retries)
    {
      tries := attempt + 1;
      if p !in fs.files {
        return;
      }
      if trash(p, attempt) == Trashed {
        FirstTrashedAtMost(trash, p, 0, retries, attempt);
        fs.Trash(p);
        return;
      }
    }
  }

  /** The files after the deletion phase has gone through the first `n` input folders. */
  function Cleaned(files: Files, inputs: seq<Path>, outNames: set<string>, trash: (Path, nat) -> TrashOutcome, n: nat): Files
    requires n <= |inputs|
  {
    if n == 0 then files
    else
      var before := Cleaned(files, inputs, outNames, trash, n - 1);
      before - set f | f in before && StrictlyBelow(inputs[n - 1], f) && Basename(f) in outNames && Deletes(trash, f, DeleteRetries)
  }

  /**
   * The deletion phase removes exactly the files below some input folder that share a name with
   * an output file and whose trashing succeeds; every other file keeps its contents.
   */
  lemma {:induction false} CleanedExactly(files: Files, inputs: seq<Path>, outNames: set<string>, trash: (Path, nat) -> TrashOutcome, n: nat, f: Path)
    requires n <= |inputs|
    ensures var r := Cleaned(files, inputs, outNames, trash, n);
      (f in r <==> f in files && !(Basename(f) in outNames && Deletes(trash, f, DeleteRetries) && exists k :: 0 <= k < n && StrictlyBelow(inputs[k], f))) &&
      (f in r ==> r[f] == files[f])
  {
    if n > 0 {
      CleanedExactly(files, inputs, outNames, trash, n - 1, f);
      if f in files && Basename(f) in outNames && Deletes(trash, f, DeleteRetries) && StrictlyBelow(inputs[n - 1], f) {
        assert exists k :: 0 <= k < n && StrictlyBelow(inputs[k], f);
      }
      if k :| 0 <= k < n && StrictlyBelow(inputs[k], f) {
        if k < n - 1 {
          assert exists k' :: 0 <= k' < n - 1 && StrictlyBelow(inputs[k'], f);
        }
      }
    }
  }

  /** Trashing every file of `selected` in turn, each with its own retry loop. */
  method DeleteAll(fs: FileSystem, selected: set<Path>, trash: (Path, nat) -> TrashOutcome)
    modifies fs
    ensures fs.dirs == old(fs.dirs)
    ensures fs.files == old(fs.files) - set f | f in selected && Deletes(trash, f, DeleteRetries)
  {
    var rest := selected;
    while rest != {}
      invariant rest <= selected
      invariant fs.dirs == old(fs.dirs)
      invariant fs.files == old(fs.files) - set f | f in selected - rest && Deletes(trash, f, DeleteRetries)
      decreases |rest|
    {
      var f :| f in rest;
      var _ := DeleteFileWithRetry(fs, f, DeleteRetries, trash);
      rest := rest - {f};
    }
  }

  /** Some deepest path of a non-empty set. */
  lemma DeepestExists(s: set<Path>)
    requires s != {}
    ensures exists d :: d in s && forall e :: e in s ==> |e| <= |d|
  {
    var x :| x in s;
    if s - {x} == {} {
      assert s == {x};
    } else {
      DeepestExists(s - {x});
      var y :| y in s - {x} && forall e :: e in s - {x} ==> |e| <= |y|;
      if |x| > |y| {
        assert forall e :: e in s ==> |e| <= |x|;
      } else {
        assert forall e :: e in s ==> |e| <= |y|;
      }
    }
  }

  /**
   * What the bottom-up pruning keeps once the directories of `all` outside `pending` have been
   * visited: every removed directory was visited, not refused and is still empty; every visited
   * directory left standing that could be removed is not empty; nothing pending lies inside a
   * visited directory.
   */
  ghost predicate Pruned(dirs0: set<Path>, files: Files, dirs: set<Path>, all: set<Path>, pending: set<Path>, refused: set<Path>) {
    (forall d :: d in dirs0 && d !in dirs ==> d in all && d !in pending && d !in refused && IsEmptyDir(files, dirs, d)) &&
    (forall d :: d in all && d !in pending && d in dirs && d !in refused ==> !IsEmptyDir(files, dirs, d)) &&
    (forall d, e :: d in all && d !in pending && e in pending ==> !StrictlyBelow(d, e))
  }

  /** Visiting a deepest pending directory, and removing it when it is empty and not refused, keeps `Pruned`. */
  lemma PruneStep(dirs0: set<Path>, files: Files, dirs: set<Path>, all: set<Path>, pending: set<Path>, refused: set<Path>, d: Path)
    requires Pruned(dirs0, files, dirs, all, pending, refused)
    requires d in pending && pending <= all && dirs <= dirs0
    requires forall e :: e in pending ==> |e| <= |d|
    ensures Pruned(dirs0, files, if IsEmptyDir(files, dirs, d) && d !in refused then dirs - {d} else dirs, all, pending - {d}, refused)
  {
  }

  /**
   * The bottom-up walk of one input folder in `cleanup_empty_folders`: each directory below
   * `root` is checked after everything inside it, and removed if it is empty then and its
   * `os.rmdir` is not refused (`refused` holds the ones that fail).
   */
  method CleanupTree(fs: FileSystem, root: Path, refused: set<Path>)
    modifies fs
    ensures fs.files == old(fs.files) && fs.dirs <= old(fs.dirs)
    ensures forall d :: d in old(fs.dirs) && d !in fs.dirs ==> StrictlyBelow(root, d) && d !in refused && IsEmptyDir(fs.files, fs.dirs, d)
    ensures forall d :: d in fs.dirs && StrictlyBelow(root, d) && d !in refused ==> !IsEmptyDir(fs.files, fs.dirs, d)
  {
    var pending := set d | d in fs.dirs && StrictlyBelow(root, d);
    ghost var all := pending;
    while pending != {}
      invariant pending <= all
      invariant forall d :: d in all <==> d in old(fs.dirs) && StrictlyBelow(root, d)
      invariant fs.files == old(fs.files) && fs.dirs <= old(fs.dirs)
      invariant Pruned(old(fs.dirs), fs.files, fs.dirs, all, pending, refused)
      decreases |pending|
    {
      DeepestExists(pending);
      var d :| d in pending && forall e :: e in pending ==> |e| <= |d|;
      PruneStep(old(fs.dirs), fs.files, fs.dirs, all, pending, refused, d);
      if IsEmptyDir(fs.files, fs.dirs, d) && d !in refused {
        fs.RemoveDir(d);
      }
      pending := pending - {d};
    }
  }

  /**
   * A later pruning walk that only removes directories that are empty afterwards, and never a
   * refused one, keeps every non-refused directory below `root` that was not empty before
   * non-empty: the chain of children that made it non-empty ends in a file or a refused
   * directory, both of which stay, so no directory on the chain can have become empty.
   */
  lemma {:induction false} StaysNonEmpty(files: Files, dirs0: set<Path>, dirs1: set<Path>, refused: set<Path>, root: Path, d: Path)
    requires dirs1 <= dirs0
    requires forall e :: e in dirs0 && e !in dirs1 ==> e !in refused && IsEmptyDir(files, dirs1, e)
    requires forall e :: e in dirs0 && StrictlyBelow(root, e) && e !in refused ==> !IsEmptyDir(files, dirs0, e)
    requires d in dirs0 && StrictlyBelow(root, d) && d !in refused
    ensures !IsEmptyDir(files, dirs1, d)
    decreases set e | e in dirs0 && StrictlyBelow(d, e)
  {
    if p :| p in files && ChildOf(p, d) {
    } else {
      var e :| e in dirs0 && ChildOf(e, d);
      assert e[..|d|] == d;
      assert StrictlyBelow(root, e) by {
        assert e[..|root|] == e[..|d|][..|root|];
      }
      if e !in refused {
        var below := set x | x in dirs0 && StrictlyBelow(d, x);
        var belowE := set x | x in dirs0 && StrictlyBelow(e, x);
        assert belowE <= below by {
          forall x | x in belowE
            ensures x in below
          {
            assert x[..|d|] == x[..|e|][..|d|];
          }
        }
        assert e in below && e !in belowE;
        StaysNonEmpty(files, dirs0, dirs1, refused, root, e);
      }
      assert e in dirs1;
    }
  }

  class PostProcessingManager {
    var inputFolders: seq<Path>
    var outputFolder: Path

    constructor(inputFolders: seq<Path>, outputFolder: Path)
      ensures this.inputFolders == inputFolders && this.outputFolder == outputFolder
    {
      this.inputFolders := inputFolders;
      this.outputFolder := outputFolder;
    }

    /** `cleanup_empty_folders`: the walk of every input folder in turn; no file and no input folder is removed. */
    method CleanupEmptyFolders(fs: FileSystem, refused: set<Path>)
      modifies fs
      ensures fs.files == old(fs.files) && fs.dirs <= old(fs.dirs)
      ensures forall d :: d in old(fs.dirs) && d !in fs.dirs ==>
        d !in refused && IsEmptyDir(fs.files, fs.dirs, d) && exists k :: 0 <= k < |inputFolders| && StrictlyBelow(inputFolders[k], d)
      ensures forall k, d :: 0 <= k < |inputFolders| && d in fs.dirs && StrictlyBelow(inputFolders[k], d) && d !in refused ==>
        !IsEmptyDir(fs.files, fs.dirs, d)
    {
      for i := 0 to |inputFolders|
        invariant fs.files == old(fs.files) && fs.dirs <= old(fs.dirs)
        invariant forall d :: d in old(fs.dirs) && d !in fs.dirs ==>
          d !in refused && IsEmptyDir(fs.files, fs.dirs, d) && exists k :: 0 <= k < i && StrictlyBelow(inputFolders[k], d)
        invariant forall k, d :: 0 <= k < i && d in fs.dirs && StrictlyBelow(inputFolders[k], d) && d !in refused ==>
          !IsEmptyDir(fs.files, fs.dirs, d)
      {
        ghost var dirs0 := fs.dirs;
        CleanupTree(fs, inputFolders[i], refused);
        forall k, d | 0 <= k < i && d in fs.dirs && StrictlyBelow(inputFolders[k], d) && d !in refused
          ensures !IsEmptyDir(fs.files, fs.dirs, d)
        {
          StaysNonEmpty(fs.files, dirs0, fs.dirs, refused, inputFolders[k], d);
        }
      }
    }

    /**
     * `compare_and_clean`: trash every input file whose base name occurs in the output tree
     * (a failed deletion does not stop the loop), then prune the empty folders.
     */
    method CompareAndClean(fs: FileSystem, trash: (Path, nat) -> TrashOutcome, refused: set<Path>)
      modifies fs
      ensures fs.files == Cleaned(old(fs.files), inputFolders, Basenames(FilesUnder(old(fs.files), outputFolder)), trash, |inputFolders|)
      ensures fs.dirs <= old(fs.dirs)
      ensures forall d :: d in old(fs.dirs) && d !in fs.dirs ==>
        d !in refused && IsEmptyDir(fs.files, fs.dirs, d) && exists k :: 0 <= k < |inputFolders| && StrictlyBelow(inputFolders[k], d)
      ensures forall k, d :: 0 <= k < |inputFolders| && d in fs.dirs && StrictlyBelow(inputFolders[k], d) && d !in refused ==>
        !IsEmptyDir(fs.files, fs.dirs, d)
    {
      var outputFiles := GetAllFiles(fs, outputFolder);
      ghost var outNames := Basenames(outputFiles);
      ghost var files0 := fs.files;
      for i := 0 to |inputFolders|
        invariant fs.dirs == old(fs.dirs)
        invariant fs.files == Cleaned(files0, inputFolders, outNames, trash, i)
      {
        var inputFiles := GetAllFiles(fs, inputFolders[i]);
        var selected := Duplicates(inputFiles, outputFiles);
        DeleteAll(fs, selected, trash);
        assert (set f | f in selected && Deletes(trash, f, DeleteRetries)) ==
          set f | f in Cleaned(files0, inputFolders, outNames, trash, i) && StrictlyBelow(inputFolders[i], f) && Basename(f) in outNames && Deletes(trash, f, DeleteRetries);
      }
      CleanupEmptyFolders(fs, refused);
    }
  }
}
