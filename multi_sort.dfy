/**
 * `ImageSorter` of `sort_methods/multi_sort.py`: building the multi-level destination of one
 * image from the configured sort methods, the guards that skip an image, the set of base
 * paths already sorted, moving the image together with its same-stem companions, and the
 * write-once `.sorted.flag` marker.
 */
module MultiSort {
  import opened Wrappers
  import opened Text
  import opened Values
  import opened Paths
  import opened FileSystems
  import opened FolderNames
  import opened Orientation
  import opened Resolution

  /** The per-call `config` entries `multi_sort` reads; absent keys are given their defaults by the caller. */
  datatype SortConfig = SortConfig(
    sortMethods: seq<string>,
    metadataKeys: seq<string>,
    resolutionFolders: seq<(string, string)>,
    useOutputFolder: bool)

  /** `config.get(...)` of every entry missing: no methods, no keys, no thresholds, sort in place. */
  const EmptySortConfig := SortConfig([], [], [], false)

  // ---------------------------------------------------------------- the segments

  /** The keys among the first `n` of `keys` that the metadata holds, in key order. */
  function PresentKeys(keys: seq<string>, values: Metadata, n: nat): (r: seq<string>)
    requires n <= |keys|
    ensures forall j :: 0 <= j < |r| ==> r[j] in values
    ensures |r| <= n
  {
    if n == 0 then []
    else if keys[n - 1] in values then PresentKeys(keys, values, n - 1) + [keys[n - 1]]
    else PresentKeys(keys, values, n - 1)
  }

  /** The folder name one metadata value gives: `sanitize_folder_name(str(value))`. */
  function ValueSegment(v: Value): (r: string)
    ensures forall i :: 0 <= i < |r| ==> !Forbidden(r[i])
  {
    SanitizeFolderName(Render(v))
  }

  /** The segments the `"metadata"` method adds for the first `n` keys. */
  function KeySegments(keys: seq<string>, values: Metadata, n: nat): seq<string>
    requires n <= |keys|
  {
    if n == 0 then []
    else if keys[n - 1] in values then KeySegments(keys, values, n - 1) + [ValueSegment(values[keys[n - 1]])]
    else KeySegments(keys, values, n - 1)
  }

  /** The segments one sort method adds; `dims` is what `get_image_dimensions` reads, `(0, 0)` when it fails. */
  function MethodSegments(m: string, keys: seq<string>, values: Metadata, th: seq<(string, string)>, dims: (int, int)): seq<string> {
    if m == "metadata" then KeySegments(keys, values, |keys|)
    else if m == "orientation" then [OrientationFolder(dims.0, dims.1)]
    else if m == "resolution" then [StringsFolder(dims.0 * dims.1, th)]
    else []
  }

  /** The segments each sort method adds, method by method. */
  function MethodParts(methods: seq<string>, keys: seq<string>, values: Metadata, th: seq<(string, string)>, dims: (int, int)): (r: seq<seq<string>>)
    ensures |r| == |methods|
  {
    seq(|methods|, i requires 0 <= i < |methods| => MethodSegments(methods[i], keys, values, th, dims))
  }

  /** The parts one after the other. */
  function Concat(parts: seq<seq<string>>): seq<string> {
    if |parts| == 0 then [] else Concat(parts[..|parts| - 1]) + parts[|parts| - 1]
  }

  /** `sorting_criteria`: the segments of every sort method, in method order. */
  function Segments(methods: seq<string>, keys: seq<string>, values: Metadata, th: seq<(string, string)>, dims: (int, int)): seq<string> {
    Concat(MethodParts(methods, keys, values, th, dims))
  }

  /** The metadata method adds one sanitised segment per present key, in key order. */
  lemma {:induction false} KeySegmentsPerKey(keys: seq<string>, values: Metadata, n: nat)
    requires n <= |keys|
    ensures var p := PresentKeys(keys, values, n);
      var s := KeySegments(keys, values, n);
      |s| == |p| && forall j :: 0 <= j < |s| ==> s[j] == ValueSegment(values[p[j]])
  {
    if n > 0 {
      KeySegmentsPerKey(keys, values, n - 1);
    }
  }

  /** A present key is among the present keys and an absent one is not. */
  lemma {:induction false} PresentKeysExactly(keys: seq<string>, values: Metadata, n: nat, k: string)
    requires n <= |keys|
    ensures k in PresentKeys(keys, values, n) <==> k in values && k in keys[..n]
  {
    if n > 0 {
      PresentKeysExactly(keys, values, n - 1, k);
      assert keys[..n] == keys[..n - 1] + [keys[n - 1]];
    }
  }

  /** Orientation and resolution add exactly one segment each; any other unknown method adds none. */
  lemma MethodSegmentsCount(m: string, keys: seq<string>, values: Metadata, th: seq<(string, string)>, dims: (int, int))
    ensures m == "orientation" ==> MethodSegments(m, keys, values, th, dims) == [OrientationFolder(dims.0, dims.1)]
    ensures m == "resolution" ==> MethodSegments(m, keys, values, th, dims) == [StringsFolder(dims.0 * dims.1, th)]
    ensures m != "metadata" && m != "orientation" && m != "resolution" ==> MethodSegments(m, keys, values, th, dims) == []
  {
  }

  /** Concatenation distributes over appending parts. */
  lemma {:induction false} ConcatAppend(p: seq<seq<string>>, q: seq<seq<string>>)
    ensures Concat(p + q) == Concat(p) + Concat(q)
    decreases |q|
  {
    if |q| == 0 {
      assert p + q == p;
    } else {
      assert (p + q)[..|p + q| - 1] == p + q[..|q| - 1];
      ConcatAppend(p, q[..|q| - 1]);
    }
  }

  /** Running the methods `a` and then `b` gives `a`'s segments followed by `b`'s. */
  lemma SegmentsAppend(a: seq<string>, b: seq<string>, keys: seq<string>, values: Metadata, th: seq<(string, string)>, dims: (int, int))
    ensures Segments(a + b, keys, values, th, dims) == Segments(a, keys, values, th, dims) + Segments(b, keys, values, th, dims)
  {
    assert MethodParts(a + b, keys, values, th, dims) == MethodParts(a, keys, values, th, dims) + MethodParts(b, keys, values, th, dims);
    ConcatAppend(MethodParts(a, keys, values, th, dims), MethodParts(b, keys, values, th, dims));
  }

  /** A single method contributes exactly its own segments. */
  lemma SegmentsSingle(m: string, keys: seq<string>, values: Metadata, th: seq<(string, string)>, dims: (int, int))
    ensures Segments([m], keys, values, th, dims) == MethodSegments(m, keys, values, th, dims)
  {
    var p := MethodParts([m], keys, values, th, dims);
    assert p[0] == MethodSegments(m, keys, values, th, dims);
    assert Concat(p) == Concat(p[..0]) + p[0];
    assert p[..0] == [];
  }

  /** The loop that fills `sorting_criteria`. */
  method SortingCriteria(methods: seq<string>, keys: seq<string>, values: Metadata, th: seq<(string, string)>, dims: (int, int)) returns (criteria: seq<string>)
    ensures criteria == Segments(methods, keys, values, th, dims)
  {
    criteria := [];
    ghost var parts := MethodParts(methods, keys, values, th, dims);
    for i := 0 to |methods|
      invariant criteria == Concat(parts[..i])
    {
      assert parts[..i + 1][..i] == parts[..i];
      assert Concat(parts[..i + 1]) == Concat(parts[..i]) + parts[i];
      var m := methods[i];
      if m == "metadata" {
        ghost var before := criteria;
        for j := 0 to |keys|
          invariant criteria == before + KeySegments(keys, values, j)
        {
          var key := keys[j];
          if key in values {
            criteria := criteria + [ValueSegment(values[key])];
          }
        }
      } else if m == "orientation" {
        criteria := criteria + [OrientationFolder(dims.0, dims.1)];
      } else if m == "resolution" {
        criteria := criteria + [StringsFolder(dims.0 * dims.1, th)];
      }
    }
    assert parts[..|methods|] == parts;
  }

  // ---------------------------------------------------------------- the guards

  /** `sorted_folder`: the segments below the output folder, or below the image's own directory. */
  function SortedFolder(useOutputFolder: bool, outputFolder: Path, imagePath: Path, criteria: seq<string>): Path {
    (if useOutputFolder then outputFolder else Dirname(imagePath)) + criteria
  }

  /** The per-component lower-casing of a path (the separator is unaffected by `lower()`). */
  function LowerPath(p: Path): (r: Path)
    ensures |r| == |p|
  {
    seq(|p|, i requires 0 <= i < |p| => Lower(p[i]))
  }

  /**
   * The redundant re-sort guard: the image's directory, relative to the input folder, is one
   * component equal, ignoring case, to the last component of the destination.
   */
  predicate RedundantResort(inputFolder: Path, imagePath: Path, sorted: Path) {
    var subfolders := LowerPath(RelPath(Dirname(imagePath), inputFolder));
    |subfolders| == 1 && subfolders[0] == Lower(Basename(sorted))
  }

  /** An image lying directly in a folder of the input named, up to case, like the destination's leaf is skipped. */
  lemma RedundantInLeaf(inputFolder: Path, sub: string, name: string, sorted: Path)
    requires |sorted| > 0 && Lower(sub) == Lower(Basename(sorted))
    ensures RedundantResort(inputFolder, inputFolder + [sub, name], sorted)
  {
    assert Dirname(inputFolder + [sub, name]) == inputFolder + [sub];
    RelPathBelow(inputFolder, [sub]);
  }

  /**
   * `os.path.commonpath([image_path, sorted_folder]) == os.path.abspath(sorted_folder)`, read on
   * absolute paths; with relative folders the two sides never agree in the source.
   */
  predicate AlreadyInside(imagePath: Path, sorted: Path) {
    IsPrefix(sorted, imagePath)
  }

  /** With no segments and sorting in place the destination is the image's own folder, so the image is skipped. */
  lemma NoSegmentsInPlaceSkipped(outputFolder: Path, imagePath: Path)
    ensures AlreadyInside(imagePath, SortedFolder(false, outputFolder, imagePath, []))
  {
    assert imagePath[..|Dirname(imagePath)|] == Dirname(imagePath);
  }

  // ---------------------------------------------------------------- moving the companions

  /** `glob(f"{base_name}.*")`: the files beside the image whose name is its stem, a dot and anything. */
  function Associated(files: Files, imagePath: Path): (r: set<Path>)
    ensures r <= files.Keys
    ensures forall f :: f in r ==> |f| > 0 && f == Dirname(imagePath) + [Basename(f)]
  {
    var d := Dirname(imagePath);
    var prefix := Stem(Basename(imagePath)) + ".";
    set f | f in files && |f| > 0 && f == d + [Basename(f)] && StartsWith(Basename(f), prefix)
  }

  /** No component of `p` holds a character `glob` reads as pattern syntax. */
  predicate GlobLiteral(p: Path) {
    forall i :: 0 <= i < |p| ==> '*' !in p[i] && '?' !in p[i] && '[' !in p[i]
  }

  /** An image with an extension, and a path `glob` takes literally, is among its own companions. */
  lemma ImageIsAssociated(files: Files, imagePath: Path)
    requires imagePath in files && |imagePath| > 0 && SplitExt(Basename(imagePath)).1 != "" && GlobLiteral(imagePath)
    ensures imagePath in Associated(files, imagePath)
  {
    var name := Basename(imagePath);
    var (stem, ext) := SplitExt(name);
    assert name == stem + ext;
    assert name[..|stem| + 1] == stem + [ext[0]] == Stem(name) + ".";
    assert StartsWith(name, Stem(name) + ".");
    DirnameBasename(imagePath);
  }

  /** The new names of the moved files: the same names inside `s`. */
  function Targets(moved: set<Path>, s: Path): set<Path> {
    set f | f in moved :: s + [Basename(f)]
  }

  /** The files after the files of `moved`, all directly inside `d`, have gone to the same names inside `s`. */
  function MovedInto(files: Files, moved: set<Path>, d: Path, s: Path): (r: Files)
    requires moved <= files.Keys
    requires forall f :: f in moved ==> f == d + [Basename(f)]
  {
    map p | p in (files.Keys - moved) + Targets(moved, s) ::
      if p in Targets(moved, s) then files[d + [Basename(p)]] else files[p]
  }

  /** Moving nothing changes nothing. */
  lemma MovedIntoNothing(files: Files, d: Path, s: Path)
    ensures MovedInto(files, {}, d, s) == files
  {
    assert Targets({}, s) == {};
  }

  /** Every companion arrives in `s` with its contents and is gone from `d`; other files stay as they were. */
  lemma MovedIntoContents(files: Files, moved: set<Path>, d: Path, s: Path, f: Path)
    requires moved <= files.Keys && d != s
    requires forall g :: g in moved ==> g == d + [Basename(g)]
    ensures f in moved ==> (f !in MovedInto(files, moved, d, s) &&
      s + [Basename(f)] in MovedInto(files, moved, d, s) && MovedInto(files, moved, d, s)[s + [Basename(f)]] == files[f])
    ensures f !in moved && f !in Targets(moved, s) ==>
      (f in MovedInto(files, moved, d, s) <==> f in files) && (f in files ==> MovedInto(files, moved, d, s)[f] == files[f])
  {
    if f in moved {
      assert s + [Basename(f)] in Targets(moved, s);
      TargetsOutside(moved, d, s, f);
    }
  }

  /** A file of the source folder is none of the new names in a different folder. */
  lemma TargetsOutside(moved: set<Path>, d: Path, s: Path, f: Path)
    requires d != s && f == d + [Basename(f)]
    ensures f !in Targets(moved, s)
  {
    forall g | g in moved
      ensures s + [Basename(g)] != f
    {
      assert Dirname(s + [Basename(g)]) == s;
      assert Dirname(f) == d;
    }
  }

  /** Moving one more companion extends the moved set by one. */
  lemma MovedIntoStep(files: Files, moved: set<Path>, d: Path, s: Path, f: Path)
    requires moved <= files.Keys && d != s && f in files && f !in moved
    requires forall g :: g in moved ==> g == d + [Basename(g)]
    requires f == d + [Basename(f)]
    ensures f in MovedInto(files, moved, d, s)
    ensures Moved(MovedInto(files, moved, d, s), f, s + [Basename(f)]) == MovedInto(files, moved + {f}, d, s)
  {
    var before := MovedInto(files, moved, d, s);
    TargetsOutside(moved, d, s, f);
    var lhs := Moved(before, f, s + [Basename(f)]);
    var rhs := MovedInto(files, moved + {f}, d, s);
    forall p | p in rhs
      ensures p in lhs && lhs[p] == rhs[p]
    {
      if p in Targets(moved, s) {
        var g :| g in moved && p == s + [Basename(g)];
        assert g == d + [Basename(p)];
      }
      if p == s + [Basename(f)] {
        assert d + [Basename(p)] == f;
      }
    }
    forall p | p in lhs
      ensures p in rhs
    {
      if p in Targets(moved, s) {
        var g :| g in moved && p == s + [Basename(g)];
        assert p in Targets(moved + {f}, s);
      }
      if p == s + [Basename(f)] {
        assert p in Targets(moved + {f}, s);
      }
    }
  }

  /**
   * The companion move of `multi_sort`: `file_mover.move_file`'s target rule applied to each
   * companion, which goes to `sorted/basename`. (The `move_files` the source imports and calls
   * is not defined in `file_mover.py`.)
   */
  method MoveAssociated(fs: FileSystem, moved: set<Path>, d: Path, s: Path)
    requires moved <= fs.files.Keys && d != s
    requires forall f :: f in moved ==> f == d + [Basename(f)]
    modifies fs
    ensures fs.files == MovedInto(old(fs.files), moved, d, s) && fs.dirs == old(fs.dirs)
  {
    var rest := moved;
    ghost var files0 := fs.files;
    ghost var done: set<Path> := {};
    MovedIntoNothing(files0, d, s);
    while rest != {}
      invariant done !! rest && done + rest == moved
      invariant fs.dirs == old(fs.dirs)
      invariant fs.files == MovedInto(files0, done, d, s)
      decreases |rest|
    {
      var f :| f in rest;
      MovedIntoStep(files0, done, d, s, f);
      fs.Move(f, s + [Basename(f)]);
      done := done + {f};
      rest := rest - {f};
    }
    assert done == moved;
  }

  /** The name of the marker file. */
  const FlagName := ".sorted.flag"

  /** What the marker says; `timestamp` stands for `datetime.now()` formatted. */
  function FlagText(timestamp: string): string {
    "This folder was sorted successfully.\nTimestamp: " + timestamp + "\n"
  }

  /** The files after the flag rule: the marker is written only where nothing exists under its name. */
  function Flagged(files: Files, dirs: set<Path>, sorted: Path, timestamp: string): (r: Files)
    ensures sorted + [FlagName] in r || sorted + [FlagName] in dirs
    ensures sorted + [FlagName] in files ==> r == files
  {
    var flag := sorted + [FlagName];
    if flag in files || flag in dirs then files else files[flag := FlagText(timestamp)]
  }

  /** Flagging twice is flagging once: an existing marker is never rewritten. */
  lemma FlaggedOnce(files: Files, dirs: set<Path>, sorted: Path, t1: string, t2: string)
    ensures Flagged(Flagged(files, dirs, sorted, t1), dirs, sorted, t2) == Flagged(files, dirs, sorted, t1)
  {
  }

  // ---------------------------------------------------------------- the sorter

  class ImageSorter {
    var inputFolder: Path
    var outputFolder: Path
    /** `self.config.get("only_process_unsorted", True)`. */
    var onlyProcessUnsorted: bool
    /** The `"metadata"` dictionary of each image's record; an image without a (truthy) record is absent. */
    var metadataDict: map<Path, Metadata>
    var lastSortedFolder: Option<Path>
    /** The image paths without extension already sorted by this sorter. */
    var processedFiles: set<Path>

    constructor(inputFolder: Path, outputFolder: Path, onlyProcessUnsorted: bool)
      ensures this.inputFolder == inputFolder && this.outputFolder == outputFolder
      ensures this.onlyProcessUnsorted == onlyProcessUnsorted
      ensures metadataDict == map[] && lastSortedFolder == None && processedFiles == {}
    {
      this.inputFolder := inputFolder;
      this.outputFolder := outputFolder;
      this.onlyProcessUnsorted := onlyProcessUnsorted;
      metadataDict := map[];
      lastSortedFolder := None;
      processedFiles := {};
    }

    /** `get_metadata`: the image's metadata, `None` standing for the empty default. */
    function GetMetadata(imagePath: Path): (r: Option<Metadata>)
      reads this
      ensures r.Some? <==> imagePath in metadataDict
      ensures r.Some? ==> r.value == metadataDict[imagePath]
    {
      if imagePath in metadataDict then Some(metadataDict[imagePath]) else None
    }

    /** `get_sorted_folder`: the last destination, `None` when there is none or it is empty. */
    function GetSortedFolder(): (r: Option<Path>)
      reads this
      ensures r.Some? <==> lastSortedFolder.Some? && |lastSortedFolder.value| > 0
      ensures r.Some? ==> r == lastSortedFolder
    {
      if lastSortedFolder.Some? && |lastSortedFolder.value| > 0 then lastSortedFolder else None
    }

    /** The destination `multi_sort` computes for an image with metadata `values`. */
    function Destination(config: SortConfig, outputFolder: Path, imagePath: Path, values: Metadata, dims: (int, int)): Path {
      SortedFolder(config.useOutputFolder, outputFolder, imagePath,
        Segments(config.sortMethods, config.metadataKeys, values, config.resolutionFolders, dims))
    }

    /** Whether `multi_sort` goes past its guards for an existing image whose record is `values`. */
    predicate ProceedsWith(values: Metadata, files: Files, dirs: set<Path>, config: SortConfig, outputFolder: Path, imagePath: Path, dims: (int, int))
      reads this
    {
      (imagePath in files || imagePath in dirs) &&
      var sorted := Destination(config, outputFolder, imagePath, values, dims);
      !(onlyProcessUnsorted && RedundantResort(inputFolder, imagePath, sorted)) && !AlreadyInside(imagePath, sorted)
    }

    /** Whether `multi_sort` goes past its guards for this image. */
    predicate Proceeds(files: Files, dirs: set<Path>, config: SortConfig, outputFolder: Path, imagePath: Path, dims: (int, int))
      reads this
    {
      imagePath in metadataDict && ProceedsWith(metadataDict[imagePath], files, dirs, config, outputFolder, imagePath, dims)
    }

    /**
     * `multi_sort(image_path, config, output_folder)`: `dims` is what `get_image_dimensions`
     * reads and `timestamp` the formatted time written into a new flag.
     */
    method Sort(fs: FileSystem, imagePath: Path, config: SortConfig, outputFolder: Path, dims: (int, int), timestamp: string)
      modifies this`lastSortedFolder, this`processedFiles, fs
      ensures old(processedFiles) <= processedFiles
      ensures !old(Proceeds(fs.files, fs.dirs, config, outputFolder, imagePath, dims)) ==>
        fs.files == old(fs.files) && fs.dirs == old(fs.dirs) &&
        processedFiles == old(processedFiles) && lastSortedFolder == old(lastSortedFolder)
      ensures old(Proceeds(fs.files, fs.dirs, config, outputFolder, imagePath, dims)) ==>
        SortedInto(old(fs.files), old(fs.dirs), old(processedFiles), imagePath,
          Destination(config, outputFolder, imagePath, metadataDict[imagePath], dims), timestamp,
          fs.files, fs.dirs, processedFiles, lastSortedFolder)
    {
      if !fs.Exists(imagePath) {
        return;
      }
      var metadata := GetMetadata(imagePath);
      if metadata.None? {
        return;
      }
      var values := metadata.value;
      var criteria := SortingCriteria(config.sortMethods, config.metadataKeys, values, config.resolutionFolders, dims);
      var sorted := SortedFolder(config.useOutputFolder, outputFolder, imagePath, criteria);
      if onlyProcessUnsorted && RedundantResort(inputFolder, imagePath, sorted) {
        return;
      }
      if AlreadyInside(imagePath, sorted) {
        return;
      }
      SortInto(fs, imagePath, sorted, timestamp);
    }

    /** What `multi_sort` does once past its guards, from `makedirs` on. */
    method SortInto(fs: FileSystem, imagePath: Path, sorted: Path, timestamp: string)
      requires !AlreadyInside(imagePath, sorted)
      modifies this`lastSortedFolder, this`processedFiles, fs
      ensures SortedInto(old(fs.files), old(fs.dirs), old(processedFiles), imagePath, sorted, timestamp,
        fs.files, fs.dirs, processedFiles, lastSortedFolder)
    {
      fs.MakeDirs(sorted);
      lastSortedFolder := Some(sorted);
      var base := SplitExtPath(imagePath).0;
      if base in processedFiles {
        return;
      }
      processedFiles := processedFiles + {base};
      var companions := Associated(fs.files, imagePath);
      assert sorted != Dirname(imagePath) by {
        assert imagePath[..|Dirname(imagePath)|] == Dirname(imagePath);
      }
      MoveAssociated(fs, companions, Dirname(imagePath), sorted);
      var flag := sorted + [FlagName];
      if !fs.Exists(flag) {
        fs.WriteFile(flag, FlagText(timestamp));
      }
    }

    /**
     * `process_single_image`: sort one image under the record `{"metadata": metadata}` (an
     * absent entry standing for `{}`), then forget every record. The disk, the last folder and
     * the processed set change exactly as `multi_sort` changes them under that one record.
     */
    method ProcessSingleImage(fs: FileSystem, filePath: Path, config: SortConfig, metadata: Option<Metadata>, dims: (int, int), timestamp: string)
      modifies this`metadataDict, this`lastSortedFolder, this`processedFiles, fs
      ensures metadataDict == map[]
      ensures old(processedFiles) <= processedFiles
      ensures !old(ProceedsWith(metadata.GetOr(map[]), fs.files, fs.dirs, config, outputFolder, filePath, dims)) ==>
        fs.files == old(fs.files) && fs.dirs == old(fs.dirs) &&
        processedFiles == old(processedFiles) && lastSortedFolder == old(lastSortedFolder)
      ensures old(ProceedsWith(metadata.GetOr(map[]), fs.files, fs.dirs, config, outputFolder, filePath, dims)) ==>
        SortedInto(old(fs.files), old(fs.dirs), old(processedFiles), filePath,
          Destination(config, outputFolder, filePath, metadata.GetOr(map[]), dims), timestamp,
          fs.files, fs.dirs, processedFiles, lastSortedFolder)
    {
      metadataDict := map[filePath := metadata.GetOr(map[])];
      Sort(fs, filePath, config, outputFolder, dims, timestamp);
      metadataDict := map[];
    }
  }

  /**
   * The state after sorting `imagePath` into `sorted`: the folder exists, it is the last one
   * used, and unless the image's base path was sorted before, that base path is recorded, the
   * companions have moved and the flag rule has run.
   */
  predicate SortedInto(files: Files, dirs: set<Path>, processed: set<Path>, imagePath: Path, sorted: Path, timestamp: string,
                       files': Files, dirs': set<Path>, processed': set<Path>, last': Option<Path>)
    requires !AlreadyInside(imagePath, sorted)
  {
    var base := SplitExtPath(imagePath).0;
    assert sorted != Dirname(imagePath) by {
      assert imagePath[..|Dirname(imagePath)|] == Dirname(imagePath);
    }
    dirs' == dirs + Ancestry(sorted) && last' == Some(sorted) &&
    (base in processed ==> files' == files && processed' == processed) &&
    (base !in processed ==> (processed' == processed + {base} &&
      files' == Flagged(MovedInto(files, Associated(files, imagePath), Dirname(imagePath), sorted), dirs', sorted, timestamp)))
  }

  /**
   * A base path is moved at most once per sorter: once an image has been sorted, sorting an
   * image with the same base path again changes no file and leaves the set as it is.
   */
  lemma SecondSortMovesNothing(files: Files, dirs: set<Path>, processed: set<Path>, image1: Path, sorted1: Path, t1: string,
                               files1: Files, dirs1: set<Path>, processed1: set<Path>, last1: Option<Path>,
                               image2: Path, sorted2: Path, t2: string,
                               files2: Files, dirs2: set<Path>, processed2: set<Path>, last2: Option<Path>)
    requires !AlreadyInside(image1, sorted1) && !AlreadyInside(image2, sorted2)
    requires SortedInto(files, dirs, processed, image1, sorted1, t1, files1, dirs1, processed1, last1)
    requires SortedInto(files1, dirs1, processed1, image2, sorted2, t2, files2, dirs2, processed2, last2)
    requires SplitExtPath(image2).0 == SplitExtPath(image1).0
    ensures files2 == files1 && processed2 == processed1 && processed <= processed1
  {
  }
}
