/**
 * The top-level `CustomSorter` of `custom_sorter.py`: its constructor (thresholds parsed with the
 * `parse_pixel_dimensions` that cannot take the float `inf`), the per-image decision of
 * `sort_images_and_texts` (a resolution folder as target, the `<stem>.txt` sidecar beside the
 * image), `process_file`, which queues one move, and the walk that ties them to the move queue
 * and the post-processing pass. The directory walk, the image-size reads and the outcome of each
 * move and deletion are parameters.
 */
module CustomSorting {
  import opened Wrappers
  import opened Text
  import opened Paths
  import opened FileSystems
  import opened Resolution
  import opened MoveQueue
  import opened PostProcessing
  import opened Settings

  // ---------------------------------------------------------------- construction

  /** The fields `CustomSorter.__init__` sets up from the configuration. */
  datatype SorterSettings = SorterSettings(
    inputFolders: seq<string>,
    outputFolder: string,
    useOutputFolder: bool,
    sortMethod: string,
    dynamicThresholds: bool,
    thresholds: seq<(string, Threshold)>)

  /**
   * The comprehension `{folder: parse_pixel_dimensions(d) ...}` with the top-level parser: the
   * entries are parsed in order and the first one that raises ends construction with its error.
   */
  function ParseTableAsWritten(folders: seq<(string, Dimension)>): (r: Result<seq<(string, Threshold)>>)
    ensures r.Ok? ==> |r.value| == |folders|
  {
    if |folders| == 0 then Ok([])
    else match ParsePixelDimensionsAsWritten(folders[0].1)
      case Err(e) => Err(e)
      case Ok(n) =>
        match ParseTableAsWritten(folders[1..])
        case Err(e) => Err(e)
        case Ok(rest) => Ok([(folders[0].0, Finite(n))] + rest)
  }

  /** The first entry that cannot be parsed decides the error; the entries before it do not matter. */
  lemma {:induction false} ParseTableFirstError(folders: seq<(string, Dimension)>, k: nat)
    requires k < |folders|
    requires forall j :: 0 <= j < k ==> ParsePixelDimensionsAsWritten(folders[j].1).Ok?
    requires ParsePixelDimensionsAsWritten(folders[k].1).Err?
    ensures ParseTableAsWritten(folders) == Err(ParsePixelDimensionsAsWritten(folders[k].1).error)
  {
    if k > 0 {
      ParseTableFirstError(folders[1..], k - 1);
    }
  }

  /**
   * `CustomSorter.__init__` of `custom_sorter.py` up to the folder creation: unlike the script
   * sorter it does not lower-case `sort_method`, and a table entry that does not parse raises.
   */
  function SorterSettingsOf(c: SorterConfig): (r: Result<SorterSettings>)
  {
    match ParseTableAsWritten(ResolutionFolders(c.resolutionFolders))
    case Err(e) => Err(e)
    case Ok(th) =>
      Ok(SorterSettings(
        InputFolderNames(c.inputFolders.GetOr(["input"])),
        OutputFolderName(c.outputFolder.GetOr("output")),
        c.useOutputFolder.GetOr(true),
        c.sortMethod.GetOr("resolution"),
        c.dynamicThresholds.GetOr(false),
        th))
  }

  /**
   * Without a configured table the constructor fails: the default table's `superhigh` entry is
   * the float `inf`, which has no `split`, and the `AttributeError` escapes the `ValueError`
   * handler.
   */
  lemma DefaultTableFails(c: SorterConfig)
    requires c.resolutionFolders.None? || c.resolutionFolders.value == []
    ensures SorterSettingsOf(c) == Err("AttributeError")
  {
    DefaultTableAsWritten(ResolutionFolders(c.resolutionFolders));
  }

  /** The default table parses up to its last entry, which raises `AttributeError`. */
  lemma DefaultTableAsWritten(folders: seq<(string, Dimension)>)
    requires folders == DefaultResolutionFolders
    ensures ParseTableAsWritten(folders) == Err("AttributeError")
  {
    forall j | 0 <= j < 4 ensures ParsePixelDimensionsAsWritten(folders[j].1).Ok? {
      if j == 0 {
        ParsesToSuperlow(folders[0].1.text);
      } else if j == 1 {
        ParsesToLores(folders[1].1.text);
      } else if j == 2 {
        ParsesToMedres(folders[2].1.text);
      } else {
        ParsesToHires(folders[3].1.text);
      }
    }
    ParseTableFirstError(folders, 4);
  }

  /** A configured table of valid `"WxH"` texts parses to their pixel counts, names and order kept. */
  lemma {:induction false} ParseTableOfTexts(th: seq<(string, string)>)
    requires AllValid(th)
    ensures ParseTableAsWritten(Lifted(th)).Ok? && ParseThresholds(Lifted(th)).Ok?
    ensures ParseTableAsWritten(Lifted(th)).value == ParseThresholds(Lifted(th)).value
  {
    ParseThresholdsEntries(Lifted(th));
    ParseTableEntries(Lifted(th));
  }

  /** When every entry parses, the table holds each entry's pixel count under its own name. */
  lemma {:induction false} ParseTableEntries(folders: seq<(string, Dimension)>)
    requires forall j :: 0 <= j < |folders| ==> ParsePixelDimensionsAsWritten(folders[j].1).Ok?
    ensures ParseTableAsWritten(folders).Ok?
    ensures forall j :: 0 <= j < |folders| ==>
      ParseTableAsWritten(folders).value[j] == (folders[j].0, Finite(ParsePixelDimensionsAsWritten(folders[j].1).value))
  {
    if |folders| > 0 {
      ParseTableEntries(folders[1..]);
      assert forall j :: 1 <= j < |folders| ==> folders[1..][j - 1] == folders[j];
    }
  }

  // ---------------------------------------------------------------- one image

  /** `f.endswith((".png", ".jpg", ".jpeg", ".webp"))`: case-sensitive. */
  predicate IsImageName(f: string) {
    EndsWith(f, ".png") || EndsWith(f, ".jpg") || EndsWith(f, ".jpeg") || EndsWith(f, ".webp")
  }

  /** `f.endswith(".txt")`. */
  predicate IsTextName(f: string) {
    EndsWith(f, ".txt")
  }

  /** The names of a directory listing that satisfy `p`, in listing order. */
  function Filtered(files: seq<string>, p: string -> bool): seq<string>
  {
    if |files| == 0 then []
    else Filtered(files[..|files| - 1], p) + (if p(files[|files| - 1]) then [files[|files| - 1]] else [])
  }

  /** The filter keeps exactly the names that satisfy `p`. */
  lemma {:induction false} FilteredMembers(files: seq<string>, p: string -> bool, f: string)
    ensures f in Filtered(files, p) <==> f in files && p(f)
  {
    if |files| > 0 {
      FilteredMembers(files[..|files| - 1], p, f);
      assert files == files[..|files| - 1] + [files[|files| - 1]];
    }
  }

  /** `os.path.splitext(image_file)[0] + ".txt"`. */
  function SidecarName(imageFile: string): string {
    Stem(imageFile) + ".txt"
  }

  /**
   * The target folder of one image in the walk of `input_folder`, found at `root` with `total`
   * pixels: a method other than `resolution` and `orientation` raises `ValueError`; otherwise the
   * folder is the resolution bucket (the orientation folder is computed and then discarded), under
   * the mirrored input path in the output folder, or under `root` itself.
   */
  function TargetFolder(s: SorterSettings, inputFolder: Path, root: Path, total: int): (r: Result<Path>)
  {
    if s.sortMethod != "resolution" && s.sortMethod != "orientation" then Err("ValueError")
    else match ThresholdFolder(total, s.thresholds, s.dynamicThresholds)
      case Err(e) => Err(e)
      case Ok(folder) =>
        Ok(if s.useOutputFolder then [s.outputFolder] + RelPath(root, inputFolder) + [folder] else root + [folder])
  }

  /** The queue entry `process_file(file_path, target_folder)` adds. */
  function Entry(filePath: Path, targetFolder: Path): QueueItem {
    QueueItem(filePath, targetFolder + [Basename(filePath)], 0)
  }

  /**
   * The entries queued for the image `imageFile` of the listing `files` at `root`: nothing when
   * it cannot be opened (`dims` is `None`) or the target cannot be decided; otherwise the image,
   * then its `.txt` sidecar when the listing holds one.
   */
  function ImageEntries(s: SorterSettings, inputFolder: Path, root: Path, files: seq<string>, imageFile: string,
                        dims: Option<(int, int)>): seq<QueueItem>
  {
    if dims.None? then []
    else match TargetFolder(s, inputFolder, root, dims.value.0 * dims.value.1)
      case Err(_) => []
      case Ok(target) =>
        var txt := SidecarName(imageFile);
        [Entry(root + [imageFile], target)] + (if txt in Filtered(files, IsTextName) then [Entry(root + [txt], target)] else [])
  }

  /** An unsupported sort method queues nothing for any image. */
  lemma UnsupportedMethodQueuesNothing(s: SorterSettings, inputFolder: Path, root: Path, files: seq<string>, imageFile: string,
                                       dims: Option<(int, int)>)
    requires s.sortMethod != "resolution" && s.sortMethod != "orientation"
    ensures ImageEntries(s, inputFolder, root, files, imageFile, dims) == []
  {
  }

  /**
   * Whatever the method, the target is named by the resolution bucket: under the output folder
   * the path below the input folder is mirrored, otherwise the bucket sits inside `root`.
   */
  lemma TargetIsResolutionBucket(s: SorterSettings, inputFolder: Path, rest: Path, total: int)
    requires s.sortMethod == "resolution" || s.sortMethod == "orientation"
    requires ThresholdFolder(total, s.thresholds, s.dynamicThresholds).Ok?
    ensures var folder := ThresholdFolder(total, s.thresholds, s.dynamicThresholds).value;
      var root := inputFolder + rest;
      TargetFolder(s, inputFolder, root, total) ==
        Ok(if !s.useOutputFolder then root + [folder]
           else if rest == [] then [s.outputFolder, ".", folder]
           else [s.outputFolder] + rest + [folder])
  {
    var folder := ThresholdFolder(total, s.thresholds, s.dynamicThresholds).value;
    if rest == [] {
      assert inputFolder + rest == inputFolder;
      RelPathSame(inputFolder);
      assert [s.outputFolder] + ["."] + [folder] == [s.outputFolder, ".", folder];
    } else {
      RelPathBelow(inputFolder, rest);
    }
  }

  /**
   * An image with a readable size and a decidable target queues itself and, exactly when the
   * listing holds `<stem>.txt`, that sidecar to the same folder; each entry keeps its base name
   * and starts with no attempts.
   */
  lemma ImageEntriesShape(s: SorterSettings, inputFolder: Path, root: Path, files: seq<string>, imageFile: string,
                          dims: (int, int))
    requires TargetFolder(s, inputFolder, root, dims.0 * dims.1).Ok?
    ensures var es := ImageEntries(s, inputFolder, root, files, imageFile, Some(dims));
      var target := TargetFolder(s, inputFolder, root, dims.0 * dims.1).value;
      |es| == (if SidecarName(imageFile) in files then 2 else 1) &&
      es[0] == QueueItem(root + [imageFile], target + [imageFile], 0) &&
      (|es| == 2 ==> es[1] == QueueItem(root + [SidecarName(imageFile)], target + [SidecarName(imageFile)], 0))
  {
    var txt := SidecarName(imageFile);
    assert IsTextName(txt) by {
      assert txt[|txt| - 4..] == ".txt";
    }
    FilteredMembers(files, IsTextName, txt);
  }

  /** The entries of the images of one listing, in listing order. */
  function ListingEntries(s: SorterSettings, inputFolder: Path, root: Path, files: seq<string>, images: seq<string>,
                          dims: Path -> Option<(int, int)>): seq<QueueItem>
  {
    if |images| == 0 then []
    else
      var f := images[|images| - 1];
      ListingEntries(s, inputFolder, root, files, images[..|images| - 1], dims) + ImageEntries(s, inputFolder, root, files, f, dims(root + [f]))
  }

  /** A queue holding the entries of a listing's first `i` images, extended by image `i`, holds the first `i + 1`. */
  lemma ListingStep(s: SorterSettings, inputFolder: Path, root: Path, files: seq<string>, images: seq<string>, i: nat,
                    dims: Path -> Option<(int, int)>, q0: seq<QueueItem>, q1: seq<QueueItem>, q2: seq<QueueItem>)
    requires i < |images|
    requires q1 == q0 + ListingEntries(s, inputFolder, root, files, images[..i], dims)
    requires q2 == q1 + ImageEntries(s, inputFolder, root, files, images[i], dims(root + [images[i]]))
    ensures q2 == q0 + ListingEntries(s, inputFolder, root, files, images[..i + 1], dims)
  {
    assert images[..i + 1][..i] == images[..i];
    Associative(q0, ListingEntries(s, inputFolder, root, files, images[..i], dims),
      ImageEntries(s, inputFolder, root, files, images[i], dims(root + [images[i]])));
  }

  /** Every entry queued for a listing moves a file of that directory into a folder under its own base name. */
  lemma {:induction false} ListingEntriesKeepNames(s: SorterSettings, inputFolder: Path, root: Path, files: seq<string>,
                                                   images: seq<string>, dims: Path -> Option<(int, int)>)
    ensures forall e :: e in ListingEntries(s, inputFolder, root, files, images, dims) ==>
      e.attempts == 0 && |e.src| == |root| + 1 && Dirname(e.src) == root && |e.dst| > 0 && Basename(e.dst) == Basename(e.src)
  {
    if |images| > 0 {
      var f := images[|images| - 1];
      ListingEntriesKeepNames(s, inputFolder, root, files, images[..|images| - 1], dims);
      var es := ImageEntries(s, inputFolder, root, files, f, dims(root + [f]));
      forall e | e in es
        ensures e.attempts == 0 && |e.src| == |root| + 1 && Dirname(e.src) == root && |e.dst| > 0 && Basename(e.dst) == Basename(e.src)
      {
        assert (root + [f])[..|root|] == root;
        assert (root + [SidecarName(f)])[..|root|] == root;
      }
    }
  }

  /** The entries of a whole walk: every listing in walk order. */
  function WalkEntries(s: SorterSettings, inputFolder: Path, walk: seq<(Path, seq<string>)>,
                       dims: Path -> Option<(int, int)>): seq<QueueItem>
  {
    if |walk| == 0 then []
    else
      var listing := walk[|walk| - 1];
      WalkEntries(s, inputFolder, walk[..|walk| - 1], dims) + ListingEntries(s, inputFolder, listing.0, listing.1, Filtered(listing.1, IsImageName), dims)
  }

  /** The first `i + 1` listings of a walk queue what the first `i` queue, then listing `i`. */
  lemma WalkEntriesSnoc(s: SorterSettings, inputFolder: Path, walk: seq<(Path, seq<string>)>, i: nat,
                        dims: Path -> Option<(int, int)>)
    requires i < |walk|
    ensures WalkEntries(s, inputFolder, walk[..i + 1], dims) ==
      WalkEntries(s, inputFolder, walk[..i], dims) + ListingEntries(s, inputFolder, walk[i].0, walk[i].1, Filtered(walk[i].1, IsImageName), dims)
  {
    assert walk[..i + 1][..i] == walk[..i];
  }

  /** A queue holding a walk's first `i` listings, extended by listing `i`, holds its first `i + 1`. */
  lemma WalkStep(s: SorterSettings, inputFolder: Path, walk: seq<(Path, seq<string>)>, i: nat,
                 dims: Path -> Option<(int, int)>, q0: seq<QueueItem>, q1: seq<QueueItem>, q2: seq<QueueItem>)
    requires i < |walk|
    requires q1 == q0 + WalkEntries(s, inputFolder, walk[..i], dims)
    requires q2 == q1 + ListingEntries(s, inputFolder, walk[i].0, walk[i].1, Filtered(walk[i].1, IsImageName), dims)
    ensures q2 == q0 + WalkEntries(s, inputFolder, walk[..i + 1], dims)
  {
    WalkEntriesSnoc(s, inputFolder, walk, i, dims);
    Associative(q0, WalkEntries(s, inputFolder, walk[..i], dims),
      ListingEntries(s, inputFolder, walk[i].0, walk[i].1, Filtered(walk[i].1, IsImageName), dims));
  }

  /** Concatenation regroups; stated on opaque operands so the entries are not unfolded. */
  lemma Associative<T>(a: seq<T>, b: seq<T>, c: seq<T>)
    ensures (a + b) + c == a + (b + c)
  {
  }

  /** The entries of the walks of every input folder, in folder order. */
  function AllEntries(s: SorterSettings, inputFolders: seq<Path>, walks: seq<seq<(Path, seq<string>)>>,
                      dims: Path -> Option<(int, int)>, n: nat): seq<QueueItem>
    requires n <= |inputFolders| == |walks|
  {
    if n == 0 then []
    else AllEntries(s, inputFolders, walks, dims, n - 1) + WalkEntries(s, inputFolders[n - 1], walks[n - 1], dims)
  }

  /** A queue holding the walks of the first `n` input folders, extended by walk `n`, holds the first `n + 1`. */
  lemma AllStep(s: SorterSettings, inputFolders: seq<Path>, walks: seq<seq<(Path, seq<string>)>>,
                dims: Path -> Option<(int, int)>, n: nat, q0: seq<QueueItem>, q1: seq<QueueItem>, q2: seq<QueueItem>)
    requires n < |inputFolders| == |walks|
    requires q1 == q0 + AllEntries(s, inputFolders, walks, dims, n)
    requires q2 == q1 + WalkEntries(s, inputFolders[n], walks[n], dims)
    ensures q2 == q0 + AllEntries(s, inputFolders, walks, dims, n + 1)
  {
    Associative(q0, AllEntries(s, inputFolders, walks, dims, n), WalkEntries(s, inputFolders[n], walks[n], dims));
  }

  /** In the sample listing only `a.png` is an image, and `a.txt` is its sidecar. */
  lemma ExampleListing(png: string, txt: string)
    requires png == "a.png" && txt == "a.txt"
    ensures Filtered([png, txt], IsImageName) == [png] && SidecarName(png) == txt
  {
    var listing: seq<string> := [png, txt];
    assert IsImageName(png) by { assert png[|png| - 4..] == ".png"; }
    assert !IsImageName(txt) by {
      assert txt[|txt| - 4..] != ".png" && txt[|txt| - 4..] != ".jpg" && txt[|txt| - 5..] != ".jpeg" && txt[|txt| - 5..] != ".webp";
    }
    assert Filtered(listing, IsImageName) == [png] by {
      var first := listing[..1];
      assert first == [png] && listing[1] == txt;
      assert first[..0] == [];
      assert Filtered(first, IsImageName) == [png];
    }
    assert SplitExt(png) == ("a", ".png") by {
      SplitExtOf("a", ".png");
      assert "a" + ".png" == png;
    }
  }

  /** A sample: `a.png` of 512 by 700 pixels with `a.txt` beside it, sorted in place. */
  lemma ExampleInPlace(s: SorterSettings, dims: Path -> Option<(int, int)>)
    requires s.sortMethod == "resolution" && !s.useOutputFolder
    requires s.thresholds == [("lores", Finite(262144)), ("medres", Finite(614400))]
    requires dims(["input", "a.png"]) == Some((512, 700))
    ensures ListingEntries(s, ["input"], ["input"], ["a.png", "a.txt"], Filtered(["a.png", "a.txt"], IsImageName), dims) ==
      [QueueItem(["input", "a.png"], ["input", "medres", "a.png"], 0), QueueItem(["input", "a.txt"], ["input", "medres", "a.txt"], 0)]
  {
    var png: string, txt: string := "a.png", "a.txt";
    var listing: seq<string> := [png, txt];
    ExampleListing(png, txt);
    var root: Path := ["input"];
    ThresholdFolderFirstFit(512 * 700, s.thresholds, s.dynamicThresholds, 1);
    assert TargetFolder(s, root, root, 512 * 700) == Ok(root + ["medres"]);
    ImageEntriesShape(s, root, root, listing, png, (512, 700));
    assert ListingEntries(s, root, root, listing, [png], dims) ==
      ListingEntries(s, root, root, listing, [], dims) + ImageEntries(s, root, root, listing, png, dims(root + [png])) by {
      assert [png][..0] == [];
    }
    assert root + [png] == ["input", "a.png"] && root + [txt] == ["input", "a.txt"];
    assert root + ["medres"] + [png] == ["input", "medres", "a.png"];
    assert root + ["medres"] + [txt] == ["input", "medres", "a.txt"];
  }

  // ---------------------------------------------------------------- the sorter object

  class CustomSorter {
    const settings: SorterSettings
    const inputFolders: seq<Path>
    const outputFolder: Path
    const queueManager: QueueManager

    /** The sorter over the settings the constructor computed; each configured folder name is one path component. */
    constructor(settings: SorterSettings)
      ensures this.settings == settings && fresh(queueManager) && queueManager.queue == []
      ensures |inputFolders| == |settings.inputFolders|
      ensures forall i :: 0 <= i < |inputFolders| ==> inputFolders[i] == [settings.inputFolders[i]]
      ensures outputFolder == [settings.outputFolder]
    {
      this.settings := settings;
      this.inputFolders := seq(|settings.inputFolders|, i requires 0 <= i < |settings.inputFolders| => [settings.inputFolders[i]]);
      this.outputFolder := [settings.outputFolder];
      queueManager := new QueueManager();
    }

    /**
     * `process_file`: create the target folder if nothing is there yet, then queue one move of
     * the file to `target_folder/<base name>`.
     */
    method ProcessFile(fs: FileSystem, filePath: Path, targetFolder: Path)
      modifies fs, queueManager
      ensures queueManager.queue == old(queueManager.queue) + [Entry(filePath, targetFolder)]
      ensures fs.files == old(fs.files)
      ensures fs.dirs == if old(fs.Exists(targetFolder)) then old(fs.dirs) else old(fs.dirs) + Ancestry(targetFolder)
      ensures old(fs.dirs) <= fs.dirs
    {
      if !fs.Exists(targetFolder) {
        fs.MakeDirs(targetFolder);
      }
      var dst := targetFolder + [Basename(filePath)];
      queueManager.AddToQueue(filePath, dst);
    }

    /** The body of the `try` for one image; an exception anywhere in it queues nothing. */
    method SortImage(fs: FileSystem, inputFolder: Path, root: Path, files: seq<string>, imageFile: string,
                     dims: Option<(int, int)>)
      modifies fs, queueManager
      ensures queueManager.queue == old(queueManager.queue) + ImageEntries(settings, inputFolder, root, files, imageFile, dims)
      ensures fs.files == old(fs.files) && old(fs.dirs) <= fs.dirs
    {
      if dims.None? {
        return;
      }
      var (width, height) := dims.value;
      var target := TargetFolder(settings, inputFolder, root, width * height);
      if target.Err? {
        return;
      }
      var filePath := root + [imageFile];
      ProcessFile(fs, filePath, target.value);
      var txt := SidecarName(imageFile);
      if txt in Filtered(files, IsTextName) {
        ProcessFile(fs, root + [txt], target.value);
      }
    }

    /** The images of one listing of the walk, in listing order. */
    method SortListing(fs: FileSystem, inputFolder: Path, root: Path, files: seq<string>, dims: Path -> Option<(int, int)>)
      modifies fs, queueManager
      ensures queueManager.queue == old(queueManager.queue) + ListingEntries(settings, inputFolder, root, files, Filtered(files, IsImageName), dims)
      ensures fs.files == old(fs.files) && old(fs.dirs) <= fs.dirs
    {
      var images := Filtered(files, IsImageName);
      for i := 0 to |images|
        invariant queueManager.queue == old(queueManager.queue) + ListingEntries(settings, inputFolder, root, files, images[..i], dims)
        invariant fs.files == old(fs.files) && old(fs.dirs) <= fs.dirs
      {
        ghost var before := queueManager.queue;
        SortImage(fs, inputFolder, root, files, images[i], dims(root + [images[i]]));
        ListingStep(settings, inputFolder, root, files, images, i, dims, old(queueManager.queue), before, queueManager.queue);
      }
      assert images[..|images|] == images;
    }

    /** The walk of one input folder: every listing it yields, in order. */
    method SortWalk(fs: FileSystem, inputFolder: Path, walk: seq<(Path, seq<string>)>, dims: Path -> Option<(int, int)>)
      modifies fs, queueManager
      ensures queueManager.queue == old(queueManager.queue) + WalkEntries(settings, inputFolder, walk, dims)
      ensures fs.files == old(fs.files) && old(fs.dirs) <= fs.dirs
    {
      for i := 0 to |walk|
        invariant queueManager.queue == old(queueManager.queue) + WalkEntries(settings, inputFolder, walk[..i], dims)
        invariant fs.files == old(fs.files) && old(fs.dirs) <= fs.dirs
      {
        var (root, files) := walk[i];
        ghost var before := queueManager.queue;
        SortListing(fs, inputFolder, root, files, dims);
        WalkStep(settings, inputFolder, walk, i, dims, old(queueManager.queue), before, queueManager.queue);
      }
      assert walk[..|walk|] == walk;
    }

    /**
     * The post-processing step of `sort_images_and_texts`: a fresh manager over the input
     * folders and the output folder compares and cleans.
     */
    method PostProcess(fs: FileSystem, trash: (Path, nat) -> TrashOutcome, refused: set<Path>)
      modifies fs
      ensures fs.files == Cleaned(old(fs.files), inputFolders, Basenames(FilesUnder(old(fs.files), outputFolder)), trash, |inputFolders|)
      ensures fs.dirs <= old(fs.dirs)
      ensures forall d :: d in old(fs.dirs) && d !in fs.dirs ==>
        d !in refused && IsEmptyDir(fs.files, fs.dirs, d) && exists k :: 0 <= k < |inputFolders| && StrictlyBelow(inputFolders[k], d)
      ensures forall k, d :: 0 <= k < |inputFolders| && d in fs.dirs && StrictlyBelow(inputFolders[k], d) && d !in refused ==>
        !IsEmptyDir(fs.files, fs.dirs, d)
    {
      var post := new PostProcessingManager(inputFolders, outputFolder);
      post.CompareAndClean(fs, trash, refused);
    }

    /**
     * `sort_images_and_texts`: queue the images of every input folder's walk (`walks[i]` is what
     * `os.walk` yields for the i-th folder), drain the queue once, then reconcile and prune the
     * input folders. `moveOutcome` says what each attempted move does, `trash` what each deletion
     * attempt does, and `refused` which directories cannot be removed.
     */
    method SortImagesAndTexts(fs: FileSystem, walks: seq<seq<(Path, seq<string>)>>, dims: Path -> Option<(int, int)>,
                              moveOutcome: QueueItem -> MoveOutcome, trash: (Path, nat) -> TrashOutcome, refused: set<Path>)
      requires |walks| == |inputFolders|
      modifies fs, queueManager
      ensures forall j :: 0 <= j < |queueManager.queue| ==>
        exists e :: e in old(queueManager.queue) + AllEntries(settings, inputFolders, walks, dims, |walks|) &&
          queueManager.queue[j] == Bump(e) && e.attempts < MaxAttempts
    {
      for i := 0 to |inputFolders|
        invariant queueManager.queue == old(queueManager.queue) + AllEntries(settings, inputFolders, walks, dims, i)
        invariant fs.files == old(fs.files) && old(fs.dirs) <= fs.dirs
      {
        ghost var before := queueManager.queue;
        SortWalk(fs, inputFolders[i], walks[i], dims);
        AllStep(settings, inputFolders, walks, dims, i, old(queueManager.queue), before, queueManager.queue);
      }
      var q := queueManager.queue;
      var outcomes := seq(|q|, i requires 0 <= i < |q| => moveOutcome(q[i]));
      ghost var files1, dirs1 := fs.files, fs.dirs;
      queueManager.ProcessQueue(fs, outcomes);
      PassSurvivors(files1, dirs1, q, outcomes);
      PostProcess(fs, trash, refused);
    }
  }
}
