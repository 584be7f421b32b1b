/**
 * `sort_methods/sort_by_metadata.py`: the history-backed `extract_metadata(text, key)` (the code
 * after its final `return` never runs and is not modelled), `sanitize_folder_name`, and the
 * selection rule of `sort_by_metadata`, which computes a destination per text file and moves
 * nothing.
 */
module SortByMetadata {
  import opened Wrappers
  import opened Text
  import opened Values
  import opened Paths
  import opened History
  import opened FolderNames

  /**
   * `extract_metadata(text, key)` given the loaded history: the value stored under
   * `history[text]["metadata"][key]`, else `"Unknown"`. The text is the file's contents, used as
   * the lookup key.
   */
  function ExtractMetadata(history: HistoryMap, text: string, key: string): (r: Value)
  {
    if text in history && key in history[text].metadata then history[text].metadata[key]
    else Str("Unknown")
  }

  /** All three levels present: the stored value; any level missing: `"Unknown"`. */
  lemma ExtractMetadataLevels(history: HistoryMap, text: string, key: string)
    ensures text in history && key in history[text].metadata ==>
      ExtractMetadata(history, text, key) == history[text].metadata[key]
    ensures text !in history ==> ExtractMetadata(history, text, key) == Str("Unknown")
    ensures text in history && key !in history[text].metadata ==> ExtractMetadata(history, text, key) == Str("Unknown")
  {
  }

  /**
   * After `log_file_move` files metadata holding `key` under a base name, a text equal to that
   * base name looks the value up; other logged entries are not disturbed.
   */
  lemma ExtractAfterLog(h: HistoryMap, originalPath: Path, newPath: Path, m: Metadata, key: string, text: string)
    requires key in m
    ensures ExtractMetadata(Logged(h, originalPath, newPath, Some(m)), Basename(originalPath), key) == m[key]
    ensures text != Basename(originalPath) ==>
      ExtractMetadata(Logged(h, originalPath, newPath, Some(m)), text, key) == ExtractMetadata(h, text, key)
  {
  }

  /** A file `sort_by_metadata` looks at: its name ends in `.txt`, case-sensitively. */
  predicate IsText(name: string) {
    EndsWith(name, ".txt")
  }

  /**
   * The folder the source computes for one listed file, `folder_path/sanitize(value)`, when its
   * value is not `"Unknown"`: `None` when the file is skipped, an error when the value is not a
   * string (`re.sub` raises `TypeError`).
   */
  function Destination(folder: Path, history: HistoryMap, key: string, file: (string, string)): (r: Result<Option<Path>>)
    ensures r.Ok? && r.value.Some? ==> IsText(file.0)
  {
    if !IsText(file.0) then Ok(None)
    else
      var v := ExtractMetadata(history, file.1, key);
      if v == Str("Unknown") then Ok(None)
      else if !v.Str? then Err("TypeError")
      else Ok(Some(folder + [SanitizeFolderName(v.s)]))
  }

  /**
   * `sort_by_metadata(folder_path, metadata_key)` over the first `n` entries of the listing, each
   * given as its name and contents: the destinations computed, in listing order. A missing folder
   * computes nothing; the first non-string value stops the loop with its error.
   */
  function MetadataDestinations(folderExists: bool, folder: Path, listing: seq<(string, string)>, history: HistoryMap, key: string, n: nat): (r: Result<seq<(string, Path)>>)
    requires n <= |listing|
    ensures r.Ok? ==> |r.value| <= n
  {
    if !folderExists || n == 0 then Ok([])
    else match MetadataDestinations(folderExists, folder, listing, history, key, n - 1)
      case Err(e) => Err(e)
      case Ok(ds) =>
        match Destination(folder, history, key, listing[n - 1])
        case Err(e) => Err(e)
        case Ok(None) => Ok(ds)
        case Ok(Some(d)) => Ok(ds + [(listing[n - 1].0, d)])
  }

  /** A listed file is selected when it is a text file whose value is a string other than `"Unknown"`. */
  predicate Selected(history: HistoryMap, key: string, file: (string, string)) {
    IsText(file.0) && ExtractMetadata(history, file.1, key).Str? && ExtractMetadata(history, file.1, key) != Str("Unknown")
  }

  /** `folder_path` joined with the sanitised value of a selected file. */
  function SelectedFolder(folder: Path, history: HistoryMap, key: string, file: (string, string)): Path
    requires Selected(history, key, file)
  {
    folder + [SanitizeFolderName(ExtractMetadata(history, file.1, key).s)]
  }

  /** `d` is the destination of a selected file among the first `n` of the listing. */
  predicate FromListing(folder: Path, listing: seq<(string, string)>, history: HistoryMap, key: string, n: nat, d: (string, Path))
    requires n <= |listing|
  {
    exists i :: 0 <= i < n && Selected(history, key, listing[i]) && d == (listing[i].0, SelectedFolder(folder, history, key, listing[i]))
  }

  /** One step of the loop: a selected file appends its destination, any other file nothing. */
  lemma DestinationsStep(folder: Path, listing: seq<(string, string)>, history: HistoryMap, key: string, n: nat)
    requires 0 < n <= |listing|
    requires MetadataDestinations(true, folder, listing, history, key, n).Ok?
    ensures MetadataDestinations(true, folder, listing, history, key, n - 1).Ok?
    ensures var prev := MetadataDestinations(true, folder, listing, history, key, n - 1).value;
      var ds := MetadataDestinations(true, folder, listing, history, key, n).value;
      (Selected(history, key, listing[n - 1]) ==> ds == prev + [(listing[n - 1].0, SelectedFolder(folder, history, key, listing[n - 1]))])
      && (!Selected(history, key, listing[n - 1]) ==> ds == prev)
  {
  }

  /** Every computed destination belongs to a selected text file and is the folder joined with its sanitised value. */
  lemma {:induction false} DestinationsSelected(folder: Path, listing: seq<(string, string)>, history: HistoryMap, key: string, n: nat)
    requires n <= |listing|
    requires MetadataDestinations(true, folder, listing, history, key, n).Ok?
    ensures var ds := MetadataDestinations(true, folder, listing, history, key, n).value;
      forall j :: 0 <= j < |ds| ==> FromListing(folder, listing, history, key, n, ds[j])
  {
    if n > 0 {
      DestinationsStep(folder, listing, history, key, n);
      DestinationsSelected(folder, listing, history, key, n - 1);
      var prev := MetadataDestinations(true, folder, listing, history, key, n - 1).value;
      var ds := MetadataDestinations(true, folder, listing, history, key, n).value;
      forall j | 0 <= j < |ds| ensures FromListing(folder, listing, history, key, n, ds[j]) {
        if j < |prev| {
          assert ds[j] == prev[j];
          assert FromListing(folder, listing, history, key, n - 1, prev[j]);
          var i :| 0 <= i < n - 1 && Selected(history, key, listing[i]) && prev[j] == (listing[i].0, SelectedFolder(folder, history, key, listing[i]));
        } else {
          assert ds[j] == (listing[n - 1].0, SelectedFolder(folder, history, key, listing[n - 1]));
        }
      }
    }
  }

  /** Every selected text file gets its destination. */
  lemma {:induction false} DestinationsComplete(folder: Path, listing: seq<(string, string)>, history: HistoryMap, key: string, n: nat)
    requires n <= |listing|
    requires MetadataDestinations(true, folder, listing, history, key, n).Ok?
    ensures var ds := MetadataDestinations(true, folder, listing, history, key, n).value;
      forall i :: 0 <= i < n && Selected(history, key, listing[i]) ==>
        (listing[i].0, SelectedFolder(folder, history, key, listing[i])) in ds
  {
    if n > 0 {
      DestinationsStep(folder, listing, history, key, n);
      DestinationsComplete(folder, listing, history, key, n - 1);
    }
  }

  /** A missing folder, or a listing without a text file, computes no destination. */
  lemma NoTextNoDestination(folderExists: bool, folder: Path, listing: seq<(string, string)>, history: HistoryMap, key: string, n: nat)
    requires n <= |listing|
    requires !folderExists || forall i :: 0 <= i < n ==> !IsText(listing[i].0)
    ensures MetadataDestinations(folderExists, folder, listing, history, key, n) == Ok([])
  {
    if folderExists && n > 0 {
      NoTextNoDestination(folderExists, folder, listing, history, key, n - 1);
    }
  }

  /** Every computed destination is one folder below `folder_path`, named without forbidden characters. */
  lemma DestinationsAreSanitized(folder: Path, listing: seq<(string, string)>, history: HistoryMap, key: string)
    requires MetadataDestinations(true, folder, listing, history, key, |listing|).Ok?
    ensures var ds := MetadataDestinations(true, folder, listing, history, key, |listing|).value;
      forall j :: 0 <= j < |ds| ==> (Dirname(ds[j].1) == folder && forall c :: c in Basename(ds[j].1) ==> !Forbidden(c))
  {
    var ds := MetadataDestinations(true, folder, listing, history, key, |listing|).value;
    DestinationsSelected(folder, listing, history, key, |listing|);
    forall j | 0 <= j < |ds| ensures Dirname(ds[j].1) == folder && forall c :: c in Basename(ds[j].1) ==> !Forbidden(c) {
      assert FromListing(folder, listing, history, key, |listing|, ds[j]);
      var i :| 0 <= i < |listing| && Selected(history, key, listing[i]) && ds[j] == (listing[i].0, SelectedFolder(folder, history, key, listing[i]));
      var name := SanitizeFolderName(ExtractMetadata(history, listing[i].1, key).s);
      assert ds[j].1 == folder + [name];
      assert forall c :: c in name ==> exists k :: 0 <= k < |name| && name[k] == c;
    }
  }
}
