/**
 * The move history of `sort_methods/history.py`: `file_history.yaml` holds a mapping from a file's
 * base name to the paths it moved between and its metadata. The YAML document is modelled as the
 * mapping it persists.
 */
module History {
  import opened Wrappers
  import opened Values
  import opened Paths

  /** One history entry: `{"original_path": ..., "new_path": ..., "metadata": ...}`. */
  datatype HistoryEntry = HistoryEntry(originalPath: Path, newPath: Path, metadata: Metadata)

  type HistoryMap = map<string, HistoryEntry>

  /** What `file_history.yaml` holds: no file, a document `safe_load` reads as nothing, or a mapping. */
  datatype HistoryFile = Missing | EmptyDocument | Saved(history: HistoryMap)

  /** `load_history()`. */
  function Loaded(f: HistoryFile): HistoryMap {
    if f.Saved? then f.history else map[]
  }

  /** The history after `log_file_move(original_path, new_path, metadata)` on history `h`. */
  function Logged(h: HistoryMap, originalPath: Path, newPath: Path, metadata: Option<Metadata>): HistoryMap {
    h[Basename(originalPath) := HistoryEntry(originalPath, newPath, metadata.GetOr(map[]))]
  }

  /** A missing file and an empty document both load as the empty history. */
  lemma LoadedDefaults()
    ensures Loaded(Missing) == map[] && Loaded(EmptyDocument) == map[]
  {
  }

  /**
   * Logging a move files the entry under the base name of the original path, with both paths
   * verbatim and `{}` for absent metadata; every other base name keeps its entry.
   */
  lemma LoggedEntry(h: HistoryMap, originalPath: Path, newPath: Path, metadata: Option<Metadata>)
    ensures var r := Logged(h, originalPath, newPath, metadata);
      && Basename(originalPath) in r
      && r[Basename(originalPath)].originalPath == originalPath
      && r[Basename(originalPath)].newPath == newPath
      && (metadata.None? ==> r[Basename(originalPath)].metadata == map[])
      && (metadata.Some? ==> r[Basename(originalPath)].metadata == metadata.value)
      && r.Keys == h.Keys + {Basename(originalPath)}
      && forall k :: k in h && k != Basename(originalPath) ==> r[k] == h[k]
  {
  }

  /** A second move of a file with the same base name overwrites the first entry. */
  lemma LogSameNameOverwrites(h: HistoryMap, o1: Path, n1: Path, m1: Option<Metadata>, o2: Path, n2: Path, m2: Option<Metadata>)
    requires Basename(o1) == Basename(o2)
    ensures Logged(Logged(h, o1, n1, m1), o2, n2, m2) == Logged(h, o2, n2, m2)
  {
  }

  /** Moves of files with different base names can be logged in either order. */
  lemma LogDifferentNamesCommute(h: HistoryMap, o1: Path, n1: Path, m1: Option<Metadata>, o2: Path, n2: Path, m2: Option<Metadata>)
    requires Basename(o1) != Basename(o2)
    ensures Logged(Logged(h, o1, n1, m1), o2, n2, m2) == Logged(Logged(h, o2, n2, m2), o1, n1, m1)
  {
  }

  /** The history file and the two functions that read and update it. */
  class HistoryStore {
    var file: HistoryFile

    constructor(file: HistoryFile)
      ensures this.file == file
    {
      this.file := file;
    }

    /** `load_history()`. */
    method LoadHistory() returns (h: HistoryMap)
      ensures h == Loaded(file)
    {
      if file.Saved? {
        h := file.history;
      } else {
        h := map[];
      }
    }

    /** `log_file_move(original_path, new_path, metadata)`: load, assign one key, save. */
    method LogFileMove(originalPath: Path, newPath: Path, metadata: Option<Metadata>)
      modifies this
      ensures file == Saved(Logged(old(Loaded(file)), originalPath, newPath, metadata))
      ensures Loaded(file) == Logged(old(Loaded(file)), originalPath, newPath, metadata)
    {
      var history := LoadHistory();
      var entry := HistoryEntry(originalPath, newPath, if metadata.Some? then metadata.value else map[]);
      var fileName := Basename(originalPath);
      history := history[fileName := entry];
      file := Saved(history);
    }
  }
}
