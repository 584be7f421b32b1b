/**
 * The move queue of `scripts/cs_queue.py`: a list of `{src, dst, attempts}` entries that a
 * single pass walks over a snapshot, moving, skipping, renaming, retrying or dropping each
 * entry. The SHA-256 comparison becomes equality of contents; whether a move attempt is
 * refused is given per entry by an outcome parameter.
 */
module MoveQueue {
  import opened Wrappers
  import opened Paths
  import opened FileSystems

  /** The attempt limit: an entry that has been retried this often is dropped. */
  const MaxAttempts: nat := 3

  datatype QueueItem = QueueItem(src: Path, dst: Path, attempts: nat)

  /** What `shutil.move` does when it is attempted on a source file that exists. */
  datatype MoveOutcome = MoveSucceeds | PermissionDenied | MoveFails

  /** What a pass does with one entry. */
  datatype Action =
    | DropExhausted       // too many attempts: removed, nothing moved
    | SkipIdentical       // the destination already holds the same contents: removed
    | MoveTo(target: Path) // moved to `target` and removed
    | Retry               // a `PermissionError`: kept, one more attempt counted
    | DropFailed          // any other exception: removed

  /** `calculate_file_hash`: the contents of a readable file, `None` for anything else. */
  function Hash(files: Files, p: Path): Option<string> {
    if p in files then Some(files[p]) else None
  }

  /** `f"{base}_new{ext}"` with `(base, ext) = os.path.splitext(dst)`. */
  function NewName(dst: Path): (r: Path)
    ensures |dst| > 0 ==> Dirname(r) == Dirname(dst) && Basename(r) == Stem(Basename(dst)) + "_new" + SplitExt(Basename(dst)).1
  {
    var (base, ext) := SplitExtPath(dst);
    Dirname(base) + [Basename(base) + "_new" + ext]
  }

  /** The `_new` name is a different path in the same directory. */
  lemma NewNameDiffers(dst: Path)
    requires |dst| > 0
    ensures Dirname(NewName(dst)) == Dirname(dst) && NewName(dst) != dst
  {
    var r := NewName(dst);
    var (stem, ext) := SplitExt(Basename(dst));
    assert |Basename(r)| == |Basename(dst)| + 4;
  }

  /** The decision of one pass for one entry (the model of lines 25-53 with hashing available). */
  function Decide(files: Files, dirs: set<Path>, item: QueueItem, outcome: MoveOutcome): (a: Action)
    ensures a.MoveTo? ==> item.src in files
  {
    if item.attempts >= MaxAttempts then DropExhausted
    else
      var present := item.dst in files || item.dst in dirs;
      if present && Hash(files, item.src) == Hash(files, item.dst) then SkipIdentical
      else
        var target := if present then NewName(item.dst) else item.dst;
        if item.src !in files then DropFailed
        else match outcome
          case MoveSucceeds => MoveTo(target)
          case PermissionDenied => Retry
          case MoveFails => DropFailed
  }

  /** The files after carrying out an action. */
  function Apply(files: Files, item: QueueItem, a: Action): Files
    requires a.MoveTo? ==> item.src in files
  {
    if a.MoveTo? then Moved(files, item.src, a.target) else files
  }

  /** The entry as it stays in the queue after a `PermissionError`. */
  function Bump(item: QueueItem): QueueItem {
    item.(attempts := item.attempts + 1)
  }

  /** Where a pass stands after `n` entries of the snapshot: the files, the kept entries and their snapshot positions. */
  datatype PassState = PassState(files: Files, queue: seq<QueueItem>, kept: seq<nat>)

  /** One step of a pass: the entry `item` at snapshot position `i` meets the state `r`. */
  function Step(r: PassState, dirs: set<Path>, item: QueueItem, outcome: MoveOutcome, i: nat): PassState {
    var a := Decide(r.files, dirs, item, outcome);
    var files := Apply(r.files, item, a);
    if a == Retry then PassState(files, r.queue + [Bump(item)], r.kept + [i])
    else PassState(files, r.queue, r.kept)
  }

  /** The first `n` steps of a pass over the snapshot `q` from the files `files0`. */
  function Pass(files0: Files, dirs: set<Path>, q: seq<QueueItem>, outcomes: seq<MoveOutcome>, n: nat): (r: PassState)
    requires n <= |q| && |outcomes| == |q|
    ensures |r.queue| == |r.kept| <= n
  {
    if n == 0 then PassState(files0, [], [])
    else Step(Pass(files0, dirs, q, outcomes, n - 1), dirs, q[n - 1], outcomes[n - 1], n - 1)
  }

  /** One entry of a pass carried out on the disk; `keep` says whether it stays queued. */
  method MoveEntry(fs: FileSystem, item: QueueItem, outcome: MoveOutcome) returns (keep: bool)
    modifies fs
    ensures var a := Decide(old(fs.files), old(fs.dirs), item, outcome);
      keep == (a == Retry) && fs.files == Apply(old(fs.files), item, a) && fs.dirs == old(fs.dirs)
  {
    if item.attempts >= MaxAttempts {
      return false;
    }
    var dst := item.dst;
    if fs.Exists(dst) {
      var sourceHash := Hash(fs.files, item.src);
      var destinationHash := Hash(fs.files, dst);
      if sourceHash == destinationHash {
        return false;
      }
      dst := NewName(dst);
    }
    if item.src !in fs.files {
      return false;
    }
    match outcome {
      case MoveSucceeds =>
        fs.Move(item.src, dst);
        return false;
      case PermissionDenied =>
        return true;
      case MoveFails =>
        return false;
    }
  }

  class QueueManager {
    var queue: seq<QueueItem>

    constructor()
      ensures queue == []
    {
      queue := [];
    }

    /** `add_to_queue`: a fresh entry at the end, the others untouched. */
    method AddToQueue(src: Path, dst: Path)
      modifies this
      ensures queue == old(queue) + [QueueItem(src, dst, 0)]
    {
      queue := queue + [QueueItem(src, dst, 0)];
    }

    /**
     * `process_queue`: one pass over a snapshot of the queue, `outcomes[i]` being what the
     * move of the i-th entry does if it is attempted.
     */
    method ProcessQueue(fs: FileSystem, outcomes: seq<MoveOutcome>)
      requires |outcomes| == |queue|
      modifies this, fs
      ensures var r := Pass(old(fs.files), old(fs.dirs), old(queue), outcomes, |old(queue)|);
        queue == r.queue && fs.files == r.files && fs.dirs == old(fs.dirs)
    {
      var snapshot := queue;
      ghost var files0 := fs.files;
      ghost var dirs0 := fs.dirs;
      var k := 0;
      for i := 0 to |snapshot|
        invariant fs.dirs == dirs0
        invariant k == |Pass(files0, dirs0, snapshot, outcomes, i).queue|
        invariant queue == Pass(files0, dirs0, snapshot, outcomes, i).queue + snapshot[i..]
        invariant fs.files == Pass(files0, dirs0, snapshot, outcomes, i).files
      {
        ghost var r := Pass(files0, dirs0, snapshot, outcomes, i);
        var item := snapshot[i];
        assert snapshot[i..] == [item] + snapshot[i + 1..];
        var keep := MoveEntry(fs, item, outcomes[i]);
        assert Pass(files0, dirs0, snapshot, outcomes, i + 1) == Step(r, dirs0, item, outcomes[i], i);
        if keep {
          Replaced(r.queue, item, Bump(item), snapshot[i + 1..]);
          queue := queue[k := Bump(item)];
          k := k + 1;
        } else {
          Removed(r.queue, item, snapshot[i + 1..]);
          queue := queue[..k] + queue[k + 1..];
        }
      }
    }
  }

  lemma Replaced<T>(front: seq<T>, x: T, y: T, back: seq<T>)
    ensures (front + ([x] + back))[|front| := y] == front + [y] + back
  {
  }

  lemma Removed<T>(front: seq<T>, x: T, back: seq<T>)
    ensures (front + ([x] + back))[..|front|] + (front + ([x] + back))[|front| + 1..] == front + back
  {
    var s := front + ([x] + back);
    assert s[..|front|] == front;
    assert s[|front| + 1..] == back;
  }

  /** An entry that has used up its attempts is dropped and nothing moves. */
  lemma ExhaustedDropped(files: Files, dirs: set<Path>, item: QueueItem, outcome: MoveOutcome)
    requires item.attempts >= MaxAttempts
    ensures Decide(files, dirs, item, outcome) == DropExhausted
    ensures Apply(files, item, DropExhausted) == files
  {
  }

  /** A destination that already holds the source's contents: the entry goes and both files stay. */
  lemma IdenticalSkipped(files: Files, dirs: set<Path>, item: QueueItem, outcome: MoveOutcome)
    requires item.attempts < MaxAttempts
    requires item.src in files && item.dst in files && files[item.src] == files[item.dst]
    ensures Decide(files, dirs, item, outcome) == SkipIdentical
    ensures Apply(files, item, SkipIdentical) == files
  {
  }

  /** A destination with other contents: the move goes to the `_new` name beside it. */
  lemma DifferentRenamed(files: Files, dirs: set<Path>, item: QueueItem)
    requires item.attempts < MaxAttempts && |item.dst| > 0
    requires item.src in files && item.dst in files && files[item.src] != files[item.dst]
    ensures var a := Decide(files, dirs, item, MoveSucceeds);
      a == MoveTo(NewName(item.dst)) && a.target != item.dst && Dirname(a.target) == Dirname(item.dst)
    ensures var r := Apply(files, item, Decide(files, dirs, item, MoveSucceeds));
      r[item.dst] == files[item.dst] && r[NewName(item.dst)] == files[item.src]
  {
    NewNameDiffers(item.dst);
  }

  /** An entry stays queued exactly when its move was refused with a `PermissionError`. */
  lemma RetryExactly(files: Files, dirs: set<Path>, item: QueueItem, outcome: MoveOutcome)
    ensures Decide(files, dirs, item, outcome) == Retry <==>
      (item.attempts < MaxAttempts && item.src in files && outcome == PermissionDenied &&
       !((item.dst in files || item.dst in dirs) && Hash(files, item.src) == Hash(files, item.dst)))
  {
  }

  /** The kept entries are retried snapshot entries, listed in snapshot order. */
  predicate KeepsRetried(r: PassState, q: seq<QueueItem>, outcomes: seq<MoveOutcome>, n: nat)
    requires |r.queue| == |r.kept| && n <= |q| == |outcomes|
  {
    (forall j :: 0 <= j < |r.kept| ==> r.kept[j] < n && r.queue[j] == Bump(q[r.kept[j]])) &&
    (forall j :: 0 <= j < |r.kept| ==> q[r.kept[j]].attempts < MaxAttempts && outcomes[r.kept[j]] == PermissionDenied) &&
    (forall j, j' :: 0 <= j < j' < |r.kept| ==> r.kept[j] < r.kept[j'])
  }

  /** One step keeps the kept entries retried and in order. */
  lemma StepKeeps(r: PassState, dirs: set<Path>, q: seq<QueueItem>, outcomes: seq<MoveOutcome>, n: nat)
    requires 0 < n <= |q| == |outcomes| && |r.queue| == |r.kept|
    requires KeepsRetried(r, q, outcomes, n - 1)
    ensures var r' := Step(r, dirs, q[n - 1], outcomes[n - 1], n - 1);
      |r'.queue| == |r'.kept| && KeepsRetried(r', q, outcomes, n)
  {
    var a := Decide(r.files, dirs, q[n - 1], outcomes[n - 1]);
    if a == Retry {
      RetryExactly(r.files, dirs, q[n - 1], outcomes[n - 1]);
    }
  }

  /**
   * After a pass the queue is the retried entries in their old order, each with one more
   * attempt counted; every survivor had attempts left and was refused with a `PermissionError`.
   */
  lemma {:induction false} PassKeeps(files0: Files, dirs: set<Path>, q: seq<QueueItem>, outcomes: seq<MoveOutcome>, n: nat)
    requires n <= |q| && |outcomes| == |q|
    ensures KeepsRetried(Pass(files0, dirs, q, outcomes, n), q, outcomes, n)
  {
    if n > 0 {
      PassKeeps(files0, dirs, q, outcomes, n - 1);
      StepKeeps(Pass(files0, dirs, q, outcomes, n - 1), dirs, q, outcomes, n);
    }
  }

  /** Whatever stays queued after a pass is an entry of the drained queue with attempts left, bumped once. */
  lemma PassSurvivors(files0: Files, dirs: set<Path>, q: seq<QueueItem>, outcomes: seq<MoveOutcome>)
    requires |outcomes| == |q|
    ensures forall j :: 0 <= j < |Pass(files0, dirs, q, outcomes, |q|).queue| ==>
      exists e :: e in q && Pass(files0, dirs, q, outcomes, |q|).queue[j] == Bump(e) && e.attempts < MaxAttempts
  {
    var r := Pass(files0, dirs, q, outcomes, |q|);
    PassKeeps(files0, dirs, q, outcomes, |q|);
    forall j | 0 <= j < |r.queue|
      ensures exists e :: e in q && r.queue[j] == Bump(e) && e.attempts < MaxAttempts
    {
      var i := r.kept[j];
      assert i < |q| && r.queue[j] == Bump(q[i]) && q[i].attempts < MaxAttempts;
      assert q[i] in q;
    }
    assert forall j :: 0 <= j < |r.queue| ==> exists e :: e in q && r.queue[j] == Bump(e) && e.attempts < MaxAttempts;
  }

  /** A pass over entries that have all used up their attempts empties the queue and moves nothing. */
  lemma {:induction false} PassAllExhausted(files0: Files, dirs: set<Path>, q: seq<QueueItem>, outcomes: seq<MoveOutcome>, n: nat)
    requires n <= |q| && |outcomes| == |q|
    requires forall i :: 0 <= i < |q| ==> q[i].attempts >= MaxAttempts
    ensures Pass(files0, dirs, q, outcomes, n) == PassState(files0, [], [])
  {
    if n > 0 {
      PassAllExhausted(files0, dirs, q, outcomes, n - 1);
    }
  }

  /**
   * The same decision as `process_queue` is shipped: `hashlib` is never imported, so hashing an
   * existing destination raises `NameError`, which the generic handler turns into a drop.
   */
  function DecideAsWritten(files: Files, dirs: set<Path>, item: QueueItem, outcome: MoveOutcome): Action {
    if item.attempts >= MaxAttempts then DropExhausted
    else if item.dst in files || item.dst in dirs then DropFailed
    else if item.src !in files then DropFailed
    else match outcome
      case MoveSucceeds => MoveTo(item.dst)
      case PermissionDenied => Retry
      case MoveFails => DropFailed
  }

  /** As shipped, a file whose destination name is taken by other contents is dropped instead of moved to `_new`. */
  lemma AsWrittenDropsDifferent(src: Path, dst: Path)
    requires src == ["a.png"] && dst == ["out", "a.png"]
    ensures var files := map[src := "x", dst := "y"];
      var item := QueueItem(src, dst, 0);
      DecideAsWritten(files, {}, item, MoveSucceeds) == DropFailed &&
      Decide(files, {}, item, MoveSucceeds) == MoveTo(NewName(dst)) &&
      NewName(dst) != dst
  {
    NewNameDiffers(dst);
  }

  /** Where the destination is free, the shipped decision and the intended one agree. */
  lemma AsWrittenAgreesWhenFree(files: Files, dirs: set<Path>, item: QueueItem, outcome: MoveOutcome)
    requires item.dst !in files && item.dst !in dirs
    ensures DecideAsWritten(files, dirs, item, outcome) == Decide(files, dirs, item, outcome)
  {
  }
}
