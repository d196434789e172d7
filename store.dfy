/**
 * The teleprompter's session store: the signals that hold the loaded tab
 * files, the selected file, the tempo, the play flag, the current window and
 * the windows of the selected file, with the derived values read from them
 * and the actions that assign them.
 */
module Store {
  import opened Wrappers
  import Fragmenter

  /** A loaded tab file; `bpm` is `None` when the file states no tempo. */
  datatype TabFile = TabFile(
    id: string,
    title: string,
    artist: string,
    tuning: string,
    bpm: Option<int>,
    content: string,
    createdAt: int)

  const InitialBpm := 120
  const MinBpm := 40
  const MaxBpm := 300

  /** Index of the first file with this id, as `Array.prototype.find` picks it. */
  function FindIndex(files: seq<TabFile>, id: string): (r: Option<nat>)
    ensures r.Some? ==> r.value < |files| && files[r.value].id == id
    ensures r.Some? ==> forall j :: 0 <= j < r.value ==> files[j].id != id
    ensures r.None? ==> forall j :: 0 <= j < |files| ==> files[j].id != id
  {
    if |files| == 0 then None
    else if files[0].id == id then Some(0)
    else match FindIndex(files[1..], id)
      case None => None
      case Some(i) => Some(i + 1)
  }

  /** The first file with this id, if any. */
  function FindFile(files: seq<TabFile>, id: string): (r: Option<TabFile>)
    ensures r.Some? ==> r.value in files && r.value.id == id
    ensures r.None? ==> forall f :: f in files ==> f.id != id
  {
    match FindIndex(files, id)
      case None => None
      case Some(i) => Some(files[i])
  }

  /** The file found is the first one with the id: the one at index `i` when no file before it has the id. */
  lemma FindFileFirst(files: seq<TabFile>, id: string, i: nat)
    requires i < |files| && files[i].id == id
    requires forall j :: 0 <= j < i ==> files[j].id != id
    ensures FindFile(files, id) == Some(files[i])
  {
  }

  /** Appending a file never changes which file an id already found. */
  lemma {:induction false} FindFileAppend(files: seq<TabFile>, file: TabFile, id: string)
    ensures FindFile(files + [file], id) ==
            if FindFile(files, id).Some? then FindFile(files, id)
            else if file.id == id then Some(file)
            else None
    decreases |files|
  {
    if |files| > 0 {
      assert (files + [file])[1..] == files[1..] + [file];
      FindFileAppend(files[1..], file, id);
    }
  }

  /** The tempo `setBpm` stores: the argument clamped to [40, 300]. */
  function ClampBpm(v: int): (r: int)
    ensures MinBpm <= r <= MaxBpm
    ensures MinBpm <= v <= MaxBpm ==> r == v
    ensures v < MinBpm ==> r == MinBpm
    ensures v > MaxBpm ==> r == MaxBpm
  {
    Fragmenter.Max(MinBpm, Fragmenter.Min(MaxBpm, v))
  }

  /** The window at index `i`, or the empty text when there is none. */
  function WindowAt(windows: seq<string>, i: int): string {
    if i < 0 || i >= |windows| then "" else windows[i]
  }

  class Session {
    var files: seq<TabFile>
    var currentFileId: Option<string>
    var bpm: int
    var isPlaying: bool
    var windowIndex: int
    var windows: seq<string>

    /**
     * The window index stays within the windows (or at 0 when there are
     * none), and the tempo is never 0, so the playback interval is defined.
     */
    ghost predicate Valid()
      reads this
    {
      0 <= windowIndex <= Fragmenter.Max(0, |windows| - 1) && bpm != 0
    }

    constructor ()
      ensures files == [] && currentFileId == None && bpm == InitialBpm
      ensures !isPlaying && windowIndex == 0 && windows == []
      ensures Valid()
    {
      files := [];
      currentFileId := None;
      bpm := InitialBpm;
      isPlaying := false;
      windowIndex := 0;
      windows := [];
    }

    /** `currentFile`: no file when the id is null or empty, else the first file with that id. */
    function CurrentFile(): (r: Option<TabFile>)
      reads this
      ensures (currentFileId == None || currentFileId == Some("")) ==> r == None
      ensures r.Some? ==> r.value in files && currentFileId == Some(r.value.id)
      ensures r.None? && currentFileId.Some? ==> forall f :: f in files ==> f.id != currentFileId.value || f.id == ""
      ensures currentFileId.Some? && currentFileId.value != "" ==> r == FindFile(files, currentFileId.value)
    {
      match currentFileId
        case None => None
        case Some(id) => if id == "" then None else FindFile(files, id)
    }

    /** `currentWindow`: the window at the index, or the empty string when the index is out of range. */
    function CurrentWindow(): (w: string)
      reads this
      ensures 0 <= windowIndex < |windows| ==> w == windows[windowIndex]
      ensures !(0 <= windowIndex < |windows|) ==> w == ""
    {
      WindowAt(windows, windowIndex)
    }

    /** `totalWindows`. */
    function TotalWindows(): (n: nat)
      reads this
      ensures n == |windows|
    {
      |windows|
    }

    /**
     * `progress`: 0 with no windows, else (index + 1) / total as a percentage
     * rounded half up, as `Math.round` does.
     */
    function Progress(): (p: int)
      reads this
      ensures |windows| == 0 ==> p == 0
      ensures |windows| > 0 ==>
        (p as real) - 0.5 <= (windowIndex + 1) as real * 100.0 / |windows| as real < (p as real) + 0.5
      ensures 0 <= windowIndex < |windows| ==> 0 <= p <= 100
      ensures |windows| > 0 && windowIndex == |windows| - 1 ==> p == 100
    {
      var total := |windows|;
      if total == 0 then 0
      else
        var p := ((windowIndex + 1) * 200 + total) / (2 * total);
        RoundHalfUp((windowIndex + 1) * 100, total, p);
        PercentBounds(windowIndex, total, p);
        p
    }

    /**
     * `selectFile`: an unknown id changes nothing; otherwise playback stops,
     * the file becomes current, its content is cut into windows from the
     * first one, and a tempo the file states (non-null, non-zero) is adopted
     * as is, without clamping.
     */
    method SelectFile(fileId: string)
      modifies this
      ensures old(Valid()) ==> Valid()
      ensures files == old(files)
      ensures FindFile(files, fileId) == None ==>
        currentFileId == old(currentFileId) && bpm == old(bpm) && isPlaying == old(isPlaying) &&
        windowIndex == old(windowIndex) && windows == old(windows)
      ensures FindFile(files, fileId).Some? ==>
        var file := FindFile(files, fileId).value;
        !isPlaying && currentFileId == Some(fileId) && windowIndex == 0 &&
        windows == Fragmenter.Fragment(file.content, Fragmenter.DefaultLinesPerWindow) &&
        bpm == (if file.bpm.Some? && file.bpm.value != 0 then file.bpm.value else old(bpm))
      ensures FindFile(files, fileId).Some? ==>
        TotalWindows() >= 1 && CurrentWindow() == windows[0] &&
        (fileId != "" ==> CurrentFile() == FindFile(files, fileId))
    {
      var found := FindFile(files, fileId);
      if found.None? {
        return;
      }
      var file := found.value;
      isPlaying := false;
      currentFileId := Some(fileId);
      windowIndex := 0;
      windows := Fragmenter.FragmentTabContent(file.content, Fragmenter.DefaultLinesPerWindow);
      if file.bpm.Some? && file.bpm.value != 0 {
        bpm := file.bpm.value;
      }
      assert windowIndex <= Fragmenter.Max(0, |windows| - 1);
    }

    /** `setBpm`: the tempo becomes the argument clamped to [40, 300]; nothing else changes. */
    method SetBpm(v: int)
      modifies this`bpm
      ensures old(Valid()) ==> Valid()
      ensures bpm == ClampBpm(v)
    {
      bpm := ClampBpm(v);
    }

    /** `togglePlayback`. */
    method TogglePlayback()
      modifies this`isPlaying
      ensures old(Valid()) ==> Valid()
      ensures isPlaying == !old(isPlaying)
    {
      isPlaying := !isPlaying;
    }

    /** `nextWindow`: one step forward unless already at the last window. */
    method NextWindow()
      modifies this`windowIndex
      ensures old(Valid()) ==> Valid()
      ensures old(windowIndex) < |windows| - 1 ==> windowIndex == old(windowIndex) + 1
      ensures old(windowIndex) >= |windows| - 1 ==> windowIndex == old(windowIndex)
    {
      if windowIndex < |windows| - 1 {
        windowIndex := windowIndex + 1;
      }
    }

    /** `prevWindow`: one step back unless already at the first window. */
    method PrevWindow()
      modifies this`windowIndex
      ensures old(Valid()) ==> Valid()
      ensures old(windowIndex) > 0 ==> windowIndex == old(windowIndex) - 1
      ensures old(windowIndex) <= 0 ==> windowIndex == old(windowIndex)
    {
      if windowIndex > 0 {
        windowIndex := windowIndex - 1;
      }
    }

    /** `addFile`: the file goes at the end; earlier files and their lookups are kept. */
    method AddFile(file: TabFile)
      modifies this`files
      ensures old(Valid()) ==> Valid()
      ensures files == old(files) + [file]
      ensures forall id :: FindFile(old(files), id).Some? ==> FindFile(files, id) == FindFile(old(files), id)
    {
      files := files + [file];
      forall id | FindFile(old(files), id).Some?
        ensures FindFile(files, id) == FindFile(old(files), id)
      {
        FindFileAppend(old(files), file, id);
      }
    }
  }

  /** Division by a positive number, bracketed. */
  lemma DivBounds(a: int, b: int)
    requires b > 0
    ensures (a / b) * b <= a < (a / b) * b + b
  {
  }

  lemma MulLess(x: int, y: int, b: int)
    requires b > 0 && x * b < y * b
    ensures x < y
  {
  }

  /** The quotient is the one multiple of `b` that brackets `a`. */
  lemma DivUnique(a: int, b: int, q: int)
    requires b > 0 && q * b <= a < q * b + b
    ensures a / b == q
  {
    DivBounds(a, b);
    assert (a / b + 1) * b == (a / b) * b + b;
    assert (q + 1) * b == q * b + b;
    MulLess(q, a / b + 1, b);
    MulLess(a / b, q + 1, b);
  }

  /** The rounded percentage of a valid index lies in [0, 100] and is 100 at the last index. */
  lemma PercentBounds(i: int, total: int, p: int)
    requires total > 0 && p == ((i + 1) * 200 + total) / (2 * total)
    ensures 0 <= i < total ==> 0 <= p <= 100
    ensures i == total - 1 ==> p == 100
  {
    var a := (i + 1) * 200 + total;
    var b := 2 * total;
    DivBounds(a, b);
    if 0 <= i < total {
      MulLess(-1, p, b);
      assert a <= 200 * total + total;
      MulLess(p, 101, b);
    }
    if i == total - 1 {
      assert a == 100 * b + total;
      DivUnique(a, b, 100);
    }
  }

  /** `(2a + b) / 2b` is `a / b` rounded half up. */
  lemma RoundHalfUp(a: int, b: int, p: int)
    requires b > 0 && p == (2 * a + b) / (2 * b)
    ensures (p as real) - 0.5 <= a as real / b as real < (p as real) + 0.5
  {
    DivBounds(2 * a + b, 2 * b);
    var x := a as real / b as real;
    assert x * (b as real) == a as real;
    assert (2 * p - 1) * b <= 2 * a;
    assert 2 * a < (2 * p + 1) * b;
    assert ((2 * p - 1) as real) * (b as real) <= 2.0 * x * (b as real);
    assert 2.0 * x * (b as real) < ((2 * p + 1) as real) * (b as real);
  }
}
