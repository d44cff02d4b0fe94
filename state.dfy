/**
 * The two resources of `main.rs` that the registry and list logic work on:
 * `ManagerState` (the mod list, the record being edited, the selected record,
 * the log and the two directories) and `ConfigState` (the registry document
 * `config.ini`). Also the writing of the registry to disk and the reorder
 * that completes a drag in the mod list.
 */
module State {
  import opened Wrappers
  import opened Ini
  import opened Logging
  import opened Mods

  /** `ConfigState`: the registry in memory and the last copy of it written to `config.ini`. */
  class ConfigState {
    var config: Doc
    /** What `config.ini` holds after this process's last successful write; None before any. */
    var persisted: Option<Doc>
    /** The outcome of writing `config.ini`: None when writes succeed, else the error they report. */
    const writeError: Option<string>

    constructor (config: Doc, writeError: Option<string>)
      ensures this.config == config && persisted == None && this.writeError == writeError
    {
      this.config := config;
      persisted := None;
      this.writeError := writeError;
    }
  }

  /** `ManagerState` without the drag-and-drop widget state and the console flag. */
  class ManagerState {
    var gamePath: string
    var modsPath: string
    /** The record the Create and Edit windows fill in. */
    var modEdit: ModData
    var modDatas: seq<ModData>
    var selectedMod: ModData
    const log: Log

    /** `ManagerState::default()`, with the log it owns. */
    constructor (log: Log)
      ensures gamePath == "" && modsPath == "" && modDatas == []
      ensures modEdit == Blank() && selectedMod == Blank() && this.log == log
    {
      gamePath := "";
      modsPath := "";
      modEdit := Blank();
      modDatas := [];
      selectedMod := Blank();
      this.log := log;
    }

    /** Holds when every record's `order` is its position in the list. */
    predicate OrderIsIndex()
      reads this
    {
      forall i :: 0 <= i < |modDatas| ==> modDatas[i].order == i
    }

    /**
     * The end of a drag in `mods_layout`: `shift_vec` moves the dragged
     * record, then every record's `order` is set to its new position.
     */
    method CompleteDrag(from: nat, to: nat)
      requires CanShift(from, to, |modDatas|)
      modifies this`modDatas
      ensures |modDatas| == |old(modDatas)|
      ensures forall i :: 0 <= i < |modDatas| ==> modDatas[i] == ShiftVec(from, to, old(modDatas))[i].(order := i)
      ensures OrderIsIndex()
    {
      modDatas := ShiftVec(from, to, modDatas);
      ghost var shifted := modDatas;
      for i := 0 to |modDatas|
        invariant |modDatas| == |shifted|
        invariant forall j :: 0 <= j < i ==> modDatas[j] == shifted[j].(order := j)
        invariant forall j :: i <= j < |modDatas| ==> modDatas[j] == shifted[j]
      {
        modDatas := modDatas[i := modDatas[i].(order := i)];
      }
    }

    /** Clicking a mod's label: the selection becomes a copy of that record. */
    method Select(index: nat)
      requires index < |modDatas|
      modifies this`selectedMod
      ensures selectedMod == modDatas[index]
    {
      selectedMod := modDatas[index];
    }

    /**
     * The search for `selected_index` in `ui_system`: the first record whose
     * name is the selected record's name; None stands for `usize::MAX`.
     */
    method SelectedIndex() returns (index: Option<nat>)
      ensures index.Some? ==> index.value < |modDatas| && modDatas[index.value].name == selectedMod.name
      ensures index.Some? ==> forall j :: 0 <= j < index.value ==> modDatas[j].name != selectedMod.name
      ensures index.None? ==> forall j :: 0 <= j < |modDatas| ==> modDatas[j].name != selectedMod.name
    {
      index := None;
      var i := 0;
      while i < |modDatas|
        invariant 0 <= i <= |modDatas|
        invariant forall j :: 0 <= j < i ==> modDatas[j].name != selectedMod.name
      {
        if modDatas[i].name == selectedMod.name {
          index := Some(i);
          return;
        }
        i := i + 1;
      }
    }

    /** "Edit mod" was chosen: the edit window starts from a copy of the selected record. */
    method BeginEdit(selected: nat)
      requires selected < |modDatas|
      modifies this`modEdit
      ensures modEdit == modDatas[selected]
    {
      modEdit := modDatas[selected];
    }
  }

  /** `write_config`: write the registry to `config.ini`, logging an error on failure. */
  function ConfigWriteLines(writeError: Option<string>): seq<LogLine>
  {
    match writeError
    case None => []
    case Some(e) => [LogLine(Error, "Could not create config ini! " + e)]
  }

  method WriteConfig(ui: ManagerState, cfg: ConfigState, now: string)
    modifies cfg`persisted, ui.log
    ensures cfg.persisted == if cfg.writeError.None? then Some(cfg.config) else old(cfg.persisted)
    ensures ui.log.Appended(Render(ConfigWriteLines(cfg.writeError), now))
  {
    match cfg.writeError {
      case None =>
        cfg.persisted := Some(cfg.config);
        assert ui.log.logFile.Some? ==> ui.log.logFile.value + "" == ui.log.logFile.value;
      case Some(e) =>
        ui.log.AddToLog(Error, now, "Could not create config ini! " + e);
        assert Render(ConfigWriteLines(cfg.writeError), now) == Entry(Error, now, "Could not create config ini! " + e);
    }
  }

  // -----------------------------------------------------------------------
  // The start-up log
  // -----------------------------------------------------------------------

  const LaunchedMessage: string := "Launched GUILTY GEAR Xrd Mod Manager"

  /**
   * The `init_log` startup system of `main.rs`: it logs the launch message.
   * It shares its name with `Log::init_log` but does not call it.
   */
  method LogLaunch(log: Log, now: string)
    modifies log
    ensures log.Appended(Entry(Info, now, LaunchedMessage))
  {
    log.AddToLog(Info, now, LaunchedMessage);
  }

  /**
   * As written: `main.rs`'s `init_log` appends exactly the launch entry to
   * the fresh `Log::default()` and leaves it without a handle. Nothing opens
   * `Launch.log`, so however writable the file would be, no text is ever
   * mirrored. (The other start-up systems may log before or after it.)
   */
  method StartLogAsWritten(fileWritable: bool, now: string) returns (log: Log)
    ensures log.logText == Entry(Info, now, LaunchedMessage)
    ensures log.logFile == None && log.fileWritable == fileWritable
  {
    log := new Log(fileWritable);
    LogLaunch(log, now);
  }

  /** Text appended to an empty log is the whole log. */
  lemma AppendToEmpty(text: string)
    ensures "" + text == text
  {
  }

  /**
   * As evidently intended: `Log::init_log` opens `Launch.log` before the
   * launch message is logged, so an opened, writable file receives every
   * entry this process logs.
   */
  method StartLogFixed(fileWritable: bool, fileOpened: bool, openError: string, now: string) returns (log: Log)
    ensures fileOpened ==> log.logText == Entry(Info, now, LaunchedMessage)
    ensures fileOpened && fileWritable ==> log.logFile == Some(log.logText)
    ensures !fileOpened ==> && log.logFile == None
                            && log.logText == Entry(Error, now, "Failed to create log file! " + openError) + Entry(Info, now, LaunchedMessage)
  {
    log := new Log(fileWritable);
    log.InitLog(fileOpened, openError, now);
    if fileOpened {
      LogLaunch(log, now);
      AppendToEmpty(Entry(Info, now, LaunchedMessage));
    } else {
      AppendToEmpty(Entry(Error, now, "Failed to create log file! " + openError));
      LogLaunch(log, now);
    }
  }

  // -----------------------------------------------------------------------
  // egui_dnd's `shift_vec`
  // -----------------------------------------------------------------------

  /** When `shift_vec` does not panic: the slice it rotates lies within the list. */
  predicate CanShift(from: nat, to: nat, len: nat)
  {
    (from <= to && to <= len) || (to < from && from < len)
  }

  /**
   * `shift_vec(from, to, v)`: rotates `v[from..to]` left by one when
   * `from < to`, `v[to..=from]` right by one when `to < from`, and leaves
   * `v` alone when they are equal.
   */
  function ShiftVec<T>(from: nat, to: nat, v: seq<T>): (r: seq<T>)
    requires CanShift(from, to, |v|)
    ensures |r| == |v|
    ensures multiset(r) == multiset(v)
  {
    if from < to then
      assert v == v[..from] + [v[from]] + v[from + 1..to] + v[to..];
      v[..from] + v[from + 1..to] + [v[from]] + v[to..]
    else if to < from then
      assert v == v[..to] + v[to..from] + [v[from]] + v[from + 1..];
      v[..to] + [v[from]] + v[to..from] + v[from + 1..]
    else v
  }

  /** Where the dragged element ends up. */
  function Landing(from: nat, to: nat): nat
  {
    if from < to then to - 1 else to
  }

  /** The list without its `i`-th element. */
  function RemoveAt<T>(v: seq<T>, i: nat): (r: seq<T>)
    requires i < |v|
    ensures |r| == |v| - 1
  {
    v[..i] + v[i + 1..]
  }

  /** The list with `x` inserted so that it sits at index `i`. */
  function InsertAt<T>(v: seq<T>, i: nat, x: T): (r: seq<T>)
    requires i <= |v|
    ensures |r| == |v| + 1 && r[i] == x
  {
    v[..i] + [x] + v[i..]
  }

  /**
   * The meaning of a drag: the dragged element is taken out and put back so
   * that it sits at `Landing(from, to)`; all others keep their relative order.
   */
  lemma ShiftVecMoves<T>(from: nat, to: nat, v: seq<T>)
    requires CanShift(from, to, |v|) && from < |v|
    ensures Landing(from, to) < |v|
    ensures ShiftVec(from, to, v) == InsertAt(RemoveAt(v, from), Landing(from, to), v[from])
  {
    var r := ShiftVec(from, to, v);
    var s := InsertAt(RemoveAt(v, from), Landing(from, to), v[from]);
    assert |r| == |s|;
    if from < to {
      forall k | 0 <= k < |r| ensures r[k] == s[k] {
        if k < from {
          assert r[k] == v[k] && s[k] == v[k];
        } else if k < to - 1 {
          assert r[k] == v[k + 1] && s[k] == v[k + 1];
        } else if k == to - 1 {
          assert r[k] == v[from];
        } else {
          assert r[k] == v[k] && s[k] == v[k];
        }
      }
    } else if to < from {
      forall k | 0 <= k < |r| ensures r[k] == s[k] {
        if k < to {
          assert r[k] == v[k] && s[k] == v[k];
        } else if k == to {
          assert r[k] == v[from];
        } else if k <= from {
          assert r[k] == v[k - 1] && s[k] == v[k - 1];
        } else {
          assert r[k] == v[k] && s[k] == v[k];
        }
      }
    } else {
      forall k | 0 <= k < |r| ensures r[k] == s[k] {
        if k < from {
          assert s[k] == v[k];
        } else if k > from {
          assert s[k] == v[k];
        }
      }
    }
  }
}
