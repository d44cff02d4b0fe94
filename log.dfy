/**
 * The in-app log of `log.rs`: an append-only text to which every message is
 * added as one severity-tagged, timestamped line, and which is mirrored into
 * `Launch.log` once `Log::init_log` has opened that file. The program as
 * written never calls `Log::init_log` (see `State.StartLogAsWritten`), so
 * there the mirror stays closed. The clock is not modelled:
 * callers pass the formatted timestamp (`%Y-%m-%d %H:%M`).
 */
module Logging {
  import opened Wrappers

  datatype LogType = Info | Warn | Error

  function Tag(kind: LogType): string
  {
    match kind
    case Info => "[INFO]"
    case Warn => "[WARN]"
    case Error => "[ERROR]"
  }

  /** The text one call of `add_to_log` appends: `[TAG] [timestamp] data` and a newline. */
  function Entry(kind: LogType, timestamp: string, data: string): (r: string)
    ensures Tag(kind) <= r && |r| > |data| && r[|r| - 1] == '\n'
  {
    Tag(kind) + " [" + timestamp + "] " + data + "\n"
  }

  /** A message to log, before it is stamped. */
  datatype LogLine = LogLine(kind: LogType, message: string)

  /** The text a sequence of `add_to_log` calls with one timestamp appends, in order. */
  function Render(lines: seq<LogLine>, timestamp: string): string
  {
    if lines == [] then ""
    else
      var last := lines[|lines| - 1];
      Render(lines[..|lines| - 1], timestamp) + Entry(last.kind, timestamp, last.message)
  }

  /** One more line after a rendered run. */
  lemma RenderSnoc(lines: seq<LogLine>, line: LogLine, timestamp: string)
    ensures Render(lines + [line], timestamp) == Render(lines, timestamp) + Entry(line.kind, timestamp, line.message)
  {
    assert (lines + [line])[..|lines|] == lines;
  }

  /**
   * Regrouping three strings. Kept as a lemma of its own: stated inline
   * inside `RenderConcat`, next to the unfoldings of `Render`, the same
   * step costs the solver more than it is allowed.
   */
  lemma Associative(x: string, y: string, z: string)
    ensures (x + y) + z == x + (y + z)
  {
  }

  lemma {:induction false} RenderConcat(a: seq<LogLine>, b: seq<LogLine>, timestamp: string)
    ensures Render(a + b, timestamp) == Render(a, timestamp) + Render(b, timestamp)
  {
    if b == [] {
      assert a + b == a;
    } else {
      var front, last := b[..|b| - 1], b[|b| - 1];
      assert (a + b)[..|a + b| - 1] == a + front;
      RenderConcat(a, front, timestamp);
      Associative(Render(a, timestamp), Render(front, timestamp), Entry(last.kind, timestamp, last.message));
    }
  }

  /**
   * The colour class the console gives a line (the layouter of `ui_system`
   * tests the line's prefix): the partner that reads an entry's severity back.
   */
  function Severity(line: string): Option<LogType>
  {
    if "[INFO]" <= line then Some(Info)
    else if "[WARN]" <= line then Some(Warn)
    else if "[ERROR]" <= line then Some(Error)
    else None
  }

  /** Every entry ends its line, and its severity reads back from its first characters. */
  lemma EntryReadsBack(kind: LogType, timestamp: string, data: string)
    ensures var e := Entry(kind, timestamp, data);
            |e| > 0 && e[|e| - 1] == '\n' && Severity(e) == Some(kind)
  {
    var e := Entry(kind, timestamp, data);
    assert e == Tag(kind) + (" [" + timestamp + "] " + data + "\n");
    assert Tag(kind) <= e;
    match kind
    case Info =>
    case Warn =>
      assert e[1] == 'W';
    case Error =>
      assert e[1] == 'E';
  }

  /** What the `Launch.log` handle holds after `text` is written through it (nothing happens without a handle or when writes fail). */
  function Mirror(file: Option<string>, writable: bool, text: string): (r: Option<string>)
    ensures r.Some? <==> file.Some?
    ensures r.Some? ==> file.value <= r.value
  {
    if file.Some? && writable then Some(file.value + text) else file
  }

  /** Two writes through the handle are one write of both texts. */
  lemma MirrorConcat(file: Option<string>, writable: bool, a: string, b: string)
    ensures Mirror(Mirror(file, writable, a), writable, b) == Mirror(file, writable, a + b)
  {
    if file.Some? && writable {
      assert file.value + a + b == file.value + (a + b);
    }
  }

  /** The text and file after one more line, as the text and file after the whole run. */
  lemma LoggedStep(base: string, baseFile: Option<string>, writable: bool, lines: seq<LogLine>, line: LogLine, timestamp: string)
    ensures var before := Render(lines, timestamp);
            var entry := Entry(line.kind, timestamp, line.message);
            && (base + before) + entry == base + Render(lines + [line], timestamp)
            && Mirror(Mirror(baseFile, writable, before), writable, entry) == Mirror(baseFile, writable, Render(lines + [line], timestamp))
  {
    var before := Render(lines, timestamp);
    var entry := Entry(line.kind, timestamp, line.message);
    RenderSnoc(lines, line, timestamp);
    MirrorConcat(baseFile, writable, before, entry);
    assert (base + before) + entry == base + (before + entry);
  }

  /** Logging `a` and then `b` after `base` is logging `a + b` after it. */
  lemma LoggedThen(base: string, baseFile: Option<string>, writable: bool, a: string, b: string)
    ensures (base + a) + b == base + (a + b)
    ensures Mirror(Mirror(baseFile, writable, a), writable, b) == Mirror(baseFile, writable, a + b)
  {
    MirrorConcat(baseFile, writable, a, b);
  }

  class Log {
    /** Everything logged so far (`log_text`). */
    var logText: string
    /** What this process has written through the `Launch.log` handle; None when there is no handle. */
    var logFile: Option<string>
    /** Whether writes through the handle succeed. */
    const fileWritable: bool

    /** Between two states, exactly `text` was logged: appended to the text and mirrored into the file. */
    twostate predicate Appended(text: string)
      reads this
    {
      && logText == old(logText) + text
      && logFile == Mirror(old(logFile), fileWritable, text)
    }

    /** Since the state holding `base` and `baseFile`, exactly `text` was logged. */
    predicate Logged(base: string, baseFile: Option<string>, text: string)
      reads this
    {
      && logText == base + text
      && logFile == Mirror(baseFile, fileWritable, text)
    }

    /** `Log::default()`. */
    constructor (fileWritable: bool)
      ensures logText == "" && logFile == None && this.fileWritable == fileWritable
    {
      logText := "";
      logFile := None;
      this.fileWritable := fileWritable;
    }

    /**
     * `Log::init_log`: open `Launch.log` for appending, or log why it could
     * not be opened. The file keeps what earlier runs appended; `logFile`
     * holds only what this process writes through the handle.
     */
    method InitLog(fileOpened: bool, openError: string, timestamp: string)
      modifies this
      ensures fileOpened ==> logFile == Some("") && logText == old(logText)
      ensures !fileOpened ==> Appended(Entry(Error, timestamp, "Failed to create log file! " + openError))
    {
      if fileOpened {
        logFile := Some("");
      } else {
        AddToLog(Error, timestamp, "Failed to create log file! " + openError);
      }
    }

    /**
     * `add_to_log`: one tagged line is appended to the text whether or not
     * the file write happens or succeeds.
     */
    method AddToLog(kind: LogType, timestamp: string, data: string)
      modifies this
      ensures logText == old(logText) + Entry(kind, timestamp, data)
      ensures logFile == Mirror(old(logFile), fileWritable, Entry(kind, timestamp, data))
    {
      var newText: string;
      match kind {
        case Info =>
          newText := "[INFO] [" + timestamp + "] " + data + "\n";
          assert newText == Entry(kind, timestamp, data);
        case Warn =>
          newText := "[WARN] [" + timestamp + "] " + data + "\n";
          assert newText == Entry(kind, timestamp, data);
        case Error =>
          newText := "[ERROR] [" + timestamp + "] " + data + "\n";
          assert newText == Entry(kind, timestamp, data);
      }
      if logFile.Some? && fileWritable {
        logFile := Some(logFile.value + newText);
      }
      logText := logText + newText;
    }

    /** One more `add_to_log` call after a run of lines logged with the same timestamp. */
    method AddLine(line: LogLine, timestamp: string, ghost base: string, ghost baseFile: Option<string>, ghost lines: seq<LogLine>)
      requires Logged(base, baseFile, Render(lines, timestamp))
      modifies this
      ensures Logged(base, baseFile, Render(lines + [line], timestamp))
    {
      AddToLog(line.kind, timestamp, line.message);
      LoggedStep(base, baseFile, fileWritable, lines, line, timestamp);
    }

    /** Logs several lines in order (a run of `add_to_log` calls with one timestamp). */
    method AddLines(lines: seq<LogLine>, timestamp: string)
      modifies this
      ensures Appended(Render(lines, timestamp))
    {
      ghost var base, baseFile := logText, logFile;
      assert logFile.Some? ==> logFile.value + "" == logFile.value;
      assert logText == base + "";
      for i := 0 to |lines|
        invariant Logged(base, baseFile, Render(lines[..i], timestamp))
      {
        assert lines[..i + 1] == lines[..i] + [lines[i]];
        AddLine(lines[i], timestamp, base, baseFile, lines[..i]);
      }
      assert lines[..|lines|] == lines;
    }
  }
}
