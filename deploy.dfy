/**
 * `setup_mods_and_play` without the Steam launch: `+NativePackages` of the
 * game's `DefaultEngine.ini` is reset to `REDGame`, the game's mod
 * directory is emptied, and every enabled mod, last in the list first, is
 * copied into a fresh one-letter slot and has its script packages merged
 * into `+NativePackages`.
 */
module Deploy {
  import opened Wrappers
  import opened Ini
  import opened Logging
  import opened Helpers
  import opened Mods
  import opened State

  const EngineSection: string := "Engine.ScriptPackages"
  const NativeKey: string := "+NativePackages"

  // -----------------------------------------------------------------------
  // The game directory
  // -----------------------------------------------------------------------

  /** One `copy_recursively` that succeeded: a mod's directory into a slot. */
  datatype Copy = Copy(source: string, slot: string)

  /** The parts of the game directory deployment changes. */
  datatype Site = Site(engine: Doc, slots: set<string>, copies: seq<Copy>)

  /**
   * The outcomes of the file operations, fixed for one run: loading and
   * writing `DefaultEngine.ini` fail with the given error or not, and
   * copying a mod's directory fails with the error `copy` maps its path to.
   * Copy failures are keyed by the mod's own directory, not by the slot
   * name it is copied to.
   */
  datatype Faults = Faults(read: Option<string>, write: Option<string>, copy: map<string, string>)

  class GameDir {
    /** What `REDGame/Config/DefaultEngine.ini` holds. */
    var engine: Doc
    /** The names of the directories under `REDGame/CookedPCConsole/Mods`. */
    var slots: set<string>
    /** The copies made into those directories, in order. */
    var copies: seq<Copy>
    const faults: Faults

    function State(): Site
      reads this
    {
      Site(engine, slots, copies)
    }

    constructor (engine: Doc, slots: set<string>, faults: Faults)
      ensures State() == Site(engine, slots, []) && this.faults == faults
    {
      this.engine := engine;
      this.slots := slots;
      copies := [];
      this.faults := faults;
    }
  }

  // -----------------------------------------------------------------------
  // Slots
  // -----------------------------------------------------------------------

  /**
   * The slot loop: from `candidate`, apply `add1_str` while the name is
   * taken; stop at a free name, or at a taken name `add1_str` no longer
   * changes (then the mod is copied into it anyway). The flag says which.
   */
  function FindSlot(taken: set<string>, candidate: string): (r: (string, bool))
    ensures !r.1 ==> r.0 !in taken
    ensures r.1 ==> r.0 in taken && Add1Str(r.0) == r.0
    decreases Headroom(candidate)
  {
    if candidate !in taken then (candidate, false)
    else
      var next := Add1Str(candidate);
      if next == candidate then (candidate, true)
      else
        Add1StrHeadroom(candidate);
        FindSlot(taken, next)
  }

  /**
   * From a one-character name below U+D7FF, the slot is the first character
   * at or after it whose name is free; the search gives up exactly when
   * every name up to U+D7FF is taken.
   */
  lemma {:induction false} SlotIsFirstFree(taken: set<string>, c: char)
    requires c as int <= 0xD7FF
    ensures var r := FindSlot(taken, [c]);
            && |r.0| == 1 && c <= r.0[0] && r.0[0] as int <= 0xD7FF
            && (forall e: char :: c <= e < r.0[0] ==> [e] in taken)
            && (r.1 <==> r.0[0] as int == 0xD7FF && [r.0[0]] in taken)
    decreases 0xD7FF - c as int
  {
    if [c] in taken {
      if c as int < 0xD7FF {
        Add1StrSingle(c);
        var d := (c as int + 1) as char;
        SlotIsFirstFree(taken, d);
      } else {
        assert Add1Str([c])[0] == Add1Char(c);
      }
    }
  }

  /** The slot loop of one mod: `folder_string` from "a". */
  method AllocateSlot(taken: set<string>) returns (slot: string, exhausted: bool)
    ensures (slot, exhausted) == FindSlot(taken, "a")
  {
    slot := "a";
    exhausted := false;
    while slot in taken
      invariant FindSlot(taken, slot) == FindSlot(taken, "a")
      decreases Headroom(slot)
    {
      var next := Add1Str(slot);
      if slot != next {
        Add1StrHeadroom(slot);
        slot := next;
      } else {
        exhausted := true;
        break;
      }
    }
  }

  // -----------------------------------------------------------------------
  // `+NativePackages`
  // -----------------------------------------------------------------------

  /** The reset: every `+NativePackages` removed, then `REDGame` appended. */
  function ResetPackages(props: seq<Pair>): (r: seq<Pair>)
    ensures GetAll(r, NativeKey) == ["REDGame"]
    ensures forall k :: k != NativeKey ==> GetAll(r, k) == GetAll(props, k)
  {
    Append(RemoveAll(props, NativeKey), NativeKey, "REDGame")
  }

  function AddedLine(script: string): LogLine
  {
    LogLine(Info, "Added script package " + script + "!")
  }

  const MissingSectionLine: LogLine :=
    LogLine(Error, "Could not find Engine.ScriptPackages in DefaultEngine.ini! Your game installation may be broken.")
  const MergeMissingSectionLine: LogLine :=
    LogLine(Error, "Could not read find Engine.ScriptPackages in DefaultEngine.ini! Your game installation may be broken.")

  function ReadFailedLine(e: string): LogLine
  {
    LogLine(Error, "Could not read DefaultEngine.ini! " + e)
  }

  function EngineWriteLines(write: Option<string>): seq<LogLine>
  {
    match write
    case None => []
    case Some(e) => [LogLine(Error, "Could not write to DefaultEngine.ini! " + e)]
  }

  /** What the file holds after writing `doc` over `engine`. */
  function Saved(engine: Doc, doc: Doc, write: Option<string>): Doc
  {
    if write.None? then doc else engine
  }

  /** The reset at the start of deployment, as a value: the new file and the lines logged. */
  function ResetOutcome(engine: Doc, faults: Faults): (r: (Doc, seq<LogLine>))
    ensures |r.1| <= 1
    ensures r.1 == [] <==> faults.read.None? && faults.write.None? && HasSection(engine, EngineSection)
    ensures r.0 != engine ==> faults.read.None? && faults.write.None?
    ensures forall n :: n != EngineSection ==> SectionOf(r.0, n) == SectionOf(engine, n)
  {
    match faults.read
    case Some(e) => (engine, [ReadFailedLine(e)])
    case None =>
      match SectionOf(engine, EngineSection)
      case None => (engine, [MissingSectionLine])
      case Some(props) =>
        (Saved(engine, UpdateFirst(engine, EngineSection, ResetPackages(props)), faults.write), EngineWriteLines(faults.write))
  }

  /** The values of `+NativePackages` in a document. */
  function Packages(doc: Doc): seq<string>
  {
    GetAll(PropsOf(doc, EngineSection), NativeKey)
  }

  /** Once the reset is written, the engine's packages are exactly `REDGame`, and no other section changed. */
  lemma ResetLeavesOnlyRedGame(engine: Doc, faults: Faults)
    requires faults.read.None? && faults.write.None? && HasSection(engine, EngineSection)
    ensures var r := ResetOutcome(engine, faults);
            && Packages(r.0) == ["REDGame"] && r.1 == []
            && (forall k :: k != NativeKey ==> GetAll(PropsOf(r.0, EngineSection), k) == GetAll(PropsOf(engine, EngineSection), k))
            && (forall n :: n != EngineSection ==> SectionOf(r.0, n) == SectionOf(engine, n))
  {
  }

  /**
   * The script loop of one mod, on the loaded document: a script is
   * appended to `+NativePackages` (and logged) only when not already there;
   * without the section every script logs an error.
   */
  function MergeDoc(doc: Doc, scripts: seq<string>): (r: (Doc, seq<LogLine>))
    ensures |r.1| <= |scripts|
    ensures forall n :: n != EngineSection ==> SectionOf(r.0, n) == SectionOf(doc, n)
    decreases |scripts|
  {
    if scripts == [] then (doc, [])
    else
      var prev := MergeDoc(doc, scripts[..|scripts| - 1]);
      var script := scripts[|scripts| - 1];
      match SectionOf(prev.0, EngineSection)
      case None => (prev.0, prev.1 + [MergeMissingSectionLine])
      case Some(props) =>
        if script in GetAll(props, NativeKey) then prev
        else (UpdateFirst(prev.0, EngineSection, Append(props, NativeKey, script)), prev.1 + [AddedLine(script)])
  }

  predicate NoDuplicates(s: seq<string>)
  {
    forall i, j :: 0 <= i < j < |s| ==> s[i] != s[j]
  }

  /**
   * The merge keeps the packages already listed, in order, lists every
   * script, adds nothing else and no duplicate, logs one line per package
   * added, and touches nothing outside `+NativePackages`.
   */
  lemma {:induction false} MergeAddsMissing(doc: Doc, scripts: seq<string>)
    requires HasSection(doc, EngineSection)
    ensures var r := MergeDoc(doc, scripts);
            && HasSection(r.0, EngineSection)
            && Packages(doc) <= Packages(r.0)
            && |r.1| == |Packages(r.0)| - |Packages(doc)|
            && (forall s :: s in scripts ==> s in Packages(r.0))
            && (forall p :: p in Packages(r.0) ==> p in Packages(doc) || p in scripts)
            && (NoDuplicates(Packages(doc)) ==> NoDuplicates(Packages(r.0)))
            && (forall k :: k != NativeKey ==> GetAll(PropsOf(r.0, EngineSection), k) == GetAll(PropsOf(doc, EngineSection), k))
            && (forall n :: n != EngineSection ==> SectionOf(r.0, n) == SectionOf(doc, n))
    decreases |scripts|
  {
    if scripts != [] {
      var front := scripts[..|scripts| - 1];
      var script := scripts[|scripts| - 1];
      assert scripts == front + [script];
      MergeAddsMissing(doc, front);
      var prev := MergeDoc(doc, front);
      var props := PropsOf(prev.0, EngineSection);
      if script !in GetAll(props, NativeKey) {
        var after := Packages(MergeDoc(doc, scripts).0);
        assert after == Packages(prev.0) + [script];
        if NoDuplicates(Packages(doc)) {
          assert NoDuplicates(after) by {
            forall i, j | 0 <= i < j < |after| ensures after[i] != after[j] {
              if j == |after| - 1 {
                assert after[i] in Packages(prev.0);
              }
            }
          }
        }
      }
    }
  }

  /** Without the section, the merge changes nothing and logs one error per script. */
  lemma {:induction false} MergeWithoutSection(doc: Doc, scripts: seq<string>)
    requires !HasSection(doc, EngineSection)
    ensures MergeDoc(doc, scripts).0 == doc
    ensures |MergeDoc(doc, scripts).1| == |scripts|
    ensures forall i :: 0 <= i < |scripts| ==> MergeDoc(doc, scripts).1[i] == MergeMissingSectionLine
    decreases |scripts|
  {
    if scripts != [] {
      var front := scripts[..|scripts| - 1];
      MergeWithoutSection(doc, front);
    }
  }

  /** The script phase of one copied mod: load, merge, write. */
  function MergeOutcome(engine: Doc, scripts: seq<string>, faults: Faults): (r: (Doc, seq<LogLine>))
    ensures faults.read.Some? ==> r == (engine, [ReadFailedLine(faults.read.value)])
    ensures faults.read.None? && faults.write.Some? ==> r.0 == engine && |r.1| > 0 && r.1[|r.1| - 1] == EngineWriteLines(faults.write)[0]
    ensures forall n :: n != EngineSection ==> SectionOf(r.0, n) == SectionOf(engine, n)
  {
    match faults.read
    case Some(e) => (engine, [ReadFailedLine(e)])
    case None =>
      var merged := MergeDoc(engine, scripts);
      (Saved(engine, merged.0, faults.write), merged.1 + EngineWriteLines(faults.write))
  }

  // -----------------------------------------------------------------------
  // One mod, and the whole list
  // -----------------------------------------------------------------------

  function TooManyLine(name: string): LogLine
  {
    LogLine(Error, "Could not copy mod " + name + "! Too many mods installed.")
  }

  function CopyFailedLine(name: string, e: string): LogLine
  {
    LogLine(Error, "Could not copy mod " + name + "! " + e)
  }

  /** One iteration of the deployment loop, as a value: the new site and the lines logged. */
  function DeployMod(site: Site, m: ModData, faults: Faults): (r: (Site, seq<LogLine>))
    ensures !m.enabled ==> r == (site, [])
    ensures r.0.copies == if m.enabled && m.path !in faults.copy then site.copies + [Copy(m.path, FindSlot(site.slots, "a").0)] else site.copies
    ensures r.0.slots == if m.enabled && m.path !in faults.copy then site.slots + {FindSlot(site.slots, "a").0} else site.slots
    ensures m.enabled && FindSlot(site.slots, "a").1 ==> |r.1| > 0 && r.1[0] == TooManyLine(m.name)
    ensures m.enabled && m.path in faults.copy ==> r.0 == site && |r.1| > 0 && r.1[|r.1| - 1] == CopyFailedLine(m.name, faults.copy[m.path])
  {
    if !m.enabled then (site, [])
    else
      var slot := FindSlot(site.slots, "a");
      var full := if slot.1 then [TooManyLine(m.name)] else [];
      if m.path in faults.copy then (site, full + [CopyFailedLine(m.name, faults.copy[m.path])])
      else
        var merged := MergeOutcome(site.engine, m.scripts, faults);
        (Site(merged.0, site.slots + {slot.0}, site.copies + [Copy(m.path, slot.0)]), full + merged.1)
  }

  /** The deployment loop over `mods`, last record first. */
  function Deployed(site: Site, mods: seq<ModData>, faults: Faults): (r: (Site, seq<LogLine>))
    ensures site.copies <= r.0.copies && site.slots <= r.0.slots
    ensures (forall i :: 0 <= i < |mods| ==> !mods[i].enabled) ==> r == (site, [])
    decreases |mods|
  {
    if mods == [] then (site, [])
    else
      var rest := Deployed(site, mods[1..], faults);
      var one := DeployMod(rest.0, mods[0], faults);
      assert (forall i :: 0 <= i < |mods| ==> !mods[i].enabled) ==> forall i :: 0 <= i < |mods[1..]| ==> !mods[1..][i].enabled;
      assert one.1 == [] ==> rest.1 + one.1 == rest.1;
      (one.0, rest.1 + one.1)
  }

  function Reverse<T>(s: seq<T>): (r: seq<T>)
    ensures |r| == |s|
    ensures forall i :: 0 <= i < |s| ==> r[i] == s[|s| - 1 - i]
  {
    if s == [] then [] else Reverse(s[1..]) + [s[0]]
  }

  /** The paths of the enabled records whose copy succeeds, in list order. */
  function CopyablePaths(mods: seq<ModData>, failing: map<string, string>): (r: seq<string>)
    ensures |r| <= |mods|
  {
    if mods == [] then []
    else (if mods[0].enabled && mods[0].path !in failing then [mods[0].path] else []) + CopyablePaths(mods[1..], failing)
  }

  function Sources(copies: seq<Copy>): (r: seq<string>)
    ensures |r| == |copies|
    ensures forall i :: 0 <= i < |copies| ==> r[i] == copies[i].source
  {
    seq(|copies|, i requires 0 <= i < |copies| => copies[i].source)
  }

  /** Deployment copies exactly the enabled mods that can be copied, in reverse list order. */
  lemma {:induction false} DeployVisitsEnabledReversed(site: Site, mods: seq<ModData>, faults: Faults)
    ensures Sources(Deployed(site, mods, faults).0.copies) == Sources(site.copies) + Reverse(CopyablePaths(mods, faults.copy))
    decreases |mods|
  {
    if mods != [] {
      DeployVisitsEnabledReversed(site, mods[1..], faults);
      var rest := Deployed(site, mods[1..], faults).0;
      var head := if mods[0].enabled && mods[0].path !in faults.copy then [mods[0].path] else [];
      assert Reverse(head + CopyablePaths(mods[1..], faults.copy)) == Reverse(CopyablePaths(mods[1..], faults.copy)) + head;
      var after := DeployMod(rest, mods[0], faults).0.copies;
      assert Sources(after) == Sources(rest.copies) + head;
    }
  }

  lemma PrefixKeeps(a: seq<string>, b: seq<string>, x: string)
    requires a <= b && x in a
    ensures x in b
  {
    var k :| 0 <= k < |a| && a[k] == x;
    assert b[k] == x;
  }

  /** One iteration without engine faults keeps the section and its packages, and lists the mod's scripts if it was copied. */
  lemma DeployModLists(site: Site, m: ModData, faults: Faults)
    requires faults.read.None? && faults.write.None? && HasSection(site.engine, EngineSection)
    ensures var r := DeployMod(site, m, faults).0;
            && HasSection(r.engine, EngineSection)
            && Packages(site.engine) <= Packages(r.engine)
            && (NoDuplicates(Packages(site.engine)) ==> NoDuplicates(Packages(r.engine)))
            && (m.enabled && m.path !in faults.copy ==> forall s :: s in m.scripts ==> s in Packages(r.engine))
  {
    if m.enabled && m.path !in faults.copy {
      MergeAddsMissing(site.engine, m.scripts);
    }
  }

  /**
   * With the engine file readable and writable and its section present,
   * every script of every mod copied ends up in `+NativePackages`, the
   * packages listed before stay, and no duplicate is introduced.
   */
  lemma {:induction false} DeployListsScripts(site: Site, mods: seq<ModData>, faults: Faults)
    requires faults.read.None? && faults.write.None? && HasSection(site.engine, EngineSection)
    ensures var r := Deployed(site, mods, faults).0;
            && HasSection(r.engine, EngineSection)
            && Packages(site.engine) <= Packages(r.engine)
            && (NoDuplicates(Packages(site.engine)) ==> NoDuplicates(Packages(r.engine)))
            && forall i, s :: 0 <= i < |mods| && mods[i].enabled && mods[i].path !in faults.copy && s in mods[i].scripts
                 ==> s in Packages(r.engine)
    decreases |mods|
  {
    if mods != [] {
      DeployListsScripts(site, mods[1..], faults);
      var rest := Deployed(site, mods[1..], faults).0;
      var r := Deployed(site, mods, faults).0;
      assert r == DeployMod(rest, mods[0], faults).0;
      DeployModLists(rest, mods[0], faults);
      forall i, s | 0 <= i < |mods| && mods[i].enabled && mods[i].path !in faults.copy && s in mods[i].scripts
        ensures s in Packages(r.engine)
      {
        if i > 0 {
          assert mods[1..][i - 1] == mods[i];
          PrefixKeeps(Packages(rest.engine), Packages(r.engine), s);
        }
      }
    }
  }

  // -----------------------------------------------------------------------
  // The procedure
  // -----------------------------------------------------------------------

  const CopiedLine: LogLine := LogLine(Info, "Mods copied to game directory!")

  /** The `+NativePackages` reset at the start of `setup_mods_and_play`. */
  method ResetEngine(ui: ManagerState, game: GameDir, now: string)
    modifies game`engine, ui.log
    ensures var r := ResetOutcome(old(game.engine), game.faults);
            game.engine == r.0 && ui.log.Appended(Render(r.1, now))
  {
    match game.faults.read {
      case Some(e) =>
        ui.log.AddLines([ReadFailedLine(e)], now);
      case None =>
        var doc := game.engine;
        var section := SectionOf(doc, EngineSection);
        match section {
          case Some(props) =>
            doc := UpdateFirst(doc, EngineSection, ResetPackages(props));
            WriteEngine(ui, game, doc, now);
          case None =>
            ui.log.AddLines([MissingSectionLine], now);
        }
    }
  }

  /** `write_to_file_policy` of the engine document, logging a failure. */
  method WriteEngine(ui: ManagerState, game: GameDir, doc: Doc, now: string)
    modifies game`engine, ui.log
    ensures game.engine == Saved(old(game.engine), doc, game.faults.write)
    ensures ui.log.Appended(Render(EngineWriteLines(game.faults.write), now))
  {
    ui.log.AddLines(EngineWriteLines(game.faults.write), now);
    if game.faults.write.None? {
      game.engine := doc;
    }
  }

  /** The script loop of one mod on the loaded document, logging as it goes. */
  method MergeScripts(ui: ManagerState, doc: Doc, scripts: seq<string>, now: string) returns (merged: Doc)
    modifies ui.log
    ensures merged == MergeDoc(doc, scripts).0
    ensures ui.log.Appended(Render(MergeDoc(doc, scripts).1, now))
  {
    ghost var base, baseFile := ui.log.logText, ui.log.logFile;
    assert ui.log.logFile.Some? ==> ui.log.logFile.value + "" == ui.log.logFile.value;
    assert ui.log.logText == base + "";
    merged := doc;
    for i := 0 to |scripts|
      invariant (merged, MergeDoc(doc, scripts[..i]).1) == MergeDoc(doc, scripts[..i])
      invariant ui.log.Logged(base, baseFile, Render(MergeDoc(doc, scripts[..i]).1, now))
    {
      var script := scripts[i];
      assert scripts[..i + 1][..i] == scripts[..i];
      ghost var lines := MergeDoc(doc, scripts[..i]).1;
      var section := SectionOf(merged, EngineSection);
      match section {
        case Some(props) =>
          if script !in GetAll(props, NativeKey) {
            merged := UpdateFirst(merged, EngineSection, Append(props, NativeKey, script));
            ui.log.AddLine(AddedLine(script), now, base, baseFile, lines);
          }
        case None =>
          ui.log.AddLine(MergeMissingSectionLine, now, base, baseFile, lines);
      }
    }
    assert scripts[..|scripts|] == scripts;
  }

  /** The script phase of one copied mod: reload the engine file, merge, write it back. */
  method MergeInto(ui: ManagerState, game: GameDir, scripts: seq<string>, now: string)
    modifies game`engine, ui.log
    ensures var r := MergeOutcome(old(game.engine), scripts, game.faults);
            game.engine == r.0 && ui.log.Appended(Render(r.1, now))
  {
    match game.faults.read {
      case Some(e) =>
        ui.log.AddLines([ReadFailedLine(e)], now);
      case None =>
        ghost var base, baseFile := ui.log.logText, ui.log.logFile;
        var merged := MergeScripts(ui, game.engine, scripts, now);
        WriteEngine(ui, game, merged, now);
        ghost var lines := MergeDoc(old(game.engine), scripts).1;
        RenderConcat(lines, EngineWriteLines(game.faults.write), now);
        LoggedThen(base, baseFile, ui.log.fileWritable, Render(lines, now), Render(EngineWriteLines(game.faults.write), now));
    }
  }

  /** One iteration of the deployment loop. */
  method DeployOne(ui: ManagerState, game: GameDir, m: ModData, now: string)
    modifies game, ui.log
    ensures var r := DeployMod(old(game.State()), m, game.faults);
            game.State() == r.0 && ui.log.Appended(Render(r.1, now))
  {
    if !m.enabled {
      assert ui.log.logFile.Some? ==> ui.log.logFile.value + "" == ui.log.logFile.value;
      return;
    }
    var slot, exhausted := AllocateSlot(game.slots);
    var full := if exhausted then [TooManyLine(m.name)] else [];
    ghost var base, baseFile := ui.log.logText, ui.log.logFile;
    ui.log.AddLines(full, now);
    if m.path in game.faults.copy {
      var line := CopyFailedLine(m.name, game.faults.copy[m.path]);
      ui.log.AddLine(line, now, base, baseFile, full);
      return;
    }
    game.slots := game.slots + {slot};
    game.copies := game.copies + [Copy(m.path, slot)];
    ghost var engine0 := game.engine;
    MergeInto(ui, game, m.scripts, now);
    ghost var rest := MergeOutcome(engine0, m.scripts, game.faults).1;
    RenderConcat(full, rest, now);
    LoggedThen(base, baseFile, ui.log.fileWritable, Render(full, now), Render(rest, now));
  }

  /** The deployment loop: every record, last first. */
  method DeployAll(ui: ManagerState, game: GameDir, mods: seq<ModData>, now: string)
    modifies game, ui.log
    ensures var r := Deployed(old(game.State()), mods, game.faults);
            game.State() == r.0 && ui.log.Appended(Render(r.1, now))
  {
    ghost var site0 := game.State();
    ghost var base, baseFile := ui.log.logText, ui.log.logFile;
    assert ui.log.logFile.Some? ==> ui.log.logFile.value + "" == ui.log.logFile.value;
    assert ui.log.logText == base + "";
    assert mods[|mods|..] == [];
    var i := |mods|;
    while i > 0
      invariant 0 <= i <= |mods|
      invariant game.State() == Deployed(site0, mods[i..], game.faults).0
      invariant ui.log.Logged(base, baseFile, Render(Deployed(site0, mods[i..], game.faults).1, now))
    {
      i := i - 1;
      assert mods[i..][1..] == mods[i + 1..];
      ghost var before := Deployed(site0, mods[i + 1..], game.faults).1;
      DeployOne(ui, game, mods[i], now);
      ghost var one := DeployMod(Deployed(site0, mods[i + 1..], game.faults).0, mods[i], game.faults).1;
      RenderConcat(before, one, now);
      LoggedThen(base, baseFile, ui.log.fileWritable, Render(before, now), Render(one, now));
    }
  }

  /**
   * `setup_mods_and_play` up to the launch: the reset, the emptied mod
   * directory, the loop, and the closing line.
   */
  method SetupMods(ui: ManagerState, game: GameDir, now: string)
    modifies game, ui.log
    ensures var reset := ResetOutcome(old(game.engine), game.faults);
            var deployed := Deployed(Site(reset.0, {}, old(game.copies)), ui.modDatas, game.faults);
            && game.State() == deployed.0
            && ui.log.Appended(Render(reset.1, now) + Render(deployed.1 + [CopiedLine], now))
  {
    ghost var base, baseFile := ui.log.logText, ui.log.logFile;
    ResetEngine(ui, game, now);
    ghost var first := Render(ResetOutcome(old(game.engine), game.faults).1, now);
    game.slots := {};
    ghost var site := game.State();
    DeployAll(ui, game, ui.modDatas, now);
    ghost var lines := Deployed(site, ui.modDatas, game.faults).1;
    ui.log.AddLine(CopiedLine, now, base + first, Mirror(baseFile, ui.log.fileWritable, first), lines);
    LoggedThen(base, baseFile, ui.log.fileWritable, first, Render(lines + [CopiedLine], now));
  }
}
