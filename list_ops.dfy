/**
 * The operations of `ui_system` that edit the mod list from its windows:
 * ticking a mod's checkbox, the Create, Edit and Remove windows. Each one
 * changes the list and the registry and then writes `config.ini`; the file
 * system calls they make (`write_data`, `fs::rename`, `fs::remove_dir_all`)
 * are given as outcomes, and the methods return what they were asked to do.
 */
module ListOps {
  import opened Wrappers
  import opened Ini
  import opened Logging
  import opened Files
  import opened Mods
  import opened State
  import opened Registry

  // -----------------------------------------------------------------------
  // Naming a mod
  // -----------------------------------------------------------------------

  /**
   * Whether a record of the list is called `name`, not counting a record
   * called `exempt` (the Edit window exempts the selected mod's name).
   */
  predicate Clashes(mods: seq<ModData>, name: string, exempt: Option<string>)
  {
    exists i :: 0 <= i < |mods| && mods[i].name == name && (exempt.None? || mods[i].name != exempt.value)
  }

  /** The `duplicate_name` loop of the Create and Edit windows. */
  method FindDuplicate(mods: seq<ModData>, name: string, exempt: Option<string>) returns (duplicate: bool)
    ensures duplicate <==> Clashes(mods, name, exempt)
  {
    duplicate := false;
    for i := 0 to |mods|
      invariant duplicate <==> exists j :: 0 <= j < i && mods[j].name == name && (exempt.None? || mods[j].name != exempt.value)
    {
      if mods[i].name == name && (exempt.None? || mods[i].name != exempt.value) {
        duplicate := true;
      }
    }
  }

  /** Exempting a name only matters for that name. */
  lemma ExemptOnlyItself(mods: seq<ModData>, name: string, exempt: string)
    ensures Clashes(mods, name, Some(exempt)) <==> name != exempt && Clashes(mods, name, None)
  {
  }

  /** What the OK button of the Create and Edit windows makes of the name typed in. */
  datatype Verdict = Unnamed | Taken | Accepted

  function Check(mods: seq<ModData>, name: string, exempt: Option<string>): (r: Verdict)
    ensures r == Unnamed <==> name == ""
    ensures r == Accepted <==> name != "" && !Clashes(mods, name, exempt)
  {
    if name == "" then Unnamed
    else if Clashes(mods, name, exempt) then Taken
    else Accepted
  }

  /** The error logged for a refused name. */
  function RejectLine(v: Verdict): LogLine
  {
    match v
    case Unnamed => LogLine(Error, "You must give your mod a name!")
    case _ => LogLine(Error, "A mod with that name already exists!")
  }

  /** The name check of both windows: its verdict, and the error it logs when it refuses. */
  method CheckName(ui: ManagerState, exempt: Option<string>, now: string) returns (v: Verdict)
    modifies ui.log
    ensures v == Check(ui.modDatas, ui.modEdit.name, exempt)
    ensures v != Accepted ==> ui.log.Appended(Render([RejectLine(v)], now))
    ensures v == Accepted ==> unchanged(ui.log)
  {
    if ui.modEdit.name == "" {
      v := Unnamed;
    } else {
      var duplicate := FindDuplicate(ui.modDatas, ui.modEdit.name, exempt);
      v := if duplicate then Taken else Accepted;
    }
    if v != Accepted {
      ui.log.AddLines([RejectLine(v)], now);
    }
  }

  /** A record pushed with `order` equal to its position keeps every `order` equal to its index. */
  lemma PushKeepsOrder(mods: seq<ModData>, m: ModData)
    requires forall i :: 0 <= i < |mods| ==> mods[i].order == i
    requires m.order == |mods|
    ensures forall i :: 0 <= i < |mods + [m]| ==> (mods + [m])[i].order == i
  {
  }

  /** A record accepted by the Create window keeps the names of the list distinct. */
  lemma CreateKeepsNamesDistinct(mods: seq<ModData>, m: ModData)
    requires DistinctNames(mods) && Check(mods, m.name, None) == Accepted
    ensures DistinctNames(mods + [m])
  {
    var r := mods + [m];
    forall i, j | 0 <= i < j < |r| ensures r[i].name != r[j].name {
      if j == |mods| {
        assert r[i] == mods[i];
      } else {
        assert r[i] == mods[i] && r[j] == mods[j];
      }
    }
  }

  /**
   * A record accepted by the Edit window in place of the selected one keeps
   * the names of the list distinct: only the selected mod's own name is
   * exempt, and no other record holds it.
   */
  lemma EditKeepsNamesDistinct(mods: seq<ModData>, sel: nat, m: ModData)
    requires DistinctNames(mods) && sel < |mods|
    requires Check(mods, m.name, Some(mods[sel].name)) == Accepted
    ensures DistinctNames(mods[sel := m])
  {
    forall j | 0 <= j < |mods| && j != sel ensures mods[j].name != m.name {
      if j < sel {
        assert mods[j].name != mods[sel].name;
      } else {
        assert mods[sel].name != mods[j].name;
      }
    }
  }

  // -----------------------------------------------------------------------
  // Create
  // -----------------------------------------------------------------------

  /** The record the Create window registers: the form, placed at the end of the list in `<mods>/<name>`. */
  function Created(form: ModData, modsPath: string, count: nat): ModData
  {
    form.(order := count, path := ModDir(modsPath, form.name))
  }

  function CreatedLine(name: string): LogLine
  {
    LogLine(Info, "Created mod " + name + "!")
  }

  /** A written descriptor: the record joins the list, is logged, and the registry is rewritten. */
  method AddCreated(ui: ManagerState, cfg: ConfigState, m: ModData, now: string)
    requires Check(ui.modDatas, m.name, None) == Accepted && m.order == |ui.modDatas|
    modifies ui`modDatas, cfg, ui.log
    ensures ui.modDatas == old(ui.modDatas) + [m]
    ensures cfg.config == RewriteRegistry(old(cfg.config), ui.modDatas)
    ensures cfg.persisted == if cfg.writeError.None? then Some(cfg.config) else old(cfg.persisted)
    ensures ui.log.Appended(Render([CreatedLine(m.name)], now) + Render(ConfigWriteLines(cfg.writeError), now))
    ensures old(ui.OrderIsIndex()) ==> ui.OrderIsIndex()
    ensures old(DistinctNames(ui.modDatas)) ==> DistinctNames(ui.modDatas)
  {
    ghost var base, baseFile := ui.log.logText, ui.log.logFile;
    ui.log.AddLines([CreatedLine(m.name)], now);
    if DistinctNames(ui.modDatas) {
      CreateKeepsNamesDistinct(ui.modDatas, m);
    }
    if ui.OrderIsIndex() {
      PushKeepsOrder(ui.modDatas, m);
    }
    ui.modDatas := ui.modDatas + [m];
    SetModOrderConfig(ui, cfg, now);
    LoggedThen(base, baseFile, ui.log.fileWritable, Render([CreatedLine(m.name)], now), Render(ConfigWriteLines(cfg.writeError), now));
  }

  /** The form's `order` and then its `path` are set, and its descriptor is built for `<mods>/<name>/mod.ini`. */
  method PrepareCreated(ui: ManagerState) returns (final: ModData, attempted: Option<(string, Doc)>)
    modifies ui`modEdit
    ensures final == Created(old(ui.modEdit), ui.modsPath, |ui.modDatas|) && ui.modEdit == final
    ensures attempted == Some((DescriptorPath(ui.modsPath, final.name), DescriptorDoc(final)))
  {
    final := Created(ui.modEdit, ui.modsPath, |ui.modDatas|);
    ui.modEdit := final;
    var conf := WriteData(final);
    attempted := Some((Join(final.path, "mod.ini"), conf));
  }

  /** After `write_data`: on success the record joins the list, otherwise its error is logged. */
  method FinishCreate(ui: ManagerState, cfg: ConfigState, m: ModData, dataError: Option<string>, now: string)
    requires Check(ui.modDatas, m.name, None) == Accepted && m.order == |ui.modDatas|
    modifies ui`modDatas, cfg, ui.log
    ensures old(ui.OrderIsIndex()) ==> ui.OrderIsIndex()
    ensures old(DistinctNames(ui.modDatas)) ==> DistinctNames(ui.modDatas)
    ensures dataError.None? ==>
              && ui.modDatas == old(ui.modDatas) + [m]
              && cfg.config == RewriteRegistry(old(cfg.config), ui.modDatas)
              && cfg.persisted == (if cfg.writeError.None? then Some(cfg.config) else old(cfg.persisted))
              && ui.log.Appended(Render([CreatedLine(m.name)], now) + Render(ConfigWriteLines(cfg.writeError), now))
    ensures dataError.Some? ==>
              && ui.modDatas == old(ui.modDatas) && cfg.config == old(cfg.config) && cfg.persisted == old(cfg.persisted)
              && ui.log.Appended(Render([LogLine(Error, "Could not create mod! " + dataError.value)], now))
  {
    match dataError {
      case None =>
        AddCreated(ui, cfg, m, now);
      case Some(e) =>
        ui.log.AddLines([LogLine(Error, "Could not create mod! " + e)], now);
    }
  }

  /** The Create window's OK once the name is accepted. */
  method CreateAccepted(ui: ManagerState, cfg: ConfigState, dataError: Option<string>, now: string)
    returns (attempted: Option<(string, Doc)>)
    requires Check(ui.modDatas, ui.modEdit.name, None) == Accepted
    modifies ui`modEdit, ui`modDatas, cfg, ui.log
    ensures old(ui.OrderIsIndex()) ==> ui.OrderIsIndex()
    ensures old(DistinctNames(ui.modDatas)) ==> DistinctNames(ui.modDatas)
    ensures ui.modEdit == Created(old(ui.modEdit), ui.modsPath, |old(ui.modDatas)|)
    ensures attempted == Some((DescriptorPath(ui.modsPath, ui.modEdit.name), DescriptorDoc(ui.modEdit)))
    ensures dataError.None? ==>
              && ui.modDatas == old(ui.modDatas) + [ui.modEdit]
              && cfg.config == RewriteRegistry(old(cfg.config), ui.modDatas)
              && cfg.persisted == (if cfg.writeError.None? then Some(cfg.config) else old(cfg.persisted))
              && ui.log.Appended(Render([CreatedLine(ui.modEdit.name)], now) + Render(ConfigWriteLines(cfg.writeError), now))
    ensures dataError.Some? ==>
              && ui.modDatas == old(ui.modDatas) && cfg.config == old(cfg.config) && cfg.persisted == old(cfg.persisted)
              && ui.log.Appended(Render([LogLine(Error, "Could not create mod! " + dataError.value)], now))
  {
    var final;
    final, attempted := PrepareCreated(ui);
    FinishCreate(ui, cfg, final, dataError, now);
  }

  /**
   * The Create window's OK: a named record whose name is new is given the
   * next position and the directory `<mods>/<name>`, its `mod.ini` is
   * written there and, if that succeeded, it joins the list and the
   * registry is rewritten. `attempted` is the `mod.ini` written (target and
   * document).
   */
  method CreateMod(ui: ManagerState, cfg: ConfigState, dataError: Option<string>, now: string)
    returns (attempted: Option<(string, Doc)>)
    modifies ui`modEdit, ui`modDatas, cfg, ui.log
    ensures var v := Check(old(ui.modDatas), old(ui.modEdit.name), None);
            v != Accepted ==>
              && ui.modEdit == old(ui.modEdit) && ui.modDatas == old(ui.modDatas)
              && cfg.config == old(cfg.config) && cfg.persisted == old(cfg.persisted)
              && ui.log.Appended(Render([RejectLine(v)], now)) && attempted == None
    ensures var m := Created(old(ui.modEdit), ui.modsPath, |old(ui.modDatas)|);
            Check(old(ui.modDatas), old(ui.modEdit.name), None) == Accepted ==>
              && ui.modEdit == m
              && attempted == Some((DescriptorPath(ui.modsPath, m.name), DescriptorDoc(m)))
              && (dataError.None? ==>
                    && ui.modDatas == old(ui.modDatas) + [m]
                    && cfg.config == RewriteRegistry(old(cfg.config), ui.modDatas)
                    && cfg.persisted == (if cfg.writeError.None? then Some(cfg.config) else old(cfg.persisted))
                    && ui.log.Appended(Render([CreatedLine(m.name)], now) + Render(ConfigWriteLines(cfg.writeError), now)))
              && (dataError.Some? ==>
                    && ui.modDatas == old(ui.modDatas) && cfg.config == old(cfg.config) && cfg.persisted == old(cfg.persisted)
                    && ui.log.Appended(Render([LogLine(Error, "Could not create mod! " + dataError.value)], now)))
    ensures old(ui.OrderIsIndex()) ==> ui.OrderIsIndex()
    ensures old(DistinctNames(ui.modDatas)) ==> DistinctNames(ui.modDatas)
  {
    var v := CheckName(ui, None, now);
    if v != Accepted {
      attempted := None;
    } else {
      attempted := CreateAccepted(ui, cfg, dataError, now);
    }
  }

  /** A created mod is registered enabled-as-typed under its name, and the list's other entries keep theirs. */
  lemma CreatedIsRegistered(doc: Doc, mods: seq<ModData>, m: ModData)
    requires DistinctNames(mods) && Check(mods, m.name, None) == Accepted
    ensures RegistryValue(RewriteRegistry(doc, mods + [m]), m.name) == Some(Flag(m.enabled))
    ensures forall i :: 0 <= i < |mods| ==>
              RegistryValue(RewriteRegistry(doc, mods + [m]), mods[i].name) == Some(Flag(mods[i].enabled))
  {
    CreateKeepsNamesDistinct(mods, m);
    RewriteValue(doc, mods + [m], |mods|);
    forall i | 0 <= i < |mods|
      ensures RegistryValue(RewriteRegistry(doc, mods + [m]), mods[i].name) == Some(Flag(mods[i].enabled))
    {
      assert (mods + [m])[i] == mods[i];
      RewriteValue(doc, mods + [m], i);
    }
  }

  // -----------------------------------------------------------------------
  // Edit
  // -----------------------------------------------------------------------

  /** The record the Edit window writes: the form, moved to `<mods>/<name>`. */
  function Edited(form: ModData, modsPath: string): ModData
  {
    form.(path := ModDir(modsPath, form.name))
  }

  const UpdatedLine: LogLine := LogLine(Info, "Mod updated!")

  /**
   * A renamed mod replaces the selected record: its registry section is
   * deleted, `config.ini` written, the record replaced, and the registry
   * rewritten from the list.
   */
  method CommitRename(ui: ManagerState, cfg: ConfigState, sel: nat, m: ModData, now: string)
    requires sel < |ui.modDatas|
    modifies ui`modDatas, cfg, ui.log
    ensures ui.modDatas == old(ui.modDatas)[sel := m]
    ensures cfg.config == RewriteRegistry(Delete(old(cfg.config), old(ui.modDatas)[sel].name), ui.modDatas)
    ensures cfg.persisted == if cfg.writeError.None? then Some(cfg.config) else old(cfg.persisted)
    ensures ui.log.Appended(Render(ConfigWriteLines(cfg.writeError) + [UpdatedLine], now) + Render(ConfigWriteLines(cfg.writeError), now))
  {
    ghost var base, baseFile := ui.log.logText, ui.log.logFile;
    RemoveModConfig(cfg, ui.modDatas[sel].name);
    WriteConfig(ui, cfg, now);
    ui.modDatas := ui.modDatas[sel := m];
    ui.log.AddLine(UpdatedLine, now, base, baseFile, ConfigWriteLines(cfg.writeError));
    ghost var first := Render(ConfigWriteLines(cfg.writeError) + [UpdatedLine], now);
    SetModOrderConfig(ui, cfg, now);
    LoggedThen(base, baseFile, ui.log.fileWritable, first, Render(ConfigWriteLines(cfg.writeError), now));
  }

  /** The Edit window's OK once the rename has succeeded: `write_data`, then the rename of the record if its name changed. */
  method WriteEdited(ui: ManagerState, cfg: ConfigState, sel: nat, m: ModData, dataError: Option<string>, now: string)
    requires sel < |ui.modDatas|
    modifies ui`modDatas, cfg, ui.log
    ensures dataError.Some? ==>
              && ui.modDatas == old(ui.modDatas) && cfg.config == old(cfg.config) && cfg.persisted == old(cfg.persisted)
              && ui.log.Appended(Render([LogLine(Error, "Could not edit mod! " + dataError.value)], now))
    ensures dataError.None? && m.name == old(ui.modDatas)[sel].name ==>
              && ui.modDatas == old(ui.modDatas) && cfg.config == old(cfg.config) && cfg.persisted == old(cfg.persisted)
              && unchanged(ui.log)
    ensures dataError.None? && m.name != old(ui.modDatas)[sel].name ==>
              && ui.modDatas == old(ui.modDatas)[sel := m]
              && cfg.config == RewriteRegistry(Delete(old(cfg.config), old(ui.modDatas)[sel].name), ui.modDatas)
              && cfg.persisted == (if cfg.writeError.None? then Some(cfg.config) else old(cfg.persisted))
              && ui.log.Appended(Render(ConfigWriteLines(cfg.writeError) + [UpdatedLine], now) + Render(ConfigWriteLines(cfg.writeError), now))
  {
    match dataError {
      case None =>
        if m.name != ui.modDatas[sel].name {
          CommitRename(ui, cfg, sel, m, now);
        }
      case Some(e) =>
        ui.log.AddLines([LogLine(Error, "Could not edit mod! " + e)], now);
    }
  }

  /**
   * The Edit window's OK for the record at `sel` (the selected mod's
   * position). An accepted form is moved to `<mods>/<name>`, the mod's
   * directory is renamed there, its `mod.ini` rewritten, and, only when the
   * name changed, the record replaced and the registry rewritten.
   * `renamed` is the rename asked of the file system, `attempted` the
   * `mod.ini` written.
   */
  method EditMod(ui: ManagerState, cfg: ConfigState, sel: nat, renameError: Option<string>, dataError: Option<string>, now: string)
    returns (renamed: Option<(string, string)>, attempted: Option<(string, Doc)>)
    requires Check(ui.modDatas, ui.modEdit.name, Some(ui.selectedMod.name)) == Accepted ==> sel < |ui.modDatas|
    modifies ui`modEdit, ui`modDatas, cfg, ui.log
    ensures var v := Check(old(ui.modDatas), old(ui.modEdit.name), Some(ui.selectedMod.name));
            v != Accepted ==>
              && ui.modEdit == old(ui.modEdit) && ui.modDatas == old(ui.modDatas)
              && cfg.config == old(cfg.config) && cfg.persisted == old(cfg.persisted)
              && ui.log.Appended(Render([RejectLine(v)], now)) && renamed == None && attempted == None
    ensures var m := Edited(old(ui.modEdit), ui.modsPath);
            Check(old(ui.modDatas), old(ui.modEdit.name), Some(ui.selectedMod.name)) == Accepted ==>
              && ui.modEdit == m
              && renamed == Some((old(ui.modDatas)[sel].path, m.path))
              && (renameError.Some? ==>
                    && ui.modDatas == old(ui.modDatas) && cfg.config == old(cfg.config) && cfg.persisted == old(cfg.persisted)
                    && ui.log.Appended(Render([LogLine(Error, "Could not rename directory for edited mod! " + renameError.value)], now))
                    && attempted == None)
              && (renameError.None? ==> attempted == Some((DescriptorPath(ui.modsPath, m.name), DescriptorDoc(m))))
    ensures var m := Edited(old(ui.modEdit), ui.modsPath);
            Check(old(ui.modDatas), old(ui.modEdit.name), Some(ui.selectedMod.name)) == Accepted && renameError.None? ==>
              && (dataError.Some? ==>
                    && ui.modDatas == old(ui.modDatas) && cfg.config == old(cfg.config) && cfg.persisted == old(cfg.persisted)
                    && ui.log.Appended(Render([LogLine(Error, "Could not edit mod! " + dataError.value)], now)))
              && (dataError.None? && m.name == old(ui.modDatas)[sel].name ==>
                    && ui.modDatas == old(ui.modDatas) && cfg.config == old(cfg.config) && cfg.persisted == old(cfg.persisted)
                    && unchanged(ui.log))
              && (dataError.None? && m.name != old(ui.modDatas)[sel].name ==>
                    && ui.modDatas == old(ui.modDatas)[sel := m]
                    && cfg.config == RewriteRegistry(Delete(old(cfg.config), old(ui.modDatas)[sel].name), ui.modDatas)
                    && cfg.persisted == (if cfg.writeError.None? then Some(cfg.config) else old(cfg.persisted))
                    && ui.log.Appended(Render(ConfigWriteLines(cfg.writeError) + [UpdatedLine], now) + Render(ConfigWriteLines(cfg.writeError), now)))
  {
    var v := CheckName(ui, Some(ui.selectedMod.name), now);
    if v != Accepted {
      renamed, attempted := None, None;
      return;
    }
    ui.modEdit := ui.modEdit.(path := Join(ui.modsPath, ui.modEdit.name));
    renamed := Some((ui.modDatas[sel].path, ui.modEdit.path));
    match renameError {
      case Some(e) =>
        ui.log.AddLines([LogLine(Error, "Could not rename directory for edited mod! " + e)], now);
        attempted := None;
      case None =>
        var final := ui.modEdit;
        var conf := WriteData(ui.modEdit);
        attempted := Some((Join(final.path, "mod.ini"), conf));
        WriteEdited(ui, cfg, sel, final, dataError, now);
    }
  }

  /**
   * After a rename accepted by the Edit window, the registry holds the new
   * name with its flag and no longer holds the old one.
   */
  lemma RenameMovesRegistryKey(doc: Doc, mods: seq<ModData>, sel: nat, m: ModData)
    requires DistinctNames(mods) && sel < |mods|
    requires Check(mods, m.name, Some(mods[sel].name)) == Accepted && m.name != mods[sel].name
    ensures var r := RewriteRegistry(Delete(doc, mods[sel].name), mods[sel := m]);
            && RegistryValue(r, m.name) == Some(Flag(m.enabled))
            && !HasKey(PropsOf(r, ModsSection), mods[sel].name)
  {
    var after := mods[sel := m];
    EditKeepsNamesDistinct(mods, sel, m);
    RewriteValue(Delete(doc, mods[sel].name), after, sel);
    RewriteKeys(Delete(doc, mods[sel].name), after, mods[sel].name);
    forall i | 0 <= i < |after| ensures after[i].name != mods[sel].name {
      if i != sel {
        assert after[i] == mods[i];
      }
    }
  }

  // -----------------------------------------------------------------------
  // Toggle
  // -----------------------------------------------------------------------

  /** The record at `i` with its checkbox flipped. */
  function Toggled(mods: seq<ModData>, i: nat): (r: seq<ModData>)
    requires i < |mods|
    ensures |r| == |mods| && r[i].enabled == !mods[i].enabled
    ensures r[i] == mods[i].(enabled := r[i].enabled)
    ensures forall j :: 0 <= j < |mods| && j != i ==> r[j] == mods[j]
  {
    mods[i := mods[i].(enabled := !mods[i].enabled)]
  }

  /**
   * A change of the checkbox of the record at `i`: the flag is flipped and
   * recorded by `update_mod_config`; at the end of the frame the registry is
   * rewritten by `set_mod_order_config` and written a second time.
   */
  method ToggleMod(ui: ManagerState, cfg: ConfigState, i: nat, now: string)
    requires i < |ui.modDatas|
    modifies ui`modDatas, cfg, ui.log
    ensures ui.modDatas == Toggled(old(ui.modDatas), i)
    ensures cfg.config == RewriteRegistry(
              WithSectionSet(old(cfg.config), ModsSection, ui.modDatas[i].name, Flag(ui.modDatas[i].enabled)), ui.modDatas)
    ensures cfg.persisted == if cfg.writeError.None? then Some(cfg.config) else old(cfg.persisted)
    ensures ui.log.Appended(Render(ConfigWriteLines(cfg.writeError), now) + Render(ConfigWriteLines(cfg.writeError), now))
  {
    ui.modDatas := ui.modDatas[i := ui.modDatas[i].(enabled := !ui.modDatas[i].enabled)];
    UpdateModConfig(cfg, ui.modDatas[i].name, ui.modDatas[i]);
    ghost var base, baseFile := ui.log.logText, ui.log.logFile;
    SetModOrderConfig(ui, cfg, now);
    ghost var first := Render(ConfigWriteLines(cfg.writeError), now);
    WriteConfig(ui, cfg, now);
    LoggedThen(base, baseFile, ui.log.fileWritable, first, first);
  }

  /**
   * The `update_mod_config` of a toggle is superseded by the rewrite that
   * follows: the registry is the list's, whatever was set before.
   */
  lemma ToggleRewriteSupersedes(doc: Doc, mods: seq<ModData>, name: string, value: string)
    ensures RewriteRegistry(WithSectionSet(doc, ModsSection, name, value), mods) == RewriteRegistry(doc, mods)
  {
    DeleteWithSectionSet(doc, ModsSection, name, value);
  }

  /** After a toggle, the registry reads back the new flag, and every other entry keeps its own. */
  lemma ToggleReadsBack(doc: Doc, mods: seq<ModData>, i: nat)
    requires DistinctNames(mods) && i < |mods|
    ensures var r := RewriteRegistry(doc, Toggled(mods, i));
            && RegistryValue(r, mods[i].name) == Some(Flag(!mods[i].enabled))
            && forall j :: 0 <= j < |mods| && j != i ==> RegistryValue(r, mods[j].name) == Some(Flag(mods[j].enabled))
  {
    var t := Toggled(mods, i);
    assert DistinctNames(t) by {
      forall a, b | 0 <= a < b < |t| ensures t[a].name != t[b].name {
        assert t[a].name == mods[a].name && t[b].name == mods[b].name;
      }
    }
    RewriteValue(doc, t, i);
    forall j | 0 <= j < |mods| && j != i
      ensures RegistryValue(RewriteRegistry(doc, t), mods[j].name) == Some(Flag(mods[j].enabled))
    {
      RewriteValue(doc, t, j);
    }
  }

  // -----------------------------------------------------------------------
  // Remove
  // -----------------------------------------------------------------------

  /**
   * The Remove window's Delete for the record at `sel` (the selected mod's
   * position): its directory is removed and, if that succeeded, its
   * registry section is deleted, the registry rewritten from the list and
   * written again, and only then the record leaves the list. `removed` is
   * the directory `remove_dir_all` is asked to remove.
   */
  method RemoveMod(ui: ManagerState, cfg: ConfigState, sel: nat, removeError: Option<string>, now: string)
    returns (removed: string)
    requires sel < |ui.modDatas|
    modifies ui`modDatas, cfg, ui.log
    ensures removed == old(ui.modDatas)[sel].path
    ensures removeError.Some? ==>
              && ui.modDatas == old(ui.modDatas) && cfg.config == old(cfg.config) && cfg.persisted == old(cfg.persisted)
              && ui.log.Appended(Render([LogLine(Error, "Could not remove mod! " + removeError.value)], now))
    ensures removeError.None? ==>
              && ui.modDatas == RemoveAt(old(ui.modDatas), sel)
              && cfg.config == RewriteRegistry(Delete(old(cfg.config), old(ui.modDatas)[sel].name), old(ui.modDatas))
              && cfg.persisted == (if cfg.writeError.None? then Some(cfg.config) else old(cfg.persisted))
              && ui.log.Appended(Render(ConfigWriteLines(cfg.writeError), now) + Render(ConfigWriteLines(cfg.writeError), now))
  {
    removed := ui.modDatas[sel].path;
    match removeError {
      case Some(e) =>
        ui.log.AddLines([LogLine(Error, "Could not remove mod! " + e)], now);
      case None =>
        CommitRemove(ui, cfg, sel, now);
    }
  }

  /** The registry updates and the list removal once the directory is gone. */
  method CommitRemove(ui: ManagerState, cfg: ConfigState, sel: nat, now: string)
    requires sel < |ui.modDatas|
    modifies ui`modDatas, cfg, ui.log
    ensures ui.modDatas == RemoveAt(old(ui.modDatas), sel)
    ensures cfg.config == RewriteRegistry(Delete(old(cfg.config), old(ui.modDatas)[sel].name), old(ui.modDatas))
    ensures cfg.persisted == if cfg.writeError.None? then Some(cfg.config) else old(cfg.persisted)
    ensures ui.log.Appended(Render(ConfigWriteLines(cfg.writeError), now) + Render(ConfigWriteLines(cfg.writeError), now))
  {
    RemoveModConfig(cfg, ui.modDatas[sel].name);
    ghost var base, baseFile := ui.log.logText, ui.log.logFile;
    SetModOrderConfig(ui, cfg, now);
    ghost var first := Render(ConfigWriteLines(cfg.writeError), now);
    WriteConfig(ui, cfg, now);
    LoggedThen(base, baseFile, ui.log.fileWritable, first, first);
    ui.modDatas := RemoveAt(ui.modDatas, sel);
  }

  /**
   * As written, the registry left by a removal still holds the removed
   * mod's key with its flag: `remove_mod_config` deletes a section named
   * after the mod, not its `[Mods]` key, and the rewrite runs while the mod
   * is still in the list.
   */
  lemma RemoveLeavesStaleKey(doc: Doc, mods: seq<ModData>, sel: nat)
    requires DistinctNames(mods) && sel < |mods|
    ensures forall i :: 0 <= i < |RemoveAt(mods, sel)| ==> RemoveAt(mods, sel)[i].name != mods[sel].name
    ensures RegistryValue(RewriteRegistry(Delete(doc, mods[sel].name), mods), mods[sel].name) == Some(Flag(mods[sel].enabled))
  {
    RemoveAtDropsName(mods, sel);
    RewriteValue(Delete(doc, mods[sel].name), mods, sel);
  }

  /** With distinct names, no remaining record carries the removed record's name. */
  lemma RemoveAtDropsName(mods: seq<ModData>, sel: nat)
    requires DistinctNames(mods) && sel < |mods|
    ensures forall i :: 0 <= i < |RemoveAt(mods, sel)| ==> RemoveAt(mods, sel)[i].name != mods[sel].name
  {
    forall i | 0 <= i < |RemoveAt(mods, sel)| ensures RemoveAt(mods, sel)[i].name != mods[sel].name {
      RemoveAtIndex(mods, sel, i);
    }
  }

  /** Where an element of the shortened list came from. */
  lemma RemoveAtIndex<T>(v: seq<T>, sel: nat, k: nat)
    requires sel < |v| && k < |v| - 1
    ensures RemoveAt(v, sel)[k] == v[if k < sel then k else k + 1]
  {
  }

  /** The removal of one mod with a disabled flag, on an empty document: the key survives. */
  lemma RemoveStaleExample()
    ensures var a := New().(name := "A", enabled := false);
            && RemoveAt([a], 0) == []
            && RegistryValue(RewriteRegistry(Delete([], "A"), [a]), "A") == Some("False")
  {
    var a := New().(name := "A", enabled := false);
    RemoveLeavesStaleKey([], [a], 0);
  }

  /** The evidently intended registry after a removal: rewritten from the list without the record. */
  function RemovedRegistry(doc: Doc, mods: seq<ModData>, sel: nat): Doc
    requires sel < |mods|
  {
    RewriteRegistry(Delete(doc, mods[sel].name), RemoveAt(mods, sel))
  }

  /**
   * With the rewrite after the removal, the registry holds exactly the
   * remaining mods' names, each with its flag, and not the removed one.
   */
  lemma RemovedRegistryForgetsMod(doc: Doc, mods: seq<ModData>, sel: nat)
    requires DistinctNames(mods) && sel < |mods|
    ensures var r := RemovedRegistry(doc, mods, sel);
            && !HasKey(PropsOf(r, ModsSection), mods[sel].name)
            && forall i :: 0 <= i < |mods| && i != sel ==> RegistryValue(r, mods[i].name) == Some(Flag(mods[i].enabled))
  {
    RemoveAtDropsName(mods, sel);
    RewriteKeys(Delete(doc, mods[sel].name), RemoveAt(mods, sel), mods[sel].name);
    forall i | 0 <= i < |mods| && i != sel
      ensures RegistryValue(RemovedRegistry(doc, mods, sel), mods[i].name) == Some(Flag(mods[i].enabled))
    {
      RemovedRegistryKeeps(doc, mods, sel, i);
    }
  }

  /** Each remaining record's flag is in the registry after the corrected removal. */
  lemma RemovedRegistryKeeps(doc: Doc, mods: seq<ModData>, sel: nat, i: nat)
    requires DistinctNames(mods) && sel < |mods| && i < |mods| && i != sel
    ensures RegistryValue(RemovedRegistry(doc, mods, sel), mods[i].name) == Some(Flag(mods[i].enabled))
  {
    var k := if i < sel then i else i - 1;
    RemoveAtKeepsNamesDistinct(mods, sel);
    RemoveAtIndex(mods, sel, k);
    RewriteValueOf(Delete(doc, mods[sel].name), RemoveAt(mods, sel), k, mods[i]);
  }

  /** Dropping a record keeps the names distinct. */
  lemma RemoveAtKeepsNamesDistinct(mods: seq<ModData>, sel: nat)
    requires DistinctNames(mods) && sel < |mods|
    ensures DistinctNames(RemoveAt(mods, sel))
  {
    var rest := RemoveAt(mods, sel);
    forall a, b | 0 <= a < b < |rest| ensures rest[a].name != rest[b].name {
      RemoveAtIndex(mods, sel, a);
      RemoveAtIndex(mods, sel, b);
    }
  }

  // -----------------------------------------------------------------------
  // Reordering by drag
  // -----------------------------------------------------------------------

  /** The list a drag leaves behind, as `CompleteDrag` states it. */
  predicate DraggedFrom(mods: seq<ModData>, from: nat, to: nat, dragged: seq<ModData>)
    requires CanShift(from, to, |mods|)
  {
    |dragged| == |mods| && forall i :: 0 <= i < |dragged| ==> dragged[i] == ShiftVec(from, to, mods)[i].(order := i)
  }

  /** Putting a record whose name is new into a list of distinct names keeps them distinct. */
  lemma InsertAtKeepsNamesDistinct(mods: seq<ModData>, p: nat, m: ModData)
    requires DistinctNames(mods) && p <= |mods|
    requires forall i :: 0 <= i < |mods| ==> mods[i].name != m.name
    ensures DistinctNames(InsertAt(mods, p, m))
  {
    var r := InsertAt(mods, p, m);
    forall a, b | 0 <= a < b < |r| ensures r[a].name != r[b].name {
      assert a < p ==> r[a] == mods[a];
      assert a > p ==> r[a] == mods[a - 1];
      assert b < p ==> r[b] == mods[b];
      assert b > p ==> r[b] == mods[b - 1];
    }
  }

  /** A drag keeps the names of the list distinct. */
  lemma {:induction false} DragKeepsNamesDistinct(mods: seq<ModData>, from: nat, to: nat, dragged: seq<ModData>)
    requires DistinctNames(mods) && CanShift(from, to, |mods|) && DraggedFrom(mods, from, to, dragged)
    ensures DistinctNames(dragged)
  {
    if from == to {
      forall a, b | 0 <= a < b < |dragged| ensures dragged[a].name != dragged[b].name {
        assert dragged[a].name == mods[a].name && dragged[b].name == mods[b].name;
      }
    } else {
      ShiftVecMoves(from, to, mods);
      RemoveAtKeepsNamesDistinct(mods, from);
      RemoveAtDropsName(mods, from);
      InsertAtKeepsNamesDistinct(RemoveAt(mods, from), Landing(from, to), mods[from]);
      var shifted := ShiftVec(from, to, mods);
      forall a, b | 0 <= a < b < |dragged| ensures dragged[a].name != dragged[b].name {
        assert dragged[a].name == shifted[a].name && dragged[b].name == shifted[b].name;
      }
    }
  }

  /**
   * As written, the end of a drag changes the list but not the registry:
   * `mods_layout` sets `config_needs_update` only for a ticked checkbox.
   * Whenever the drag moves a record, the `[Mods]` section written from the
   * list before the drag no longer lists the mods in the list's order, and
   * the next start reads the old order back from it.
   */
  lemma {:induction false} DragLeavesRegistryStale(doc: Doc, mods: seq<ModData>, from: nat, to: nat, dragged: seq<ModData>)
    requires DistinctNames(mods) && CanShift(from, to, |mods|) && DraggedFrom(mods, from, to, dragged)
    requires Landing(from, to) != from
    ensures SectionOf(RewriteRegistry(doc, mods), ModsSection) != Some(RegistryPairs(dragged))
  {
    var p := Landing(from, to);
    ShiftVecMoves(from, to, mods);
    assert dragged[p].name == mods[from].name;
    RewriteExact(doc, mods);
    assert RegistryPairs(mods)[p].key == mods[p].name != mods[from].name == RegistryPairs(dragged)[p].key;
  }

  /**
   * A drag as evidently intended: the new order is written to the registry
   * straight away, like every other change of the list.
   */
  method DragMod(ui: ManagerState, cfg: ConfigState, from: nat, to: nat, now: string)
    requires CanShift(from, to, |ui.modDatas|)
    modifies ui`modDatas, cfg, ui.log
    ensures DraggedFrom(old(ui.modDatas), from, to, ui.modDatas) && ui.OrderIsIndex()
    ensures cfg.config == RewriteRegistry(old(cfg.config), ui.modDatas)
    ensures cfg.persisted == if cfg.writeError.None? then Some(cfg.config) else old(cfg.persisted)
    ensures ui.log.Appended(Render(ConfigWriteLines(cfg.writeError), now))
    ensures old(DistinctNames(ui.modDatas)) ==> DistinctNames(ui.modDatas)
    ensures old(DistinctNames(ui.modDatas)) && ui.modDatas != [] ==> SectionOf(cfg.config, ModsSection) == Some(RegistryPairs(ui.modDatas))
  {
    ghost var before := ui.modDatas;
    ui.CompleteDrag(from, to);
    if DistinctNames(before) {
      DragKeepsNamesDistinct(before, from, to, ui.modDatas);
    }
    SetModOrderConfig(ui, cfg, now);
    if DistinctNames(ui.modDatas) {
      RewriteExact(old(cfg.config), ui.modDatas);
    }
  }
}
