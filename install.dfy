/**
 * `init_mod`: registering one mod whose directory `<mods>/<name>` has just
 * been extracted. Unlike `init_mods`, a missing or description-less
 * `mod.ini` is answered by writing a fresh descriptor, there is no
 * duplicate check, `order` is left at 0 and the scripts are not read.
 */
module Install {
  import opened Wrappers
  import opened Ini
  import opened Logging
  import opened Files
  import opened Mods
  import opened State
  import opened Registry
  import opened Reconcile

  /** What `init_mod` makes of the directory. */
  datatype InstallResult =
    | NotFound(line: LogLine)                // no `mod.ini`: only a warning
    | Read(data: ModData)                    // a descriptor with a name
    | Created(data: ModData, line: LogLine)  // unreadable or description-less: a fresh record, written out

  /**
   * `init_mod` unwraps the descriptor's `Name` after it has logged that it
   * is missing, so a descriptor with a `[Description]` section but no
   * `Name` panics; callers must not reach it.
   */
  predicate CanInstall(modsPath: string, disk: Disk, name: string)
  {
    var path := DescriptorPath(modsPath, name);
    (path in disk.existing && path in disk.loadable && HasSection(disk.loadable[path], "Description"))
      ==> HasKey(PropsOf(disk.loadable[path], "Description"), "Name")
  }

  /** The record `init_mod` builds for a descriptor it could read: the six fields, with the path set to `path`. */
  function ReadDescribed(desc: seq<Pair>, path: string): (r: ModData)
    requires HasKey(desc, "Name")
    ensures r.name == Get(desc, "Name").value && r.path == path
    ensures r.enabled && r.order == 0 && r.scripts == []
    ensures r.author == Get(desc, "Author").GetOr("") && r.page == Get(desc, "Page").GetOr("")
    ensures r.version == Get(desc, "Version").GetOr("") && r.category == Get(desc, "Category").GetOr("")
    ensures r.description == Get(desc, "Description").GetOr("")
  {
    ReadFields(desc, New().(name := Get(desc, "Name").value)).(path := path)
  }

  /**
   * The branches of `init_mod`, as written: every record it builds stores
   * the path of the `mod.ini` file itself.
   */
  function InstallOutcome(modsPath: string, disk: Disk, name: string): (r: InstallResult)
    requires CanInstall(modsPath, disk, name)
    ensures var path := DescriptorPath(modsPath, name);
            && (r.NotFound? <==> path !in disk.existing)
            && (r.Read? <==> path in disk.existing && path in disk.loadable && HasSection(disk.loadable[path], "Description"))
            && (r.Created? ==> r.data == New().(name := name, path := path))
            && (r.Read? ==> r.data.path == path && r.data.order == 0 && r.data.enabled && r.data.scripts == []
                            && r.data.name == Get(PropsOf(disk.loadable[path], "Description"), "Name").value)
            && (!r.Read? ==> r.line.kind == Warn)
  {
    var path := DescriptorPath(modsPath, name);
    if path !in disk.existing then
      NotFound(LogLine(Warn, "Path " + path + " does not exist! Ignoring mod."))
    else if path !in disk.loadable then
      Created(New().(name := name, path := path), LogLine(Warn, "No mod ini at path " + path + "! Created one automatically."))
    else
      match SectionOf(disk.loadable[path], "Description")
      case Some(desc) => Read(ReadDescribed(desc, path))
      case None =>
        Created(New().(name := name, path := path),
                LogLine(Warn, "The mod ini at path " + path + " doesn't have a description section! Created one automatically."))
  }

  /** Registering a record: `init_mod_config` under `key`, `write_config`, then the push. */
  method Register(ui: ManagerState, cfg: ConfigState, key: string, data: ModData, now: string)
    modifies ui`modDatas, cfg, ui.log
    ensures var e := InitEntry(old(cfg.config), key, data);
            cfg.config == e.0 && ui.modDatas == old(ui.modDatas) + [e.1]
    ensures cfg.persisted == if cfg.writeError.None? then Some(cfg.config) else old(cfg.persisted)
    ensures ui.log.Appended(Render(ConfigWriteLines(cfg.writeError), now))
  {
    var updated := InitModConfig(cfg, key, data);
    WriteConfig(ui, cfg, now);
    ui.modDatas := ui.modDatas + [updated];
  }

  /** The two branches that create a descriptor: `write_data`, registration, then the warning. */
  method RegisterCreated(ui: ManagerState, cfg: ConfigState, name: string, data: ModData, line: LogLine, now: string)
    returns (attempted: Option<(string, Doc)>)
    modifies ui`modDatas, cfg, ui.log
    ensures var e := InitEntry(old(cfg.config), name, data);
            cfg.config == e.0 && ui.modDatas == old(ui.modDatas) + [e.1]
    ensures cfg.persisted == if cfg.writeError.None? then Some(cfg.config) else old(cfg.persisted)
    ensures ui.log.Appended(Render(ConfigWriteLines(cfg.writeError) + [line], now))
    ensures attempted == Some((Join(data.path, "mod.ini"), DescriptorDoc(data)))
  {
    var conf := WriteData(data);
    attempted := Some((Join(data.path, "mod.ini"), conf));
    ghost var base, baseFile := ui.log.logText, ui.log.logFile;
    Register(ui, cfg, name, data, now);
    ui.log.AddLine(line, now, base, baseFile, ConfigWriteLines(cfg.writeError));
  }

  /**
   * `init_mod`. `attempted` is the `mod.ini` `write_data` tries to write
   * (its target and its document); the source discards its outcome.
   */
  method InitMod(ui: ManagerState, cfg: ConfigState, disk: Disk, name: string, now: string)
    returns (attempted: Option<(string, Doc)>)
    requires CanInstall(ui.modsPath, disk, name)
    modifies ui`modDatas, cfg, ui.log
    ensures var r := InstallOutcome(ui.modsPath, disk, name);
            r.NotFound? ==>
              && ui.modDatas == old(ui.modDatas) && cfg.config == old(cfg.config) && cfg.persisted == old(cfg.persisted)
              && ui.log.Appended(Render([r.line], now)) && attempted == None
    ensures var r := InstallOutcome(ui.modsPath, disk, name);
            r.Read? ==>
              var e := InitEntry(old(cfg.config), r.data.name, r.data);
              && cfg.config == e.0 && ui.modDatas == old(ui.modDatas) + [e.1]
              && cfg.persisted == (if cfg.writeError.None? then Some(cfg.config) else old(cfg.persisted))
              && ui.log.Appended(Render(ConfigWriteLines(cfg.writeError), now)) && attempted == None
    ensures var r := InstallOutcome(ui.modsPath, disk, name);
            r.Created? ==>
              var e := InitEntry(old(cfg.config), name, r.data);
              && cfg.config == e.0 && ui.modDatas == old(ui.modDatas) + [e.1]
              && cfg.persisted == (if cfg.writeError.None? then Some(cfg.config) else old(cfg.persisted))
              && ui.log.Appended(Render(ConfigWriteLines(cfg.writeError) + [r.line], now))
              && attempted == Some((Join(r.data.path, "mod.ini"), DescriptorDoc(r.data)))
  {
    var outcome := InstallOutcome(ui.modsPath, disk, name);
    match outcome {
      case NotFound(line) =>
        ui.log.AddLines([line], now);
        attempted := None;
      case Read(data) =>
        Register(ui, cfg, data.name, data, now);
        attempted := None;
      case Created(data, line) =>
        attempted := RegisterCreated(ui, cfg, name, data, line, now);
    }
  }

  // -----------------------------------------------------------------------
  // Where the record and the fresh descriptor point
  // -----------------------------------------------------------------------

  /**
   * As written, a registered record's path is the `mod.ini` file, not the
   * mod's directory (where `init_mods` puts it, and what deployment copies
   * and Edit renames), and the fresh descriptor is aimed one level too deep,
   * at `<mods>/<name>/mod.ini/mod.ini`. `write_data` first creates that
   * target's directory, which is the existing `mod.ini` itself; the
   * creation fails, the error is discarded, and no descriptor is written.
   */
  lemma InstallPathIsDescriptorFile(modsPath: string, disk: Disk, name: string)
    requires CanInstall(modsPath, disk, name)
    requires !InstallOutcome(modsPath, disk, name).NotFound?
    ensures InstallOutcome(modsPath, disk, name).data.path != ModDir(modsPath, name)
    ensures var p := InstallOutcome(modsPath, disk, name).data.path;
            p == DescriptorPath(modsPath, name) && Join(p, "mod.ini") != DescriptorPath(modsPath, name)
    ensures InstallOutcome(modsPath, disk, name).Created? ==> InstallOutcome(modsPath, disk, name).data.path in disk.existing
  {
    var p := DescriptorPath(modsPath, name);
    assert |p| > |ModDir(modsPath, name)|;
    assert |Join(p, "mod.ini")| > |p|;
  }

  /** The evidently intended `init_mod`: the record points at the mod's directory. */
  function InstallOutcomeFixed(modsPath: string, disk: Disk, name: string): (r: InstallResult)
    requires CanInstall(modsPath, disk, name)
    ensures r.NotFound? <==> DescriptorPath(modsPath, name) !in disk.existing
    ensures !r.NotFound? ==> r.data.path == ModDir(modsPath, name)
  {
    match InstallOutcome(modsPath, disk, name)
    case NotFound(line) => NotFound(line)
    case Read(data) => Read(data.(path := ModDir(modsPath, name)))
    case Created(data, line) => Created(data.(path := ModDir(modsPath, name)), line)
  }

  /**
   * With the fix, the fresh descriptor lands exactly where `init_mods` and
   * a second `init_mod` look for it, and reads back as the record written.
   */
  lemma InstallFixedWritesDescriptor(modsPath: string, disk: Disk, name: string)
    requires CanInstall(modsPath, disk, name)
    requires InstallOutcomeFixed(modsPath, disk, name).Created?
    ensures var d := InstallOutcomeFixed(modsPath, disk, name).data;
            && Join(d.path, "mod.ini") == DescriptorPath(modsPath, name)
            && ParseDescriptor(DescriptorDoc(d)) == Described(New().(name := name))
  {
    var d := InstallOutcomeFixed(modsPath, disk, name).data;
    DescriptorRoundTrip(d);
  }

  /** Only the path differs between the code as written and the fix. */
  lemma InstallFixOnlyMovesPath(modsPath: string, disk: Disk, name: string)
    requires CanInstall(modsPath, disk, name)
    ensures var r, f := InstallOutcome(modsPath, disk, name), InstallOutcomeFixed(modsPath, disk, name);
            && r.NotFound? == f.NotFound? && r.Read? == f.Read?
            && (!r.NotFound? ==> f.data == r.data.(path := ModDir(modsPath, name)))
  {
  }
}
