/**
 * Reconciling the registry with the mods directory. `init_mods` walks the
 * `[Mods]` entries of `config.ini` in order, turns each into a record read
 * from `<mods>/<key>/mod.ini` or into one logged skip, re-reads every
 * survivor's flag through `init_mod_config`, and rewrites the registry from
 * the survivors. `init_mod` registers one freshly extracted mod.
 */
module Reconcile {
  import opened Wrappers
  import opened Ini
  import opened Logging
  import opened Files
  import opened Mods
  import opened State
  import opened Registry

  // -----------------------------------------------------------------------
  // Reading a descriptor
  // -----------------------------------------------------------------------

  /** The optional fields of a `[Description]` section: a present key overrides the field of `base`. */
  function ReadFields(desc: seq<Pair>, base: ModData): ModData
  {
    base.(author := Get(desc, "Author").GetOr(base.author),
          version := Get(desc, "Version").GetOr(base.version),
          category := Get(desc, "Category").GetOr(base.category),
          description := Get(desc, "Description").GetOr(base.description),
          page := Get(desc, "Page").GetOr(base.page))
  }

  /** Every `ScriptPackage` value of the first `[Scripts]` section, in order; none without that section. */
  function ReadScripts(file: Doc): seq<string>
  {
    GetAll(PropsOf(file, "Scripts"), "ScriptPackage")
  }

  /** What `init_mods` makes of a descriptor that loaded. */
  datatype Descriptor = NoDescription | NoName | Described(data: ModData)

  /**
   * The descriptor extraction of `init_mods`: no `[Description]` section or
   * no `Name` in it rejects the file; an empty `Name` is accepted. The other
   * fields start from `ModData::new()`.
   */
  function ParseDescriptor(file: Doc): (r: Descriptor)
    ensures r.NoDescription? <==> !HasSection(file, "Description")
    ensures r.NoName? <==> HasSection(file, "Description") && !HasKey(PropsOf(file, "Description"), "Name")
    ensures r.Described? ==> r.data.name == Get(PropsOf(file, "Description"), "Name").value
    ensures r.Described? ==> r.data.scripts == ReadScripts(file)
    ensures r.Described? ==> r.data.path == "" && r.data.enabled && r.data.order == 0
  {
    match SectionOf(file, "Description")
    case None => NoDescription
    case Some(desc) =>
      match Get(desc, "Name")
      case None => NoName
      case Some(name) => Described(ReadFields(desc, New().(name := name)).(scripts := ReadScripts(file)))
  }

  /** The `[Description]` pairs `write_data` writes read back as the six fields. */
  lemma DescriptionReadsBack(m: ModData, base: ModData)
    ensures Get(DescriptionPairs(m), "Name") == Some(m.name)
    ensures ReadFields(DescriptionPairs(m), base) ==
            base.(author := m.author, version := m.version, category := m.category,
                  description := m.description, page := m.page)
  {
    var p := DescriptionPairs(m);
    DescriptionKeysDistinct(m);
    GetDistinct(p, 0);
    GetDistinct(p, 1);
    GetDistinct(p, 2);
    GetDistinct(p, 3);
    GetDistinct(p, 4);
    GetDistinct(p, 5);
  }

  /**
   * Reading back what `write_data` wrote gives the six descriptor fields;
   * of the scripts only the last survives (each was written with `set`).
   * `enabled`, `order` and `path` come back as in `ModData::new()`.
   */
  lemma DescriptorRoundTrip(m: ModData)
    ensures ParseDescriptor(DescriptorDoc(m)) ==
            Described(New().(name := m.name, author := m.author, version := m.version,
                             category := m.category, description := m.description, page := m.page,
                             scripts := if m.scripts == [] then [] else [m.scripts[|m.scripts| - 1]]))
  {
    var doc := DescriptorDoc(m);
    var p := DescriptionPairs(m);
    DescriptorLayout(m);
    assert SectionOf(doc, "Description") == Some(p);
    DescriptionReadsBack(m, New().(name := m.name));
    if m.scripts == [] {
      assert doc == [Section("Description", p)];
      assert !HasSection(doc, "Scripts");
    } else {
      var last := m.scripts[|m.scripts| - 1];
      assert doc[1] == Section("Scripts", [Pair("ScriptPackage", last)]);
      assert SectionOf(doc, "Scripts") == Some([Pair("ScriptPackage", last)]);
      assert GetAll([Pair("ScriptPackage", last)], "ScriptPackage") == [last];
    }
  }

  // -----------------------------------------------------------------------
  // init_mods
  // -----------------------------------------------------------------------

  /** What one `[Mods]` entry becomes: a record, or the line logged when it is skipped. */
  datatype Outcome = Keep(data: ModData) | Skip(line: LogLine)

  /**
   * One iteration of the `init_mods` loop for the entry `key = value`. The
   * descriptor is looked up under the registry key, but the record's path
   * is built from the descriptor's `Name`. (The loop then sets `order`.)
   */
  function ReadEntry(modsPath: string, disk: Disk, key: string, value: string): (r: Outcome)
    ensures var path := DescriptorPath(modsPath, key);
            r.Keep? <==> path in disk.existing && path in disk.loadable && ParseDescriptor(disk.loadable[path]).Described?
    ensures r.Keep? ==>
              var d := ParseDescriptor(disk.loadable[DescriptorPath(modsPath, key)]).data;
              r.data == d.(path := ModDir(modsPath, d.name), enabled := EntryEnabled(value))
    ensures var path := DescriptorPath(modsPath, key);
            r.Skip? ==> (r.line.kind == Warn <==> path in disk.existing && path in disk.loadable && ParseDescriptor(disk.loadable[path]).NoName?)
  {
    var path := DescriptorPath(modsPath, key);
    if path !in disk.existing then
      Skip(LogLine(Error, "Path " + path + " does not exist! Ignoring mod."))
    else if path !in disk.loadable then
      Skip(LogLine(Error, "Ini at path " + path + " does not exist! Ignoring mod."))
    else
      match ParseDescriptor(disk.loadable[path])
      case NoDescription =>
        Skip(LogLine(Error, "The mod ini at path " + path + " doesn't have a description section! Ignoring mod."))
      case NoName =>
        Skip(LogLine(Warn, "The mod ini at path " + path + " doesn't have a name in the desciption section! Ignoring mod."))
      case Described(d) =>
        Keep(d.(path := Join(modsPath, d.name), enabled := EntryEnabled(value)))
  }

  /** The outcome of every entry, in registry order. */
  function EntryOutcomes(modsPath: string, disk: Disk, entries: seq<Pair>): (r: seq<Outcome>)
    ensures |r| == |entries|
  {
    seq(|entries|, i requires 0 <= i < |entries| => ReadEntry(modsPath, disk, entries[i].key, entries[i].value))
  }

  /**
   * The first loop of `init_mods`, appending to a list of `base` records:
   * each kept record gets `order` = the list's length and is pushed, each
   * skip logs its line.
   */
  function Collect(outcomes: seq<Outcome>, base: nat): (r: (seq<ModData>, seq<LogLine>))
    ensures |r.0| + |r.1| == |outcomes|
    ensures forall i :: 0 <= i < |r.0| ==> r.0[i].order == base + i
    decreases |outcomes|
  {
    if outcomes == [] then ([], [])
    else
      var prev := Collect(outcomes[..|outcomes| - 1], base);
      match outcomes[|outcomes| - 1]
      case Keep(d) => (prev.0 + [d.(order := base + |prev.0|)], prev.1)
      case Skip(line) => (prev.0, prev.1 + [line])
  }

  /** One more iteration of the first loop, on a kept entry: the record is pushed with the next `order`. */
  lemma CollectKeep(outcomes: seq<Outcome>, base: nat, i: nat)
    requires i < |outcomes| && outcomes[i].Keep?
    ensures var prev := Collect(outcomes[..i], base);
            var next := Collect(outcomes[..i + 1], base);
            next.0 == prev.0 + [outcomes[i].data.(order := base + |prev.0|)] && next.1 == prev.1
  {
    assert outcomes[..i + 1][..i] == outcomes[..i];
  }

  /** One more iteration of the first loop, on a skipped entry: its line is logged. */
  lemma CollectSkip(outcomes: seq<Outcome>, base: nat, i: nat)
    requires i < |outcomes| && outcomes[i].Skip?
    ensures var prev := Collect(outcomes[..i], base);
            var next := Collect(outcomes[..i + 1], base);
            next.0 == prev.0 && next.1 == prev.1 + [outcomes[i].line]
  {
    assert outcomes[..i + 1][..i] == outcomes[..i];
  }

  /**
   * Apart from `order`, the records kept are the `Keep` outcomes in order,
   * and the lines logged are the `Skip` outcomes in order.
   */
  function Kept(outcomes: seq<Outcome>): seq<ModData>
  {
    if outcomes == [] then []
    else
      Kept(outcomes[..|outcomes| - 1]) +
      match outcomes[|outcomes| - 1]
      case Keep(d) => [d]
      case Skip(_) => []
  }

  lemma {:induction false} CollectKeepsOrder(outcomes: seq<Outcome>, base: nat)
    ensures var r := Collect(outcomes, base);
            |r.0| == |Kept(outcomes)| &&
            forall i :: 0 <= i < |r.0| ==> r.0[i] == Kept(outcomes)[i].(order := base + i)
    decreases |outcomes|
  {
    if outcomes != [] {
      CollectKeepsOrder(outcomes[..|outcomes| - 1], base);
    }
  }

  /** When every entry reads in, every one is kept and nothing is logged. */
  lemma {:induction false} CollectAllKept(outcomes: seq<Outcome>, base: nat)
    requires forall i :: 0 <= i < |outcomes| ==> outcomes[i].Keep?
    ensures |Collect(outcomes, base).0| == |outcomes|
    ensures Collect(outcomes, base).1 == []
    decreases |outcomes|
  {
    if outcomes != [] {
      var front := outcomes[..|outcomes| - 1];
      assert forall i :: 0 <= i < |front| ==> front[i] == outcomes[i];
      CollectAllKept(front, base);
    }
  }

  /** Every kept record lives in the directory named by its descriptor `Name`. */
  lemma KeptPaths(modsPath: string, disk: Disk, entries: seq<Pair>, base: nat, i: nat)
    requires i < |Collect(EntryOutcomes(modsPath, disk, entries), base).0|
    ensures var d := Collect(EntryOutcomes(modsPath, disk, entries), base).0[i];
            d.path == ModDir(modsPath, d.name)
  {
    var outcomes := EntryOutcomes(modsPath, disk, entries);
    CollectKeepsOrder(outcomes, base);
    KeptFromOutcomes(outcomes, i);
  }

  /** Each kept record is the data of some `Keep` outcome. */
  lemma {:induction false} KeptFromOutcomes(outcomes: seq<Outcome>, i: nat)
    requires i < |Kept(outcomes)|
    ensures exists j :: 0 <= j < |outcomes| && outcomes[j] == Keep(Kept(outcomes)[i])
    decreases |outcomes|
  {
    var front := outcomes[..|outcomes| - 1];
    if i < |Kept(front)| {
      KeptFromOutcomes(front, i);
      var j :| 0 <= j < |front| && front[j] == Keep(Kept(front)[i]);
      assert outcomes[j] == front[j];
    } else {
      assert outcomes[|outcomes| - 1] == Keep(Kept(outcomes)[i]);
    }
  }

  /**
   * The `init_mod_config` loop of `init_mods` over `mods`, as a value: the
   * registry it leaves and the records with their flags re-read.
   */
  function ApplyRegistry(doc: Doc, mods: seq<ModData>): (r: (Doc, seq<ModData>))
    ensures |r.1| == |mods|
    decreases |mods|
  {
    if mods == [] then (doc, [])
    else
      var prev := ApplyRegistry(doc, mods[..|mods| - 1]);
      var last := mods[|mods| - 1];
      var step := InitEntry(prev.0, last.name, last);
      (step.0, prev.1 + [step.1])
  }

  /** The loop keeps every record's name, and so its registry key. */
  lemma {:induction false} ApplyRegistryNames(doc: Doc, mods: seq<ModData>, i: nat)
    requires i < |mods|
    ensures ApplyRegistry(doc, mods).1[i].name == mods[i].name
    decreases |mods|
  {
    if i < |mods| - 1 {
      ApplyRegistryPrefix(doc, mods, i);
      ApplyRegistryNames(doc, mods[..|mods| - 1], i);
    } else {
      ApplyRegistryLast(doc, mods);
    }
  }

  /** The loop's record `i` for the list is its record `i` for the list without its last element. */
  lemma ApplyRegistryPrefix(doc: Doc, mods: seq<ModData>, i: nat)
    requires i < |mods| - 1
    ensures var r, p := ApplyRegistry(doc, mods).1[i], ApplyRegistry(doc, mods[..|mods| - 1]).1[i];
            r.name == p.name && r.enabled == p.enabled
    ensures mods[..|mods| - 1][i].name == mods[i].name && mods[..|mods| - 1][i].enabled == mods[i].enabled
  {
  }

  /** The last record the loop produces keeps its name and takes its flag from the registry the earlier records left. */
  lemma ApplyRegistryLast(doc: Doc, mods: seq<ModData>)
    requires mods != []
    ensures var last := mods[|mods| - 1];
            var r := ApplyRegistry(doc, mods).1[|mods| - 1];
            && r.name == last.name
            && r.enabled == FlagAfter(RegistryValue(ApplyRegistry(doc, mods[..|mods| - 1]).0, last.name), last.enabled)
  {
  }

  /** The loop touches no section but `[Mods]`. */
  lemma {:induction false} ApplyRegistryKeepsSections(doc: Doc, mods: seq<ModData>, n: string)
    requires n != ModsSection
    ensures SectionOf(ApplyRegistry(doc, mods).0, n) == SectionOf(doc, n)
    decreases |mods|
  {
    if mods != [] {
      ApplyRegistryKeepsSections(doc, mods[..|mods| - 1], n);
    }
  }

  /** The loop leaves the registry value of a name no record carries as it was. */
  lemma {:induction false} ApplyRegistryOthers(doc: Doc, mods: seq<ModData>, k: string)
    requires forall i :: 0 <= i < |mods| ==> mods[i].name != k
    ensures RegistryValue(ApplyRegistry(doc, mods).0, k) == RegistryValue(doc, k)
    decreases |mods|
  {
    if mods != [] {
      var front := mods[..|mods| - 1];
      forall i | 0 <= i < |front| ensures front[i].name != k {
        assert front[i] == mods[i];
      }
      ApplyRegistryOthers(doc, front, k);
    }
  }

  /** One more iteration of the `init_mod_config` loop. */
  lemma ApplyRegistryStep(doc: Doc, mods: seq<ModData>, i: nat)
    requires i < |mods|
    ensures var prev := ApplyRegistry(doc, mods[..i]);
            var step := InitEntry(prev.0, mods[i].name, mods[i]);
            ApplyRegistry(doc, mods[..i + 1]) == (step.0, prev.1 + [step.1])
  {
    assert mods[..i + 1][..i] == mods[..i];
  }

  /** A name already registered keeps its value through the loop: `init_mod_config` never overwrites a present key. */
  lemma {:induction false} ApplyRegistryKeepsRegistered(doc: Doc, mods: seq<ModData>, k: string)
    requires RegistryValue(doc, k).Some?
    ensures RegistryValue(ApplyRegistry(doc, mods).0, k) == RegistryValue(doc, k)
    decreases |mods|
  {
    if mods != [] {
      ApplyRegistryKeepsRegistered(doc, mods[..|mods| - 1], k);
    }
  }

  /**
   * For any list, duplicate names included, a mod registered before the
   * loop is enabled after it iff its registry value is exactly "True".
   */
  lemma {:induction false} ApplyRegistryRegistered(doc: Doc, mods: seq<ModData>, i: nat)
    requires i < |mods| && RegistryValue(doc, mods[i].name).Some?
    ensures ApplyRegistry(doc, mods).1[i].enabled <==> RegistryValue(doc, mods[i].name).value == "True"
    decreases |mods|
  {
    if i < |mods| - 1 {
      ApplyRegistryPrefix(doc, mods, i);
      ApplyRegistryRegistered(doc, mods[..|mods| - 1], i);
    } else {
      ApplyRegistryKeepsRegistered(doc, mods[..|mods| - 1], mods[i].name);
      ApplyRegistryLast(doc, mods);
    }
  }

  /**
   * With distinct names, after the `init_mod_config` loop a registered mod
   * is enabled iff its registry value is exactly "True" (overriding how
   * `init_mods` first read it), and an unregistered one keeps its flag.
   * The first half holds for any list (`ApplyRegistryRegistered`); the
   * second needs distinct names, because a later record with the same
   * name finds the key the earlier one registered as "True".
   */
  lemma {:induction false} ApplyRegistryEnabled(doc: Doc, mods: seq<ModData>, i: nat)
    requires DistinctNames(mods) && i < |mods|
    ensures ApplyRegistry(doc, mods).1[i].enabled == FlagAfter(RegistryValue(doc, mods[i].name), mods[i].enabled)
    decreases |mods|
  {
    var front := mods[..|mods| - 1];
    FrontDistinct(mods, front);
    if i < |front| {
      ApplyRegistryPrefix(doc, mods, i);
      ApplyRegistryEnabled(doc, front, i);
    } else {
      ApplyRegistryOthers(doc, front, mods[i].name);
      ApplyRegistryLast(doc, mods);
    }
  }

  /** Without its last record, a list with distinct names still has them, and none of them is the last one's. */
  lemma FrontDistinct(mods: seq<ModData>, front: seq<ModData>)
    requires DistinctNames(mods) && mods != [] && front == mods[..|mods| - 1]
    ensures DistinctNames(front)
    ensures forall j :: 0 <= j < |front| ==> front[j].name != mods[|mods| - 1].name
  {
    forall a, b | 0 <= a < b < |front| ensures front[a].name != front[b].name {
      assert front[a] == mods[a] && front[b] == mods[b];
    }
    forall j | 0 <= j < |front| ensures front[j].name != mods[|mods| - 1].name {
      assert front[j] == mods[j];
    }
  }

  /** The flags the re-read leaves are the flags the rewrite then records: with distinct names, `[Mods]` is exactly the list. */
  lemma ReconciledRegistry(doc: Doc, mods: seq<ModData>)
    requires DistinctNames(mods) && mods != []
    ensures var a := ApplyRegistry(doc, mods);
            SectionOf(RewriteRegistry(a.0, a.1), ModsSection) == Some(RegistryPairs(a.1))
  {
    var a := ApplyRegistry(doc, mods);
    assert DistinctNames(a.1) by {
      forall i, j | 0 <= i < j < |a.1| ensures a.1[i].name != a.1[j].name {
        ApplyRegistryNames(doc, mods, i);
        ApplyRegistryNames(doc, mods, j);
      }
    }
    RewriteExact(a.0, a.1);
  }

  /** The line `init_mods` logs when `config.ini` has no `[Mods]` section. */
  const NoModsLine: LogLine := LogLine(Warn, "No mods found in the config ini! You probably need to install a mod.")

  /**
   * The first phase of `init_mods` as a value: the list after the
   * survivors of the `[Mods]` entries are pushed onto `mods`, and the lines
   * logged on the way (a warning when there is no `[Mods]` section).
   */
  function ParseRegistry(doc: Doc, mods: seq<ModData>, modsPath: string, disk: Disk): (r: (seq<ModData>, seq<LogLine>))
    ensures mods <= r.0
    ensures forall i :: |mods| <= i < |r.0| ==> r.0[i].order == i
    ensures HasSection(doc, ModsSection) ==> |r.0| - |mods| + |r.1| == |PropsOf(doc, ModsSection)|
    ensures !HasSection(doc, ModsSection) ==> r == (mods, [NoModsLine])
  {
    if HasSection(doc, ModsSection) then
      var parsed := Collect(EntryOutcomes(modsPath, disk, PropsOf(doc, ModsSection)), |mods|);
      (mods + parsed.0, parsed.1)
    else (mods, [NoModsLine])
  }

  /**
   * One iteration of the first loop of init_mods: push the kept record with
   * its `order`, or log the skip. `kept` and `lines` are what the loop has
   * pushed and logged before entry `i`.
   */
  method Absorb(ui: ManagerState, outcomes: seq<Outcome>, i: nat, now: string, ghost mods0: seq<ModData>,
                ghost kept: seq<ModData>, ghost lines: seq<LogLine>, ghost base: string, ghost baseFile: Option<string>)
    returns (ghost kept': seq<ModData>, ghost lines': seq<LogLine>)
    requires i < |outcomes|
    requires ui.modDatas == mods0 + kept
    requires (kept, lines) == Collect(outcomes[..i], |mods0|)
    requires ui.log.Logged(base, baseFile, Render(lines, now))
    modifies ui`modDatas, ui.log
    ensures ui.modDatas == mods0 + kept'
    ensures (kept', lines') == Collect(outcomes[..i + 1], |mods0|)
    ensures ui.log.Logged(base, baseFile, Render(lines', now))
  {
    match outcomes[i] {
      case Keep(data) =>
        CollectKeep(outcomes, |mods0|, i);
        var added := data.(order := |ui.modDatas|);
        assert (mods0 + kept) + [added] == mods0 + (kept + [added]);
        ui.modDatas := ui.modDatas + [added];
        kept', lines' := kept + [added], lines;
      case Skip(line) =>
        CollectSkip(outcomes, |mods0|, i);
        ui.log.AddLine(line, now, base, baseFile, lines);
        kept', lines' := kept, lines + [line];
    }
  }

  /**
   * The first loop of init_mods, over the entries' outcomes in registry
   * order: each kept record is pushed with its `order`, each skip logged.
   */
  method ReadRegistry(ui: ManagerState, outcomes: seq<Outcome>, now: string)
    modifies ui`modDatas, ui.log
    ensures ui.modDatas == old(ui.modDatas) + Collect(outcomes, |old(ui.modDatas)|).0
    ensures ui.log.Appended(Render(Collect(outcomes, |old(ui.modDatas)|).1, now))
  {
    ghost var mods0 := ui.modDatas;
    ghost var kept: seq<ModData> := [];
    ghost var lines: seq<LogLine> := [];
    ghost var base, baseFile := ui.log.logText, ui.log.logFile;
    assert ui.log.logFile.Some? ==> ui.log.logFile.value + "" == ui.log.logFile.value;
    assert ui.log.logText == base + "";
    assert ui.modDatas == mods0 + kept;
    for i := 0 to |outcomes|
      invariant ui.modDatas == mods0 + kept
      invariant (kept, lines) == Collect(outcomes[..i], |mods0|)
      invariant ui.log.Logged(base, baseFile, Render(lines, now))
    {
      kept, lines := Absorb(ui, outcomes, i, now, mods0, kept, lines, base, baseFile);
    }
    assert outcomes[..|outcomes|] == outcomes;
  }

  /** One iteration of the second loop of init_mods, on the list `cur` whose first `i` records are done. */
  lemma ApplyFlagsStep(doc0: Doc, parsed: seq<ModData>, cur: seq<ModData>, i: nat, doc: Doc, next: Doc, updated: ModData)
    requires |cur| == |parsed| && i < |cur|
    requires (doc, cur[..i]) == ApplyRegistry(doc0, parsed[..i]) && cur[i..] == parsed[i..]
    requires (next, updated) == InitEntry(doc, cur[i].name, cur[i])
    ensures (next, cur[i := updated][..i + 1]) == ApplyRegistry(doc0, parsed[..i + 1])
    ensures cur[i := updated][i + 1..] == parsed[i + 1..]
  {
    ReplaceNext(cur, parsed, i, updated);
    ApplyRegistryStep(doc0, parsed, i);
  }

  /** Replacing the next element of a list whose tail is still `parsed`'s: the done prefix grows by it. */
  lemma ReplaceNext<T>(cur: seq<T>, parsed: seq<T>, i: nat, updated: T)
    requires |cur| == |parsed| && i < |cur| && cur[i..] == parsed[i..]
    ensures cur[i] == parsed[i]
    ensures cur[i := updated][..i + 1] == cur[..i] + [updated]
    ensures cur[i := updated][i + 1..] == parsed[i + 1..]
  {
    assert cur[i] == cur[i..][0] == parsed[i..][0] == parsed[i];
    var after := cur[i := updated];
    assert after[..i + 1] == cur[..i] + [updated] by {
      assert after[..i] == cur[..i];
    }
    assert after[i + 1..] == parsed[i + 1..] by {
      assert after[i + 1..] == cur[i + 1..] == cur[i..][1..];
    }
  }

  /** The second loop of init_mods: init_mod_config on every record, in list order. */
  method ApplyFlags(ui: ManagerState, cfg: ConfigState)
    modifies ui`modDatas, cfg`config
    ensures (cfg.config, ui.modDatas) == ApplyRegistry(old(cfg.config), old(ui.modDatas))
  {
    ghost var doc0 := cfg.config;
    ghost var parsedMods := ui.modDatas;
    for i := 0 to |ui.modDatas|
      invariant |ui.modDatas| == |parsedMods|
      invariant (cfg.config, ui.modDatas[..i]) == ApplyRegistry(doc0, parsedMods[..i])
      invariant ui.modDatas[i..] == parsedMods[i..]
    {
      ghost var doc := cfg.config;
      var updated := InitModConfig(cfg, ui.modDatas[i].name, ui.modDatas[i]);
      ApplyFlagsStep(doc0, parsedMods, ui.modDatas, i, doc, cfg.config, updated);
      ui.modDatas := ui.modDatas[i := updated];
    }
    assert ui.modDatas == ui.modDatas[..|ui.modDatas|] && parsedMods == parsedMods[..|parsedMods|];
  }

  /**
   * The end of init_mods: `init_mod_config` on every record, then
   * `set_mod_order_config` (which writes the file) and `write_config`.
   */
  method FinishInitMods(ui: ManagerState, cfg: ConfigState, now: string)
    modifies ui`modDatas, cfg, ui.log
    ensures var applied := ApplyRegistry(old(cfg.config), old(ui.modDatas));
            ui.modDatas == applied.1 && cfg.config == RewriteRegistry(applied.0, applied.1)
    ensures ui.log.Appended(Render(ConfigWriteLines(cfg.writeError) + ConfigWriteLines(cfg.writeError), now))
    ensures cfg.persisted == if cfg.writeError.None? then Some(cfg.config) else old(cfg.persisted)
  {
    ApplyFlags(ui, cfg);
    SetModOrderConfig(ui, cfg, now);
    WriteConfig(ui, cfg, now);
    ghost var written := Render(ConfigWriteLines(cfg.writeError), now);
    RenderConcat(ConfigWriteLines(cfg.writeError), ConfigWriteLines(cfg.writeError), now);
    LoggedThen(old(ui.log.logText), old(ui.log.logFile), ui.log.fileWritable, written, written);
  }

  /** The first phase of `init_mods`: the loop over `[Mods]`, or the warning that there is none. */
  method ReadPhase(ui: ManagerState, cfg: ConfigState, disk: Disk, now: string)
    modifies ui`modDatas, ui.log
    ensures var parsed := ParseRegistry(cfg.config, old(ui.modDatas), ui.modsPath, disk);
            ui.modDatas == parsed.0 && ui.log.Appended(Render(parsed.1, now))
  {
    var modSection := SectionOf(cfg.config, ModsSection);
    match modSection {
      case Some(section) =>
        var outcomes := EntryOutcomes(ui.modsPath, disk, section);
        ReadRegistry(ui, outcomes, now);
      case None =>
        ui.log.AddLines([NoModsLine], now);
    }
  }

  /**
   * `init_mods`, with `cwd` the working directory: read every registry
   * entry, re-read the flags, rewrite the registry and write it (twice, as
   * `set_mod_order_config` writes and `init_mods` writes again).
   */
  method InitMods(ui: ManagerState, cfg: ConfigState, disk: Disk, cwd: string, now: string)
    modifies ui`modsPath, ui`modDatas, cfg, ui.log
    ensures ui.modsPath == Join(cwd, "Mods")
    ensures var parsed := ParseRegistry(old(cfg.config), old(ui.modDatas), ui.modsPath, disk);
            var applied := ApplyRegistry(old(cfg.config), parsed.0);
            && ui.modDatas == applied.1
            && cfg.config == RewriteRegistry(applied.0, applied.1)
            && ui.log.Appended(Render(parsed.1, now) + Render(ConfigWriteLines(cfg.writeError) + ConfigWriteLines(cfg.writeError), now))
    ensures cfg.persisted == if cfg.writeError.None? then Some(cfg.config) else old(cfg.persisted)
  {
    ui.modsPath := Join(cwd, "Mods");
    ReadPhase(ui, cfg, disk, now);
    ghost var first := Render(ParseRegistry(old(cfg.config), old(ui.modDatas), ui.modsPath, disk).1, now);
    FinishInitMods(ui, cfg, now);
    ghost var cw := ConfigWriteLines(cfg.writeError);
    LoggedThen(old(ui.log.logText), old(ui.log.logFile), ui.log.fileWritable, first, Render(cw + cw, now));
  }
}
