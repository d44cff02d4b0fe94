/**
 * The mod registry: the `[Mods]` section of `config.ini`, one key per mod
 * name with the value "True" or "False". `set_mod_order_config` rewrites it
 * from the mod list, `init_mod_config` reads a mod's flag from it (or
 * registers the mod), `update_mod_config` records a toggle and
 * `remove_mod_config` deletes a section.
 */
module Registry {
  import opened Wrappers
  import opened Ini
  import opened Logging
  import opened Mods
  import opened State

  const ModsSection: string := "Mods"

  /** The value `set_mod_order_config` writes for a mod. */
  function Flag(enabled: bool): string
  {
    if enabled then "True" else "False"
  }

  /** How `init_mods` reads a registry value: "True", "False", and anything else as enabled. */
  function EntryEnabled(value: string): (r: bool)
    ensures r <==> value != "False"
  {
    match value
    case "True" => true
    case "False" => false
    case _ => true
  }

  /** How `init_mod_config` reads a registry value: only "True" enables. */
  function ConfigEnabled(value: string): (r: bool)
    ensures r <==> value == "True"
  {
    match value
    case "True" => true
    case _ => false
  }

  /** Both readers give back the flag that was written. */
  lemma FlagReadsBack(enabled: bool)
    ensures EntryEnabled(Flag(enabled)) == enabled
    ensures ConfigEnabled(Flag(enabled)) == enabled
  {
  }

  /** The readers disagree exactly on values other than "True" and "False". */
  lemma ReadersDisagree(value: string)
    ensures EntryEnabled(value) != ConfigEnabled(value) <==> value != "True" && value != "False"
  {
  }

  /** The `[Mods]` pairs of a list, in list order. */
  function RegistryPairs(mods: seq<ModData>): seq<Pair>
  {
    seq(|mods|, i requires 0 <= i < |mods| => Pair(mods[i].name, Flag(mods[i].enabled)))
  }

  /** The registry value of a record `m` that sits at `k` in a list with distinct names, after the rewrite from that list. */
  lemma RewriteValueOf(doc: Doc, mods: seq<ModData>, k: nat, m: ModData)
    requires DistinctNames(mods) && k < |mods| && mods[k] == m
    ensures RegistryValue(RewriteRegistry(doc, mods), m.name) == Some(Flag(m.enabled))
  {
    RewriteValue(doc, mods, k);
  }

  /** Holds when no two records share a name. */
  predicate DistinctNames(mods: seq<ModData>)
  {
    forall i, j :: 0 <= i < j < |mods| ==> mods[i].name != mods[j].name
  }

  /**
   * The document `set_mod_order_config` leaves: `delete(Mods)`, then one
   * `with_section(Mods).set(name, flag)` per record, in list order.
   */
  function RewriteRegistry(doc: Doc, mods: seq<ModData>): (r: Doc)
    ensures forall n :: n != ModsSection ==> SectionOf(r, n) == SectionOf(doc, n)
  {
    SetPairs(Delete(doc, ModsSection), ModsSection, RegistryPairs(mods))
  }

  /** Distinct names are distinct keys. */
  lemma RegistryKeysDistinct(mods: seq<ModData>)
    requires DistinctNames(mods)
    ensures DistinctKeys(RegistryPairs(mods))
  {
  }

  /**
   * With distinct names, the rewritten `[Mods]` is exactly the list: one key
   * per record in list order with its flag, nothing left of the old section;
   * an empty list leaves no `[Mods]` at all.
   */
  lemma RewriteExact(doc: Doc, mods: seq<ModData>)
    requires DistinctNames(mods)
    ensures mods == [] ==> !HasSection(RewriteRegistry(doc, mods), ModsSection)
    ensures mods != [] ==> SectionOf(RewriteRegistry(doc, mods), ModsSection) == Some(RegistryPairs(mods))
  {
    if mods != [] {
      RegistryKeysDistinct(mods);
      SetPairsSection(Delete(doc, ModsSection), ModsSection, RegistryPairs(mods));
    }
  }

  /** With distinct names, each record's key reads back its flag. */
  lemma RewriteValue(doc: Doc, mods: seq<ModData>, i: nat)
    requires DistinctNames(mods) && i < |mods|
    ensures Get(PropsOf(RewriteRegistry(doc, mods), ModsSection), mods[i].name) == Some(Flag(mods[i].enabled))
  {
    RewriteExact(doc, mods);
    RegistryKeysDistinct(mods);
    GetDistinct(RegistryPairs(mods), i);
  }

  /** Whatever the names, the keys of the rewritten `[Mods]` are exactly the names in the list. */
  lemma RewriteKeys(doc: Doc, mods: seq<ModData>, k: string)
    ensures HasKey(PropsOf(RewriteRegistry(doc, mods), ModsSection), k) <==> exists i :: 0 <= i < |mods| && mods[i].name == k
  {
    SetPairsKeys(Delete(doc, ModsSection), ModsSection, RegistryPairs(mods), k);
    assert PropsOf(Delete(doc, ModsSection), ModsSection) == [];
    if HasKey(RegistryPairs(mods), k) {
      var i :| 0 <= i < |RegistryPairs(mods)| && RegistryPairs(mods)[i].key == k;
      assert mods[i].name == k;
    }
    if exists i :: 0 <= i < |mods| && mods[i].name == k {
      var i :| 0 <= i < |mods| && mods[i].name == k;
      assert RegistryPairs(mods)[i].key == k;
    }
  }

  /** One more iteration of the rewrite loop. */
  lemma RewriteStep(cleared: Doc, mods: seq<ModData>, i: nat)
    requires i < |mods|
    ensures SetPairs(cleared, ModsSection, RegistryPairs(mods[..i + 1]))
         == WithSectionSet(SetPairs(cleared, ModsSection, RegistryPairs(mods[..i])), ModsSection, mods[i].name, Flag(mods[i].enabled))
  {
    var p := Pair(mods[i].name, Flag(mods[i].enabled));
    assert RegistryPairs(mods[..i + 1]) == RegistryPairs(mods[..i]) + [p];
    SetPairsSnoc(cleared, ModsSection, RegistryPairs(mods[..i]), p);
  }

  /** `set_mod_order_config`: rewrite `[Mods]` from the list, then write `config.ini`. */
  method SetModOrderConfig(ui: ManagerState, cfg: ConfigState, now: string)
    modifies cfg, ui.log
    ensures cfg.config == RewriteRegistry(old(cfg.config), ui.modDatas)
    ensures cfg.persisted == if cfg.writeError.None? then Some(cfg.config) else old(cfg.persisted)
    ensures ui.log.Appended(Render(ConfigWriteLines(cfg.writeError), now))
  {
    cfg.config := Delete(cfg.config, ModsSection);
    ghost var cleared := cfg.config;
    for i := 0 to |ui.modDatas|
      invariant cfg.config == SetPairs(cleared, ModsSection, RegistryPairs(ui.modDatas[..i]))
      invariant cfg.persisted == old(cfg.persisted) && unchanged(ui.log)
    {
      var mod := ui.modDatas[i];
      var enabled := if mod.enabled then "True" else "False";
      RewriteStep(cleared, ui.modDatas, i);
      cfg.config := WithSectionSet(cfg.config, ModsSection, mod.name, enabled);
    }
    assert ui.modDatas[..|ui.modDatas|] == ui.modDatas;
    WriteConfig(ui, cfg, now);
  }

  /** The registry value of `name`, if `[Mods]` exists and holds it. */
  function RegistryValue(doc: Doc, name: string): Option<string>
  {
    Get(PropsOf(doc, ModsSection), name)
  }

  /** The flag `init_mod_config` leaves on a record whose registry value is `value` and whose flag was `flag`. */
  function FlagAfter(value: Option<string>, flag: bool): bool
  {
    match value
    case Some(v) => v == "True"
    case None => flag
  }

  /**
   * `init_mod_config` as a value: a registered mod takes its flag from the
   * registry (only "True" enables) and the document is unchanged; an
   * unregistered one keeps its flag and is registered as "True".
   */
  function InitEntry(doc: Doc, name: string, data: ModData): (r: (Doc, ModData))
    ensures r.1.name == data.name
    ensures r.1.enabled == FlagAfter(RegistryValue(doc, name), data.enabled)
    ensures RegistryValue(doc, name).Some? ==> r.0 == doc && r.1.enabled == (RegistryValue(doc, name).value == "True")
    ensures RegistryValue(doc, name).None? ==> r.1 == data && RegistryValue(r.0, name) == Some("True")
    ensures forall k :: k != name ==> RegistryValue(r.0, k) == RegistryValue(doc, k)
    ensures forall n :: n != ModsSection ==> SectionOf(r.0, n) == SectionOf(doc, n)
  {
    match RegistryValue(doc, name)
    case Some(entry) => (doc, data.(enabled := ConfigEnabled(entry)))
    case None => (WithSectionSet(doc, ModsSection, name, "True"), data)
  }

  /** `init_mod_config` changes nothing in the record but its flag. */
  lemma InitEntryRecord(doc: Doc, name: string, data: ModData)
    ensures InitEntry(doc, name, data).1 == data.(enabled := FlagAfter(RegistryValue(doc, name), data.enabled))
  {
  }

  /** `init_mod_config`. */
  method InitModConfig(cfg: ConfigState, name: string, data: ModData) returns (updated: ModData)
    modifies cfg`config
    ensures (cfg.config, updated) == InitEntry(old(cfg.config), name, data)
  {
    updated := data;
    var section := SectionOf(cfg.config, ModsSection);
    match section {
      case Some(props) =>
        var entry := Get(props, name);
        match entry {
          case Some(value) =>
            if value == "True" {
              updated := updated.(enabled := true);
            } else {
              updated := updated.(enabled := false);
            }
          case None =>
            cfg.config := WithSectionSet(cfg.config, ModsSection, name, "True");
        }
      case None =>
        cfg.config := WithSectionSet(cfg.config, ModsSection, name, "True");
    }
  }

  /** `update_mod_config`: record a record's flag under `name`. */
  method UpdateModConfig(cfg: ConfigState, name: string, data: ModData)
    modifies cfg`config
    ensures cfg.config == WithSectionSet(old(cfg.config), ModsSection, name, Flag(data.enabled))
    ensures RegistryValue(cfg.config, name) == Some(Flag(data.enabled))
    ensures forall k :: k != name ==> RegistryValue(cfg.config, k) == RegistryValue(old(cfg.config), k)
    ensures forall n :: n != ModsSection ==> SectionOf(cfg.config, n) == SectionOf(old(cfg.config), n)
  {
    if data.enabled {
      cfg.config := WithSectionSet(cfg.config, ModsSection, name, "True");
    } else {
      cfg.config := WithSectionSet(cfg.config, ModsSection, name, "False");
    }
  }

  /**
   * `remove_mod_config`: deletes the *section* called `name`; the `[Mods]`
   * key of that name is not touched.
   */
  method RemoveModConfig(cfg: ConfigState, name: string)
    modifies cfg`config
    ensures cfg.config == Delete(old(cfg.config), name)
    ensures name != ModsSection ==> PropsOf(cfg.config, ModsSection) == PropsOf(old(cfg.config), ModsSection)
  {
    cfg.config := Delete(cfg.config, name);
  }
}
