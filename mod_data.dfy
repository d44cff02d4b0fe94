/**
 * `mod_data.rs`: the record the manager keeps per mod, and the descriptor
 * document (`mod.ini`) it writes for one.
 */
module Mods {
  import opened Wrappers
  import opened Ini

  /** `ModData`; `order` is a `usize`, `path` a `PathBuf`. */
  datatype ModData = ModData(
    name: string,
    author: string,
    version: string,
    category: string,
    description: string,
    page: string,
    path: string,
    enabled: bool,
    order: nat,
    scripts: seq<string>)

  /** `ModData::new()`. */
  function New(): (r: ModData)
    ensures r.name != "" && r.enabled && r.order == 0 && r.path == "" && r.scripts == []
    ensures r.author == r.version == r.category == r.description == r.page == ""
  {
    ModData("New Mod", "", "", "", "", "", "", true, 0, [])
  }

  /** `ModData::default()` (the derived `Default`): every field empty, false or zero. */
  function Blank(): (r: ModData)
    ensures r.name == "" && !r.enabled && r.order == 0 && r.path == "" && r.scripts == []
    ensures r.author == r.version == r.category == r.description == r.page == ""
  {
    ModData("", "", "", "", "", "", "", false, 0, [])
  }

  /** The `Hash` impl: what it feeds to the hasher, whose state is the sequence of values fed so far. */
  function Hash(m: ModData, state: seq<string>): (r: seq<string>)
    ensures |r| == |state| + 1 && state <= r && r[|state|] == m.name
  {
    state + [m.name]
  }

  /** Two records with the same name hash alike, whatever their other fields. */
  lemma HashOnlyName(a: ModData, b: ModData, state: seq<string>)
    requires a.name == b.name
    ensures Hash(a, state) == Hash(b, state)
  {
  }

  /** The `for script in &self.scripts` loop of `write_data`: one `set` per script, in order. */
  function AddScripts(doc: Doc, scripts: seq<string>): Doc
  {
    if scripts == [] then doc
    else WithSectionSet(AddScripts(doc, scripts[..|scripts| - 1]), "Scripts", "ScriptPackage", scripts[|scripts| - 1])
  }

  /** The whole document `write_data` writes to `<path>/mod.ini`. */
  function DescriptorDoc(m: ModData): Doc
  {
    AddScripts([Section("Description", DescriptionPairs(m))], m.scripts)
  }

  /** The six descriptor fields, in the order `write_data` sets them. */
  function DescriptionPairs(m: ModData): seq<Pair>
  {
    [Pair("Name", m.name), Pair("Author", m.author), Pair("Version", m.version),
     Pair("Category", m.category), Pair("Description", m.description), Pair("Page", m.page)]
  }

  /**
   * `write_data` builds the document step by step. Writing it to disk (and
   * creating the directory) is I/O outside this model; callers are given
   * the outcome.
   */
  method WriteData(m: ModData) returns (conf: Doc)
    ensures conf == DescriptorDoc(m)
  {
    ghost var desc := [Section("Description", DescriptionPairs(m))];
    conf := SetPairs([], "Description", DescriptionPairs(m));
    assert conf == desc by {
      DescriptionKeysDistinct(m);
      SetPairsFresh("Description", DescriptionPairs(m));
    }
    for i := 0 to |m.scripts|
      invariant conf == AddScripts(desc, m.scripts[..i])
    {
      AddScriptsSnoc(desc, m.scripts, i);
      conf := WithSectionSet(conf, "Scripts", "ScriptPackage", m.scripts[i]);
    }
    assert m.scripts[..|m.scripts|] == m.scripts;
  }

  /** The six description keys are pairwise distinct, so each `set` appends. */
  lemma DescriptionKeysDistinct(m: ModData)
    ensures DistinctKeys(DescriptionPairs(m))
  {
  }

  /** One more iteration of the scripts loop. */
  lemma AddScriptsSnoc(doc: Doc, scripts: seq<string>, i: nat)
    requires i < |scripts|
    ensures AddScripts(doc, scripts[..i + 1]) == WithSectionSet(AddScripts(doc, scripts[..i]), "Scripts", "ScriptPackage", scripts[i])
  {
    assert scripts[..i + 1][..i] == scripts[..i];
  }

  /** The first script opens a `[Scripts]` section after the description. */
  lemma FirstScript(desc: Section, x: string)
    requires desc.name == "Description"
    ensures WithSectionSet([desc], "Scripts", "ScriptPackage", x) == [desc, Section("Scripts", [Pair("ScriptPackage", x)])]
  {
    assert SectionOf([desc], "Scripts") == None;
    assert Set([], "ScriptPackage", x) == [Pair("ScriptPackage", x)];
  }

  /** A later script replaces the one `[Scripts]` holds. */
  lemma NextScript(desc: Section, y: string, x: string)
    requires desc.name == "Description"
    ensures WithSectionSet([desc, Section("Scripts", [Pair("ScriptPackage", y)])], "Scripts", "ScriptPackage", x)
         == [desc, Section("Scripts", [Pair("ScriptPackage", x)])]
  {
    var prev := [desc, Section("Scripts", [Pair("ScriptPackage", y)])];
    assert prev[1..] == [Section("Scripts", [Pair("ScriptPackage", y)])];
    assert SectionOf(prev, "Scripts") == Some([Pair("ScriptPackage", y)]);
    assert Set([Pair("ScriptPackage", y)], "ScriptPackage", x) == [Pair("ScriptPackage", x)];
    assert UpdateFirst(prev[1..], "Scripts", [Pair("ScriptPackage", x)]) == [Section("Scripts", [Pair("ScriptPackage", x)])];
  }

  lemma {:induction false} ScriptsLayout(desc: Section, scripts: seq<string>)
    requires desc.name == "Description"
    ensures AddScripts([desc], scripts) ==
            [desc] + if scripts == [] then [] else [Section("Scripts", [Pair("ScriptPackage", scripts[|scripts| - 1])])]
  {
    if scripts != [] {
      var front := scripts[..|scripts| - 1];
      var x := scripts[|scripts| - 1];
      ScriptsLayout(desc, front);
      if front == [] {
        FirstScript(desc, x);
      } else {
        NextScript(desc, front[|front| - 1], x);
      }
    }
  }

  /**
   * The descriptor holds a `[Description]` section with Name, Author,
   * Version, Category, Description and Page in that order, and a
   * `[Scripts]` section only when there are scripts; since each script is
   * written with `set`, that section keeps only the last one.
   */
  lemma DescriptorLayout(m: ModData)
    ensures DescriptorDoc(m) ==
            [Section("Description", DescriptionPairs(m))] +
            if m.scripts == [] then []
            else [Section("Scripts", [Pair("ScriptPackage", m.scripts[|m.scripts| - 1])])]
  {
    ScriptsLayout(Section("Description", DescriptionPairs(m)), m.scripts);
  }

  /** Two records write the same descriptor iff their six fields and their last scripts agree. */
  predicate SameDescriptor(a: ModData, b: ModData)
  {
    && a.name == b.name && a.author == b.author && a.version == b.version
    && a.category == b.category && a.description == b.description && a.page == b.page
    && (a.scripts == [] <==> b.scripts == [])
    && (a.scripts != [] ==> a.scripts[|a.scripts| - 1] == b.scripts[|b.scripts| - 1])
  }

  /** In particular `enabled`, `order` and `path` are never serialised. */
  lemma DescriptorDeterminedBy(a: ModData, b: ModData)
    ensures DescriptorDoc(a) == DescriptorDoc(b) <==> SameDescriptor(a, b)
  {
    DescriptorLayout(a);
    DescriptorLayout(b);
    if DescriptorDoc(a) == DescriptorDoc(b) {
      assert DescriptorDoc(a)[0] == DescriptorDoc(b)[0];
      assert DescriptionPairs(a) == DescriptionPairs(b);
      assert DescriptionPairs(a)[0] == DescriptionPairs(b)[0];
      assert DescriptionPairs(a)[1] == DescriptionPairs(b)[1];
      assert DescriptionPairs(a)[2] == DescriptionPairs(b)[2];
      assert DescriptionPairs(a)[3] == DescriptionPairs(b)[3];
      assert DescriptionPairs(a)[4] == DescriptionPairs(b)[4];
      assert DescriptionPairs(a)[5] == DescriptionPairs(b)[5];
      assert |DescriptorDoc(a)| == |DescriptorDoc(b)|;
      if a.scripts != [] {
        assert DescriptorDoc(a)[1] == DescriptorDoc(b)[1];
      }
    }
  }
}
