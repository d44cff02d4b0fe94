/**
 * Paths and the parts of the file system the manager consults. Paths are
 * strings joined with the Windows separator (the program's only target); a
 * disk is the set of paths that exist and the INI documents that load.
 */
module Files {
  import opened Ini

  const Separator: char := '\\'

  /** `Path::join` for a relative second component. */
  function Join(dir: string, name: string): string
  {
    dir + [Separator] + name
  }

  /** `<mods>/<name>`: a mod's own directory. */
  function ModDir(modsPath: string, name: string): string
  {
    Join(modsPath, name)
  }

  /** `<mods>/<name>/mod.ini`: a mod's descriptor file. */
  function DescriptorPath(modsPath: string, name: string): string
  {
    Join(Join(modsPath, name), "mod.ini")
  }

  /**
   * What `exists()` and `Ini::load_from_file_noescape` see: a path exists
   * iff it is in `existing`; it loads iff `loadable` maps it to a document.
   */
  datatype Disk = Disk(existing: set<string>, loadable: map<string, Doc>)
}
