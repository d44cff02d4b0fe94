# ggxrd-mod-manager, modelled in Dafny

This project models the core of the Guilty Gear Xrd mod manager. The manager keeps one record per mod (`ModData`). Each mod lives in its own directory `<cwd>/Mods/<name>`, which holds a descriptor `mod.ini`. The manager also keeps a registry: the `[Mods]` section of `config.ini`, with one key per mod name and the value `True` or `False`.

The model covers:

- reading the registry and the descriptors at start-up (`init_mods`);
- registering a freshly extracted mod (`init_mod`);
- the registry operations (`set_mod_order_config`, `init_mod_config`, `update_mod_config`, `remove_mod_config`, `write_config`);
- the list edits of the main window: ticking a checkbox, dragging to reorder, selecting, and the Create, Edit and Remove windows;
- the deployment of `setup_mods_and_play` up to the Steam launch:
  - reset `+NativePackages` in the game's `DefaultEngine.ini`;
  - copy every enabled mod, last first, into the first free one-letter slot found by `add1_str`;
  - merge its script packages into `+NativePackages`;
- the log, with the start-up message of `main.rs`'s `init_log`, and the mirror into `Launch.log` that `Log::init_log` would set up (the program as written never calls it; see Findings).

Files, one module each:

- `wrappers.dfy` (`Wrappers`): `Option`.
- `ini.dfy` (`Ini`): the INI documents, as ordered sections of ordered key/value pairs. The rust-ini operations the program uses are given their documented meaning: `set`, `append`, `remove_all`, `get`, `get_all`, `section`, `section_mut`, `delete` and `with_section(..).set`.
- `files.dfy` (`Files`):
  - paths joined with the Windows separator;
  - a `Disk` that says which paths exist and which INI files load.
- `helpers.dfy` (`Helpers`): `add1_char` and `add1_str`.
- `log.dfy` (`Logging`): the `Log` class, with its text and file handle, and the rendering of log lines.
- `mod_data.dfy` (`Mods`): `ModData`, `new`, `Hash` and `write_data`.
- `state.dfy` (`State`):
  - the `ManagerState` and `ConfigState` resources as classes;
  - `write_config`;
  - the reorder by egui_dnd's `shift_vec`.
- `registry.dfy` (`Registry`): the four registry functions.
- `reconcile.dfy` (`Reconcile`): descriptor reading and `init_mods`.
- `install.dfy` (`Install`): `init_mod`.
- `list_ops.dfy` (`ListOps`): toggle, Create, Edit and Remove.
- `deploy.dfy` (`Deploy`): `setup_mods_and_play` without the launch.

The operations that change state are methods on the two state classes, and a game-directory class for deployment. Each method is proved against a function of the old state: `RewriteRegistry`, `InitEntry`, `ApplyRegistry`, `Collect`, `ParseRegistry`, `InstallOutcome`, `ResetOutcome`, `MergeDoc`, `DeployMod` or `Deployed`. Each log effect is stated as the exact text appended, rendered from a list of `LogLine`s. The clock is a parameter: `now` is the formatted timestamp. The outcome of each file-system call (writing `config.ini`, `write_data`, `fs::rename`, `fs::remove_dir_all`, loading and writing `DefaultEngine.ini`, `copy_recursively`) is a parameter or a fixed field. The methods return the writes they attempted.

## Model

| member | source | states |
|---|---|---|
| `Helpers.Add1Char` | src/helpers.rs:17-19 | the result is the next code point when that is a character, and otherwise the character itself; it is unchanged exactly at U+D7FF and U+10FFFF |
| `Helpers.Add1Str` | src/helpers.rs:21-23 | same length, and each character is moved by `add1_char` independently (no carry) |
| `Helpers.Add1StrFixpoint` | src/helpers.rs:21-23 | `add1_str` leaves a string unchanged iff every character is U+D7FF or U+10FFFF |
| `Helpers.Add1StrSingle` | src/helpers.rs:17-23 | a one-character name below U+D7FF moves to the next code point, so "a" becomes "b" |
| `Helpers.Add1StrHeadroom` | src/helpers.rs:21-23 | `add1_str` strictly reduces the distance to U+10FFFF whenever it changes the string, so the slot search terminates |
| `Logging.Log.constructor` | src/log.rs:4-8 | `Log::default()`: empty text and no file |
| `Logging.Log.InitLog` | src/log.rs:17-27 | `Log::init_log`: an opened `Launch.log` gets a handle through which no text has been written yet (the file keeps what earlier runs appended), and nothing is logged; otherwise exactly one Error entry "Failed to create log file! ..." is appended |
| `Logging.Log.AddToLog` | src/log.rs:29-47 | the text gains exactly `[TAG] [timestamp] data` and a newline; the file gains the same text only when there is a handle and writes succeed |
| `Logging.Log.AddLines` | src/log.rs:29-47 | a run of `add_to_log` calls appends the concatenation of their entries, to the text and the file alike |
| `Logging.Entry` | src/log.rs:36-40 | an entry starts with its severity tag, is longer than its message and ends in a newline |
| `Logging.EntryReadsBack` | src/log.rs:36-40 | every entry ends in a newline, and the console's prefix test (`starts_with("[INFO]")`, ...) recovers its severity |
| `Logging.MirrorConcat` | src/log.rs:42-44 | two writes through the handle equal one write of both texts |
| `Logging.RenderConcat` | src/log.rs:29-47 | the log text of two runs of lines is the text of the first followed by that of the second |
| `Mods.New` | src/mod_data.rs:26-39 | `ModData::new()`: a non-empty placeholder name, enabled, order 0, empty path, other fields and scripts |
| `Mods.Blank` | src/mod_data.rs:5-17 | the derived `Default`: empty name, path, fields and scripts, disabled, order 0 |
| `Mods.Hash` | src/mod_data.rs:19-23 | hashing feeds the name, and only the name, into the hasher |
| `Mods.HashOnlyName` | src/mod_data.rs:19-23 | two records with the same name hash alike, whatever their other fields |
| `Mods.WriteData` | src/mod_data.rs:41-60 | the document `write_data` builds step by step is `DescriptorDoc` of the record |
| `Mods.DescriptorLayout` | src/mod_data.rs:44-55 | the descriptor is `[Description]` with Name, Author, Version, Category, Description and Page in that order; it has a `[Scripts]` section only when there are scripts, and that section holds only the last one |
| `Mods.DescriptorDeterminedBy` | src/mod_data.rs:41-60 | two records write the same descriptor iff their six fields and their last scripts agree; `enabled`, `order` and `path` are never written |
| `State.ConfigState.constructor` | src/main.rs:66-69 | a registry document, nothing written to `config.ini` yet |
| `State.ManagerState.constructor` | src/main.rs:71-81 | `ManagerState::default()`: empty paths and list, default records |
| `State.ManagerState.CompleteDrag` | src/main.rs:123-128 | after a drag, the list is `shift_vec` of the old list with each `order` set to its position; every `order` equals its index |
| `State.ManagerState.Select` | src/main.rs:95-97 | the selection becomes a copy of the clicked record |
| `State.ManagerState.SelectedIndex` | src/main.rs:585-591 | the first index whose name is the selected record's; None (for `usize::MAX`) iff no record has that name |
| `State.ManagerState.BeginEdit` | src/main.rs:593-595 | the edit form becomes a copy of the selected record |
| `State.WriteConfig` | src/main.rs:183-191 | on success `config.ini` holds the registry in memory; on failure it is unchanged and one Error line is logged |
| `State.LogLaunch` | src/main.rs:434-436 | the start-up system logs exactly the Info entry "Launched GUILTY GEAR Xrd Mod Manager" |
| `State.StartLogAsWritten` | src/main.rs:37-37 | as written, `main.rs`'s `init_log` appends exactly the launch entry to the fresh `Log::default()` and leaves it without a `Launch.log` handle, whatever the file system allows |
| `State.StartLogFixed` | src/log.rs:17-27 | with `Log::init_log` called first, an opened writable `Launch.log` receives exactly the text logged; a failed open logs its error before the launch entry |
| `State.ShiftVec` | src/main.rs:124-124 | `shift_vec` keeps the length and the multiset of elements |
| `State.ShiftVecMoves` | src/main.rs:123-128 | a drag takes the dragged record out and puts it back at `to - 1` (dragging down) or `to` (dragging up); the others keep their relative order |
| `Registry.EntryEnabled` | src/main.rs:312-316 | `init_mods` reads every value except "False" as enabled |
| `Registry.ConfigEnabled` | src/main.rs:213-219 | `init_mod_config` reads only "True" as enabled |
| `Registry.FlagReadsBack` | src/main.rs:196-199 | both readers give back the flag `set_mod_order_config` wrote |
| `Registry.ReadersDisagree` | src/main.rs:312-316 | the two readers disagree exactly on values other than "True" and "False" |
| `Registry.RewriteRegistry` | src/main.rs:193-205 | the rewrite touches no section other than `[Mods]` |
| `Registry.RewriteExact` | src/main.rs:193-205 | with distinct names, the rewritten `[Mods]` holds exactly the list's (name, flag) pairs in list order; for an empty list there is no `[Mods]` |
| `Registry.RewriteValue` | src/main.rs:193-205 | with distinct names, each record's key reads back its own flag |
| `Registry.RewriteKeys` | src/main.rs:193-205 | for any names, the keys of the rewritten `[Mods]` are exactly the names in the list; no old key survives |
| `Registry.SetModOrderConfig` | src/main.rs:193-205 | the registry becomes `RewriteRegistry` of the old one and the list; then `write_config` |
| `Registry.InitEntry` | src/main.rs:207-230 | a registered mod takes its flag from the registry (only "True" enables) and the registry is unchanged; an unregistered one keeps its flag and is registered as "True"; no other key and no other section changes |
| `Registry.InitEntryRecord` | src/main.rs:207-230 | `init_mod_config` changes nothing in the record but `enabled` |
| `Registry.InitModConfig` | src/main.rs:207-230 | the method's new registry and record are `InitEntry` of the old ones |
| `Registry.UpdateModConfig` | src/main.rs:232-242 | the key gets the record's flag; every other key and every other section is unchanged |
| `Registry.RemoveModConfig` | src/main.rs:244-247 | the section named after the mod is deleted, and `[Mods]` is left untouched |
| `Reconcile.ParseDescriptor` | src/main.rs:263-309 | a file without `[Description]` or without `Name` is rejected, and an empty Name is accepted; the name is the first `Name`; the scripts are every `ScriptPackage` of `[Scripts]`; path, flag and order are as in `ModData::new()` |
| `Reconcile.DescriptionReadsBack` | src/main.rs:273-298 | the six fields `write_data` writes read back unchanged |
| `Reconcile.DescriptorRoundTrip` | src/mod_data.rs:41-60 | parsing what `write_data` wrote gives back the six fields and only the last script |
| `Reconcile.ReadEntry` | src/main.rs:256-334 | an entry is kept iff its `mod.ini` exists, loads and has a named description; the kept record lives in `<mods>/<Name>` and its flag comes from the registry value; a missing Name is a Warn and every other skip an Error |
| `Reconcile.Collect` | src/main.rs:317-318 | every pushed record gets `order` equal to its position in the list; each entry is either pushed or logged |
| `Reconcile.CollectKeepsOrder` | src/main.rs:255-336 | the pushed records are the kept outcomes in registry order |
| `Reconcile.CollectAllKept` | src/main.rs:255-336 | when every entry reads in, all are pushed and nothing is logged |
| `Reconcile.KeptPaths` | src/main.rs:311-311 | every record `init_mods` keeps has `path` `<mods>/<descriptor Name>` |
| `Reconcile.ApplyRegistry` | src/main.rs:339-341 | the `init_mod_config` loop keeps the length of the list |
| `Reconcile.ApplyRegistryNames` | src/main.rs:339-341 | the `init_mod_config` loop keeps every record's name |
| `Reconcile.ApplyRegistryKeepsRegistered` | src/main.rs:339-341 | for any list, a name already in `[Mods]` keeps its value through the loop |
| `Reconcile.ApplyRegistryRegistered` | src/main.rs:339-341 | for any list, duplicate names included, a registered mod is enabled after the loop iff its value is exactly "True" |
| `Reconcile.ApplyRegistryEnabled` | src/main.rs:339-341 | with distinct names, after the loop a registered mod is enabled iff its value is exactly "True", and an unregistered one keeps the flag `init_mods` gave it (the second half needs distinct names: a later record with the same name finds the key registered as "True") |
| `Reconcile.ApplyRegistryKeepsSections` | src/main.rs:339-341 | the loop touches no section but `[Mods]` |
| `Reconcile.ApplyRegistryOthers` | src/main.rs:339-341 | the loop leaves the value of every name not in the list as it was |
| `Reconcile.ReconciledRegistry` | src/main.rs:339-342 | with distinct names, the registry after start-up is exactly the reconciled list's names and flags, in order |
| `Reconcile.ParseRegistry` | src/main.rs:255-336 | the old list is kept as a prefix; each new record's `order` is its index; with `[Mods]` every entry is either pushed or logged once; without it only "No mods found" is logged |
| `Reconcile.ReadRegistry` | src/main.rs:255-336 | the first loop appends `Collect`'s records and logs `Collect`'s lines, in registry order |
| `Reconcile.ApplyFlags` | src/main.rs:339-341 | the second loop's list and registry are `ApplyRegistry` of the old ones |
| `Reconcile.ReadPhase` | src/main.rs:252-338 | with `[Mods]`, the list and log are `ParseRegistry`'s; without it, only the "No mods found" warning is logged |
| `Reconcile.FinishInitMods` | src/main.rs:339-343 | the flags are re-read, the registry is rewritten from the result, and `config.ini` is written twice |
| `Reconcile.InitMods` | src/main.rs:249-344 | `init_mods` in full: `mods_path` is `<cwd>/Mods`; the list, registry, file and log are as composed above |
| `Install.ReadDescribed` | src/main.rs:356-391 | a described mod takes its Name and the other five fields from `[Description]` (missing ones empty), is enabled with order 0 and no scripts, and lives at the given path |
| `Install.InstallOutcome` | src/main.rs:347-421 | a missing `mod.ini` gives only a warning; a readable named description is read; an unloadable or description-less file gives a fresh `ModData::new()` record named after the directory, with a warning |
| `Install.Register` | src/main.rs:391-394 | `init_mod_config` under the key, `write_config`, then the record is pushed |
| `Install.RegisterCreated` | src/main.rs:397-403 | the fresh descriptor is built by `write_data`, the record is registered, then the warning is logged |
| `Install.InitMod` | src/main.rs:347-421 | each branch's registry, list, `config.ini`, log and attempted descriptor write |
| `Install.InstallPathIsDescriptorFile` | src/main.rs:391-414 | as written, the record's path is the `mod.ini` file, not the mod directory; the fresh descriptor is aimed at `.../mod.ini/mod.ini`, whose directory would be the `mod.ini` file that already exists |
| `Install.InstallOutcomeFixed` | src/main.rs:396-415 | the corrected outcome points every record at `<mods>/<name>` |
| `Install.InstallFixedWritesDescriptor` | src/main.rs:396-415 | with the fix, the fresh descriptor lands at `<mods>/<name>/mod.ini` and reads back as `ModData::new()` with that name |
| `Install.InstallFixOnlyMovesPath` | src/main.rs:347-421 | the fix changes only `path` |
| `ListOps.FindDuplicate` | src/main.rs:659-664 | the loop flags a duplicate iff some record has the typed name, ignoring the exempted name |
| `ListOps.ExemptOnlyItself` | src/main.rs:754-759 | exempting the selected name only lets that same name through |
| `ListOps.Check` | src/main.rs:651-670 | an empty name is refused; otherwise the name is accepted iff no record clashes |
| `ListOps.CheckName` | src/main.rs:651-670 | its verdict is `Check`; a refusal logs exactly its Error line, and an acceptance logs nothing |
| `ListOps.PushKeepsOrder` | src/main.rs:672-679 | a record pushed with `order = len` keeps every `order` equal to its index |
| `ListOps.CreateKeepsNamesDistinct` | src/main.rs:659-679 | a record accepted by Create keeps the names of the list distinct |
| `ListOps.EditKeepsNamesDistinct` | src/main.rs:754-776 | a record accepted by Edit in place of the selected one keeps the names distinct |
| `ListOps.AddCreated` | src/main.rs:677-680 | the record joins the list and the registry is rewritten; "Created mod" is logged; distinct names and `order` = index are kept |
| `ListOps.PrepareCreated` | src/main.rs:672-675 | the form gets `order` = the list's length and the path `<mods>/<name>`, and the descriptor built for it is `DescriptorDoc` aimed at `<mods>/<name>/mod.ini` |
| `ListOps.FinishCreate` | src/main.rs:675-689 | a successful `write_data` runs `AddCreated`; a failed one logs only "Could not create mod!" and changes neither the list nor the registry |
| `ListOps.CreateAccepted` | src/main.rs:672-690 | the form gets the next `order` and `<mods>/<name>`; its descriptor is written to `<mods>/<name>/mod.ini`; on success it joins the list, otherwise only the error is logged |
| `ListOps.CreateMod` | src/main.rs:650-693 | the Create window's OK: either the refusal with nothing changed, or `CreateAccepted`'s effects; the list invariants are preserved |
| `ListOps.CreatedIsRegistered` | src/main.rs:678-680 | after Create, the new mod's key holds its flag and every other mod keeps its own |
| `ListOps.CommitRename` | src/main.rs:774-781 | the old section is deleted, `config.ini` is written, the record is replaced, "Mod updated!" is logged, and the registry is rewritten from the new list |
| `ListOps.WriteEdited` | src/main.rs:772-790 | a failed `write_data` only logs; a kept name changes neither the list nor the registry; a new name runs `CommitRename` |
| `ListOps.EditMod` | src/main.rs:745-796 | the Edit window's OK: the refusal; the rename to `<mods>/<name>` and its failure; the descriptor write and the branches of `WriteEdited` |
| `ListOps.RenameMovesRegistryKey` | src/main.rs:774-780 | after a rename, the registry holds the new name with its flag and no longer the old one |
| `ListOps.Toggled` | src/main.rs:90-93 | only the flag of the ticked record flips |
| `ListOps.ToggleMod` | src/main.rs:90-93 | the flag flips; `update_mod_config`, then `set_mod_order_config` and a second `write_config` (lines 597-600) |
| `ListOps.ToggleRewriteSupersedes` | src/main.rs:597-600 | the rewrite at the end of the frame makes the toggle's `update_mod_config` irrelevant |
| `ListOps.ToggleReadsBack` | src/main.rs:90-93 | after a toggle, the registry reads back the new flag and every other mod's own flag |
| `ListOps.RemoveMod` | src/main.rs:811-822 | a failed `remove_dir_all` only logs; otherwise the section is deleted, the registry is rewritten from the list that still holds the mod, `config.ini` is written twice, and the record then leaves the list |
| `ListOps.CommitRemove` | src/main.rs:814-818 | the registry and list updates after the directory is gone |
| `ListOps.RemoveLeavesStaleKey` | src/main.rs:815-818 | as written, the registry still holds the removed mod's key and flag |
| `ListOps.RemoveStaleExample` | src/main.rs:815-818 | removing the one disabled mod "A" leaves `A=False` in the registry |
| `ListOps.RemovedRegistryForgetsMod` | src/main.rs:815-818 | rewriting from the list without the mod drops its key and keeps every other mod's flag |
| `ListOps.RemovedRegistryKeeps` | src/main.rs:815-818 | each remaining mod keeps its flag after the corrected removal |
| `ListOps.DragKeepsNamesDistinct` | src/main.rs:123-128 | a drag keeps the names of the list distinct |
| `ListOps.DragLeavesRegistryStale` | src/main.rs:84-128 | as written, a drag that moves a record leaves `[Mods]` in the old order, different from the list's pairs |
| `ListOps.DragMod` | src/main.rs:123-128 | with the fix, the drag is followed by `set_mod_order_config`: `[Mods]` then holds exactly the dragged list's pairs, in its order |
| `Deploy.FindSlot` | src/main.rs:866-876 | the slot search ends at a free name, or at a taken name that `add1_str` no longer changes (the "Too many mods" case) |
| `Deploy.SlotIsFirstFree` | src/main.rs:866-876 | from a one-letter name, the slot is the first free letter at or after it, and the search gives up exactly when every name up to U+D7FF is taken |
| `Deploy.AllocateSlot` | src/main.rs:865-876 | the `while exists()` loop computes `FindSlot` from "a" |
| `Deploy.ResetPackages` | src/main.rs:850-851 | `+NativePackages` becomes exactly `REDGame`, and the other keys are unchanged |
| `Deploy.ResetLeavesOnlyRedGame` | src/main.rs:842-861 | once written, the engine file lists only `REDGame`, and no other key or section changes |
| `Deploy.ResetOutcome` | src/main.rs:842-861 | at most one log line, and none exactly when the file reads, has `Engine.ScriptPackages` and writes; the file changes only when it reads and writes; no other section changes |
| `Deploy.ResetEngine` | src/main.rs:842-861 | the reset, with its three error lines (read, missing section, write) |
| `Deploy.WriteEngine` | src/main.rs:852-855 | a write saves the document or logs its error (the merge writes the same way, lines 901-904) |
| `Deploy.MergeDoc` | src/main.rs:888-898 | at most one log line per script, and no section other than `Engine.ScriptPackages` changes |
| `Deploy.MergeAddsMissing` | src/main.rs:888-898 | the old packages are kept as a prefix, every script is listed, nothing else and no duplicate is added, one line is logged per package added, and nothing outside `+NativePackages` changes |
| `Deploy.MergeWithoutSection` | src/main.rs:888-898 | without the section, nothing changes and one error is logged per script |
| `Deploy.MergeScripts` | src/main.rs:888-898 | the script loop computes `MergeDoc`, logging as it goes |
| `Deploy.MergeOutcome` | src/main.rs:885-907 | a read error logs only that error and changes nothing; a write error keeps the file as it was and ends with the write error; no other section changes |
| `Deploy.MergeInto` | src/main.rs:885-907 | reload, merge and write back, or log the read error |
| `Deploy.DeployMod` | src/main.rs:864-908 | a disabled mod changes nothing; an enabled one whose copy succeeds adds exactly one copy, into `FindSlot`'s slot from "a", and that slot; an exhausted search logs "Too many mods" first; a failed copy leaves the game directory as it was and ends with its error line |
| `Deploy.DeployModLists` | src/main.rs:864-908 | without engine faults, one mod's deployment keeps the section and its packages, adds no duplicate, and lists the mod's scripts |
| `Deploy.DeployOne` | src/main.rs:864-908 | one loop iteration's game directory and log are `DeployMod`'s |
| `Deploy.Deployed` | src/main.rs:863-909 | the loop only adds copies and slots; with no enabled mod it changes nothing and logs nothing |
| `Deploy.DeployAll` | src/main.rs:863-909 | the loop over the list, last first, computes `Deployed` |
| `Deploy.DeployVisitsEnabledReversed` | src/main.rs:863-909 | the copies made are exactly the enabled mods whose copy succeeds, in reverse list order |
| `Deploy.DeployListsScripts` | src/main.rs:863-909 | without engine faults, every script of every copied mod ends up in `+NativePackages`; earlier packages stay and no duplicate is introduced |
| `Deploy.SetupMods` | src/main.rs:840-910 | reset, an emptied mod directory, the loop, then "Mods copied to game directory!" |

## Left out

- The user interface (egui windows, popups, buttons, fonts, the console layouter's colours) is not modelled. Only the state changes made by the buttons are.
- The Steam launch and `open::that` (lines 108, 681 and 911-915 of src/main.rs) are not modelled. They only hand a path or URL to the operating system.
- `init_config` and `create_config` are not modelled. Loading `config.ini` is where the registry document comes from. `create_config` builds a `[General]` section in a local document that it then discards.
- The updater, archive extraction and downloading (src/download.rs and the install buttons) are not modelled. `init_mod` receives the extracted directory's name.
- `copy_recursively` is not modelled file by file. A copy either succeeds or fails as a whole. A failed copy leaves no slot behind, although the real one may leave a partly created directory.
- `remove_dir_all` of the game's `Mods` directory is taken to succeed. Its error is discarded by the program.
- The text format of INI files is left abstract: escaping, parsing and printing. A file is a document; loading gives the document or fails.
- The clock is not modelled. Every operation takes the formatted timestamp as a parameter.
- The start-up systems registered at src/main.rs:37-44 (`init_log`, `init_update`, `init_config`, `init_steam`, `init_mods` and two visual ones) have no ordering constraints, so Bevy runs them in an order it does not specify, and `init_update` and `init_steam` log too. The model takes `init_log` first and `init_config` before `init_mods`. "After start-up" in `Reconcile.ReconciledRegistry` and `Reconcile.InitMods` rests on that order, and the log's text at start-up may hold other systems' entries around the launch entry.
- I/O outcomes are fixed per object, not threaded between operations. Writes to `config.ini` are decided by `ConfigState.writeError`, writes to `Launch.log` by `Log.fileWritable` (these matter only once `Log::init_log` has opened the file), and the engine file and copies by `GameDir.faults`. A copy's failure is keyed by the mod's own directory, not by the slot name it is copied to. So the model does not tie a failure to a slot name Windows refuses: `add1_str` reaches "|" (U+007C) as the 28th slot from "a", and creating that directory would fail for every enabled mod after the 27th.
- The game directory's slots are the set of existing directory names; paths are strings.
- State.ShiftVec: egui_dnd's `shift_vec` is not part of this model. It is given its documented behaviour (rotate the slice between `from` and `to`), and `CanShift` states when it does not panic.
- ListOps.EditMod and ListOps.RemoveMod: `selected_index` may be `usize::MAX` in the source, and indexing with it panics. The methods therefore require an index within the list, for Edit only once the name is accepted, as in the source.
- Install.InitMod: a descriptor with `[Description]` but without `Name` makes `init_mod` unwrap `None` and panic. `CanInstall` excludes that input.
- Reconcile.ApplyRegistry: its own contract states only the length. The facts about each record are stated per field, by `ApplyRegistryNames`, `ApplyRegistryRegistered`, `ApplyRegistryEnabled` and `InitEntryRecord`.
- Logging.Log.InitLog: `Log::init_log` (src/log.rs:17-27) is never called. The startup system registered at src/main.rs:37 is `main.rs`'s own `init_log` (lines 434-436), which only logs the launch message. In the program as written the log never has a handle, and the `Launch.log` mirror is dead code; the model states this as a finding.
- ListOps.DragLeavesRegistryStale: the end of a drag (src/main.rs:123-128) does not set `config_needs_update`, which only a ticked checkbox sets (line 92). The new order reaches `config.ini` only with the next toggle, Create, Edit or Remove, and is lost if the manager closes first. The model states this as a finding and uses `ListOps.DragMod` as the corrected drag.
- Where the source and its description differ, the model follows the source:
  - an empty `Name` in a descriptor is accepted by `init_mods`;
  - `init_mod` does no duplicate check, so installing a mod twice pushes it twice;
  - when the slot names are exhausted, the mod is still copied into the last name tried;
  - an Edit that keeps the name writes the descriptor but leaves the list's record and the registry as they were.

## Findings

| source | as written | input that shows it | evidently intended | confidence | as-written member | corrected member |
|---|---|---|---|---|---|---|
| src/main.rs:815-818 | Remove calls `remove_mod_config`, which deletes a section named after the mod. It then rewrites `[Mods]` from the list before removing the record, so the removed mod's key survives in `config.ini`. | list `[A]` with A disabled, remove index 0: the list is empty, but `config.ini` keeps `A=False` | the registry is rewritten from the list without the removed mod, so its key is gone | not executed | `ListOps.RemoveLeavesStaleKey` | `ListOps.RemovedRegistryForgetsMod` |
| src/main.rs:391-416 | `init_mod` sets the record's path to the `mod.ini` file, not to the mod's directory. When that `mod.ini` exists but does not load or has no `[Description]`, `write_data` is called on the file path: its `create_dir_all` (src/mod_data.rs:43) fails because a file is in the way, and `unwrap_or_default` (lines 399 and 410) discards the error. No descriptor is written, yet the "Created one automatically." warning (lines 403 and 414) is logged. The record's path is the file, which deployment and Edit then use as a directory. | install a directory `X` whose `mod.ini` exists but does not load (or loads without `[Description]`): the record's path is `<mods>\X\mod.ini`, the descriptor target is `<mods>\X\mod.ini\mod.ini`, which cannot be created, and the warning claims a descriptor was created | the path is the directory `<mods>/<name>`, as Create sets it and where `init_mods` looks for the descriptor, so the fresh descriptor replaces the unreadable `<mods>/<name>/mod.ini` | not executed | `Install.InstallPathIsDescriptorFile` | `Install.InstallFixedWritesDescriptor` |
| src/main.rs:123-128 | The end of a drag reorders the list and its `order` fields, but `mods_layout` sets `config_needs_update` only for a ticked checkbox (line 92), so `[Mods]` keeps the old order until some other change rewrites it. | list `[A, B]` in sync with `[Mods]`, drag from 0 to 2: the list is `[B, A]`, `[Mods]` still lists `A` then `B`, and a restart reads back `[A, B]` | the drag also sets `config_needs_update`, so `set_mod_order_config` writes the new order | not executed | `ListOps.DragLeavesRegistryStale` | `ListOps.DragMod` |
| src/main.rs:434-436 | The startup system registered at line 37 is `main.rs`'s own `init_log`, which only logs the launch message. It never calls `Log::init_log` (src/log.rs:17-27), the only code that opens `Launch.log`, so the log never has a file handle and nothing is ever written to `Launch.log`. | any start with a writable working directory: the launch entry is logged, yet the log has no `Launch.log` handle, so `Launch.log` is never created or written | `init_log` calls `ui_state.log.init_log()` before logging, so every entry is mirrored into `Launch.log` | not executed | `State.StartLogAsWritten` | `State.StartLogFixed` |
