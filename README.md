# Windows application menus and shortcuts (appinst, Win32 backend)

A Dafny model of the Windows backend of `appinst`. The backend installs
an application's start-menu entries and shortcuts, and removes them again.

**Installing** builds a directory for every menu of a forest of menu specs,
working breadth first from a queue. It also records each menu's qualified
category in a category map. Then each shortcut is placed in each of its
categories:

- the command is expanded (the `{{FILEBROWSER}}` and `{{WEBBROWSER}}` sentinels);
- the destination directories are chosen: the category's menu directory, then
  the desktop, then quick launch;
- a `.lnk` link is written in each of them, with its target and its arguments
  quoted.

**Uninstalling** does four things:

- it unlinks the desktop and quick-launch links the shortcuts may have left;
- it walks each top-level menu directory top-down;
- it removes the files named like one of the shortcuts' links;
- it tries `os.rmdir` on every directory of the menu, deepest first, skipping
  those that are not empty.

The modules:

- `Wrappers`: `Option` and `Result`.
- `Sequences`: distinctness, reversal, and facts about slices and
  concatenation that the other modules share.
- `FileSystem`: the disk as a tree. A `Node` is `File(locked)` or
  `Dir(entries)`, and a path is a sequence of names. It defines lookup,
  `os.makedirs` (`MakeDirs`) and `os.unlink`/`os.remove`/`os.rmdir` (`Delete`,
  which fails on a locked file, a missing path or a non-empty directory).
- `Walking`: `os.walk` as the top-down sequence of `(root, dirs, files)` steps.
- `Quoting`: `quoted`, the argument string, and the Windows command-line
  reading that takes it apart again.
- `Menus`: the queue of menu entries, qualified categories, the category map
  and directory creation.
- `Shortcuts`: command expansion, link names, icon arguments, destination
  directories and the record of one created link.
- `Uninstall`: the bottom-up list of menu directories, removal of the matching
  files, and removal of the emptied directories.
- `Phases`: each phase of the two public operations as a function over the
  tree and the log of created links, with the theorems about them.
- `Win32`: the class `Win32`. It has the fields `uninstall`, `addToDesktop`,
  `addToLauncher` and `categoryMap`, the disk, and the log of links written.
  Its methods follow the Python methods loop by loop, and each is proved equal
  to the phase function it implements.

## Model

| member | source | states |
|---|---|---|
| `Quoting.QuotedStrip` | appinst/win32.py:12-21 | quoting then stripping gives the stripped input; the result is wrapped in quotes exactly when the stripped text holds a space |
| `Quoting.QuotedIdempotent` | appinst/win32.py:16-21 | quoting a quoted string changes nothing: no string is ever quoted twice |
| `Quoting.QuotedLeavesPlainWords` | appinst/win32.py:18-21 | a string with no space and no surrounding quotes is returned unchanged |
| `Quoting.Strip` | appinst/win32.py:17 | `strip('"')` returns no longer a string, with no quote at either end |
| `Quoting.StripSlice` | appinst/win32.py:17 | what `strip('"')` keeps is a middle slice of the input with only quotes on either side |
| `Quoting.StripExact` | appinst/win32.py:17 | stripping cuts exactly the quotes around an unwrapped text |
| `Quoting.WordsOfArgString` | appinst/win32.py:179-183 | reading the space-joined quoted arguments back as a command line gives every argument, stripped of its own quotes |
| `Shortcuts.Expand` | appinst/win32.py:117-147 | the split of `cmd` fails with `IndexError` exactly when `cmd` is empty or is `{{FILEBROWSER}}` alone |
| `Shortcuts.ExpandKeepsCommandLine` | appinst/win32.py:117-147 | the expanded target and arguments are `cmd` with the file-browser sentinel dropped, or the web-browser sentinel replaced by the interpreter, the browser script and `-t` |
| `Shortcuts.LinkName` | appinst/win32.py:153 | the link name is the shortcut name followed by `.lnk` |
| `Shortcuts.LinkNameInjective` | appinst/win32.py:153 | different shortcut names give different link names |
| `Shortcuts.IconArgs` | appinst/win32.py:155-159 | the extra arguments are `['', icon]` exactly when the icon is present and not empty, otherwise none |
| `Shortcuts.DestinationDirs` | appinst/win32.py:161-167 | the category's directory first, then the desktop exactly when both desktop flags hold, then quick launch likewise; a missing category raises `KeyError` |
| `Shortcuts.LinkTarget` | appinst/win32.py:153-184 | a link is written to `join(dst_dir, name + '.lnk')` with the quoted command as its target, the comment and the icon arguments |
| `Shortcuts.LinkArgumentsReadBack` | appinst/win32.py:183 | the argument string of a link reads back as the arguments, each stripped of its quotes |
| `Menus.ChildItems` | appinst/win32.py:100-101 | each sub-menu joins the queue with its parent's path and qualified category |
| `Menus.InitialQueue` | appinst/win32.py:82 | every top-level menu starts under the start menu with an empty parent category |
| `Menus.TopLevelEntry` | appinst/win32.py:82-97 | a top-level menu's directory is `join(start_menu, name)` and its category is its own |
| `Menus.ChildCategory` | appinst/win32.py:94-96 | a sub-menu's category is the parent's, a dot and its own exactly when the parent's is longer than one character; otherwise its own |
| `Menus.QueueStep` | appinst/win32.py:83-101 | taking an entry off the queue and adding its sub-menus leaves one menu fewer to visit, so the loop ends |
| `Menus.VisitIsTree` | appinst/win32.py:82-101 | the queue hands out every menu of the forest exactly once, with its parent's path and category |
| `Menus.TreeParents` | appinst/win32.py:100-101 | every entry handed out is a top-level entry or the sub-menu entry of another one |
| `Menus.TreeBelow` | appinst/win32.py:87 | every menu directory lies strictly below the start menu |
| `Menus.CategoryMapKeys` | appinst/win32.py:97 | the category map holds exactly the categories of the entries handed out |
| `Menus.CategoryMapLast` | appinst/win32.py:97 | each category maps to the path of the last entry with that category: a later write wins |
| `Menus.CreateDirsGrows` | appinst/win32.py:87-89 | creating the menu directories only adds directories |
| `Menus.CreateDirsStops` | appinst/win32.py:87-89 | creation stops exactly at the first menu with a file on the way to its directory |
| `Menus.CreateDirsExist` | appinst/win32.py:87-89 | every menu directory handled exists afterwards |
| `Menus.CreateDirsWithin` | appinst/win32.py:87-89 | a directory that exists only after creation lies at or above one of the menu directories handled |
| `Menus.CreateDirsStill` | appinst/win32.py:87-89 | when the menu directories already exist up to one that cannot be created, creation changes nothing and stops at the same place |
| `Menus.CreateDirsStopped` | appinst/win32.py:87-89 | once `os.makedirs` has raised, no later directory is tried |
| `FileSystem.DeleteSucceeds` | appinst/win32.py:173 | a removal succeeds exactly when the path holds an unlocked file or, for `rmdir`, an empty directory |
| `FileSystem.DeleteKinds` | appinst/win32.py:173 | a removal takes away the path and what lies below it, and nothing else |
| `FileSystem.MakeDirsSucceeds` | appinst/win32.py:89 | `os.makedirs` fails exactly when the path exists or a file stands on the way |
| `FileSystem.MakeDirsKinds` | appinst/win32.py:89 | `os.makedirs` creates directories along the path and changes nothing else |
| `Walking.WalkLists` | appinst/win32.py:226 | `os.walk(top)` lists exactly the directories, or exactly the files, strictly below `top` |
| `Walking.WalkTopDown` | appinst/win32.py:226 | the walk is top-down: a directory is listed after every directory between it and `top` |
| `Walking.WalkDistinct` | appinst/win32.py:226 | the walk lists no path twice |
| `Uninstall.MenuPathsEndsAtTop` | appinst/win32.py:224-235 | `menu_paths` ends with the top directory |
| `Uninstall.MenuPathsHas` | appinst/win32.py:224-235 | `menu_paths` holds the top directory and exactly the directories below it |
| `Uninstall.MenuPathsBottomUp` | appinst/win32.py:232-235 | in `menu_paths` every directory comes before all directories between it and the top |
| `Uninstall.MenuPathsDistinct` | appinst/win32.py:224-235 | `menu_paths` names no directory twice |
| `Uninstall.PruneEffect` | appinst/win32.py:243-252 | trying `rmdir` in bottom-up order removes exactly the directories with no file at any depth, and leaves the rest of the tree alone |
| `Uninstall.TargetsAre` | appinst/win32.py:227-229 | a path is removed as a target exactly when the walk lists it as a file whose name is a link name |
| `Uninstall.MenuTargetsAre` | appinst/win32.py:226-229 | the targets are exactly the files below the top directory named like a shortcut's link |
| `Uninstall.FirstLocked` | appinst/win32.py:230 | the position of the first target the system refuses to remove, every one before it removable |
| `Uninstall.RemoveFilesEffect` | appinst/win32.py:230 | files are removed in turn up to the first locked one, which is the one reported; nothing else changes |
| `Uninstall.PruneMenuEffect` | appinst/win32.py:219-252 | one top-level menu loses exactly its target files and the directories all of whose files were targets; a locked target stops it and is reported |
| `Uninstall.TryRemoveDirsNoop` | appinst/win32.py:243-252 | trying `rmdir` on directories none of which can be removed changes nothing |
| `Uninstall.TryUnlinkEffect` | appinst/win32.py:201-204 | an unlink whose failure is ignored removes the path when it is an unlocked file, and changes nothing otherwise |
| `Phases.BuildMenusEffect` | appinst/win32.py:81-101 | building the menus only adds directories, each at or above some menu's directory; it succeeds exactly when no file blocks a menu directory, and otherwise reports the first blocked one, with the entries before it recorded |
| `Phases.MenusInstalled` | appinst/win32.py:81-101 | after the menus are built, every menu has its directory inside the start menu and its category in the map, and each category maps to a menu with that category |
| `Phases.JobsOf` | appinst/win32.py:107-111 | one call of `_install_shortcut` per category of the shortcut, in order |
| `Phases.JobsAre` | appinst/win32.py:104-111 | each shortcut is placed in each of its categories, and nothing else is placed |
| `Phases.LinkPaths` | appinst/win32.py:169-170 | each destination gets `join(dst_dir, name + '.lnk')` |
| `Phases.LinksIn` | appinst/win32.py:169-184 | every link written is the link for one of the destination directories |
| `Phases.FirstFailure` | appinst/win32.py:104-111 | the position of the first call that raises, every one before it succeeding |
| `Phases.PlaceShortcutOutcome` | appinst/win32.py:114-184 | a call raises exactly when its command has nothing to run or its category is missing, and then changes nothing |
| `Phases.PlaceShortcutAppends` | appinst/win32.py:177-184 | an installing call that does not raise writes one link per destination and leaves the tree alone |
| `Phases.WritesAre` | appinst/win32.py:161-184 | each link a call writes names one of its destination directories |
| `Phases.PlaceAllStopped` | appinst/win32.py:104-111 | once a call has raised, no later call runs |
| `Phases.RequestedHas` | appinst/win32.py:104-111 | a link record is among those the calls before a position ask for exactly when one of those calls asks for it |
| `Phases.RequestedPrefix` | appinst/win32.py:104-111 | what the calls before a position ask for depends only on those calls |
| `Phases.PlacedInOrder` | appinst/win32.py:104-111 | the last call's link records follow, in order, those of the calls before it |
| `Phases.PlaceAllEffect` | appinst/win32.py:104-111 | placing the shortcuts raises the first failing call's error, or completes; the log becomes the old log followed by the links of the calls before it, call by call and in order, and the tree is unchanged |
| `Phases.InstallEffect` | appinst/win32.py:76-111 | installing only adds directories, each at or above some menu's directory, and appends to the log; it completes exactly when no file blocks a menu directory and every shortcut has a command and declared categories, and the log is then the old log followed by the links every shortcut asks for, in the order of the calls |
| `Phases.UnlinkAllEffect` | appinst/win32.py:171-176 | unlinking paths in turn with failures ignored removes exactly the unlocked files among them |
| `Phases.LinkNames` | appinst/win32.py:191-194 | `shortcut_names` is the link name of every shortcut, in order |
| `Phases.StrayLinksAre` | appinst/win32.py:199-217 | the links tried are on both desktops for shortcuts with a desktop icon, and in quick launch for those with a launcher icon when launcher icons are enabled |
| `Phases.TopPaths` | appinst/win32.py:219-221 | the top directories are `join(start_menu, name)` for each top-level menu, in order |
| `Phases.PruneMenuRemoves` | appinst/win32.py:219-252 | one top-level menu removes only paths at or below its directory |
| `Phases.PruneMenuKeepsLocked` | appinst/win32.py:219-252 | a locked file survives its menu's removal |
| `Phases.PruneMenuFails` | appinst/win32.py:226-230 | a menu raises exactly when a locked file below it is named like a shortcut, and reports such a file |
| `Phases.PruneMenuOnlyLinks` | appinst/win32.py:226-252 | a file one menu removes is named like a shortcut's link |
| `Phases.PruneMenuClears` | appinst/win32.py:226-252 | a menu taken down without error holds no link file and no directory holding only link files |
| `Phases.PruneMenusStopped` | appinst/win32.py:219-252 | once a menu has raised, no later menu is tried |
| `Phases.PruneMenusEffect` | appinst/win32.py:219-252 | the top-level menus in turn lose only paths at or below them, never a locked file, and only files named like a shortcut's link; the run stops exactly at a locked link file, and a run that does not stop leaves no link file and no directory holding only link files in any menu |
| `Phases.UninstallEffect` | appinst/win32.py:187-252 | uninstalling removes only stray links and paths inside the top-level menus, never a locked file; every unlocked stray link is gone; every file removed is named like a shortcut's link and every directory removed held only such files; it fails exactly when a menu holds a locked link file, and reports one; when it completes, no menu holds a link file or a directory holding only link files |
| `Phases.UninstallAgain` | appinst/win32.py:187-252 | uninstalling is idempotent: after an uninstall that completes, a second one changes nothing and completes |
| `Phases.UnlinkAllNoop` | appinst/win32.py:171-176 | unlinking paths none of which is an unlocked file changes nothing |
| `Phases.PruneMenuNoop` | appinst/win32.py:219-252 | a menu holding no link file and no directory of only link files is left as it is, and no error is raised |
| `Phases.InstallAgain` | appinst/win32.py:76-111 | installing again over what an install left creates nothing more, builds the same category map and ends the same way |
| `Phases.InstallThenUninstall` | appinst/win32.py:76-252 | an uninstall that completes after an install removes every directory the install created inside a top-level menu |
| `Win32.PrependDirs` | appinst/win32.py:232-235 | prepending each sub-directory keeps `menu_paths` the reverse of everything listed so far |
| `Win32.QueueSubMenus` | appinst/win32.py:100-101 | appending the sub-menus extends the queue by exactly their entries |
| `Win32.Win32.constructor` | appinst/win32.py:29-30 | a fresh object over a tree, with nothing written yet |
| `Win32.Win32.InstallApplicationMenus` | appinst/win32.py:36-62 | sets the flags from the installer properties, picks the start menu by mode, and installs or uninstalls as the phase functions say |
| `Win32.Win32.ReadFlags` | appinst/win32.py:46-52 | both icon flags are true without the properties module, else whether the property reads `"1"` |
| `Win32.Win32.UninstallApplicationMenus` | appinst/win32.py:65-70 | the same as installing with `uninstall` set |
| `Win32.Win32.InstallApplicationMenusAt` | appinst/win32.py:76-111 | the menus are built and the shortcuts placed as `InstallSpec` says |
| `Win32.Win32.BuildMenuDirs` | appinst/win32.py:81-101 | the queue loop leaves the tree, category map and outcome that `BuildMenus` gives |
| `Win32.Win32.EnsureMenuDir` | appinst/win32.py:88-89 | creates the directory unless it exists, and reports whether `makedirs` would not raise |
| `Win32.Win32.InstallShortcuts` | appinst/win32.py:104-111 | the nested loops leave the tree, log and outcome that placing all jobs gives |
| `Win32.Win32.InstallInCategories` | appinst/win32.py:107-111 | one shortcut in each of its categories, as placing its jobs gives |
| `Win32.Win32.InstallShortcut` | appinst/win32.py:114-184 | one call of `_install_shortcut`, as `PlaceShortcut` gives |
| `Win32.Win32.WriteLinks` | appinst/win32.py:169-184 | the destination loop unlinks every link when uninstalling, else writes one per directory, as `Deliver` gives |
| `Win32.Win32.DeliverTo` | appinst/win32.py:170-184 | one destination: unlink with failure ignored, or append the link record |
| `Win32.Win32.Unlink` | appinst/win32.py:201-204 | `os.unlink` with its failure ignored |
| `Win32.Win32.Remove` | appinst/win32.py:230 | `os.remove`: reports whether it succeeded and then the file is gone, else nothing changed |
| `Win32.Win32.CreateShortcut` | appinst/win32.py:178-184 | `create_shortcut` appends its record to the log and leaves the tree alone |
| `Win32.Win32.UninstallApplicationMenusAt` | appinst/win32.py:187-252 | the stray links are unlinked and each top-level menu is pruned as `UninstallSpec` says |
| `Win32.Win32.RemoveStrayLinks` | appinst/win32.py:191-217 | collects the link names and unlinks every stray link of the shortcuts in order |
| `Win32.Win32.RemoveStraysOf` | appinst/win32.py:199-217 | one shortcut's desktop and quick-launch links, in order |
| `Win32.Win32.PruneMenuAt` | appinst/win32.py:219-252 | one top-level menu, as `PruneMenu` gives |
| `Win32.Win32.RemoveMatchingFiles` | appinst/win32.py:227-231 | the files of one walk step that are targets are removed in order; the first failure stops and is reported |
| `Win32.Win32.RemoveMenuDirs` | appinst/win32.py:243-252 | `rmdir` on each collected directory in turn, skipping failures, as `TryRemoveDirs` gives |

## Left out

- Real I/O. The disk is a tree value held by the object. `os.makedirs`,
  `os.unlink`, `os.remove` and `os.rmdir` are functions on it, and a file the
  system refuses to remove is a `File(locked = true)`. `wininst.create_shortcut`
  appends a `LinkRecord` (target, comment, destination, argument string, extra
  arguments) to a log and does not change the tree.
- The `win32_common` lookups, `sys.prefix` joined with `python.exe`, and
  `webbrowser.__file__` are fields of a `Platform` value given to the
  constructor.
- The `custom_tools.msi_property` module is an `Option` of a property map.
  `None` stands for the `ImportError` fallback, which sets both flags to true.
  A missing key reads as not `"1"`.
- `print` diagnostics are left out. Bare `except:` clauses keep only their
  control-flow effect: the loop continues.
- Path joining is appending one name to a sequence of names. Drive letters,
  separators, case-insensitive names and `..` are not modelled.
- `Walking.Walk` computes the whole walk before any file is removed, while
  `os.walk` is lazy. The two agree here because only files are removed
  during the walk, and `os.walk` reads the directory list before descending.
  The walk's error handler and symbolic links are not modelled.
- `WriteLinks` computes the quoted target, the argument string and the icon
  arguments once, before the loop. The source recomputes them for each
  destination, with the same values.
- `Quoting.Words` reads a command line with Windows' quote grouping but
  without backslash escapes or tabs.
- `Shortcuts.LinkArgumentsReadBack` needs every argument to be non-empty and
  free of inner quotes once stripped. An empty argument or one that holds a
  quote does not read back.
- `ShortcutSpec` has no missing-key cases. `shortcut['name']`,
  `shortcut['comment']`, `shortcut['cmd']` and `shortcut['categories']` are
  always present. `shortcut.get('desktop')` and `shortcut.get('quicklaunch')`
  are booleans, false when absent, which stands for their truthiness. A
  `MenuSpec` likewise always has `id` and `name`. Its missing `category` is
  `None`, and its missing `sub-menus` is empty.
- Directories never refuse removal or creation except for the structural
  reasons the model has: `os.rmdir` fails only on a directory that is not
  empty, and `os.makedirs` fails only when a file is in the way. On Windows
  a directory in use, or one the user may not change, can also refuse. The
  source passes over such a refusal at lines 248-250. A `Dir` has no lock
  flag, so the exact claims of `Uninstall.PruneEffect`,
  `Phases.PruneMenuClears`, `Phases.UninstallEffect`,
  `Phases.BuildMenusEffect` and `Phases.InstallEffect` about which
  directories are removed or created rest on this.
- Exceptions other than those modelled are not raised. The modelled ones are
  `IndexError` for an empty command, `KeyError` for an unknown category, and
  `OSError` from `makedirs` or `os.remove`.
- The category is qualified only when the parent's category is longer than
  one character (line 95), as the code has it. This is not the same as requiring
  a non-empty parent category, and the model follows the code.
- InstallThenUninstall: states that the menu directories an install created
  are gone after the uninstall, but says nothing about the link files,
  because `create_shortcut` appends to the log and does not add them to the
  tree.
- The uninstall branch of `_install_shortcut` is modelled even though the
  public entry points only reach `_install_shortcut` when installing.
