/**
 * The `Win32` class of appinst/win32.py. Its attributes are fields; the
 * filesystem it works on and the shortcuts it has written are fields too.
 * Each method is proved to do what the matching function of `Phases`
 * says, and the lemmas there say what that achieves.
 */
module Win32 {
  import opened Wrappers
  import opened Sequences
  import opened FileSystem
  import opened Quoting
  import opened Walking
  import opened Menus
  import opened Shortcuts
  import opened Uninstall
  import opened Phases

  /* ----- Sequence facts the loops need ----- */

  lemma PathsAppend(a: seq<Item>, b: seq<Item>)
    ensures Paths(a + b) == Paths(a) + Paths(b)
  {
  }

  lemma {:induction false} JobsAppend(a: seq<ShortcutSpec>, b: seq<ShortcutSpec>)
    ensures Jobs(a + b) == Jobs(a) + Jobs(b)
    decreases |b|
  {
    if b == [] {
      assert a + b == a;
    } else {
      var b', x := b[..|b| - 1], b[|b| - 1];
      JobsAppend(a, b');
      assert (a + b)[..|a + b| - 1] == a + b' && (a + b)[|a + b| - 1] == x;
      assert Jobs(b) == Jobs(b') + JobsOf(x);
      Assoc(Jobs(a), Jobs(b'), JobsOf(x));
    }
  }

  lemma JobsNext(shortcuts: seq<ShortcutSpec>, i: nat)
    requires i < |shortcuts|
    ensures Jobs(shortcuts[..i + 1]) == Jobs(shortcuts[..i]) + JobsOf(shortcuts[i])
  {
    assert shortcuts[..i + 1][..i] == shortcuts[..i];
  }

  /* ----- Steps of the menu loop ----- */

  /** Creating one more entry's directory extends `CreateDirs` by one path. */
  lemma CreateDirsNext(n: Node, visited: seq<Item>, it: Item, m: Node, m': Option<Node>)
    requires CreateDirs(n, Paths(visited)) == (m, |visited|)
    requires EnsureDir(m, PathOf(it)) == m'
    ensures CreateDirs(n, Paths(visited + [it])) == if m'.Some? then (m'.value, |visited| + 1) else (m, |visited|)
  {
    var ps := Paths(visited + [it]);
    PathsAppend(visited, [it]);
    assert ps[..|ps| - 1] == Paths(visited);
  }

  lemma CategoryMapNext(visited: seq<Item>, it: Item)
    ensures CategoryMap(visited + [it]) == CategoryMap(visited)[CategoryOf(it) := PathOf(it)]
  {
    assert (visited + [it])[..|visited|] == visited;
  }

  lemma VisitNext(visited: seq<Item>, q: seq<Item>)
    requires q != []
    ensures visited + Visit(q) == (visited + [q[0]]) + Visit(q[1..] + ChildItems(q[0]))
  {
  }

  /** A failure at entry `it` is where the whole build stops. */
  lemma BuildStopped(n: Node, menus: seq<MenuSpec>, startMenu: Path, visited: seq<Item>, it: Item, rest: seq<Item>, m: Node)
    requires MenuItems(menus, startMenu) == (visited + [it]) + rest
    requires CreateDirs(n, Paths(visited + [it])) == (m, |visited|)
    ensures BuildMenus(n, menus, startMenu) == (m, CategoryMap(visited), Raised(OSError(PathOf(it))))
  {
    var all := MenuItems(menus, startMenu);
    PathsAppend(visited + [it], rest);
    CreateDirsStopped(n, Paths(visited + [it]), Paths(rest));
    assert all[|visited|] == it && all[..|visited|] == visited;
  }

  /** Every entry handled: the build is complete. */
  lemma BuildDone(n: Node, menus: seq<MenuSpec>, startMenu: Path, visited: seq<Item>, m: Node)
    requires MenuItems(menus, startMenu) == visited + Visit([])
    requires CreateDirs(n, Paths(visited)) == (m, |visited|)
    ensures BuildMenus(n, menus, startMenu) == (m, CategoryMap(visited), Done)
  {
    assert MenuItems(menus, startMenu) == visited;
  }

  /* ----- Steps of the uninstall loops ----- */

  lemma StrayLinksNext(shortcuts: seq<ShortcutSpec>, i: nat, addToLauncher: bool, pf: Platform)
    requires i < |shortcuts|
    ensures StrayLinks(shortcuts[..i + 1], addToLauncher, pf)
            == StrayLinks(shortcuts[..i], addToLauncher, pf) + StrayLinksOf(shortcuts[i], addToLauncher, pf)
  {
    assert shortcuts[..i + 1][..i] == shortcuts[..i];
  }

  lemma LinkNamesNext(shortcuts: seq<ShortcutSpec>, i: nat)
    requires i < |shortcuts|
    ensures LinkNames(shortcuts[..i + 1]) == LinkNames(shortcuts[..i]) + [LinkName(shortcuts[i].name)]
  {
  }

  lemma TargetsNext(files: seq<Path>, f: Path, names: seq<string>)
    ensures Targets(files + [f], names)
            == Targets(files, names) + (if f != [] && f[|f| - 1] in names then [f] else [])
  {
    assert (files + [f])[..|files|] == files;
  }

  lemma {:induction false} TargetsAppend(a: seq<Path>, b: seq<Path>, names: seq<string>)
    ensures Targets(a + b, names) == Targets(a, names) + Targets(b, names)
    decreases |b|
  {
    if b == [] {
      assert a + b == a;
    } else {
      var front := b[..|b| - 1];
      var f := b[|b| - 1];
      assert b == front + [f];
      assert a + b == (a + front) + [f];
      Assoc(a, front, [f]);
      TargetsAppend(a, front, names);
      TargetsNext(a + front, f, names);
      TargetsNext(front, f, names);
      var x := if f != [] && f[|f| - 1] in names then [f] else [];
      Assoc(Targets(a, names), Targets(front, names), x);
    }
  }

  lemma RemoveFilesNext(n: Node, ps: seq<Path>, p: Path, m: Node)
    requires RemoveFiles(n, ps) == (m, None)
    ensures RemoveFiles(n, ps + [p])
            == match Delete(m, p, false)
               case None => (m, Some(p))
               case Some(m') => (m', None)
  {
    assert (ps + [p])[..|ps|] == ps;
  }

  lemma {:induction false} RemoveFilesStopped(n: Node, ps: seq<Path>, more: seq<Path>)
    requires RemoveFiles(n, ps).1.Some?
    ensures RemoveFiles(n, ps + more) == RemoveFiles(n, ps)
    decreases |more|
  {
    if more == [] {
      assert ps + more == ps;
    } else {
      var front := more[..|more| - 1];
      RemoveFilesStopped(n, ps, front);
      assert (ps + more)[..|ps + more| - 1] == ps + front;
    }
  }

  lemma ChildrenNext(root: Path, names: seq<string>, f: nat)
    requires f < |names|
    ensures Children(root, names[..f + 1]) == Children(root, names[..f]) + [root + [names[f]]]
  {
  }

  lemma ChildrenSplit(root: Path, names: seq<string>, f: nat)
    requires f <= |names|
    ensures Children(root, names) == Children(root, names[..f]) + Children(root, names[f..])
  {
  }

  lemma ListedNext(steps: seq<Step>, s: nat, dirs: bool)
    requires s < |steps|
    ensures Listed(steps[..s + 1], dirs)
            == Listed(steps[..s], dirs) + Children(steps[s].root, if dirs then steps[s].dirs else steps[s].files)
  {
    assert steps[..s + 1][..s] == steps[..s];
  }

  /** A file that cannot be removed in the `s`-th step ends the whole menu with that file as the error. */
  lemma PruneFilesStopped(n: Node, top: Path, names: seq<string>, s: nat, m: Node, p: Path)
    requires s < |Walk(n, top)|
    requires RemoveFiles(n, Targets(Listed(Walk(n, top)[..s + 1], false), names)) == (m, Some(p))
    ensures PruneMenu(n, top, names) == (m, Some(p))
  {
    var steps := Walk(n, top);
    assert steps == steps[..s + 1] + steps[s + 1..];
    ListedAppend(steps[..s + 1], steps[s + 1..], false);
    TargetsAppend(Listed(steps[..s + 1], false), Listed(steps[s + 1..], false), names);
    RemoveFilesStopped(n, Targets(Listed(steps[..s + 1], false), names), Targets(Listed(steps[s + 1..], false), names));
  }

  /** One more file of a step adds it to the targets exactly when it is named like a shortcut. */
  lemma TargetsStep(listed: seq<Path>, root: Path, files: seq<string>, f: nat, names: seq<string>)
    requires f < |files|
    ensures Targets(listed + Children(root, files[..f + 1]), names)
            == Targets(listed + Children(root, files[..f]), names)
               + (if files[f] in names then [root + [files[f]]] else [])
  {
    var filePath := root + [files[f]];
    ChildrenNext(root, files, f);
    Assoc(listed, Children(root, files[..f]), [filePath]);
    TargetsNext(listed + Children(root, files[..f]), filePath, names);
    assert filePath[|filePath| - 1] == files[f];
  }

  /** Once removing the `f`-th file fails, the files after it in the step are not touched. */
  lemma TargetsStopped(n: Node, listed: seq<Path>, root: Path, files: seq<string>, f: nat, names: seq<string>)
    requires f < |files|
    requires RemoveFiles(n, Targets(listed + Children(root, files[..f + 1]), names)).1.Some?
    ensures RemoveFiles(n, Targets(listed + Children(root, files), names))
            == RemoveFiles(n, Targets(listed + Children(root, files[..f + 1]), names))
  {
    var rest := Children(root, files[f + 1..]);
    ChildrenSplit(root, files, f + 1);
    Assoc(listed, Children(root, files[..f + 1]), rest);
    TargetsAppend(listed + Children(root, files[..f + 1]), rest, names);
    RemoveFilesStopped(n, Targets(listed + Children(root, files[..f + 1]), names), Targets(rest, names));
  }

  lemma TryRemoveDirsNext(n: Node, ps: seq<Path>, k: nat)
    requires k < |ps|
    ensures TryRemoveDirs(n, ps[..k + 1])
            == match Delete(TryRemoveDirs(n, ps[..k]), ps[k], true)
               case None => TryRemoveDirs(n, ps[..k])
               case Some(m') => m'
  {
    assert ps[..k + 1][..k] == ps[..k];
  }

  lemma PruneMenusNext(n: Node, tops: seq<Path>, t: nat, names: seq<string>, m: Node)
    requires t < |tops| && PruneMenus(n, tops[..t], names) == (m, None)
    ensures PruneMenus(n, tops[..t + 1], names) == PruneMenu(m, tops[t], names)
  {
    assert tops[..t + 1][..t] == tops[..t];
  }

  /* ----- Steps of the shortcut loop ----- */

  /** After jobs that all completed, one more job is placed from where they left off. */
  lemma PlaceAllNext(st: State, jobs: seq<Job>, job: Job, cfg: Settings, pf: Platform, sr: State)
    requires PlaceAll(st, jobs, cfg, pf) == (sr, Done)
    ensures PlaceAll(st, jobs + [job], cfg, pf) == PlaceShortcut(sr, job, cfg, pf)
  {
    assert (jobs + [job])[..|jobs|] == jobs;
  }

  /** Placing the jobs of `a` and then those of `b`, when `a` raised nothing. */
  lemma {:induction false} PlaceAllAppend(st: State, a: seq<Job>, b: seq<Job>, cfg: Settings, pf: Platform, sr: State)
    requires PlaceAll(st, a, cfg, pf) == (sr, Done)
    ensures PlaceAll(st, a + b, cfg, pf) == PlaceAll(sr, b, cfg, pf)
    decreases |b|
  {
    if b == [] {
      assert a + b == a;
    } else {
      var b', x := b[..|b| - 1], b[|b| - 1];
      PlaceAllAppend(st, a, b', cfg, pf, sr);
      assert (a + b)[..|a + b| - 1] == a + b' && (a + b)[|a + b| - 1] == x;
    }
  }

  lemma JobsOfNext(s: ShortcutSpec, j: nat)
    requires j < |s.categories|
    ensures JobsOf(s)[..j + 1] == JobsOf(s)[..j] + [Job(s, s.categories[j])]
  {
  }

  lemma LinkPathsNext(name: string, dsts: seq<Path>, k: nat)
    requires k < |dsts|
    ensures LinkPaths(name, dsts[..k + 1]) == LinkPaths(name, dsts[..k]) + [dsts[k] + [LinkName(name)]]
  {
  }

  lemma LinksNext(s: ShortcutSpec, c: Command, dsts: seq<Path>, k: nat)
    requires k < |dsts|
    ensures Links(s, c, dsts[..k + 1]) == Links(s, c, dsts[..k]) + [Link(s, c, dsts[k])]
  {
    assert dsts[..k + 1][..k] == dsts[..k];
  }

  lemma UnlinkAllNext(n: Node, ps: seq<Path>, p: Path)
    ensures UnlinkAll(n, ps + [p]) == TryUnlink(UnlinkAll(n, ps), p)
  {
    assert (ps + [p])[..|ps|] == ps;
  }

  /** The record `create_shortcut` is called with, its quoted parts computed once. */
  lemma LinkFields(s: ShortcutSpec, c: Command, dstDir: Path, target: string, arguments: string)
    requires target == Quoted(c.target) && arguments == ArgString(c.args)
    ensures Link(s, c, dstDir)
            == LinkRecord(target, s.comment, dstDir + [LinkName(s.name)], arguments, IconArgs(s.icon))
  {
  }

  /** A tree that loses or gains nothing at its root stays a directory. */
  lemma RootStaysDir(n: Node, m: Node)
    requires n.Dir? && KindAt(m, []) == KindAt(n, [])
    ensures m.Dir?
  {
    assert KindAt(m, []) == Some(KindOf(m));
  }

  lemma TryUnlinkKeepsValid(n: Node, p: Path)
    requires n.Dir? && WellFormed(n) && p != []
    ensures TryUnlink(n, p).Dir? && WellFormed(TryUnlink(n, p))
  {
    TryUnlinkEffect(n, p, []);
    RootStaysDir(n, TryUnlink(n, p));
    TryUnlinkKeepsWellFormed(n, p);
  }

  lemma MakeDirsKeepsValid(n: Node, p: Path)
    requires n.Dir? && WellFormed(n) && MakeDirs(n, p).Some?
    ensures MakeDirs(n, p).value.Dir? && WellFormed(MakeDirs(n, p).value)
  {
    MakeDirsKinds(n, p, []);
    assert KindAt(MakeDirs(n, p).value, []) == Some(KindOf(MakeDirs(n, p).value));
    MakeDirsKeepsWellFormed(n, p);
  }

  lemma DeleteKeepsValid(n: Node, p: Path, wantDir: bool)
    requires n.Dir? && WellFormed(n) && Delete(n, p, wantDir).Some?
    ensures Delete(n, p, wantDir).value.Dir? && WellFormed(Delete(n, p, wantDir).value)
  {
    DeleteSucceeds(n, p, wantDir);
    DeleteKinds(n, p, wantDir, []);
    RootStaysDir(n, Delete(n, p, wantDir).value);
    DeleteKeepsWellFormed(n, p, wantDir);
  }

  /**
   * An `msi_property` flag: true when the `custom_tools.msi_property` module
   * is missing (`None`), else whether the property reads `"1"`.
   */
  function Flag(properties: Option<map<string, string>>, key: string): bool
  {
    match properties
    case None => true
    case Some(p) => key in p && p[key] == "1"
  }

  /** The programs start menu of all users for mode `"system"`, else the current user's. */
  function StartMenu(mode: string, pf: Platform): Path
  {
    if mode == "system" then pf.allUsersStartMenu else pf.currentUserStartMenu
  }

  /**
   * The loop over the `dirs` of one `os.walk` step: each directory is put
   * in front of `menu_paths`, so that the paths read bottom-up.
   */
  method PrependDirs(menuPaths: seq<Path>, root: Path, dirs: seq<string>, ghost prefix: seq<Path>)
    returns (paths: seq<Path>)
    requires menuPaths == Reverse(prefix)
    ensures paths == Reverse(prefix + Children(root, dirs))
  {
    paths := menuPaths;
    assert dirs[..0] == [] && prefix + Children(root, dirs[..0]) == prefix;
    for d := 0 to |dirs|
      invariant paths == Reverse(prefix + Children(root, dirs[..d]))
    {
      ChildrenNext(root, dirs, d);
      Assoc(prefix, Children(root, dirs[..d]), [root + [dirs[d]]]);
      ReverseNext(prefix + Children(root, dirs[..d]), root + [dirs[d]]);
      paths := [root + [dirs[d]]] + paths;
    }
    assert dirs[..|dirs|] == dirs;
  }

  /** The loop over `menu_spec['sub-menus']`: each sub-menu joins the back of the queue. */
  method QueueSubMenus(queue: seq<Item>, it: Item, path: Path, category: string) returns (q: seq<Item>)
    requires path == PathOf(it) && category == CategoryOf(it)
    ensures q == queue + ChildItems(it)
  {
    q := queue;
    for j := 0 to |it.spec.subMenus|
      invariant q == queue + ChildItems(it)[..j]
    {
      assert Item(it.spec.subMenus[j], path, category) == ChildItems(it)[j];
      AppendNext(queue, ChildItems(it), j);
      q := q + [Item(it.spec.subMenus[j], path, category)];
    }
    assert ChildItems(it)[..|it.spec.subMenus|] == ChildItems(it);
  }

  class Win32 {
    /** The directories and paths the class reads from `win32_common`, `sys` and `webbrowser`. */
    const platform: Platform
    var uninstall: bool
    var addToDesktop: bool
    var addToLauncher: bool
    var categoryMap: map<string, Path>
    /** The filesystem. */
    var disk: Node
    /** The calls made to `wininst.create_shortcut`, in order. */
    var written: seq<LinkRecord>

    ghost predicate Valid()
      reads this
    {
      disk.Dir? && WellFormed(disk)
    }

    constructor (platform: Platform, disk: Node)
      requires disk.Dir? && WellFormed(disk)
      ensures Valid() && this.platform == platform && this.disk == disk && written == []
    {
      this.platform := platform;
      this.disk := disk;
      written := [];
      uninstall := false;
      addToDesktop := true;
      addToLauncher := true;
      categoryMap := map[];
    }

    /**
     * `install_application_menus(menus, shortcuts, mode, uninstall)`: record
     * the flags, pick the start menu for the mode, then install or uninstall.
     * `properties` stands for `custom_tools.msi_property`.
     */
    method InstallApplicationMenus(menus: seq<MenuSpec>, shortcuts: seq<ShortcutSpec>, mode: string, uninstall: bool,
                                   properties: Option<map<string, string>>)
      returns (outcome: Outcome)
      requires Valid()
      modifies this
      ensures Valid() && this.uninstall == uninstall
      ensures addToDesktop == Flag(properties, "ADDTODESKTOP") && addToLauncher == Flag(properties, "ADDTOLAUNCHER")
      ensures uninstall ==>
                && written == old(written) && categoryMap == old(categoryMap)
                && (disk, outcome)
                   == UninstallSpec(old(disk), menus, shortcuts, StartMenu(mode, platform), addToLauncher, platform)
      ensures !uninstall ==>
                (State(disk, written), categoryMap, outcome)
                == InstallSpec(State(old(disk), old(written)), menus, shortcuts, StartMenu(mode, platform),
                               false, addToDesktop, addToLauncher, platform)
    {
      this.uninstall := uninstall;
      ReadFlags(properties);
      var startMenu: Path;
      if mode == "system" {
        startMenu := platform.allUsersStartMenu;
      } else {
        startMenu := platform.currentUserStartMenu;
      }
      if this.uninstall {
        outcome := UninstallApplicationMenusAt(menus, shortcuts, startMenu);
      } else {
        outcome := InstallApplicationMenusAt(menus, shortcuts, startMenu);
      }
    }

    /**
     * Reading `ADDTODESKTOP` and `ADDTOLAUNCHER` from the installer's
     * properties; without properties (the lookup raises) both stay set.
     */
    method ReadFlags(properties: Option<map<string, string>>)
      modifies this
      ensures addToDesktop == Flag(properties, "ADDTODESKTOP") && addToLauncher == Flag(properties, "ADDTOLAUNCHER")
      ensures uninstall == old(uninstall) && categoryMap == old(categoryMap)
              && disk == old(disk) && written == old(written)
    {
      match properties {
        case None =>
          addToDesktop := true;
          addToLauncher := true;
        case Some(p) =>
          addToDesktop := "ADDTODESKTOP" in p && p["ADDTODESKTOP"] == "1";
          addToLauncher := "ADDTOLAUNCHER" in p && p["ADDTOLAUNCHER"] == "1";
      }
    }

    /** `uninstall_application_menus(menus, shortcuts, mode)`: the same call with `uninstall` set. */
    method UninstallApplicationMenus(menus: seq<MenuSpec>, shortcuts: seq<ShortcutSpec>, mode: string,
                                     properties: Option<map<string, string>>)
      returns (outcome: Outcome)
      requires Valid()
      modifies this
      ensures Valid() && uninstall && written == old(written) && categoryMap == old(categoryMap)
      ensures addToDesktop == Flag(properties, "ADDTODESKTOP") && addToLauncher == Flag(properties, "ADDTOLAUNCHER")
      ensures (disk, outcome)
              == UninstallSpec(old(disk), menus, shortcuts, StartMenu(mode, platform), addToLauncher, platform)
    {
      outcome := InstallApplicationMenus(menus, shortcuts, mode, true, properties);
    }

    /**
     * `_install_application_menus(menus, shortcuts, start_menu)`: build the
     * menus, then place the shortcuts unless building raised.
     */
    method InstallApplicationMenusAt(menus: seq<MenuSpec>, shortcuts: seq<ShortcutSpec>, startMenu: Path)
      returns (outcome: Outcome)
      requires Valid()
      modifies this
      ensures Valid()
      ensures uninstall == old(uninstall) && addToDesktop == old(addToDesktop) && addToLauncher == old(addToLauncher)
      ensures (State(disk, written), categoryMap, outcome)
              == InstallSpec(State(old(disk), old(written)), menus, shortcuts, startMenu,
                             uninstall, addToDesktop, addToLauncher, platform)
    {
      outcome := BuildMenuDirs(menus, startMenu);
      if outcome.Raised? {
        return;
      }
      outcome := InstallShortcuts(shortcuts);
    }

    /**
     * The first loop of `_install_application_menus`: take each entry off
     * the front of the queue, create its directory unless it exists, record
     * its category and queue its sub-menus.
     */
    method BuildMenuDirs(menus: seq<MenuSpec>, startMenu: Path) returns (outcome: Outcome)
      requires Valid()
      modifies this
      ensures Valid() && written == old(written)
      ensures uninstall == old(uninstall) && addToDesktop == old(addToDesktop) && addToLauncher == old(addToLauncher)
      ensures (disk, categoryMap, outcome) == BuildMenus(old(disk), menus, startMenu)
    {
      categoryMap := map[];
      var queue := InitialQueue(menus, startMenu);
      ghost var all := MenuItems(menus, startMenu);
      ghost var visited: seq<Item> := [];
      ghost var disk0 := disk;
      while |queue| > 0
        invariant Valid() && written == old(written)
        invariant uninstall == old(uninstall) && addToDesktop == old(addToDesktop) && addToLauncher == old(addToLauncher)
        invariant all == visited + Visit(queue)
        invariant CreateDirs(disk0, Paths(visited)) == (disk, |visited|)
        invariant categoryMap == CategoryMap(visited)
        decreases QueueSize(queue)
      {
        var it := queue[0];
        ghost var next := queue[1..] + ChildItems(it);
        QueueStep(queue);
        VisitNext(visited, queue);
        queue := queue[1..];

        var path := it.parentPath + [it.spec.name];
        assert path == PathOf(it);
        ghost var before := disk;
        var made := EnsureMenuDir(path);
        CreateDirsNext(disk0, visited, it, before, EnsureDir(before, path));
        if !made {
          BuildStopped(disk0, menus, startMenu, visited, it, Visit(next), disk);
          return Raised(OSError(path));
        }

        var category := if it.spec.category.Some? then it.spec.category.value else it.spec.id;
        if |it.parentCategory| > 1 {
          category := it.parentCategory + "." + category;
        }
        assert category == CategoryOf(it);
        CategoryMapNext(visited, it);
        categoryMap := categoryMap[category := path];

        queue := QueueSubMenus(queue, it, path, category);
        visited := visited + [it];
      }
      BuildDone(disk0, menus, startMenu, visited, disk);
      return Done;
    }

    /**
     * The second loop of `_install_application_menus`: every shortcut in
     * each of its categories, in order; the first exception propagates.
     */
    method InstallShortcuts(shortcuts: seq<ShortcutSpec>) returns (outcome: Outcome)
      requires Valid()
      modifies this
      ensures Valid()
      ensures uninstall == old(uninstall) && addToDesktop == old(addToDesktop)
              && addToLauncher == old(addToLauncher) && categoryMap == old(categoryMap)
      ensures (State(disk, written), outcome)
              == PlaceAll(State(old(disk), old(written)), Jobs(shortcuts),
                          Settings(uninstall, addToDesktop, addToLauncher, categoryMap), platform)
    {
      ghost var st0 := State(disk, written);
      ghost var cfg := Settings(uninstall, addToDesktop, addToLauncher, categoryMap);
      assert shortcuts[..0] == [];
      for i := 0 to |shortcuts|
        invariant Valid()
        invariant uninstall == old(uninstall) && addToDesktop == old(addToDesktop)
                  && addToLauncher == old(addToLauncher) && categoryMap == old(categoryMap)
        invariant PlaceAll(st0, Jobs(shortcuts[..i]), cfg, platform) == (State(disk, written), Done)
      {
        ghost var done := Jobs(shortcuts[..i]);
        ghost var st := State(disk, written);
        outcome := InstallInCategories(shortcuts[i]);
        PlaceAllAppend(st0, done, JobsOf(shortcuts[i]), cfg, platform, st);
        JobsNext(shortcuts, i);
        if outcome.Raised? {
          assert shortcuts == shortcuts[..i + 1] + shortcuts[i + 1..];
          JobsAppend(shortcuts[..i + 1], shortcuts[i + 1..]);
          PlaceAllStopped(st0, Jobs(shortcuts[..i + 1]), Jobs(shortcuts[i + 1..]), cfg, platform);
          return;
        }
      }
      assert shortcuts[..|shortcuts|] == shortcuts;
      return Done;
    }

    /** The inner loop: one shortcut in each of its categories, in order. */
    method InstallInCategories(shortcut: ShortcutSpec) returns (outcome: Outcome)
      requires Valid()
      modifies this
      ensures Valid()
      ensures uninstall == old(uninstall) && addToDesktop == old(addToDesktop)
              && addToLauncher == old(addToLauncher) && categoryMap == old(categoryMap)
      ensures (State(disk, written), outcome)
              == PlaceAll(State(old(disk), old(written)), JobsOf(shortcut),
                          Settings(uninstall, addToDesktop, addToLauncher, categoryMap), platform)
    {
      ghost var st0 := State(disk, written);
      ghost var cfg := Settings(uninstall, addToDesktop, addToLauncher, categoryMap);
      assert JobsOf(shortcut)[..0] == [];
      for j := 0 to |shortcut.categories|
        invariant Valid()
        invariant uninstall == old(uninstall) && addToDesktop == old(addToDesktop)
                  && addToLauncher == old(addToLauncher) && categoryMap == old(categoryMap)
        invariant PlaceAll(st0, JobsOf(shortcut)[..j], cfg, platform) == (State(disk, written), Done)
      {
        ghost var done := JobsOf(shortcut)[..j];
        ghost var job := Job(shortcut, shortcut.categories[j]);
        PlaceAllNext(st0, done, job, cfg, platform, State(disk, written));
        JobsOfNext(shortcut, j);
        outcome := InstallShortcut(shortcut.categories[j], shortcut);
        if outcome.Raised? {
          PlaceAllStopped(st0, done + [job], JobsOf(shortcut)[j + 1..], cfg, platform);
          SplitAt(JobsOf(shortcut), j + 1);
          return;
        }
      }
      assert JobsOf(shortcut)[..|shortcut.categories|] == JobsOf(shortcut);
      return Done;
    }

    /**
     * The first loop of `_uninstall_application_menus`: collect the link
     * names and try to unlink every stray link of each shortcut.
     */
    method RemoveStrayLinks(shortcuts: seq<ShortcutSpec>) returns (names: seq<string>)
      requires Valid()
      modifies this
      ensures Valid() && written == old(written)
      ensures uninstall == old(uninstall) && addToDesktop == old(addToDesktop)
              && addToLauncher == old(addToLauncher) && categoryMap == old(categoryMap)
      ensures names == LinkNames(shortcuts)
      ensures disk == UnlinkAll(old(disk), StrayLinks(shortcuts, addToLauncher, platform))
    {
      names := [];
      ghost var disk0 := disk;
      assert shortcuts[..0] == [];
      for i := 0 to |shortcuts|
        invariant Valid() && written == old(written)
        invariant uninstall == old(uninstall) && addToDesktop == old(addToDesktop)
                  && addToLauncher == old(addToLauncher) && categoryMap == old(categoryMap)
        invariant names == LinkNames(shortcuts[..i])
        invariant disk == UnlinkAll(disk0, StrayLinks(shortcuts[..i], addToLauncher, platform))
      {
        var shortcut := shortcuts[i];
        var name := shortcut.name + ".lnk";
        assert name == LinkName(shortcut.name);
        LinkNamesNext(shortcuts, i);
        names := names + [name];

        StrayLinksNext(shortcuts, i, addToLauncher, platform);
        UnlinkAllAppend(disk0, StrayLinks(shortcuts[..i], addToLauncher, platform), StrayLinksOf(shortcut, addToLauncher, platform));
        RemoveStraysOf(shortcut, name);
      }
      assert shortcuts[..|shortcuts|] == shortcuts;
    }

    /**
     * The stray links of one shortcut: unlink it from both desktops when
     * it asks for a desktop icon, and from quick launch when it asks for a
     * launcher icon and those are enabled; every failure is ignored.
     */
    method RemoveStraysOf(shortcut: ShortcutSpec, name: string)
      requires Valid() && name == LinkName(shortcut.name)
      modifies this
      ensures Valid() && written == old(written)
      ensures uninstall == old(uninstall) && addToDesktop == old(addToDesktop)
              && addToLauncher == old(addToLauncher) && categoryMap == old(categoryMap)
      ensures disk == UnlinkAll(old(disk), StrayLinksOf(shortcut, addToLauncher, platform))
    {
      ghost var disk0 := disk;
      ghost var tried: seq<Path> := [];
      assert disk == UnlinkAll(disk0, tried);
      if shortcut.desktop {
        var pth := platform.allUsersDesktop + [name];
        UnlinkAllNext(disk0, tried, pth);
        Unlink(pth);
        tried := tried + [pth];
        pth := platform.currentUserDesktop + [name];
        UnlinkAllNext(disk0, tried, pth);
        Unlink(pth);
        tried := tried + [pth];
      }
      ghost var desktops := tried;
      if shortcut.quicklaunch && addToLauncher {
        var pth := platform.quickLaunchDir + [name];
        UnlinkAllNext(disk0, tried, pth);
        Unlink(pth);
        tried := tried + [pth];
      }
      assert tried == desktops + (if shortcut.quicklaunch && addToLauncher then [platform.quickLaunchDir + [name]] else []);
      assert tried == StrayLinksOf(shortcut, addToLauncher, platform);
    }

    /**
     * One top-level menu of `_uninstall_application_menus`: walk it,
     * removing every file named like a shortcut and collecting the
     * sub-directories deepest first, then try `os.rmdir` on each collected
     * directory that exists. A file that cannot be removed raises.
     */
    method PruneMenuAt(top: Path, names: seq<string>) returns (err: Option<Path>)
      requires Valid()
      modifies this
      ensures Valid() && written == old(written)
      ensures uninstall == old(uninstall) && addToDesktop == old(addToDesktop)
              && addToLauncher == old(addToLauncher) && categoryMap == old(categoryMap)
      ensures (disk, err) == PruneMenu(old(disk), top, names)
    {
      var menuPaths := [top];
      ghost var disk0 := disk;
      var steps := Walk(disk, top);
      assert steps[..0] == [];
      assert menuPaths == Reverse([top] + Listed(steps[..0], true));
      for s := 0 to |steps|
        invariant Valid() && written == old(written)
        invariant uninstall == old(uninstall) && addToDesktop == old(addToDesktop)
                  && addToLauncher == old(addToLauncher) && categoryMap == old(categoryMap)
        invariant RemoveFiles(disk0, Targets(Listed(steps[..s], false), names)) == (disk, None)
        invariant menuPaths == Reverse([top] + Listed(steps[..s], true))
      {
        var root := steps[s].root;
        var dirs := steps[s].dirs;
        var files := steps[s].files;
        ListedNext(steps, s, false);
        err := RemoveMatchingFiles(root, files, names, disk0, Listed(steps[..s], false));
        if err.Some? {
          PruneFilesStopped(disk0, top, names, s, disk, err.value);
          return;
        }

        menuPaths := PrependDirs(menuPaths, root, dirs, [top] + Listed(steps[..s], true));
        ListedNext(steps, s, true);
        Assoc([top], Listed(steps[..s], true), Children(root, dirs));
      }
      assert steps[..|steps|] == steps;
      assert menuPaths == MenuPaths(disk0, top);

      RemoveMenuDirs(menuPaths);
      return None;
    }

    /**
     * The loop over the `files` of one `os.walk` step: remove every file
     * named like a shortcut. `listed` are the files of the earlier steps,
     * whose matching files are already removed from the tree `disk0` had.
     */
    method RemoveMatchingFiles(root: Path, files: seq<string>, names: seq<string>, ghost disk0: Node, ghost listed: seq<Path>)
      returns (err: Option<Path>)
      requires Valid() && RemoveFiles(disk0, Targets(listed, names)) == (disk, None)
      modifies this
      ensures Valid() && written == old(written)
      ensures uninstall == old(uninstall) && addToDesktop == old(addToDesktop)
              && addToLauncher == old(addToLauncher) && categoryMap == old(categoryMap)
      ensures RemoveFiles(disk0, Targets(listed + Children(root, files), names)) == (disk, err)
    {
      ghost var targets := Targets(listed, names);
      assert files[..0] == [] && listed + Children(root, files[..0]) == listed;
      for f := 0 to |files|
        invariant Valid() && written == old(written)
        invariant uninstall == old(uninstall) && addToDesktop == old(addToDesktop)
                  && addToLauncher == old(addToLauncher) && categoryMap == old(categoryMap)
        invariant targets == Targets(listed + Children(root, files[..f]), names)
        invariant RemoveFiles(disk0, targets) == (disk, None)
      {
        var file := files[f];
        TargetsStep(listed, root, files, f, names);
        if file in names {
          var filePath := root + [file];
          RemoveFilesNext(disk0, targets, filePath, disk);
          targets := targets + [filePath];
          var removed := Remove(filePath);
          if !removed {
            TargetsStopped(disk0, listed, root, files, f, names);
            return Some(filePath);
          }
        }
      }
      assert files[..|files|] == files;
      return None;
    }

    /**
     * The last loop of one top-level menu: `os.rmdir` on every collected
     * directory that exists, a failure only skipping that directory.
     */
    method RemoveMenuDirs(menuPaths: seq<Path>)
      requires Valid()
      modifies this
      ensures Valid() && written == old(written)
      ensures uninstall == old(uninstall) && addToDesktop == old(addToDesktop)
              && addToLauncher == old(addToLauncher) && categoryMap == old(categoryMap)
      ensures disk == TryRemoveDirs(old(disk), menuPaths)
    {
      ghost var disk0 := disk;
      assert menuPaths[..0] == [];
      for k := 0 to |menuPaths|
        invariant Valid() && written == old(written)
        invariant uninstall == old(uninstall) && addToDesktop == old(addToDesktop)
                  && addToLauncher == old(addToLauncher) && categoryMap == old(categoryMap)
        invariant disk == TryRemoveDirs(disk0, menuPaths[..k])
      {
        var menuPath := menuPaths[k];
        TryRemoveDirsNext(disk0, menuPaths, k);
        DeleteSucceeds(disk, menuPath, true);
        if Exists(disk, menuPath) {
          var removed := Delete(disk, menuPath, true);
          if removed.Some? {
            DeleteKeepsValid(disk, menuPath, true);
            disk := removed.value;
          }
        }
      }
      assert menuPaths[..|menuPaths|] == menuPaths;
    }

    /**
     * `_uninstall_application_menus(menus, shortcuts, start_menu)`: the stray
     * links, then every top-level menu in turn.
     */
    method UninstallApplicationMenusAt(menus: seq<MenuSpec>, shortcuts: seq<ShortcutSpec>, startMenu: Path)
      returns (outcome: Outcome)
      requires Valid()
      modifies this
      ensures Valid() && written == old(written)
      ensures uninstall == old(uninstall) && addToDesktop == old(addToDesktop)
              && addToLauncher == old(addToLauncher) && categoryMap == old(categoryMap)
      ensures (disk, outcome) == UninstallSpec(old(disk), menus, shortcuts, startMenu, addToLauncher, platform)
    {
      var names := RemoveStrayLinks(shortcuts);
      ghost var m0 := disk;
      ghost var tops := TopPaths(menus, startMenu);
      assert tops[..0] == [];
      for t := 0 to |menus|
        invariant Valid() && written == old(written)
        invariant uninstall == old(uninstall) && addToDesktop == old(addToDesktop)
                  && addToLauncher == old(addToLauncher) && categoryMap == old(categoryMap)
        invariant PruneMenus(m0, tops[..t], names) == (disk, None)
      {
        var topPath := startMenu + [menus[t].name];
        PruneMenusNext(m0, tops, t, names, disk);
        var err := PruneMenuAt(topPath, names);
        if err.Some? {
          PruneMenusStopped(m0, tops[..t + 1], tops[t + 1..], names);
          assert tops[..t + 1] + tops[t + 1..] == tops;
          return Raised(OSError(err.value));
        }
      }
      assert tops[..|menus|] == tops;
      return Done;
    }

    /**
     * `_install_shortcut(mapped_category, shortcut)`: split the command,
     * handle the two sentinels, then unlink or write one link per
     * destination directory.
     */
    method InstallShortcut(category: string, shortcut: ShortcutSpec) returns (outcome: Outcome)
      requires Valid()
      modifies this
      ensures Valid()
      ensures uninstall == old(uninstall) && addToDesktop == old(addToDesktop)
              && addToLauncher == old(addToLauncher) && categoryMap == old(categoryMap)
      ensures (State(disk, written), outcome)
              == PlaceShortcut(State(old(disk), old(written)), Job(shortcut, category),
                               Settings(uninstall, addToDesktop, addToLauncher, categoryMap), platform)
    {
      var expanded := Expand(shortcut.cmd, platform.pythonExe, platform.browserScript);
      if expanded.Failure? {
        return Raised(expanded.error);
      }
      var c := expanded.value;

      if category !in categoryMap {
        return Raised(KeyError(category));
      }
      var dstDirs := [categoryMap[category]];
      if shortcut.desktop && addToDesktop {
        dstDirs := dstDirs + [platform.desktopDir];
      }
      if shortcut.quicklaunch && addToLauncher {
        dstDirs := dstDirs + [platform.quickLaunchDir];
      }
      assert dstDirs == [categoryMap[category]]
                        + (if shortcut.desktop && addToDesktop then [platform.desktopDir] else [])
                        + (if shortcut.quicklaunch && addToLauncher then [platform.quickLaunchDir] else []);
      assert Destinations(Job(shortcut, category), Settings(uninstall, addToDesktop, addToLauncher, categoryMap), platform)
             == Success(dstDirs);

      WriteLinks(shortcut, c, dstDirs);
      return Done;
    }

    /**
     * The link name, comment and icon arguments of `_install_shortcut` and
     * its last loop: unlink the link in every destination directory when
     * uninstalling, else write it there.
     */
    method WriteLinks(shortcut: ShortcutSpec, c: Command, dstDirs: seq<Path>)
      requires Valid()
      modifies this
      ensures Valid()
      ensures uninstall == old(uninstall) && addToDesktop == old(addToDesktop)
              && addToLauncher == old(addToLauncher) && categoryMap == old(categoryMap)
      ensures State(disk, written) == Deliver(State(old(disk), old(written)), shortcut, c, dstDirs, uninstall)
    {
      var link := shortcut.name + ".lnk";
      var comment := shortcut.comment;
      var shortcutArgs := IconArgs(shortcut.icon);
      var target := Quoted(c.target);
      var arguments := ArgString(c.args);
      ghost var disk0, written0 := disk, written;
      assert dstDirs[..0] == [];
      for k := 0 to |dstDirs|
        invariant Valid()
        invariant uninstall == old(uninstall) && addToDesktop == old(addToDesktop)
                  && addToLauncher == old(addToLauncher) && categoryMap == old(categoryMap)
        invariant uninstall ==> disk == UnlinkAll(disk0, LinkPaths(shortcut.name, dstDirs[..k])) && written == written0
        invariant !uninstall ==> disk == disk0 && written == written0 + Links(shortcut, c, dstDirs[..k])
      {
        var dst := dstDirs[k] + [link];
        LinkPathsNext(shortcut.name, dstDirs, k);
        UnlinkAllNext(disk0, LinkPaths(shortcut.name, dstDirs[..k]), dst);
        LinksNext(shortcut, c, dstDirs, k);
        SnocAfter(written0, Links(shortcut, c, dstDirs[..k + 1]), Links(shortcut, c, dstDirs[..k]), Link(shortcut, c, dstDirs[k]));
        LinkFields(shortcut, c, dstDirs[k], target, arguments);
        DeliverTo(dst, target, comment, arguments, shortcutArgs);
      }
      assert dstDirs[..|dstDirs|] == dstDirs;
    }
  
    /**
     * The body of the last loop of `_install_shortcut`: unlink `dst` when
     * uninstalling, else write the link there.
     */
    method DeliverTo(dst: Path, target: string, comment: string, arguments: string, shortcutArgs: seq<string>)
      requires Valid() && dst != []
      modifies this
      ensures Valid()
      ensures uninstall == old(uninstall) && addToDesktop == old(addToDesktop)
              && addToLauncher == old(addToLauncher) && categoryMap == old(categoryMap)
      ensures uninstall ==> disk == TryUnlink(old(disk), dst) && written == old(written)
      ensures !uninstall ==> disk == old(disk) && written == old(written) + [LinkRecord(target, comment, dst, arguments, shortcutArgs)]
    {
      if uninstall {
        Unlink(dst);
      } else {
        CreateShortcut(LinkRecord(target, comment, dst, arguments, shortcutArgs));
      }
    }

    /** `os.unlink(path)` with any `OSError` ignored. */
    method Unlink(path: Path)
      requires Valid() && path != []
      modifies this
      ensures Valid() && disk == TryUnlink(old(disk), path) && written == old(written)
      ensures uninstall == old(uninstall) && addToDesktop == old(addToDesktop)
              && addToLauncher == old(addToLauncher) && categoryMap == old(categoryMap)
    {
      TryUnlinkKeepsValid(disk, path);
      disk := TryUnlink(disk, path);
    }

    /**
     * `if not exists(path): os.makedirs(path)`: false where `makedirs` would
     * raise `OSError`, and then nothing changes.
     */
    method EnsureMenuDir(path: Path) returns (made: bool)
      requires Valid()
      modifies this
      ensures Valid() && written == old(written)
      ensures uninstall == old(uninstall) && addToDesktop == old(addToDesktop)
              && addToLauncher == old(addToLauncher) && categoryMap == old(categoryMap)
      ensures made == EnsureDir(old(disk), path).Some?
      ensures disk == if made then EnsureDir(old(disk), path).value else old(disk)
    {
      if Exists(disk, path) {
        return true;
      }
      var r := MakeDirs(disk, path);
      if r.None? {
        return false;
      }
      MakeDirsKeepsValid(disk, path);
      disk := r.value;
      return true;
    }

    /** `os.remove(path)`: false where it would raise `OSError`, and then nothing changes. */
    method Remove(path: Path) returns (removed: bool)
      requires Valid()
      modifies this
      ensures Valid() && written == old(written)
      ensures uninstall == old(uninstall) && addToDesktop == old(addToDesktop)
              && addToLauncher == old(addToLauncher) && categoryMap == old(categoryMap)
      ensures removed == Delete(old(disk), path, false).Some?
      ensures disk == if removed then Delete(old(disk), path, false).value else old(disk)
    {
      var r := Delete(disk, path, false);
      if r.None? {
        return false;
      }
      DeleteKeepsValid(disk, path, false);
      disk := r.value;
      return true;
    }

    /** `wininst.create_shortcut(...)`: the call is recorded, the tree is left alone. */
    method CreateShortcut(r: LinkRecord)
      requires Valid()
      modifies this
      ensures Valid() && disk == old(disk) && written == old(written) + [r]
      ensures uninstall == old(uninstall) && addToDesktop == old(addToDesktop)
              && addToLauncher == old(addToLauncher) && categoryMap == old(categoryMap)
    {
      written := written + [r];
    }
  }
}
