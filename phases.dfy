/**
 * What the methods of the `Win32` class do, as functions of the tree, the
 * shortcut log and the settings: building the menus, placing the
 * shortcuts, and undoing both. The class in win32.dfy is proved to follow
 * these functions; the lemmas here say what they achieve.
 */
module Phases {
  import opened Wrappers
  import opened Sequences
  import opened FileSystem
  import opened Quoting
  import opened Walking
  import opened Menus
  import opened Shortcuts
  import opened Uninstall

  /** How a call ends: normally, or with an exception that escapes it. */
  datatype Outcome = Done | Raised(error: Error)

  /**
   * The directories `win32_common` reports and the two paths the web
   * browser command needs: `python.exe` under `sys.prefix` and the file of
   * the `webbrowser` module.
   */
  datatype Platform = Platform(
    allUsersStartMenu: Path,
    currentUserStartMenu: Path,
    allUsersDesktop: Path,
    currentUserDesktop: Path,
    desktopDir: Path,
    quickLaunchDir: Path,
    pythonExe: string,
    browserScript: string)

  /** The tree and the calls made to the shortcut writer so far. */
  datatype State = State(disk: Node, written: seq<LinkRecord>)

  /** The attributes `_install_shortcut` reads from the object. */
  datatype Settings = Settings(uninstall: bool, addToDesktop: bool, addToLauncher: bool,
                               categoryMap: map<string, Path>)

  /* ----- Building the menus ----- */

  /** The menu entries in the order the queue hands them out. */
  function MenuItems(menus: seq<MenuSpec>, startMenu: Path): seq<Item>
  {
    Visit(InitialQueue(menus, startMenu))
  }

  /**
   * The first loop of `_install_application_menus`: each entry's directory
   * is created unless it exists, then its category is recorded. When
   * `os.makedirs` raises, the map holds the entries recorded before.
   */
  function BuildMenus(disk: Node, menus: seq<MenuSpec>, startMenu: Path): (Node, map<string, Path>, Outcome)
  {
    var items := MenuItems(menus, startMenu);
    var (m, k) := CreateDirs(disk, Paths(items));
    if k < |items| then (m, CategoryMap(items[..k]), Raised(OSError(PathOf(items[k]))))
    else (m, CategoryMap(items), Done)
  }

  /**
   * Building the menus only adds directories, and only on the way to menu
   * directories: one directory per menu, with the missing ones above it. It
   * succeeds exactly when no file lies on the way to any menu directory;
   * otherwise it stops at the first entry with one, reports its path and
   * has recorded the entries before it.
   */
  lemma BuildMenusEffect(disk: Node, menus: seq<MenuSpec>, startMenu: Path)
    requires disk.Dir?
    ensures var items := MenuItems(menus, startMenu);
            var (m, cm, o) := BuildMenus(disk, menus, startMenu);
            && Grown(disk, m)
            && (forall q :: Exists(m, q) && !Exists(disk, q) ==> exists i :: 0 <= i < |items| && q <= PathOf(items[i]))
            && (o == Done <==> forall i :: 0 <= i < |items| ==> Clear(disk, PathOf(items[i])))
            && (o == Done ==> cm == CategoryMap(items) && forall i :: 0 <= i < |items| ==> Exists(m, PathOf(items[i])))
            && (o.Raised? ==> exists k :: 0 <= k < |items| && o.error == OSError(PathOf(items[k]))
                                && !Clear(disk, PathOf(items[k])) && cm == CategoryMap(items[..k])
                                && forall i :: 0 <= i < k ==> Clear(disk, PathOf(items[i])))
  {
    var items := MenuItems(menus, startMenu);
    var ps := Paths(items);
    CreateDirsGrows(disk, ps);
    CreateDirsStops(disk, ps);
    CreateDirsExist(disk, ps);
    var m := CreateDirs(disk, ps).0;
    forall q | Exists(m, q) && !Exists(disk, q) ensures exists i :: 0 <= i < |items| && q <= PathOf(items[i]) {
      CreateDirsWithin(disk, ps, q);
    }
  }

  /**
   * After the menus are built, every menu of the forest has its directory,
   * strictly inside the start menu, and its category in the map; every
   * category maps to the directory of a menu with that category.
   */
  lemma MenusInstalled(disk: Node, menus: seq<MenuSpec>, startMenu: Path)
    requires disk.Dir? && BuildMenus(disk, menus, startMenu).2 == Done
    ensures var q := InitialQueue(menus, startMenu);
            var (m, cm, o) := BuildMenus(disk, menus, startMenu);
            && (forall it :: it in Tree(q) ==> Exists(m, PathOf(it)) && startMenu < PathOf(it) && CategoryOf(it) in cm)
            && (forall c :: c in cm ==> exists it :: it in Tree(q) && CategoryOf(it) == c && cm[c] == PathOf(it))
  {
    var q := InitialQueue(menus, startMenu);
    var items := MenuItems(menus, startMenu);
    var (m, cm, o) := BuildMenus(disk, menus, startMenu);
    BuildMenusEffect(disk, menus, startMenu);
    VisitIsTree(q);
    forall it | it in Tree(q) ensures Exists(m, PathOf(it)) && startMenu < PathOf(it) && CategoryOf(it) in cm {
      assert it in multiset(items);
      var i :| 0 <= i < |items| && items[i] == it;
      TreeBelow(q, startMenu, it);
      CategoryMapKeys(items, CategoryOf(it));
    }
    forall c | c in cm ensures exists it :: it in Tree(q) && CategoryOf(it) == c && cm[c] == PathOf(it) {
      var i := CategoryMapLast(items, c);
      assert items[i] in multiset(Tree(q));
    }
  }

  /* ----- Placing the shortcuts ----- */

  /** One call of `_install_shortcut`: a shortcut and one of its categories. */
  datatype Job = Job(shortcut: ShortcutSpec, category: string)

  function JobsOf(s: ShortcutSpec): (r: seq<Job>)
    ensures |r| == |s.categories|
    ensures forall j :: 0 <= j < |r| ==> r[j] == Job(s, s.categories[j])
  {
    seq(|s.categories|, j requires 0 <= j < |s.categories| => Job(s, s.categories[j]))
  }

  /** The calls the second loop makes: every shortcut, each of its categories in turn. */
  function Jobs(shortcuts: seq<ShortcutSpec>): seq<Job>
  {
    if shortcuts == [] then []
    else Jobs(shortcuts[..|shortcuts| - 1]) + JobsOf(shortcuts[|shortcuts| - 1])
  }

  /** Each shortcut is placed in each of its categories, and nothing else is placed. */
  lemma {:induction false} JobsAre(shortcuts: seq<ShortcutSpec>, job: Job)
    ensures job in Jobs(shortcuts) <==> job.shortcut in shortcuts && job.category in job.shortcut.categories
  {
    if shortcuts != [] {
      var rest := shortcuts[..|shortcuts| - 1];
      var s := shortcuts[|shortcuts| - 1];
      assert shortcuts == rest + [s];
      JobsAre(rest, job);
      if job in JobsOf(s) {
        var j :| 0 <= j < |s.categories| && JobsOf(s)[j] == job;
      }
      if job.shortcut == s && job.category in s.categories {
        var j :| 0 <= j < |s.categories| && s.categories[j] == job.category;
        assert JobsOf(s)[j] == job;
      }
    }
  }

  /** The directories a job's links go to, after the category lookup. */
  function Destinations(job: Job, cfg: Settings, pf: Platform): Result<seq<Path>, Error>
  {
    DestinationDirs(cfg.categoryMap, job.category,
                    job.shortcut.desktop && cfg.addToDesktop, job.shortcut.quicklaunch && cfg.addToLauncher,
                    pf.desktopDir, pf.quickLaunchDir)
  }

  /** The link file in each destination directory. */
  function LinkPaths(name: string, dsts: seq<Path>): (r: seq<Path>)
    ensures |r| == |dsts|
    ensures forall i :: 0 <= i < |r| ==> r[i] == dsts[i] + [LinkName(name)]
  {
    seq(|dsts|, i requires 0 <= i < |dsts| => dsts[i] + [LinkName(name)])
  }

  /** The record written for each destination directory, in order. */
  function Links(s: ShortcutSpec, c: Command, dsts: seq<Path>): (r: seq<LinkRecord>)
    ensures |r| == |dsts|
  {
    if dsts == [] then [] else Links(s, c, dsts[..|dsts| - 1]) + [Link(s, c, dsts[|dsts| - 1])]
  }

  /** Every record is the link for one of the directories. */
  lemma {:induction false} LinksIn(s: ShortcutSpec, c: Command, dsts: seq<Path>, r: LinkRecord)
    requires r in Links(s, c, dsts)
    ensures exists d :: d in dsts && r == Link(s, c, d)
    decreases |dsts|
  {
    var pre := dsts[..|dsts| - 1];
    var last := dsts[|dsts| - 1];
    assert Links(s, c, dsts) == Links(s, c, pre) + [Link(s, c, last)];
    if r in Links(s, c, pre) {
      LinksIn(s, c, pre, r);
      var d :| d in pre && r == Link(s, c, d);
      assert d in dsts;
    } else {
      assert r == Link(s, c, last) && last in dsts;
    }
  }

  /** `os.unlink` on each path in turn, each failure ignored. */
  function UnlinkAll(n: Node, ps: seq<Path>): Node
  {
    if ps == [] then n else TryUnlink(UnlinkAll(n, ps[..|ps| - 1]), ps[|ps| - 1])
  }

  /** The last loop of `_install_shortcut`: unlink each link when uninstalling, else write it. */
  function Deliver(st: State, s: ShortcutSpec, c: Command, dsts: seq<Path>, uninstall: bool): State
  {
    if uninstall then State(UnlinkAll(st.disk, LinkPaths(s.name, dsts)), st.written)
    else State(st.disk, st.written + Links(s, c, dsts))
  }

  /**
   * `_install_shortcut(category, shortcut)`: expand the command (which may
   * raise `IndexError`), look the category up (which may raise `KeyError`),
   * then deliver to every destination.
   */
  function PlaceShortcut(st: State, job: Job, cfg: Settings, pf: Platform): (State, Outcome)
  {
    match Expand(job.shortcut.cmd, pf.pythonExe, pf.browserScript)
    case Failure(e) => (st, Raised(e))
    case Success(c) =>
      match Destinations(job, cfg, pf)
      case Failure(e) => (st, Raised(e))
      case Success(dsts) => (Deliver(st, job.shortcut, c, dsts, cfg.uninstall), Done)
  }

  /** The jobs in turn; the first exception stops the rest. */
  function PlaceAll(st: State, jobs: seq<Job>, cfg: Settings, pf: Platform): (State, Outcome)
  {
    if jobs == [] then (st, Done)
    else
      var (st', o) := PlaceAll(st, jobs[..|jobs| - 1], cfg, pf);
      if o.Raised? then (st', o) else PlaceShortcut(st', jobs[|jobs| - 1], cfg, pf)
  }

  /**
   * The exception a job raises, read off its inputs: a command with nothing
   * to run, or a category no menu declared.
   */
  function JobError(job: Job, cfg: Settings): Option<Error>
  {
    var cmd := job.shortcut.cmd;
    if cmd == [] || (cmd[0] == FileBrowser && |cmd| == 1) then Some(IndexError)
    else if job.category !in cfg.categoryMap then Some(KeyError(job.category))
    else None
  }

  /** The position of the first job that raises, or `|jobs|` when none does. */
  function FirstFailure(jobs: seq<Job>, cfg: Settings): (k: nat)
    ensures k <= |jobs|
    ensures forall i :: 0 <= i < k ==> JobError(jobs[i], cfg) == None
    ensures k < |jobs| ==> JobError(jobs[k], cfg).Some?
  {
    if jobs == [] then 0
    else
      var k := FirstFailure(jobs[..|jobs| - 1], cfg);
      if k < |jobs| - 1 || JobError(jobs[|jobs| - 1], cfg).Some? then k else |jobs|
  }

  /** The records a job asks for: one per destination directory, none when it raises. */
  function Requests(job: Job, cfg: Settings, pf: Platform): seq<LinkRecord>
  {
    match (Expand(job.shortcut.cmd, pf.pythonExe, pf.browserScript), Destinations(job, cfg, pf))
    case (Success(c), Success(dsts)) => Links(job.shortcut, c, dsts)
    case _ => []
  }

  predicate Writes(job: Job, cfg: Settings, pf: Platform, r: LinkRecord)
  {
    r in Requests(job, cfg, pf)
  }

  /** A record some job before position `k` asks for. */
  ghost predicate WrittenBy(jobs: seq<Job>, k: nat, cfg: Settings, pf: Platform, r: LinkRecord)
  {
    exists i :: 0 <= i < k && i < |jobs| && Writes(jobs[i], cfg, pf, r)
  }

  lemma WrittenBySnoc(jobs: seq<Job>, k: nat, cfg: Settings, pf: Platform, r: LinkRecord)
    requires 0 < k <= |jobs|
    ensures WrittenBy(jobs, k, cfg, pf, r) <==> WrittenBy(jobs, k - 1, cfg, pf, r) || Writes(jobs[k - 1], cfg, pf, r)
  {
  }

  lemma WrittenByPrefix(jobs: seq<Job>, rest: seq<Job>, k: nat, cfg: Settings, pf: Platform, r: LinkRecord)
    requires k <= |rest| <= |jobs| && rest == jobs[..|rest|]
    ensures WrittenBy(jobs, k, cfg, pf, r) <==> WrittenBy(rest, k, cfg, pf, r)
  {
    assert forall i :: 0 <= i < k ==> rest[i] == jobs[i];
  }

  /** The records the jobs before position `k` ask for, job after job. */
  function Requested(jobs: seq<Job>, k: nat, cfg: Settings, pf: Platform): seq<LinkRecord>
    requires k <= |jobs|
  {
    if k == 0 then [] else Requested(jobs, k - 1, cfg, pf) + Requests(jobs[k - 1], cfg, pf)
  }

  /** A record is requested before `k` exactly when some job before `k` asks for it. */
  lemma {:induction false} RequestedHas(jobs: seq<Job>, k: nat, cfg: Settings, pf: Platform, r: LinkRecord)
    requires k <= |jobs|
    ensures r in Requested(jobs, k, cfg, pf) <==> WrittenBy(jobs, k, cfg, pf, r)
  {
    if k > 0 {
      RequestedHas(jobs, k - 1, cfg, pf, r);
      WrittenBySnoc(jobs, k, cfg, pf, r);
    }
  }

  /** What the jobs before `k` request depends only on those jobs. */
  lemma {:induction false} RequestedPrefix(jobs: seq<Job>, rest: seq<Job>, k: nat, cfg: Settings, pf: Platform)
    requires k <= |rest| <= |jobs| && rest == jobs[..|rest|]
    ensures Requested(jobs, k, cfg, pf) == Requested(rest, k, cfg, pf)
  {
    if k > 0 {
      RequestedPrefix(jobs, rest, k - 1, cfg, pf);
      assert rest[k - 1] == jobs[k - 1];
    }
  }

  /** Each record a job writes names one of its destination directories. */
  lemma WritesAre(job: Job, cfg: Settings, pf: Platform, r: LinkRecord)
    requires Writes(job, cfg, pf, r)
    ensures var c := Expand(job.shortcut.cmd, pf.pythonExe, pf.browserScript).value;
            exists d :: d in Destinations(job, cfg, pf).value && r == Link(job.shortcut, c, d)
  {
    var c := Expand(job.shortcut.cmd, pf.pythonExe, pf.browserScript).value;
    var dsts := Destinations(job, cfg, pf).value;
    assert Requests(job, cfg, pf) == Links(job.shortcut, c, dsts);
    LinksIn(job.shortcut, c, dsts, r);
  }

  /** A job raises exactly the error read off its inputs, and then changes nothing. */
  lemma PlaceShortcutOutcome(st: State, job: Job, cfg: Settings, pf: Platform)
    ensures PlaceShortcut(st, job, cfg, pf).1
            == if JobError(job, cfg).None? then Done else Raised(JobError(job, cfg).value)
    ensures PlaceShortcut(st, job, cfg, pf).1.Raised? ==> PlaceShortcut(st, job, cfg, pf).0 == st
  {
  }

  /** A job that installs appends the records it asks for and leaves the tree alone. */
  lemma PlaceShortcutAppends(st: State, job: Job, cfg: Settings, pf: Platform)
    requires !cfg.uninstall && JobError(job, cfg).None?
    ensures PlaceShortcut(st, job, cfg, pf).0 == State(st.disk, st.written + Requests(job, cfg, pf))
  {
  }

  /** Once a job has raised, later jobs are not run. */
  lemma {:induction false} PlaceAllStopped(st: State, jobs: seq<Job>, more: seq<Job>, cfg: Settings, pf: Platform)
    requires PlaceAll(st, jobs, cfg, pf).1.Raised?
    ensures PlaceAll(st, jobs + more, cfg, pf) == PlaceAll(st, jobs, cfg, pf)
    decreases |more|
  {
    if more == [] {
      assert jobs + more == jobs;
    } else {
      var front := more[..|more| - 1];
      PlaceAllStopped(st, jobs, front, cfg, pf);
      assert (jobs + more)[..|jobs + more| - 1] == jobs + front;
    }
  }

  /** What placing the jobs before position `k` does to `st`, giving `st'`. */
  ghost predicate Placed(st: State, st': State, jobs: seq<Job>, k: nat, cfg: Settings, pf: Platform)
  {
    && k <= |jobs|
    && st'.disk == st.disk
    && st'.written == st.written + Requested(jobs, k, cfg, pf)
    && |st'.written| >= |st.written| && st'.written[..|st.written|] == st.written
    && forall r :: r in st'.written[|st.written|..] <==> WrittenBy(jobs, k, cfg, pf, r)
  }

  lemma PlacedStopped(st: State, st': State, jobs: seq<Job>, k: nat, cfg: Settings, pf: Platform)
    requires 0 < |jobs| && k < |jobs| && Placed(st, st', jobs[..|jobs| - 1], k, cfg, pf)
    ensures Placed(st, st', jobs, k, cfg, pf)
  {
    RequestedPrefix(jobs, jobs[..|jobs| - 1], k, cfg, pf);
    forall r ensures WrittenBy(jobs, k, cfg, pf, r) <==> WrittenBy(jobs[..|jobs| - 1], k, cfg, pf, r) {
      WrittenByPrefix(jobs, jobs[..|jobs| - 1], k, cfg, pf, r);
    }
  }

  /** The last job's records follow, in order, those of the jobs before it. */
  lemma PlacedInOrder(st: State, sr: State, jobs: seq<Job>, cfg: Settings, pf: Platform)
    requires 0 < |jobs|
    requires sr.written == st.written + Requested(jobs[..|jobs| - 1], |jobs| - 1, cfg, pf)
    ensures sr.written + Requests(jobs[|jobs| - 1], cfg, pf) == st.written + Requested(jobs, |jobs|, cfg, pf)
  {
    var rest := jobs[..|jobs| - 1];
    var req := Requests(jobs[|jobs| - 1], cfg, pf);
    RequestedPrefix(jobs, rest, |jobs| - 1, cfg, pf);
    calc {
      sr.written + req;
      (st.written + Requested(rest, |jobs| - 1, cfg, pf)) + req;
      { Assoc(st.written, Requested(rest, |jobs| - 1, cfg, pf), req); }
      st.written + (Requested(jobs, |jobs| - 1, cfg, pf) + req);
    }
  }

  lemma PlacedStep(st: State, sr: State, jobs: seq<Job>, cfg: Settings, pf: Platform)
    requires 0 < |jobs| && !cfg.uninstall && JobError(jobs[|jobs| - 1], cfg).None?
    requires Placed(st, sr, jobs[..|jobs| - 1], |jobs| - 1, cfg, pf)
    ensures Placed(st, PlaceShortcut(sr, jobs[|jobs| - 1], cfg, pf).0, jobs, |jobs|, cfg, pf)
  {
    var job := jobs[|jobs| - 1];
    PlaceShortcutAppends(sr, job, cfg, pf);
    var req := Requests(job, cfg, pf);
    var w := sr.written + req;
    var n := |st.written|;
    SliceAppend(sr.written, req, n);
    PlacedInOrder(st, sr, jobs, cfg, pf);
    forall r ensures r in w[n..] <==> WrittenBy(jobs, |jobs|, cfg, pf, r) {
      WrittenBySnoc(jobs, |jobs|, cfg, pf, r);
      WrittenByPrefix(jobs, jobs[..|jobs| - 1], |jobs| - 1, cfg, pf, r);
    }
  }

  /** What `PlaceAll` promises for `jobs`: the outcome and the effect up to the first failure. */
  ghost predicate PlaceAllDoes(st: State, jobs: seq<Job>, cfg: Settings, pf: Platform)
  {
    var k := FirstFailure(jobs, cfg);
    var (st', o) := PlaceAll(st, jobs, cfg, pf);
    && o == (if k == |jobs| then Done else Raised(JobError(jobs[k], cfg).value))
    && Placed(st, st', jobs, k, cfg, pf)
  }

  /** The step where an earlier job or the last one raises. */
  lemma PlaceAllHalts(st: State, jobs: seq<Job>, cfg: Settings, pf: Platform)
    requires 0 < |jobs| && PlaceAllDoes(st, jobs[..|jobs| - 1], cfg, pf)
    requires FirstFailure(jobs[..|jobs| - 1], cfg) < |jobs| - 1 || JobError(jobs[|jobs| - 1], cfg).Some?
    ensures PlaceAllDoes(st, jobs, cfg, pf)
  {
    var rest := jobs[..|jobs| - 1];
    var kr := FirstFailure(rest, cfg);
    var (sr, or) := PlaceAll(st, rest, cfg, pf);
    PlaceShortcutOutcome(sr, jobs[|jobs| - 1], cfg, pf);
    if kr < |rest| {
      assert jobs[kr] == rest[kr];
    }
    PlacedStopped(st, sr, jobs, kr, cfg, pf);
  }

  /** The step where every job up to the last one installs. */
  lemma PlaceAllRuns(st: State, jobs: seq<Job>, cfg: Settings, pf: Platform)
    requires 0 < |jobs| && !cfg.uninstall && PlaceAllDoes(st, jobs[..|jobs| - 1], cfg, pf)
    requires FirstFailure(jobs[..|jobs| - 1], cfg) == |jobs| - 1 && JobError(jobs[|jobs| - 1], cfg).None?
    ensures PlaceAllDoes(st, jobs, cfg, pf)
  {
    var (sr, or) := PlaceAll(st, jobs[..|jobs| - 1], cfg, pf);
    PlaceShortcutOutcome(sr, jobs[|jobs| - 1], cfg, pf);
    PlacedStep(st, sr, jobs, cfg, pf);
  }

  /**
   * Placing the shortcuts raises the error of the first job that fails, or
   * completes; before that, exactly the records the earlier jobs ask for are
   * appended to the log, in the order of the jobs, and the tree is left alone.
   */
  lemma {:induction false} PlaceAllEffect(st: State, jobs: seq<Job>, cfg: Settings, pf: Platform)
    requires !cfg.uninstall
    ensures var k := FirstFailure(jobs, cfg);
            var (st', o) := PlaceAll(st, jobs, cfg, pf);
            && o == (if k == |jobs| then Done else Raised(JobError(jobs[k], cfg).value))
            && Placed(st, st', jobs, k, cfg, pf)
  {
    if jobs != [] {
      var rest := jobs[..|jobs| - 1];
      PlaceAllEffect(st, rest, cfg, pf);
      assert PlaceAllDoes(st, rest, cfg, pf);
      if FirstFailure(rest, cfg) < |rest| || JobError(jobs[|jobs| - 1], cfg).Some? {
        PlaceAllHalts(st, jobs, cfg, pf);
      } else {
        PlaceAllRuns(st, jobs, cfg, pf);
      }
      assert PlaceAllDoes(st, jobs, cfg, pf);
    }
  }

  /* ----- The whole install ----- */

  /**
   * `_install_application_menus`: build the menus, then place the
   * shortcuts with the category map just built; an exception in the first
   * phase skips the second.
   */
  function InstallSpec(st: State, menus: seq<MenuSpec>, shortcuts: seq<ShortcutSpec>, startMenu: Path,
                       uninstall: bool, addToDesktop: bool, addToLauncher: bool, pf: Platform)
    : (State, map<string, Path>, Outcome)
  {
    var (m, cm, o) := BuildMenus(st.disk, menus, startMenu);
    if o.Raised? then (State(m, st.written), cm, o)
    else
      var (st', o') := PlaceAll(State(m, st.written), Jobs(shortcuts), Settings(uninstall, addToDesktop, addToLauncher, cm), pf);
      (st', cm, o')
  }

  /**
   * Installing only adds directories, on the way to menu directories, and
   * appends to the log. It completes exactly when no file blocks a menu
   * directory and every shortcut has a command to run and categories that
   * some menu declares; the log then gains exactly the records the
   * shortcuts ask for.
   */
  lemma InstallEffect(st: State, menus: seq<MenuSpec>, shortcuts: seq<ShortcutSpec>, startMenu: Path,
                      addToDesktop: bool, addToLauncher: bool, pf: Platform)
    requires st.disk.Dir?
    ensures var items := MenuItems(menus, startMenu);
            var cfg := Settings(false, addToDesktop, addToLauncher, CategoryMap(items));
            var jobs := Jobs(shortcuts);
            var (st', cm, o) := InstallSpec(st, menus, shortcuts, startMenu, false, addToDesktop, addToLauncher, pf);
            && Grown(st.disk, st'.disk)
            && (forall q :: Exists(st'.disk, q) && !Exists(st.disk, q) ==> exists i :: 0 <= i < |items| && q <= PathOf(items[i]))
            && |st'.written| >= |st.written| && st'.written[..|st.written|] == st.written
            && (o == Done <==> (forall i :: 0 <= i < |items| ==> Clear(st.disk, PathOf(items[i])))
                               && forall i :: 0 <= i < |jobs| ==> JobError(jobs[i], cfg).None?)
            && (o == Done ==> forall r :: r in st'.written[|st.written|..] <==> WrittenBy(jobs, |jobs|, cfg, pf, r))
            && (o == Done ==> st'.written == st.written + Requested(jobs, |jobs|, cfg, pf))
  {
    var items := MenuItems(menus, startMenu);
    var cfg := Settings(false, addToDesktop, addToLauncher, CategoryMap(items));
    var jobs := Jobs(shortcuts);
    BuildMenusEffect(st.disk, menus, startMenu);
    var (m, cm, o) := BuildMenus(st.disk, menus, startMenu);
    if o == Done {
      PlaceAllEffect(State(m, st.written), jobs, cfg, pf);
      assert InstallSpec(st, menus, shortcuts, startMenu, false, addToDesktop, addToLauncher, pf).0.disk == m;
      var k := FirstFailure(jobs, cfg);
      if k < |jobs| {
        assert JobError(jobs[k], cfg).Some?;
      }
    } else {
      assert st.written[..|st.written|] == st.written;
    }
  }

  /* ----- Undoing the install ----- */

  lemma KindIsLookup(n: Node, p: Path, locked: bool)
    ensures KindAt(n, p) == Some(FileKind(locked)) <==> Lookup(n, p) == Some(File(locked))
  {
  }

  /** One more unlink, given what the earlier ones did at `p` and at `q`. */
  lemma UnlinkOneKind(n: Node, m: Node, rest: seq<Path>, p: Path, q: Path)
    requires n.Dir?
    requires KindAt(m, p) == if p in rest && KindAt(n, p) == Some(FileKind(false)) then None else KindAt(n, p)
    requires KindAt(m, q) == if q in rest && KindAt(n, q) == Some(FileKind(false)) then None else KindAt(n, q)
    ensures KindAt(TryUnlink(m, p), q)
            == if q in rest + [p] && KindAt(n, q) == Some(FileKind(false)) then None else KindAt(n, q)
  {
    TryUnlinkEffect(m, p, q);
    KindIsLookup(m, p, false);
    var gone := p !in rest && KindAt(n, p) == Some(FileKind(false));
    assert KindAt(n, []) == Some(DirKind);
    assert (p != [] && Lookup(m, p) == Some(File(false))) <==> gone;
    assert q in rest + [p] <==> q in rest || q == p;
    if gone && p <= q && p != q {
      NothingBelowFile(n, p, q);
    }
  }

  /**
   * Unlinking paths in turn, each failure ignored, removes exactly those
   * that are files the system lets go of; nothing else changes.
   */
  lemma {:induction false} UnlinkAllEffect(n: Node, ps: seq<Path>, q: Path)
    requires n.Dir?
    ensures KindAt(UnlinkAll(n, ps), q)
            == if q in ps && KindAt(n, q) == Some(FileKind(false)) then None else KindAt(n, q)
  {
    if ps != [] {
      var rest := ps[..|ps| - 1];
      var p := ps[|ps| - 1];
      assert ps == rest + [p];
      UnlinkAllEffect(n, rest, p);
      UnlinkAllEffect(n, rest, q);
      UnlinkOneKind(n, UnlinkAll(n, rest), rest, p, q);
    }
  }

  lemma {:induction false} UnlinkAllKeepsWellFormed(n: Node, ps: seq<Path>)
    requires WellFormed(n)
    ensures WellFormed(UnlinkAll(n, ps))
  {
    if ps != [] {
      UnlinkAllKeepsWellFormed(n, ps[..|ps| - 1]);
      TryUnlinkKeepsWellFormed(UnlinkAll(n, ps[..|ps| - 1]), ps[|ps| - 1]);
    }
  }

  lemma {:induction false} UnlinkAllAppend(n: Node, a: seq<Path>, b: seq<Path>)
    ensures UnlinkAll(n, a + b) == UnlinkAll(UnlinkAll(n, a), b)
    decreases |b|
  {
    if b == [] {
      assert a + b == a;
    } else {
      UnlinkAllAppend(n, a, b[..|b| - 1]);
      assert (a + b)[..|a + b| - 1] == a + b[..|b| - 1];
    }
  }

  /** The link file names, in the order of the shortcuts. */
  function LinkNames(shortcuts: seq<ShortcutSpec>): (r: seq<string>)
    ensures |r| == |shortcuts|
    ensures forall i :: 0 <= i < |r| ==> r[i] == LinkName(shortcuts[i].name)
  {
    seq(|shortcuts|, i requires 0 <= i < |shortcuts| => LinkName(shortcuts[i].name))
  }

  /**
   * The stray links one shortcut may have left: on both desktops when it
   * asks for a desktop icon, in quick launch when it asks for one there and
   * launcher icons are enabled.
   */
  function StrayLinksOf(s: ShortcutSpec, addToLauncher: bool, pf: Platform): seq<Path>
  {
    var name := LinkName(s.name);
    (if s.desktop then [pf.allUsersDesktop + [name], pf.currentUserDesktop + [name]] else [])
    + (if s.quicklaunch && addToLauncher then [pf.quickLaunchDir + [name]] else [])
  }

  function StrayLinks(shortcuts: seq<ShortcutSpec>, addToLauncher: bool, pf: Platform): seq<Path>
  {
    if shortcuts == [] then []
    else StrayLinks(shortcuts[..|shortcuts| - 1], addToLauncher, pf)
         + StrayLinksOf(shortcuts[|shortcuts| - 1], addToLauncher, pf)
  }

  /** A link a shortcut could have left on a desktop or in quick launch. */
  predicate Stray(s: ShortcutSpec, addToLauncher: bool, pf: Platform, p: Path)
  {
    || (s.desktop && (p == pf.allUsersDesktop + [LinkName(s.name)] || p == pf.currentUserDesktop + [LinkName(s.name)]))
    || (s.quicklaunch && addToLauncher && p == pf.quickLaunchDir + [LinkName(s.name)])
  }

  /** The stray links tried are exactly those of the shortcuts. */
  lemma {:induction false} StrayLinksAre(shortcuts: seq<ShortcutSpec>, addToLauncher: bool, pf: Platform, p: Path)
    ensures p in StrayLinks(shortcuts, addToLauncher, pf)
            <==> exists s :: s in shortcuts && Stray(s, addToLauncher, pf, p)
  {
    if shortcuts != [] {
      var rest := shortcuts[..|shortcuts| - 1];
      var s := shortcuts[|shortcuts| - 1];
      assert shortcuts == rest + [s];
      StrayLinksAre(rest, addToLauncher, pf, p);
      assert p in StrayLinksOf(s, addToLauncher, pf) <==> Stray(s, addToLauncher, pf, p);
      if exists s' :: s' in shortcuts && Stray(s', addToLauncher, pf, p) {
        var s' :| s' in shortcuts && Stray(s', addToLauncher, pf, p);
        if s' != s {
          assert s' in rest;
        }
      }
    }
  }

  /** The top-level menu directories, in the order of the menus. */
  function TopPaths(menus: seq<MenuSpec>, startMenu: Path): (r: seq<Path>)
    ensures |r| == |menus|
    ensures forall i :: 0 <= i < |r| ==> r[i] == startMenu + [menus[i].name]
  {
    seq(|menus|, i requires 0 <= i < |menus| => startMenu + [menus[i].name])
  }

  /** Every top-level menu in turn; a file that cannot be removed stops the rest. */
  function PruneMenus(disk: Node, tops: seq<Path>, names: seq<string>): (Node, Option<Path>)
  {
    if tops == [] then (disk, None)
    else
      var (m, err) := PruneMenus(disk, tops[..|tops| - 1], names);
      if err.Some? then (m, err) else PruneMenu(m, tops[|tops| - 1], names)
  }

  lemma {:induction false} PruneMenusStopped(disk: Node, tops: seq<Path>, more: seq<Path>, names: seq<string>)
    requires PruneMenus(disk, tops, names).1.Some?
    ensures PruneMenus(disk, tops + more, names) == PruneMenus(disk, tops, names)
    decreases |more|
  {
    if more == [] {
      assert tops + more == tops;
    } else {
      var front := more[..|more| - 1];
      PruneMenusStopped(disk, tops, front, names);
      assert (tops + more)[..|tops + more| - 1] == tops + front;
    }
  }

  /** `m` is `n` with some paths gone and nothing else changed. */
  ghost predicate Shrunk(n: Node, m: Node)
  {
    forall q :: KindAt(m, q) == KindAt(n, q) || KindAt(m, q) == None
  }

  /** Every file of `n` the system refuses to remove is still in `m`. */
  ghost predicate KeepsLocked(n: Node, m: Node)
  {
    forall f :: Locked(n, f) ==> Locked(m, f)
  }

  /** `q` lies at or below none of `tops`. */
  predicate Outside(q: Path, tops: seq<Path>)
  {
    forall t :: t in tops ==> !(t <= q)
  }

  /** Nothing at or below none of `tops` changed. */
  ghost predicate SameOutside(n: Node, m: Node, tops: seq<Path>)
  {
    forall q :: Outside(q, tops) ==> KindAt(m, q) == KindAt(n, q)
  }

  /** A locked file strictly below `top` named like one of the shortcuts. */
  predicate LockedLink(n: Node, top: Path, names: seq<string>, f: Path)
  {
    top < f && Locked(n, f) && f[|f| - 1] in names
  }

  /** What one top-level menu removes: only targets or paths at or below `top`. */
  lemma PruneMenuRemoves(disk: Node, top: Path, names: seq<string>, q: Path)
    requires WellFormed(disk) && disk.Dir? && top != []
    ensures var m := PruneMenu(disk, top, names).0;
            KindAt(m, q) == KindAt(disk, q) || (KindAt(m, q) == None && top <= q)
  {
    var targets := MenuTargets(disk, top, names);
    var (m, err) := PruneMenu(disk, top, names);
    var k := FirstLocked(disk, targets);
    PruneMenuEffect(disk, top, names);
    if q in targets {
      MenuTargetsAre(disk, top, names, q);
    }
    if err.Some? && q in targets[..k] {
      assert q in targets;
    }
  }

  /** A locked file survives its menu. */
  lemma PruneMenuKeepsLocked(disk: Node, top: Path, names: seq<string>, f: Path)
    requires WellFormed(disk) && disk.Dir? && top != [] && Locked(disk, f)
    ensures Locked(PruneMenu(disk, top, names).0, f)
  {
    var targets := MenuTargets(disk, top, names);
    var (m, err) := PruneMenu(disk, top, names);
    PruneMenuEffect(disk, top, names);
    if err.None? {
      MenuTargetsAre(disk, top, names, f);
      forall d | top <= d <= f ensures !Emptied(disk, d, targets) {
        if d == f {
          assert !IsDirAt(disk, d);
        }
      }
    }
  }

  /** A top-level menu loses only paths at or below it, and never a locked file. */
  lemma PruneMenuShape(disk: Node, top: Path, names: seq<string>)
    requires WellFormed(disk) && disk.Dir? && top != []
    ensures var m := PruneMenu(disk, top, names).0;
            Shrunk(disk, m) && KeepsLocked(disk, m) && SameOutside(disk, m, [top])
  {
    var m := PruneMenu(disk, top, names).0;
    forall q ensures KindAt(m, q) == KindAt(disk, q) || (KindAt(m, q) == None && top <= q) {
      PruneMenuRemoves(disk, top, names, q);
    }
    forall f | Locked(disk, f) ensures Locked(m, f) {
      PruneMenuKeepsLocked(disk, top, names, f);
    }
    assert top in [top];
  }

  /** A top-level menu stops exactly when a locked file below it is named like a shortcut, and reports it. */
  lemma PruneMenuFails(disk: Node, top: Path, names: seq<string>)
    requires WellFormed(disk) && disk.Dir? && top != []
    ensures var err := PruneMenu(disk, top, names).1;
            && (err.None? <==> forall f :: !LockedLink(disk, top, names, f))
            && (err.Some? ==> LockedLink(disk, top, names, err.value))
  {
    var targets := MenuTargets(disk, top, names);
    PruneMenuEffect(disk, top, names);
    forall f ensures f in targets && Locked(disk, f) <==> LockedLink(disk, top, names, f) {
      MenuTargetsAre(disk, top, names, f);
    }
    var err := PruneMenu(disk, top, names).1;
    if err.Some? {
      var k := FirstLocked(disk, targets);
      assert targets[k] in targets;
    }
  }

  /** What the menus removed so far have done to `disk`, giving `m`. */
  ghost predicate PrunedAll(disk: Node, m: Node, tops: seq<Path>)
  {
    WellFormed(m) && m.Dir? && Shrunk(disk, m) && KeepsLocked(disk, m) && SameOutside(disk, m, tops)
  }

  lemma LockedSame(disk: Node, m: Node, top: Path, names: seq<string>, f: Path)
    requires Shrunk(disk, m) && KeepsLocked(disk, m)
    ensures LockedLink(m, top, names, f) <==> LockedLink(disk, top, names, f)
  {
    assert KindAt(m, f) == KindAt(disk, f) || KindAt(m, f) == None;
  }

  lemma ShrunkTrans(a: Node, b: Node, c: Node)
    requires Shrunk(a, b) && Shrunk(b, c)
    ensures Shrunk(a, c)
  {
    forall q ensures KindAt(c, q) == KindAt(a, q) || KindAt(c, q) == None {
      assert KindAt(c, q) == KindAt(b, q) || KindAt(c, q) == None;
      assert KindAt(b, q) == KindAt(a, q) || KindAt(b, q) == None;
    }
  }

  lemma SameOutsideTrans(a: Node, b: Node, c: Node, tops: seq<Path>, top: Path)
    requires SameOutside(a, b, tops) && SameOutside(b, c, [top])
    ensures SameOutside(a, c, tops + [top])
  {
    assert forall t :: t in tops ==> t in tops + [top];
    assert top in tops + [top];
    forall q | Outside(q, tops + [top]) ensures KindAt(c, q) == KindAt(a, q) {
      assert Outside(q, tops) && Outside(q, [top]);
    }
  }

  /** A tree whose root is still there after paths were removed is still a directory. */
  lemma ShrunkDir(a: Node, b: Node)
    requires a.Dir? && Shrunk(a, b)
    ensures b.Dir?
  {
    assert KindAt(b, []) == Some(KindOf(b));
    assert KindAt(a, []) == Some(DirKind);
  }

  lemma PrunedAllStep(disk: Node, m: Node, tops: seq<Path>, top: Path, names: seq<string>)
    requires PrunedAll(disk, m, tops) && top != []
    ensures PrunedAll(disk, PruneMenu(m, top, names).0, tops + [top])
  {
    var m' := PruneMenu(m, top, names).0;
    PruneMenuShape(m, top, names);
    PruneMenuKeepsWellFormed(m, top, names);
    ShrunkTrans(disk, m, m');
    SameOutsideTrans(disk, m, m', tops, top);
    ShrunkDir(m, m');
  }

  /** How the run over `tops` ended, `err`, told by the locked files of `disk`. */
  ghost predicate StopsAtLocked(disk: Node, tops: seq<Path>, names: seq<string>, err: Option<Path>)
  {
    && (err.None? <==> forall t, f :: t in tops ==> !LockedLink(disk, t, names, f))
    && (err.Some? ==> exists t :: t in tops && LockedLink(disk, t, names, err.value))
  }

  lemma StopsAtLockedStopped(disk: Node, tops: seq<Path>, top: Path, names: seq<string>, err: Option<Path>)
    requires err.Some? && StopsAtLocked(disk, tops, names, err)
    ensures StopsAtLocked(disk, tops + [top], names, err)
  {
    var t :| t in tops && LockedLink(disk, t, names, err.value);
    assert t in tops + [top];
  }

  lemma StopsAtLockedStep(disk: Node, m: Node, tops: seq<Path>, top: Path, names: seq<string>)
    requires PrunedAll(disk, m, tops) && top != []
    requires StopsAtLocked(disk, tops, names, None)
    ensures StopsAtLocked(disk, tops + [top], names, PruneMenu(m, top, names).1)
  {
    PruneMenuFails(m, top, names);
    forall f ensures LockedLink(m, top, names, f) <==> LockedLink(disk, top, names, f) {
      LockedSame(disk, m, top, names, f);
    }
    assert top in tops + [top];
    assert forall t :: t in tops + [top] <==> t in tops || t == top;
  }

  lemma PrunedAllStopped(disk: Node, m: Node, tops: seq<Path>, top: Path)
    requires PrunedAll(disk, m, tops)
    ensures PrunedAll(disk, m, tops + [top])
  {
    assert forall t :: t in tops ==> t in tops + [top];
    forall q | Outside(q, tops + [top]) ensures KindAt(m, q) == KindAt(disk, q) {
      assert Outside(q, tops);
    }
  }

  /** A path whose last name is one of `names`: a link file of the shortcuts. */
  predicate LinkNamed(q: Path, names: seq<string>)
  {
    q != [] && q[|q| - 1] in names
  }

  /** Every file strictly below `d` is named like a shortcut. */
  ghost predicate LinksOnly(n: Node, d: Path, names: seq<string>)
  {
    forall f :: d < f && IsFileAt(n, f) ==> LinkNamed(f, names)
  }

  /** Every file of `n` that is missing from `m` was named like a shortcut. */
  ghost predicate OnlyLinksGone(n: Node, m: Node, names: seq<string>)
  {
    forall f :: IsFileAt(n, f) && KindAt(m, f) == None ==> LinkNamed(f, names)
  }

  /**
   * Nothing at or below `t` is left that taking its menu down would remove:
   * no file below it named like a shortcut, and no directory holding only
   * such files.
   */
  ghost predicate Cleared(n: Node, t: Path, names: seq<string>)
  {
    && (forall f :: t < f && IsFileAt(n, f) ==> !LinkNamed(f, names))
    && (forall d :: t <= d && IsDirAt(n, d) ==> !LinksOnly(n, d, names))
  }

  /** A file one menu takes away is one of its targets. */
  lemma PruneMenuGoneFile(disk: Node, top: Path, names: seq<string>, f: Path)
    requires WellFormed(disk) && disk.Dir? && top != []
    requires IsFileAt(disk, f) && KindAt(PruneMenu(disk, top, names).0, f) == None
    ensures f in MenuTargets(disk, top, names)
  {
    var targets := MenuTargets(disk, top, names);
    var (m, err) := PruneMenu(disk, top, names);
    var k := FirstLocked(disk, targets);
    PruneMenuEffect(disk, top, names);
    if err.Some? {
      assert f in targets[..k];
    } else {
      forall d | top <= d <= f && Emptied(disk, d, targets) ensures f in targets {
        assert KindAt(disk, d) != KindAt(disk, f);
        assert d != f;
      }
    }
  }

  /** A file one menu takes away was named like a shortcut. */
  lemma PruneMenuOnlyLinks(disk: Node, top: Path, names: seq<string>)
    requires WellFormed(disk) && disk.Dir? && top != []
    ensures OnlyLinksGone(disk, PruneMenu(disk, top, names).0, names)
  {
    var m := PruneMenu(disk, top, names).0;
    forall f | IsFileAt(disk, f) && KindAt(m, f) == None ensures LinkNamed(f, names) {
      PruneMenuGoneFile(disk, top, names, f);
      MenuTargetsAre(disk, top, names, f);
    }
  }

  /** A menu taken down in full leaves nothing for a second pass to remove. */
  lemma PruneMenuClears(disk: Node, top: Path, names: seq<string>)
    requires WellFormed(disk) && disk.Dir? && top != [] && PruneMenu(disk, top, names).1.None?
    ensures Cleared(PruneMenu(disk, top, names).0, top, names)
  {
    var targets := MenuTargets(disk, top, names);
    var m := PruneMenu(disk, top, names).0;
    PruneMenuEffect(disk, top, names);
    forall f | top < f && IsFileAt(m, f) ensures !LinkNamed(f, names) {
      MenuTargetsAre(disk, top, names, f);
    }
    forall d | top <= d && IsDirAt(m, d) ensures !LinksOnly(m, d, names) {
      assert !Emptied(disk, d, targets);
      var f :| d < f && IsFileAt(disk, f) && f !in targets;
      forall d' | top <= d' <= f ensures !Emptied(disk, d', targets) {
        if d' == f {
          assert !IsDirAt(disk, d');
        }
      }
      MenuTargetsAre(disk, top, names, f);
      assert IsFileAt(m, f);
    }
  }

  lemma OnlyLinksTrans(a: Node, b: Node, c: Node, names: seq<string>)
    requires Shrunk(a, b) && OnlyLinksGone(a, b, names) && OnlyLinksGone(b, c, names)
    ensures OnlyLinksGone(a, c, names)
  {
    forall f | IsFileAt(a, f) && KindAt(c, f) == None ensures LinkNamed(f, names) {
      assert KindAt(b, f) == KindAt(a, f) || KindAt(b, f) == None;
    }
  }

  /** Removing only link files keeps a cleared menu cleared. */
  lemma ClearedKept(m: Node, m': Node, t: Path, names: seq<string>)
    requires Cleared(m, t, names) && Shrunk(m, m') && OnlyLinksGone(m, m', names)
    ensures Cleared(m', t, names)
  {
    forall f | t < f && IsFileAt(m', f) ensures !LinkNamed(f, names) {
      assert KindAt(m', f) == KindAt(m, f) || KindAt(m', f) == None;
    }
    forall d | t <= d && IsDirAt(m', d) ensures !LinksOnly(m', d, names) {
      assert KindAt(m', d) == KindAt(m, d) || KindAt(m', d) == None;
      assert IsDirAt(m, d) && !LinksOnly(m, d, names);
      var f :| d < f && IsFileAt(m, f) && !LinkNamed(f, names);
      assert KindAt(m', f) == KindAt(m, f) || KindAt(m', f) == None;
    }
  }

  /**
   * The top-level menus in turn: only paths at or below them go, never a
   * locked file, and a file that goes was named like a shortcut. The run
   * stops exactly when some menu holds a locked file named like a shortcut,
   * and that file is reported; a run that does not stop leaves every menu
   * cleared.
   */
  lemma {:induction false} PruneMenusEffect(disk: Node, tops: seq<Path>, names: seq<string>)
    requires WellFormed(disk) && disk.Dir? && forall t :: t in tops ==> t != []
    ensures PrunedAll(disk, PruneMenus(disk, tops, names).0, tops)
    ensures StopsAtLocked(disk, tops, names, PruneMenus(disk, tops, names).1)
    ensures OnlyLinksGone(disk, PruneMenus(disk, tops, names).0, names)
    ensures PruneMenus(disk, tops, names).1.None? ==>
              forall t :: t in tops ==> Cleared(PruneMenus(disk, tops, names).0, t, names)
  {
    if tops == [] {
      assert KindAt(disk, []) == Some(DirKind);
    } else {
      var rest := tops[..|tops| - 1];
      var top := tops[|tops| - 1];
      assert tops == rest + [top];
      assert forall t :: t in rest ==> t in tops;
      assert top in tops;
      PruneMenusEffect(disk, rest, names);
      var (mr, er) := PruneMenus(disk, rest, names);
      if er.Some? {
        PrunedAllStopped(disk, mr, rest, top);
        StopsAtLockedStopped(disk, rest, top, names, er);
      } else {
        PrunedAllStep(disk, mr, rest, top, names);
        StopsAtLockedStep(disk, mr, rest, top, names);
        var (m', err') := PruneMenu(mr, top, names);
        PruneMenuShape(mr, top, names);
        PruneMenuOnlyLinks(mr, top, names);
        OnlyLinksTrans(disk, mr, m', names);
        if err'.None? {
          PruneMenuClears(mr, top, names);
          forall t | t in rest ensures Cleared(m', t, names) {
            ClearedKept(mr, m', t, names);
          }
        }
      }
    }
  }

  /**
   * `_uninstall_application_menus`: unlink the stray desktop and quick
   * launch links, then take each top-level menu down; a file that cannot be
   * removed raises `OSError` and stops the rest.
   */
  function UninstallSpec(disk: Node, menus: seq<MenuSpec>, shortcuts: seq<ShortcutSpec>, startMenu: Path,
                         addToLauncher: bool, pf: Platform): (Node, Outcome)
  {
    var m := UnlinkAll(disk, StrayLinks(shortcuts, addToLauncher, pf));
    var (m', err) := PruneMenus(m, TopPaths(menus, startMenu), LinkNames(shortcuts));
    (m', if err.Some? then Raised(OSError(err.value)) else Done)
  }

  /** A stray link is named like a shortcut. */
  lemma StrayNamed(shortcuts: seq<ShortcutSpec>, addToLauncher: bool, pf: Platform, p: Path)
    requires p in StrayLinks(shortcuts, addToLauncher, pf)
    ensures LinkNamed(p, LinkNames(shortcuts))
  {
    StrayLinksAre(shortcuts, addToLauncher, pf, p);
    var s :| s in shortcuts && Stray(s, addToLauncher, pf, p);
    var i :| 0 <= i < |shortcuts| && shortcuts[i] == s;
    assert LinkNames(shortcuts)[i] == LinkName(s.name);
  }

  lemma StraysKeepLocked(disk: Node, strays: seq<Path>)
    requires disk.Dir?
    ensures var m := UnlinkAll(disk, strays);
            && Shrunk(disk, m) && KeepsLocked(disk, m) && m.Dir?
            && (forall f :: Locked(m, f) ==> Locked(disk, f))
            && forall q :: q !in strays ==> KindAt(m, q) == KindAt(disk, q)
  {
    var m := UnlinkAll(disk, strays);
    forall q ensures KindAt(m, q) == if q in strays && KindAt(disk, q) == Some(FileKind(false)) then None else KindAt(disk, q) {
      UnlinkAllEffect(disk, strays, q);
    }
    assert KindAt(m, []) == Some(KindOf(m));
    assert KindAt(disk, []) == Some(DirKind);
  }

  /**
   * Uninstalling removes only stray links and paths inside the top-level
   * menus, and never a locked file; every stray link the system lets go of
   * is gone. A file that goes is named like a shortcut, and a directory
   * that goes held no other file. It fails exactly when a top-level menu
   * holds a locked file named like one of the shortcuts, and then reports
   * such a file; when it completes, no menu holds a file named like a
   * shortcut or a directory holding only such files.
   */
  lemma UninstallEffect(disk: Node, menus: seq<MenuSpec>, shortcuts: seq<ShortcutSpec>, startMenu: Path,
                        addToLauncher: bool, pf: Platform)
    requires WellFormed(disk) && disk.Dir?
    ensures var tops := TopPaths(menus, startMenu);
            var names := LinkNames(shortcuts);
            var strays := StrayLinks(shortcuts, addToLauncher, pf);
            var (m, o) := UninstallSpec(disk, menus, shortcuts, startMenu, addToLauncher, pf);
            && WellFormed(m) && m.Dir? && Shrunk(disk, m) && KeepsLocked(disk, m)
            && (forall q :: Outside(q, tops) && q !in strays ==> KindAt(m, q) == KindAt(disk, q))
            && (forall q :: q in strays && KindAt(disk, q) == Some(FileKind(false)) ==> KindAt(m, q) == None)
            && (forall q :: IsFileAt(disk, q) && KindAt(m, q) == None ==> LinkNamed(q, names))
            && (forall q :: IsDirAt(disk, q) && KindAt(m, q) == None ==> LinksOnly(disk, q, names))
            && (o == Done ==> forall t :: t in tops ==> Cleared(m, t, names))
            && (o == Done <==> forall t, f :: t in tops ==> !LockedLink(disk, t, names, f))
            && (o.Raised? ==> exists t, f :: t in tops && o.error == OSError(f) && LockedLink(disk, t, names, f))
  {
    var tops := TopPaths(menus, startMenu);
    var names := LinkNames(shortcuts);
    var strays := StrayLinks(shortcuts, addToLauncher, pf);
    var m0 := UnlinkAll(disk, strays);
    StraysKeepLocked(disk, strays);
    UnlinkAllKeepsWellFormed(disk, strays);
    forall t | t in tops ensures t != [] {
      var i :| 0 <= i < |tops| && tops[i] == t;
    }
    PruneMenusEffect(m0, tops, names);
    var (m, err) := PruneMenus(m0, tops, names);
    ShrunkTrans(disk, m0, m);
    forall q | q in strays && KindAt(disk, q) == Some(FileKind(false)) ensures KindAt(m, q) == None {
      UnlinkAllEffect(disk, strays, q);
      assert KindAt(m, q) == KindAt(m0, q) || KindAt(m, q) == None;
    }
    forall t, f ensures LockedLink(m0, t, names, f) <==> LockedLink(disk, t, names, f) {
      LockedSame(disk, m0, t, names, f);
    }
    forall f | IsFileAt(disk, f) && KindAt(m0, f) == None ensures LinkNamed(f, names) {
      if f in strays {
        StrayNamed(shortcuts, addToLauncher, pf, f);
      }
    }
    OnlyLinksTrans(disk, m0, m, names);
    forall q | IsDirAt(disk, q) && KindAt(m, q) == None ensures LinksOnly(disk, q, names) {
      forall f | q < f && IsFileAt(disk, f) ensures LinkNamed(f, names) {
        MissingBelow(m, q, f);
      }
    }
    if err.Some? {
      var t :| t in tops && LockedLink(m0, t, names, err.value);
      assert LockedLink(disk, t, names, err.value);
    }
  }

  /* ----- Running the phases again ----- */

  /** Unlinking paths none of which is an unlocked file changes nothing. */
  lemma {:induction false} UnlinkAllNoop(n: Node, ps: seq<Path>)
    requires forall p :: p in ps ==> KindAt(n, p) != Some(FileKind(false))
    ensures UnlinkAll(n, ps) == n
  {
    if ps != [] {
      var front := ps[..|ps| - 1];
      var p := ps[|ps| - 1];
      assert forall x :: x in front ==> x in ps;
      UnlinkAllNoop(n, front);
      assert p in ps;
      DeleteSucceeds(n, p, false);
      KindIsLookup(n, p, false);
    }
  }

  /** A path that is not a link-named file below `top` is not a target. */
  lemma NotTarget(n: Node, top: Path, names: seq<string>, x: Path)
    requires WellFormed(n)
    requires top < x && IsFileAt(n, x) ==> !LinkNamed(x, names)
    ensures x !in MenuTargets(n, top, names)
  {
    MenuTargetsAre(n, top, names, x);
  }

  /** A cleared menu holds no targets. */
  lemma ClearedNoTargets(n: Node, top: Path, names: seq<string>)
    requires WellFormed(n)
    requires forall f :: top < f && IsFileAt(n, f) ==> !LinkNamed(f, names)
    ensures MenuTargets(n, top, names) == []
  {
    var targets := MenuTargets(n, top, names);
    if targets != [] {
      NotTarget(n, top, names, targets[0]);
    }
  }

  /** In a cleared menu, no directory the walk lists can be removed. */
  lemma ClearedDirsStay(n: Node, top: Path, names: seq<string>, p: Path)
    requires WellFormed(n) && Cleared(n, top, names) && p in MenuPaths(n, top)
    ensures Delete(n, p, true).None?
  {
    MenuPathsHas(n, top, p);
    DeleteSucceeds(n, p, true);
    if Lookup(n, p) == Some(Dir([])) {
      assert IsDirAt(n, p);
      var f :| p < f && IsFileAt(n, f) && !LinkNamed(f, names);
      EmptyDirHasNothingBelow(n, p, f);
    }
  }

  /** Over a cleared menu, taking it down changes nothing and completes. */
  lemma PruneMenuNoop(n: Node, top: Path, names: seq<string>)
    requires WellFormed(n) && n.Dir? && top != [] && Cleared(n, top, names)
    ensures PruneMenu(n, top, names) == (n, None)
  {
    ClearedNoTargets(n, top, names);
    forall p | p in MenuPaths(n, top) ensures Delete(n, p, true).None? {
      ClearedDirsStay(n, top, names, p);
    }
    TryRemoveDirsNoop(n, MenuPaths(n, top));
  }

  lemma {:induction false} PruneMenusNoop(n: Node, tops: seq<Path>, names: seq<string>)
    requires WellFormed(n) && n.Dir?
    requires forall t :: t in tops ==> t != [] && Cleared(n, t, names)
    ensures PruneMenus(n, tops, names) == (n, None)
  {
    if tops != [] {
      var rest := tops[..|tops| - 1];
      var top := tops[|tops| - 1];
      assert forall t :: t in rest ==> t in tops;
      PruneMenusNoop(n, rest, names);
      assert top in tops;
      PruneMenuNoop(n, top, names);
    }
  }

  /**
   * Uninstalling is idempotent: after an uninstall that completes, a
   * second one with the same menus and shortcuts changes nothing and
   * completes.
   */
  lemma UninstallAgain(disk: Node, menus: seq<MenuSpec>, shortcuts: seq<ShortcutSpec>, startMenu: Path,
                       addToLauncher: bool, pf: Platform)
    requires WellFormed(disk) && disk.Dir?
    requires UninstallSpec(disk, menus, shortcuts, startMenu, addToLauncher, pf).1 == Done
    ensures var m := UninstallSpec(disk, menus, shortcuts, startMenu, addToLauncher, pf).0;
            UninstallSpec(m, menus, shortcuts, startMenu, addToLauncher, pf) == (m, Done)
  {
    var tops := TopPaths(menus, startMenu);
    var names := LinkNames(shortcuts);
    var strays := StrayLinks(shortcuts, addToLauncher, pf);
    var m := UninstallSpec(disk, menus, shortcuts, startMenu, addToLauncher, pf).0;
    UninstallEffect(disk, menus, shortcuts, startMenu, addToLauncher, pf);
    forall p | p in strays ensures KindAt(m, p) != Some(FileKind(false)) {
      assert KindAt(m, p) == KindAt(disk, p) || KindAt(m, p) == None;
    }
    UnlinkAllNoop(m, strays);
    forall t | t in tops ensures t != [] && Cleared(m, t, names) {
      var i :| 0 <= i < |tops| && tops[i] == t;
    }
    PruneMenusNoop(m, tops, names);
  }

  /** The tree an install leaves is the one building the menus leaves. */
  lemma InstallDisk(st: State, menus: seq<MenuSpec>, shortcuts: seq<ShortcutSpec>, startMenu: Path,
                    addToDesktop: bool, addToLauncher: bool, pf: Platform)
    ensures InstallSpec(st, menus, shortcuts, startMenu, false, addToDesktop, addToLauncher, pf).0.disk
            == CreateDirs(st.disk, Paths(MenuItems(menus, startMenu))).0
  {
    var (m, cm, o) := BuildMenus(st.disk, menus, startMenu);
    if o == Done {
      PlaceAllEffect(State(m, st.written), Jobs(shortcuts), Settings(false, addToDesktop, addToLauncher, cm), pf);
    }
  }

  /**
   * Installing again over what an install left creates nothing more,
   * builds the same category map and ends the same way.
   */
  lemma InstallAgain(st: State, menus: seq<MenuSpec>, shortcuts: seq<ShortcutSpec>, startMenu: Path,
                     addToDesktop: bool, addToLauncher: bool, pf: Platform)
    requires st.disk.Dir?
    ensures var (st', cm, o) := InstallSpec(st, menus, shortcuts, startMenu, false, addToDesktop, addToLauncher, pf);
            var (st'', cm', o') := InstallSpec(st', menus, shortcuts, startMenu, false, addToDesktop, addToLauncher, pf);
            st''.disk == st'.disk && cm' == cm && o' == o
  {
    var items := MenuItems(menus, startMenu);
    var ps := Paths(items);
    var (m, k) := CreateDirs(st.disk, ps);
    CreateDirsGrows(st.disk, ps);
    CreateDirsStops(st.disk, ps);
    CreateDirsExist(st.disk, ps);
    if k < |ps| {
      EnsureDirStep(st.disk, m, ps[k]);
    }
    CreateDirsStill(m, ps, k);
    InstallDisk(st, menus, shortcuts, startMenu, addToDesktop, addToLauncher, pf);
    var (st', cm, o) := InstallSpec(st, menus, shortcuts, startMenu, false, addToDesktop, addToLauncher, pf);
    assert BuildMenus(st'.disk, menus, startMenu) == BuildMenus(st.disk, menus, startMenu);
    if k == |items| {
      var cfg := Settings(false, addToDesktop, addToLauncher, cm);
      PlaceAllEffect(State(m, st.written), Jobs(shortcuts), cfg, pf);
      PlaceAllEffect(State(m, st'.written), Jobs(shortcuts), cfg, pf);
    }
  }

  /**
   * An uninstall that completes after an install removes every directory
   * the install created inside a top-level menu.
   */
  lemma InstallThenUninstall(st: State, menus: seq<MenuSpec>, shortcuts: seq<ShortcutSpec>, startMenu: Path,
                             addToDesktop: bool, addToLauncher: bool, pf: Platform)
    requires WellFormed(st.disk) && st.disk.Dir?
    requires var st' := InstallSpec(st, menus, shortcuts, startMenu, false, addToDesktop, addToLauncher, pf).0;
             UninstallSpec(st'.disk, menus, shortcuts, startMenu, addToLauncher, pf).1 == Done
    ensures var st' := InstallSpec(st, menus, shortcuts, startMenu, false, addToDesktop, addToLauncher, pf).0;
            var m := UninstallSpec(st'.disk, menus, shortcuts, startMenu, addToLauncher, pf).0;
            forall t, q :: t in TopPaths(menus, startMenu) && t <= q && Exists(st'.disk, q) && !Exists(st.disk, q)
                           ==> KindAt(m, q) == None
  {
    var ps := Paths(MenuItems(menus, startMenu));
    var names := LinkNames(shortcuts);
    var n := CreateDirs(st.disk, ps).0;
    InstallDisk(st, menus, shortcuts, startMenu, addToDesktop, addToLauncher, pf);
    CreateDirsGrows(st.disk, ps);
    CreateDirsKeepsWellFormed(st.disk, ps);
    assert KindAt(n, []) == KindAt(st.disk, []);
    UninstallEffect(n, menus, shortcuts, startMenu, addToLauncher, pf);
    var m := UninstallSpec(n, menus, shortcuts, startMenu, addToLauncher, pf).0;
    forall t, q | t in TopPaths(menus, startMenu) && t <= q && Exists(n, q) && !Exists(st.disk, q)
      ensures KindAt(m, q) == None
    {
      forall f | q < f ensures !IsFileAt(m, f) {
        MissingBelow(st.disk, q, f);
        assert KindAt(m, f) == KindAt(n, f) || KindAt(m, f) == None;
        GrownFiles(st.disk, n, f);
      }
      assert LinksOnly(m, q, names);
      assert KindAt(m, q) == KindAt(n, q) || KindAt(m, q) == None;
    }
  }
}
