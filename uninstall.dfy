/**
 * The plan `_uninstall_application_menus` follows for one top-level menu:
 * walk the menu directory top-down, remove the files named like one of the
 * shortcuts, and then try to remove every menu directory, the deepest
 * first, skipping those that cannot be removed.
 */
module Uninstall {
  import opened Wrappers
  import opened Sequences
  import opened FileSystem
  import opened Walking

  /* ----- Removing menu directories ----- */

  /**
   * Tries `os.rmdir` on each path in turn (when it exists); a removal that
   * fails leaves the tree as it was and the next path is tried.
   */
  function TryRemoveDirs(n: Node, ps: seq<Path>): Node
  {
    if ps == [] then n
    else
      var m := TryRemoveDirs(n, ps[..|ps| - 1]);
      match Delete(m, ps[|ps| - 1], true)
      case None => m
      case Some(m') => m'
  }

  /** A directory with no file anywhere below it. */
  ghost predicate Prunable(n: Node, d: Path)
  {
    IsDirAt(n, d) && forall f :: d < f ==> !IsFileAt(n, f)
  }

  /** `q` lies at or below one of the directories in `ds` that holds no file. */
  ghost predicate Gone(n: Node, ds: seq<Path>, q: Path)
  {
    exists d :: d in ds && d <= q && Prunable(n, d)
  }

  /** `q` lies between `lo` (included) and `hi` (excluded) on the way down. */
  predicate Between(lo: Path, q: Path, hi: Path)
  {
    lo <= q < hi
  }

  /** Every path between `top` and a listed path is listed later. */
  ghost predicate BottomUp(ps: seq<Path>, top: Path)
  {
    forall i, q :: 0 <= i < |ps| && Between(top, q, ps[i]) ==> q in ps[i + 1..]
  }

  /** `ps` is `top` and the directories strictly below it. */
  ghost predicate Covers(ps: seq<Path>, top: Path, n: Node)
  {
    forall x :: x in ps <==> x == top || (top < x && IsDirAt(n, x))
  }

  /** The conditions the removal order meets. */
  ghost predicate RemovalOrder(ps: seq<Path>, top: Path, n: Node)
  {
    top != [] && Distinct(ps) && Covers(ps, top, n) && BottomUp(ps, top)
  }

  lemma GoneAppend(n: Node, ds: seq<Path>, d: Path, q: Path)
    ensures Gone(n, ds + [d], q) <==> Gone(n, ds, q) || (d <= q && Prunable(n, d))
  {
    if Gone(n, ds, q) {
      var d' :| d' in ds && d' <= q && Prunable(n, d');
      assert d' in ds + [d];
    }
    if d <= q && Prunable(n, d) {
      assert d in ds + [d];
    }
  }

  /** Nothing lies below an empty directory. */
  lemma EmptyDirHasNothingBelow(n: Node, d: Path, f: Path)
    requires Lookup(n, d) == Some(Dir([])) && d < f
    ensures Lookup(n, f) == None
  {
    assert f == d + f[|d|..];
    LookupAppend(n, d, f[|d|..]);
  }

  /** A directory is not under one that the order visited before it. */
  lemma NotGoneYet(n: Node, top: Path, ps: seq<Path>, k: nat)
    requires RemovalOrder(ps, top, n) && k < |ps|
    ensures !Gone(n, ps[..k], ps[k])
  {
    if Gone(n, ps[..k], ps[k]) {
      var d :| d in ps[..k] && d <= ps[k] && Prunable(n, d);
      var i :| 0 <= i < k && ps[i] == d;
      if d != ps[k] {
        assert Between(top, d, ps[k]);
      }
    }
  }

  /** A sub-directory with no file below it comes earlier in the order, so it is gone already. */
  lemma ChildGoneBefore(n: Node, top: Path, ps: seq<Path>, k: nat, c: Path)
    requires RemovalOrder(ps, top, n) && k < |ps|
    requires Prunable(n, ps[k]) && ps[k] < c && IsDirAt(n, c)
    ensures Gone(n, ps[..k], c)
  {
    assert top <= ps[k];
    assert c in ps;
    var j :| 0 <= j < |ps| && ps[j] == c;
    assert Between(top, ps[k], ps[j]);
    var m :| j < m < |ps| && ps[m] == ps[k];
    assert m == k;
    assert c in ps[..k];
    assert Prunable(n, c) by {
      forall f | c < f ensures !IsFileAt(n, f) {
        assert ps[k] < f;
      }
    }
  }

  /** The state after the first `k` removals, as seen through `KindAt`. */
  ghost predicate PrunedUpTo(n: Node, ps: seq<Path>, k: nat, m: Node)
    requires k <= |ps|
  {
    forall q :: KindAt(m, q) == if Gone(n, ps[..k], q) then None else KindAt(n, q)
  }

  /** A directory with no file below it is empty when its turn comes. */
  lemma PruneRemoves(n: Node, top: Path, ps: seq<Path>, k: nat, m: Node)
    requires RemovalOrder(ps, top, n) && k < |ps| && PrunedUpTo(n, ps, k, m)
    requires Prunable(n, ps[k])
    ensures Lookup(m, ps[k]) == Some(Dir([]))
  {
    var d := ps[k];
    NotGoneYet(n, top, ps, k);
    assert KindAt(m, d) == KindAt(n, d);
    var es := Lookup(m, d).value.entries;
    if es != [] {
      var c := d + [es[0].name];
      FirstChildExists(m, d);
      NoChildLeft(n, top, ps, k, m, c);
    }
  }

  /** A directory that holds an entry has something at the path of its first entry. */
  lemma FirstChildExists(m: Node, d: Path)
    requires Lookup(m, d).Some? && Lookup(m, d).value.Dir? && Lookup(m, d).value.entries != []
    ensures KindAt(m, d + [Lookup(m, d).value.entries[0].name]).Some?
  {
    var es := Lookup(m, d).value.entries;
    var x := es[0].name;
    LookupAppend(m, d, [x]);
    assert Lookup(Dir(es), [x]) == Lookup(es[0].node, []);
  }

  /** Below a directory with no file, nothing is left once its turn comes. */
  lemma NoChildLeft(n: Node, top: Path, ps: seq<Path>, k: nat, m: Node, c: Path)
    requires RemovalOrder(ps, top, n) && k < |ps| && PrunedUpTo(n, ps, k, m)
    requires Prunable(n, ps[k]) && ps[k] < c
    ensures KindAt(m, c) == None
  {
    if !Gone(n, ps[..k], c) && KindAt(n, c).Some? {
      assert !IsFileAt(n, c);
      ChildGoneBefore(n, top, ps, k, c);
    }
  }

  /** Files are never under a directory that holds no file. */
  lemma FileNotGone(n: Node, ds: seq<Path>, f: Path)
    requires IsFileAt(n, f)
    ensures !Gone(n, ds, f)
  {
    forall d | d in ds && d <= f ensures !Prunable(n, d) {
      if d != f {
        assert d < f;
      }
    }
  }

  /** A directory with a file below it is not empty when its turn comes. */
  lemma PruneKeeps(n: Node, top: Path, ps: seq<Path>, k: nat, m: Node)
    requires RemovalOrder(ps, top, n) && k < |ps| && PrunedUpTo(n, ps, k, m)
    requires !Prunable(n, ps[k])
    ensures Lookup(m, ps[k]) != Some(Dir([]))
  {
    var d := ps[k];
    if Lookup(m, d) == Some(Dir([])) {
      assert KindAt(m, d) == Some(DirKind);
      assert IsDirAt(n, d);
      var f :| d < f && IsFileAt(n, f);
      FileNotGone(n, ps[..k], f);
      assert KindAt(m, f) == KindAt(n, f);
      EmptyDirHasNothingBelow(m, d, f);
    }
  }

  lemma {:induction false} PruneSteps(n: Node, top: Path, ps: seq<Path>, k: nat)
    requires RemovalOrder(ps, top, n) && k <= |ps|
    ensures PrunedUpTo(n, ps, k, TryRemoveDirs(n, ps[..k]))
  {
    if k == 0 {
      PruneNone(n, ps);
    } else {
      var j := k - 1;
      PruneSteps(n, top, ps, j);
      var m := TryRemoveDirs(n, ps[..j]);
      TryRemoveDirsStep(n, ps, j);
      if Prunable(n, ps[j]) {
        PruneStepRemoves(n, top, ps, j, m);
      } else {
        PruneStepKeeps(n, top, ps, j, m);
      }
    }
  }

  lemma PruneNone(n: Node, ps: seq<Path>)
    ensures PrunedUpTo(n, ps, 0, TryRemoveDirs(n, ps[..0]))
  {
    assert ps[..0] == [];
  }

  lemma TryRemoveDirsStep(n: Node, ps: seq<Path>, k: nat)
    requires k < |ps|
    ensures TryRemoveDirs(n, ps[..k + 1])
            == match Delete(TryRemoveDirs(n, ps[..k]), ps[k], true)
               case None => TryRemoveDirs(n, ps[..k])
               case Some(m') => m'
  {
    assert ps[..k + 1][..k] == ps[..k];
  }

  /** Trying directories none of which can be removed changes nothing. */
  lemma {:induction false} TryRemoveDirsNoop(n: Node, ps: seq<Path>)
    requires forall p :: p in ps ==> Delete(n, p, true).None?
    ensures TryRemoveDirs(n, ps) == n
  {
    if ps != [] {
      var front := ps[..|ps| - 1];
      assert forall p :: p in front ==> p in ps;
      TryRemoveDirsNoop(n, front);
      assert ps[|ps| - 1] in ps;
    }
  }

  /** The `k`-th directory, holding no file, is removed with what lies below it. */
  lemma PruneStepRemoves(n: Node, top: Path, ps: seq<Path>, k: nat, m: Node)
    requires RemovalOrder(ps, top, n) && k < |ps| && PrunedUpTo(n, ps, k, m)
    requires Prunable(n, ps[k])
    ensures Delete(m, ps[k], true).Some? && PrunedUpTo(n, ps, k + 1, Delete(m, ps[k], true).value)
  {
    var d := ps[k];
    assert ps[..k + 1] == ps[..k] + [d];
    PruneRemoves(n, top, ps, k, m);
    DeleteSucceeds(m, d, true);
    var m' := Delete(m, d, true).value;
    forall q ensures KindAt(m', q) == if Gone(n, ps[..k + 1], q) then None else KindAt(n, q) {
      DeleteKinds(m, d, true, q);
      GoneAppend(n, ps[..k], d, q);
    }
  }

  /** The `k`-th directory, holding a file, stays. */
  lemma PruneStepKeeps(n: Node, top: Path, ps: seq<Path>, k: nat, m: Node)
    requires RemovalOrder(ps, top, n) && k < |ps| && PrunedUpTo(n, ps, k, m)
    requires !Prunable(n, ps[k])
    ensures Delete(m, ps[k], true).None? && PrunedUpTo(n, ps, k + 1, m)
  {
    var d := ps[k];
    assert ps[..k + 1] == ps[..k] + [d];
    PruneKeeps(n, top, ps, k, m);
    DeleteSucceeds(m, d, true);
    forall q ensures Gone(n, ps[..k + 1], q) == Gone(n, ps[..k], q) {
      GoneAppend(n, ps[..k], d, q);
    }
  }

  /**
   * Trying the directories in removal order removes exactly the directories
   * at or below `top` that hold no file at any depth, with everything below
   * them; the rest of the tree is left as it was.
   */
  lemma PruneEffect(n: Node, top: Path, ps: seq<Path>)
    requires RemovalOrder(ps, top, n)
    ensures forall q :: KindAt(TryRemoveDirs(n, ps), q)
                        == if exists d :: top <= d <= q && Prunable(n, d) then None else KindAt(n, q)
  {
    PruneSteps(n, top, ps, |ps|);
    assert ps[..|ps|] == ps;
    forall q ensures Gone(n, ps, q) <==> exists d :: top <= d <= q && Prunable(n, d) {
      if exists d :: top <= d <= q && Prunable(n, d) {
        var d :| top <= d <= q && Prunable(n, d);
        assert d in ps;
      }
    }
  }

  /* ----- The removal order `menu_paths` ----- */

  /**
   * `menu_paths`: `top`, then each directory `os.walk` lists put in front,
   * so it ends up as the walk's directories backwards, then `top`.
   */
  function MenuPaths(disk: Node, top: Path): seq<Path>
  {
    Reverse([top] + Listed(Walk(disk, top), true))
  }

  /** `menu_paths` ends with `top`. */
  lemma MenuPathsEndsAtTop(disk: Node, top: Path)
    ensures |MenuPaths(disk, top)| > 0 && MenuPaths(disk, top)[|MenuPaths(disk, top)| - 1] == top
  {
  }

  /** `menu_paths` holds `top` and exactly the directories below it. */
  lemma MenuPathsCovers(disk: Node, top: Path)
    requires WellFormed(disk)
    ensures Covers(MenuPaths(disk, top), top, disk)
  {
    forall x ensures x in MenuPaths(disk, top) <==> x == top || (top < x && IsDirAt(disk, x)) {
      MenuPathsHas(disk, top, x);
    }
  }

  lemma MenuPathsHas(disk: Node, top: Path, x: Path)
    requires WellFormed(disk)
    ensures x in MenuPaths(disk, top) <==> x == top || (top < x && IsDirAt(disk, x))
  {
    var l := Listed(Walk(disk, top), true);
    ReverseHas([top] + l, x);
    assert x in [top] + l <==> x == top || x in l;
    WalkLists(disk, top, true, x);
    assert IsDirAt(disk, x) <==> Lookup(disk, x).Some? && Lookup(disk, x).value.Dir?;
  }

  /** Each directory in `menu_paths` comes before every directory between it and `top`. */
  lemma MenuPathsBottomUp(disk: Node, top: Path)
    ensures BottomUp(MenuPaths(disk, top), top)
  {
    var mp := MenuPaths(disk, top);
    forall i, q | 0 <= i < |mp| && Between(top, q, mp[i]) ensures q in mp[i + 1..] {
      BottomUpAt(disk, top, i, q);
    }
  }

  lemma BottomUpAt(disk: Node, top: Path, i: nat, q: Path)
    requires i < |MenuPaths(disk, top)| && Between(top, q, MenuPaths(disk, top)[i])
    ensures q in MenuPaths(disk, top)[i + 1..]
  {
    var l := Listed(Walk(disk, top), true);
    var a := [top] + l;
    var mp := MenuPaths(disk, top);
    var j := |l| - i;
    assert mp[i] == a[j];
    var m: int;
    if q == top {
      m := 0;
    } else {
      assert j > 0 && a[j] == l[j - 1];
      WalkTopDown(disk, top, j - 1, q);
      var h :| 0 <= h < j - 1 && l[h] == q;
      m := h + 1;
    }
    assert a[m] == q && m < j;
    assert mp[|l| - m] == q;
    assert mp[i + 1..][|l| - m - i - 1] == q;
  }

  /** In a well-formed tree, `menu_paths` names no directory twice. */
  lemma MenuPathsDistinct(disk: Node, top: Path)
    requires WellFormed(disk)
    ensures Distinct(MenuPaths(disk, top))
  {
    var l := Listed(Walk(disk, top), true);
    WalkDistinct(disk, top, true);
    forall x | x in [top] ensures x !in l {
      WalkLists(disk, top, true, x);
    }
    DistinctConcat([top], l);
    ReverseDistinct([top] + l);
  }

  /* ----- Removing the shortcut files ----- */

  /** The files among `files` whose name (last component) is one of `names`, in order. */
  function Targets(files: seq<Path>, names: seq<string>): seq<Path>
  {
    if files == [] then []
    else
      var f := files[|files| - 1];
      Targets(files[..|files| - 1], names) + (if f != [] && f[|f| - 1] in names then [f] else [])
  }

  /** A path is a target exactly when it is one of the files and its name is one of `names`. */
  lemma {:induction false} TargetsAre(files: seq<Path>, names: seq<string>, x: Path)
    ensures x in Targets(files, names) <==> x in files && x != [] && x[|x| - 1] in names
  {
    if files != [] {
      var f := files[|files| - 1];
      var rest := files[..|files| - 1];
      assert files == rest + [f];
      TargetsAre(rest, names, x);
    }
  }

  lemma {:induction false} TargetsDistinct(files: seq<Path>, names: seq<string>)
    requires Distinct(files)
    ensures Distinct(Targets(files, names))
  {
    if files != [] {
      var f := files[|files| - 1];
      var rest := files[..|files| - 1];
      assert files == rest + [f];
      TargetsDistinct(rest, names);
      forall x | x in Targets(rest, names) ensures x in rest {
        TargetsAre(rest, names, x);
      }
      DistinctConcat(Targets(rest, names), if f != [] && f[|f| - 1] in names then [f] else []);
    }
  }

  /** A file the system refuses to remove. */
  predicate Locked(n: Node, p: Path)
  {
    KindAt(n, p) == Some(FileKind(true))
  }

  /**
   * `os.remove` on each path in turn. The first removal that fails raises,
   * which stops the rest: the result is the tree at that point and the
   * path that could not be removed.
   */
  function RemoveFiles(n: Node, ps: seq<Path>): (Node, Option<Path>)
  {
    if ps == [] then (n, None)
    else
      var (m, err) := RemoveFiles(n, ps[..|ps| - 1]);
      var p := ps[|ps| - 1];
      if err.Some? then (m, err)
      else match Delete(m, p, false)
        case None => (m, Some(p))
        case Some(m') => (m', None)
  }

  /** The position of the first locked path, or `|ps|` when none is. */
  function FirstLocked(n: Node, ps: seq<Path>): (k: nat)
    ensures k <= |ps|
    ensures forall i :: 0 <= i < k ==> !Locked(n, ps[i])
    ensures k < |ps| ==> Locked(n, ps[k])
  {
    if ps == [] then 0
    else
      var k := FirstLocked(n, ps[..|ps| - 1]);
      if k < |ps| - 1 then k else if Locked(n, ps[|ps| - 1]) then |ps| - 1 else |ps|
  }

  /** Nothing lies below a file. */
  lemma NothingBelowFile(n: Node, p: Path, q: Path)
    requires IsFileAt(n, p) && p < q
    ensures KindAt(n, q) == None
  {
    if Exists(n, q) {
      AncestorIsDir(n, p, q);
    }
  }

  /** `m` is `n` without the paths in `gone`. */
  ghost predicate RemovedOnly(n: Node, m: Node, gone: seq<Path>)
  {
    forall q :: KindAt(m, q) == if q in gone then None else KindAt(n, q)
  }

  lemma RemoveOneSucceeds(n: Node, m: Node, p: Path)
    requires n.Dir? && IsFileAt(n, p) && KindAt(m, p) == KindAt(n, p)
    ensures Delete(m, p, false).Some? <==> !Locked(n, p)
  {
    assert p != [];
    var c := Lookup(m, p).value;
    assert c == File(KindAt(n, p).value.locked);
    DeleteSucceeds(m, p, false);
  }

  lemma RemoveOneKind(n: Node, m: Node, gone: seq<Path>, p: Path, q: Path)
    requires IsFileAt(n, p) && Delete(m, p, false).Some?
    requires KindAt(m, q) == if q in gone then None else KindAt(n, q)
    ensures KindAt(Delete(m, p, false).value, q) == if q in gone + [p] then None else KindAt(n, q)
  {
    DeleteKinds(m, p, false, q);
    assert q in gone + [p] <==> q in gone || q == p;
    if p <= q && q != p && q !in gone {
      NothingBelowFile(n, p, q);
    }
  }

  lemma RemoveOneMore(n: Node, m: Node, gone: seq<Path>, p: Path)
    requires n.Dir? && IsFileAt(n, p) && p !in gone && RemovedOnly(n, m, gone)
    ensures Delete(m, p, false).Some? <==> !Locked(n, p)
    ensures Delete(m, p, false).Some? ==> RemovedOnly(n, Delete(m, p, false).value, gone + [p])
  {
    assert KindAt(m, p) == KindAt(n, p);
    RemoveOneSucceeds(n, m, p);
    if Delete(m, p, false).Some? {
      forall q ensures KindAt(Delete(m, p, false).value, q) == if q in gone + [p] then None else KindAt(n, q) {
        RemoveOneKind(n, m, gone, p, q);
      }
    }
  }

  /**
   * Removing distinct files in turn removes them up to the first locked one,
   * which is the one reported; nothing else changes.
   */
  lemma {:induction false} RemoveFilesEffect(n: Node, ps: seq<Path>)
    requires n.Dir? && Distinct(ps) && forall p :: p in ps ==> IsFileAt(n, p)
    ensures RemoveFiles(n, ps).1
            == if FirstLocked(n, ps) == |ps| then None else Some(ps[FirstLocked(n, ps)])
    ensures RemovedOnly(n, RemoveFiles(n, ps).0, ps[..FirstLocked(n, ps)])
  {
    if ps == [] {
      assert ps[..0] == [];
    } else {
      var rest := ps[..|ps| - 1];
      var p := ps[|ps| - 1];
      assert ps == rest + [p];
      RemoveFilesEffect(n, rest);
      var (m, err) := RemoveFiles(n, rest);
      var k := FirstLocked(n, rest);
      if k < |rest| {
        assert ps[..k] == rest[..k];
      } else {
        assert rest[..k] == rest;
        RemoveOneMore(n, m, rest, p);
        if Locked(n, p) {
          assert ps[..|rest|] == rest;
        } else {
          assert ps[..|ps|] == ps;
        }
      }
    }
  }

  lemma {:induction false} RemoveFilesKeepsWellFormed(n: Node, ps: seq<Path>)
    requires WellFormed(n)
    ensures WellFormed(RemoveFiles(n, ps).0)
  {
    if ps != [] {
      var rest := ps[..|ps| - 1];
      RemoveFilesKeepsWellFormed(n, rest);
      var (m, err) := RemoveFiles(n, rest);
      if err.None? && Delete(m, ps[|ps| - 1], false).Some? {
        DeleteKeepsWellFormed(m, ps[|ps| - 1], false);
      }
    }
  }

  lemma {:induction false} TryRemoveDirsKeepsWellFormed(n: Node, ps: seq<Path>)
    requires WellFormed(n)
    ensures WellFormed(TryRemoveDirs(n, ps))
  {
    if ps != [] {
      var m := TryRemoveDirs(n, ps[..|ps| - 1]);
      TryRemoveDirsKeepsWellFormed(n, ps[..|ps| - 1]);
      if Delete(m, ps[|ps| - 1], true).Some? {
        DeleteKeepsWellFormed(m, ps[|ps| - 1], true);
      }
    }
  }

  /* ----- One top-level menu ----- */

  /** The files below `top` that the walk finds and whose name is one of `names`. */
  function MenuTargets(disk: Node, top: Path, names: seq<string>): seq<Path>
  {
    Targets(Listed(Walk(disk, top), false), names)
  }

  /**
   * One top-level menu: remove the matching files, then try every directory
   * of `menu_paths`. Gives the new tree and, when `os.remove` raised, the
   * file that could not be removed; no directory is tried then.
   */
  function PruneMenu(disk: Node, top: Path, names: seq<string>): (Node, Option<Path>)
  {
    var (m, err) := RemoveFiles(disk, MenuTargets(disk, top, names));
    if err.Some? then (m, err) else (TryRemoveDirs(m, MenuPaths(disk, top)), None)
  }

  /** Only the files below `top` named like a shortcut are removed: these and no others are targets. */
  lemma MenuTargetsAre(disk: Node, top: Path, names: seq<string>, x: Path)
    requires WellFormed(disk)
    ensures x in MenuTargets(disk, top, names) <==> top < x && IsFileAt(disk, x) && x[|x| - 1] in names
  {
    WalkLists(disk, top, false, x);
    TargetsAre(Listed(Walk(disk, top), false), names, x);
    assert IsFileAt(disk, x) <==> Lookup(disk, x).Some? && !Lookup(disk, x).value.Dir?;
  }

  lemma MenuTargetsDistinct(disk: Node, top: Path, names: seq<string>)
    requires WellFormed(disk)
    ensures Distinct(MenuTargets(disk, top, names))
  {
    WalkDistinct(disk, top, false);
    TargetsDistinct(Listed(Walk(disk, top), false), names);
  }

  /** A directory every file below which is one of `gone`. */
  ghost predicate Emptied(disk: Node, d: Path, gone: seq<Path>)
  {
    IsDirAt(disk, d) && forall f :: d < f && IsFileAt(disk, f) ==> f in gone
  }

  lemma PrunableAfterRemoval(disk: Node, m: Node, gone: seq<Path>, d: Path)
    requires RemovedOnly(disk, m, gone) && forall f :: f in gone ==> IsFileAt(disk, f)
    ensures Prunable(m, d) <==> Emptied(disk, d, gone)
  {
    assert IsDirAt(m, d) <==> IsDirAt(disk, d);
    forall f ensures IsFileAt(m, f) <==> IsFileAt(disk, f) && f !in gone {
      assert KindAt(m, f) == if f in gone then None else KindAt(disk, f);
    }
  }

  lemma SameOrder(disk: Node, m: Node, gone: seq<Path>, top: Path, ps: seq<Path>)
    requires RemovedOnly(disk, m, gone) && forall f :: f in gone ==> IsFileAt(disk, f)
    requires top != [] && Distinct(ps) && Covers(ps, top, disk) && BottomUp(ps, top)
    ensures RemovalOrder(ps, top, m)
  {
    forall x ensures IsDirAt(m, x) <==> IsDirAt(disk, x) {
      assert KindAt(m, x) == if x in gone then None else KindAt(disk, x);
    }
  }

  /**
   * When no target is locked, one top-level menu loses exactly its target
   * files and the directories at or below `top` all of whose files were
   * targets (with everything below them); nothing else changes. Otherwise
   * the first locked target is reported, the targets before it are gone and
   * nothing else changed.
   */
  lemma PruneMenuEffect(disk: Node, top: Path, names: seq<string>)
    requires WellFormed(disk) && disk.Dir? && top != []
    ensures var targets := MenuTargets(disk, top, names);
            var k := FirstLocked(disk, targets);
            && (PruneMenu(disk, top, names).1.None? <==> forall t :: t in targets ==> !Locked(disk, t))
            && (PruneMenu(disk, top, names).1.Some? ==>
                  k < |targets| && PruneMenu(disk, top, names).1 == Some(targets[k])
                  && RemovedOnly(disk, PruneMenu(disk, top, names).0, targets[..k]))
            && (PruneMenu(disk, top, names).1.None? ==>
                  forall q :: KindAt(PruneMenu(disk, top, names).0, q)
                              == if q in targets || exists d :: top <= d <= q && Emptied(disk, d, targets)
                                 then None else KindAt(disk, q))
  {
    var targets := MenuTargets(disk, top, names);
    var k := FirstLocked(disk, targets);
    MenuTargetsDistinct(disk, top, names);
    forall t | t in targets ensures IsFileAt(disk, t) {
      MenuTargetsAre(disk, top, names, t);
    }
    RemoveFilesEffect(disk, targets);
    var (m, err) := RemoveFiles(disk, targets);
    if k == |targets| {
      assert targets[..k] == targets;
      var ps := MenuPaths(disk, top);
      MenuPathsDistinct(disk, top);
      MenuPathsCovers(disk, top);
      MenuPathsBottomUp(disk, top);
      SameOrder(disk, m, targets, top, ps);
      PruneEffect(m, top, ps);
      forall q ensures KindAt(TryRemoveDirs(m, ps), q)
                       == if q in targets || exists d :: top <= d <= q && Emptied(disk, d, targets)
                          then None else KindAt(disk, q) {
        forall d ensures Prunable(m, d) <==> Emptied(disk, d, targets) {
          PrunableAfterRemoval(disk, m, targets, d);
        }
      }
    } else {
      assert targets[k] in targets;
    }
  }

  lemma PruneMenuKeepsWellFormed(disk: Node, top: Path, names: seq<string>)
    requires WellFormed(disk)
    ensures WellFormed(PruneMenu(disk, top, names).0)
  {
    var targets := MenuTargets(disk, top, names);
    RemoveFilesKeepsWellFormed(disk, targets);
    TryRemoveDirsKeepsWellFormed(RemoveFiles(disk, targets).0, MenuPaths(disk, top));
  }

  /* ----- Stray desktop and quick-launch links ----- */

  /** `os.unlink` whose failure is ignored. */
  function TryUnlink(n: Node, p: Path): Node
  {
    match Delete(n, p, false)
    case None => n
    case Some(m) => m
  }

  /** An unlink that may fail removes the path when it is an unlocked file and changes nothing otherwise. */
  lemma TryUnlinkEffect(n: Node, p: Path, q: Path)
    ensures KindAt(TryUnlink(n, p), q)
            == if p != [] && Lookup(n, p) == Some(File(false)) && p <= q then None else KindAt(n, q)
  {
    DeleteSucceeds(n, p, false);
    if Delete(n, p, false).Some? {
      DeleteKinds(n, p, false, q);
    }
  }

  lemma TryUnlinkKeepsWellFormed(n: Node, p: Path)
    requires WellFormed(n)
    ensures WellFormed(TryUnlink(n, p))
  {
    if Delete(n, p, false).Some? {
      DeleteKeepsWellFormed(n, p, false);
    }
  }
}
