/**
 * The menus `_install_application_menus` builds: a forest of menu specs is
 * visited breadth first through a first-in first-out queue; each menu is a
 * directory `join(parent_path, name)` and gets a qualified category, which
 * is recorded in the category map.
 */
module Menus {
  import opened Wrappers
  import opened FileSystem

  /** A menu spec: `id`, `name`, the optional `category` and the `sub-menus`. */
  datatype MenuSpec = MenuSpec(id: string, name: string, category: Option<string>, subMenus: seq<MenuSpec>)

  /** A queue entry `(menu_spec, parent_path, parent_category)`. */
  datatype Item = Item(spec: MenuSpec, parentPath: Path, parentCategory: string)

  /** The menu's own category: `category` when given, else `id`. */
  function OwnCategory(spec: MenuSpec): string
  {
    if spec.category.Some? then spec.category.value else spec.id
  }

  /**
   * The qualified category: the parent's, a dot and the menu's own, but only
   * when the parent's is longer than one character; otherwise the menu's own.
   */
  function QualifiedCategory(parentCategory: string, spec: MenuSpec): string
  {
    if |parentCategory| > 1 then parentCategory + "." + OwnCategory(spec) else OwnCategory(spec)
  }

  function PathOf(it: Item): Path
  {
    it.parentPath + [it.spec.name]
  }

  function CategoryOf(it: Item): string
  {
    QualifiedCategory(it.parentCategory, it.spec)
  }

  /**
   * A sub-menu's category is its parent's, a dot and its own exactly when
   * the parent's category is longer than one character; a one-character
   * parent category is dropped, not prefixed.
   */
  lemma ChildCategory(it: Item, i: nat)
    requires i < |it.spec.subMenus|
    ensures var p, own := CategoryOf(it), OwnCategory(it.spec.subMenus[i]);
            var c := CategoryOf(ChildItems(it)[i]);
            && (|p| > 1 ==> |c| == |p| + 1 + |own| && c[..|p|] == p && c[|p|] == '.' && c[|p| + 1..] == own)
            && (|p| <= 1 ==> c == own)
  {
    var p, own := CategoryOf(it), OwnCategory(it.spec.subMenus[i]);
    if |p| > 1 {
      var c := p + "." + own;
      assert c[..|p|] == p && c[|p| + 1..] == own;
    }
  }

  /** A top-level menu's directory is directly under the start menu, and its category is its own. */
  lemma TopLevelEntry(menus: seq<MenuSpec>, startMenu: Path, i: nat)
    requires i < |menus|
    ensures var it := InitialQueue(menus, startMenu)[i];
            PathOf(it) == startMenu + [menus[i].name] && CategoryOf(it) == OwnCategory(menus[i])
  {
  }

  /** The queue entries for a menu's sub-menus: they inherit its path and category. */
  function ChildItems(it: Item): (r: seq<Item>)
    ensures |r| == |it.spec.subMenus|
    ensures forall i :: 0 <= i < |r| ==> r[i] == Item(it.spec.subMenus[i], PathOf(it), CategoryOf(it))
  {
    seq(|it.spec.subMenus|, i requires 0 <= i < |it.spec.subMenus| =>
      Item(it.spec.subMenus[i], PathOf(it), CategoryOf(it)))
  }

  /** The initial queue: every top-level menu under the start menu, with an empty parent category. */
  function InitialQueue(menus: seq<MenuSpec>, startMenu: Path): (r: seq<Item>)
    ensures |r| == |menus|
    ensures forall i :: 0 <= i < |r| ==> r[i] == Item(menus[i], startMenu, "")
  {
    seq(|menus|, i requires 0 <= i < |menus| => Item(menus[i], startMenu, ""))
  }

  /* ----- Sizes, for termination ----- */

  /** The number of menus in a forest. */
  function Count(specs: seq<MenuSpec>): nat
  {
    if specs == [] then 0 else 1 + Count(specs[0].subMenus) + Count(specs[1..])
  }

  /** The number of menus the queue entries still stand for. */
  function QueueSize(q: seq<Item>): nat
  {
    if q == [] then 0 else 1 + Count(q[0].spec.subMenus) + QueueSize(q[1..])
  }

  lemma {:induction false} QueueSizeAppend(a: seq<Item>, b: seq<Item>)
    ensures QueueSize(a + b) == QueueSize(a) + QueueSize(b)
  {
    if a == [] {
      assert a + b == b;
    } else {
      assert (a + b)[1..] == a[1..] + b;
      QueueSizeAppend(a[1..], b);
    }
  }

  lemma {:induction false} QueueSizeOfChildren(it: Item, k: nat)
    requires k <= |it.spec.subMenus|
    ensures QueueSize(ChildItems(it)[k..]) == Count(it.spec.subMenus[k..])
    decreases |it.spec.subMenus| - k
  {
    if k < |it.spec.subMenus| {
      QueueSizeOfChildren(it, k + 1);
      assert ChildItems(it)[k..][1..] == ChildItems(it)[k + 1..];
      assert it.spec.subMenus[k..][1..] == it.spec.subMenus[k + 1..];
    }
  }

  /** Taking a menu off the queue and adding its sub-menus leaves one menu fewer to visit. */
  lemma QueueStep(q: seq<Item>)
    requires q != []
    ensures QueueSize(q[1..] + ChildItems(q[0])) == QueueSize(q) - 1
  {
    QueueSizeAppend(q[1..], ChildItems(q[0]));
    QueueSizeOfChildren(q[0], 0);
    assert ChildItems(q[0])[0..] == ChildItems(q[0]);
    assert q[0].spec.subMenus[0..] == q[0].spec.subMenus;
  }

  /* ----- The two orders ----- */

  /** The entries in the order the `while` loop takes them off the queue. */
  function Visit(q: seq<Item>): seq<Item>
    decreases QueueSize(q)
  {
    if q == [] then []
    else
      QueueStep(q);
      [q[0]] + Visit(q[1..] + ChildItems(q[0]))
  }

  /** The same entries listed depth first: each menu, then its sub-menus, then the next menu. */
  function Tree(q: seq<Item>): seq<Item>
    decreases QueueSize(q)
  {
    if q == [] then []
    else
      QueueStep(q);
      QueueSizeAppend(q[1..], ChildItems(q[0]));
      [q[0]] + Tree(ChildItems(q[0])) + Tree(q[1..])
  }

  lemma {:induction false} TreeAppend(a: seq<Item>, b: seq<Item>)
    ensures multiset(Tree(a + b)) == multiset(Tree(a)) + multiset(Tree(b))
    decreases QueueSize(a)
  {
    if a == [] {
      assert a + b == b;
    } else {
      assert (a + b)[0] == a[0] && (a + b)[1..] == a[1..] + b;
      QueueStep(a);
      QueueSizeAppend(a[1..], ChildItems(a[0]));
      TreeAppend(a[1..], b);
    }
  }

  /**
   * The queue takes every menu of the forest off exactly once, each with the
   * path and category of its parent: breadth first visits the same entries
   * as depth first, only in another order.
   */
  lemma {:induction false} VisitIsTree(q: seq<Item>)
    ensures multiset(Visit(q)) == multiset(Tree(q))
    decreases QueueSize(q)
  {
    if q != [] {
      QueueStep(q);
      VisitIsTree(q[1..] + ChildItems(q[0]));
      TreeAppend(q[1..], ChildItems(q[0]));
    }
  }

  /* ----- The category map ----- */

  /** `category_map` after the entries have been recorded in turn: later entries overwrite earlier ones. */
  function CategoryMap(items: seq<Item>): map<string, Path>
  {
    if items == [] then map[]
    else CategoryMap(items[..|items| - 1])[CategoryOf(items[|items| - 1]) := PathOf(items[|items| - 1])]
  }

  /** The map holds exactly the categories of the entries. */
  lemma {:induction false} CategoryMapKeys(items: seq<Item>, c: string)
    ensures c in CategoryMap(items) <==> exists i :: 0 <= i < |items| && CategoryOf(items[i]) == c
  {
    if items != [] {
      var n := |items| - 1;
      var rest := items[..n];
      CategoryMapKeys(rest, c);
      if CategoryOf(items[n]) != c {
        if exists i :: 0 <= i < |items| && CategoryOf(items[i]) == c {
          var i :| 0 <= i < |items| && CategoryOf(items[i]) == c;
          assert rest[i] == items[i];
        }
        if exists i :: 0 <= i < n && CategoryOf(rest[i]) == c {
          var i :| 0 <= i < n && CategoryOf(rest[i]) == c;
          assert rest[i] == items[i];
        }
      }
    }
  }

  /** Each category maps to the path of the last entry with that category: later writes win. */
  lemma {:induction false} CategoryMapLast(items: seq<Item>, c: string) returns (i: nat)
    requires c in CategoryMap(items)
    ensures i < |items| && CategoryOf(items[i]) == c && CategoryMap(items)[c] == PathOf(items[i])
    ensures forall j :: i < j < |items| ==> CategoryOf(items[j]) != c
  {
    var n := |items| - 1;
    var rest := items[..n];
    if CategoryOf(items[n]) == c {
      i := n;
    } else {
      i := CategoryMapLast(rest, c);
      assert items[i] == rest[i];
      forall j | i < j < |items| ensures CategoryOf(items[j]) != c {
        if j < n {
          assert items[j] == rest[j];
        }
      }
    }
  }

  /* ----- Where the entries come from ----- */

  /**
   * Every entry is a top-level entry of the queue or the entry of a sub-menu
   * of another entry, with that entry's path and category as its parent's.
   */
  lemma {:induction false} TreeParents(q: seq<Item>, it: Item)
    requires it in Tree(q)
    ensures it in q || exists p :: p in Tree(q) && it in ChildItems(p)
    decreases QueueSize(q)
  {
    QueueStep(q);
    QueueSizeAppend(q[1..], ChildItems(q[0]));
    var kids := ChildItems(q[0]);
    var t := Tree(q);
    assert t == [q[0]] + Tree(kids) + Tree(q[1..]);
    if it in Tree(kids) {
      TreeParents(kids, it);
      if it !in kids {
        var p :| p in Tree(kids) && it in ChildItems(p);
        assert p in t;
      } else {
        assert q[0] in t;
      }
    } else if it in Tree(q[1..]) {
      TreeParents(q[1..], it);
      if it !in q[1..] {
        var p :| p in Tree(q[1..]) && it in ChildItems(p);
        assert p in t;
      }
    }
  }

  /** Every menu directory lies below the start menu. */
  lemma {:induction false} TreeBelow(q: seq<Item>, root: Path, it: Item)
    requires forall x :: x in q ==> root <= x.parentPath
    requires it in Tree(q)
    ensures root < PathOf(it)
    decreases QueueSize(q)
  {
    QueueStep(q);
    QueueSizeAppend(q[1..], ChildItems(q[0]));
    var kids := ChildItems(q[0]);
    assert Tree(q) == [q[0]] + Tree(kids) + Tree(q[1..]);
    assert q[0] in q;
    if it in Tree(kids) {
      forall x | x in kids ensures root <= x.parentPath {
        assert x.parentPath == PathOf(q[0]);
      }
      TreeBelow(kids, root, it);
    } else if it in Tree(q[1..]) {
      TreeBelow(q[1..], root, it);
    }
  }

  /* ----- The menu directories ----- */

  /** `if not exists(path): os.makedirs(path)`; None when `makedirs` raises. */
  function EnsureDir(n: Node, p: Path): Option<Node>
  {
    if Exists(n, p) then Some(n) else MakeDirs(n, p)
  }

  /**
   * The directories created in turn; at the first that cannot be created
   * the exception stops the rest. Gives the tree and how many paths were
   * handled: all of them, or the position of the one that failed.
   */
  function CreateDirs(n: Node, ps: seq<Path>): (r: (Node, nat))
    ensures r.1 <= |ps|
  {
    if ps == [] then (n, 0)
    else
      var (m, k) := CreateDirs(n, ps[..|ps| - 1]);
      if k < |ps| - 1 then (m, k)
      else match EnsureDir(m, ps[|ps| - 1])
        case None => (m, k)
        case Some(m') => (m', |ps|)
  }

  /** The directories of the entries, in order. */
  function Paths(items: seq<Item>): (r: seq<Path>)
    ensures |r| == |items|
    ensures forall i :: 0 <= i < |items| ==> r[i] == PathOf(items[i])
  {
    seq(|items|, i requires 0 <= i < |items| => PathOf(items[i]))
  }

  /** `m` is `n` with directories added and nothing that was there changed. */
  ghost predicate Grown(n: Node, m: Node)
  {
    && (forall q :: Exists(n, q) ==> KindAt(m, q) == KindAt(n, q))
    && (forall q :: Exists(m, q) && !Exists(n, q) ==> IsDirAt(m, q))
  }

  lemma GrownFiles(n: Node, m: Node, q: Path)
    requires Grown(n, m)
    ensures IsFileAt(m, q) <==> IsFileAt(n, q)
  {
  }

  /** No file lies on the way to `p`, so `os.makedirs(p)` can create what is missing. */
  ghost predicate Clear(n: Node, p: Path)
  {
    forall q :: q < p ==> !IsFileAt(n, q)
  }

  lemma EnsureDirStep(n: Node, m: Node, p: Path)
    requires n.Dir? && Grown(n, m)
    ensures EnsureDir(m, p).Some? <==> Clear(n, p)
    ensures EnsureDir(m, p).Some? ==>
              Grown(n, EnsureDir(m, p).value) && Exists(EnsureDir(m, p).value, p)
              && forall q :: Exists(m, q) ==> Exists(EnsureDir(m, p).value, q)
  {
    assert KindAt(m, []) == KindAt(n, []);
    assert m.Dir?;
    forall q ensures IsFileAt(m, q) <==> IsFileAt(n, q) {
      GrownFiles(n, m, q);
    }
    if Exists(m, p) {
      forall q | q < p ensures !IsFileAt(n, q) {
        AncestorIsDir(m, q, p);
      }
    } else {
      MakeDirsSucceeds(m, p);
      if MakeDirs(m, p).Some? {
        var m' := MakeDirs(m, p).value;
        forall q ensures KindAt(m', q) == if q <= p then Some(DirKind) else KindAt(m, q) {
          MakeDirsKinds(m, p, q);
        }
        assert KindAt(m', p) == Some(DirKind);
        forall q | Exists(n, q) ensures KindAt(m', q) == KindAt(n, q) {
          if q <= p {
            assert q != p;
            assert !IsFileAt(m, q);
          }
        }
        forall q | Exists(m, q) ensures Exists(m', q) {
          assert KindAt(m', q).Some?;
        }
      }
    }
  }

  /** Creating directories only adds directories: nothing that was there changes. */
  lemma {:induction false} CreateDirsGrows(n: Node, ps: seq<Path>)
    requires n.Dir?
    ensures Grown(n, CreateDirs(n, ps).0)
  {
    if ps != [] {
      var rest := ps[..|ps| - 1];
      CreateDirsGrows(n, rest);
      var (m, k) := CreateDirs(n, rest);
      if k == |rest| {
        EnsureDirStep(n, m, ps[|ps| - 1]);
      }
    }
  }

  /**
   * Creating the directories stops exactly at the first path with a file on
   * the way to it: every path before it is clear.
   */
  lemma {:induction false} CreateDirsStops(n: Node, ps: seq<Path>)
    requires n.Dir?
    ensures forall i :: 0 <= i < CreateDirs(n, ps).1 ==> Clear(n, ps[i])
    ensures CreateDirs(n, ps).1 < |ps| ==> !Clear(n, ps[CreateDirs(n, ps).1])
  {
    if ps != [] {
      var rest := ps[..|ps| - 1];
      var last := ps[|ps| - 1];
      assert ps == rest + [last];
      CreateDirsStops(n, rest);
      CreateDirsGrows(n, rest);
      var (m, k) := CreateDirs(n, rest);
      assert forall i :: 0 <= i < k ==> Clear(n, rest[i]);
      if k < |rest| {
        assert CreateDirs(n, ps) == (m, k);
        assert !Clear(n, rest[k]);
      } else {
        EnsureDirStep(n, m, last);
        if EnsureDir(m, last).Some? {
          assert CreateDirs(n, ps).1 == |ps|;
        } else {
          assert CreateDirs(n, ps) == (m, k);
        }
      }
    }
  }

  /** Every directory handled exists afterwards. */
  lemma {:induction false} CreateDirsExist(n: Node, ps: seq<Path>)
    requires n.Dir?
    ensures forall i :: 0 <= i < CreateDirs(n, ps).1 ==> Exists(CreateDirs(n, ps).0, ps[i])
  {
    if ps != [] {
      var rest := ps[..|ps| - 1];
      var last := ps[|ps| - 1];
      assert ps == rest + [last];
      CreateDirsExist(n, rest);
      CreateDirsGrows(n, rest);
      var (m, k) := CreateDirs(n, rest);
      assert forall i :: 0 <= i < k ==> Exists(m, rest[i]);
      if k == |rest| {
        EnsureDirStep(n, m, last);
        if EnsureDir(m, last).Some? {
          var m' := EnsureDir(m, last).value;
          assert CreateDirs(n, ps) == (m', |ps|);
          assert forall i :: 0 <= i < k ==> Exists(m', rest[i]);
        }
      }
    }
  }

  /**
   * Nothing but the paths handled and the directories above them is
   * created: a path that exists only afterwards lies on the way to one of
   * the paths handled.
   */
  lemma {:induction false} CreateDirsWithin(n: Node, ps: seq<Path>, q: Path)
    requires Exists(CreateDirs(n, ps).0, q) && !Exists(n, q)
    ensures exists i :: 0 <= i < CreateDirs(n, ps).1 && q <= ps[i]
  {
    if ps != [] {
      var rest := ps[..|ps| - 1];
      var last := ps[|ps| - 1];
      var (m, k) := CreateDirs(n, rest);
      if Exists(m, q) {
        CreateDirsWithin(n, rest, q);
        var i :| 0 <= i < k && q <= rest[i];
        assert ps[i] == rest[i];
      } else {
        assert k == |rest| && EnsureDir(m, last).Some? && !Exists(m, last);
        var m' := MakeDirs(m, last).value;
        MakeDirsKinds(m, last, q);
        assert q <= ps[|ps| - 1];
      }
    }
  }

  /**
   * Over a tree where the first `k` paths exist already and the next one
   * cannot be created, nothing changes and the creation stops at `k`.
   */
  lemma {:induction false} CreateDirsStill(m: Node, ps: seq<Path>, k: nat)
    requires k <= |ps|
    requires forall i :: 0 <= i < k ==> Exists(m, ps[i])
    requires k < |ps| ==> EnsureDir(m, ps[k]).None?
    ensures CreateDirs(m, ps) == (m, k)
  {
    if ps != [] {
      var front := ps[..|ps| - 1];
      if k == |ps| {
        CreateDirsStill(m, front, |front|);
        assert Exists(m, ps[|ps| - 1]);
      } else {
        CreateDirsStill(m, front, k);
      }
    }
  }

  /** Once a creation has failed, later paths are not tried. */
  lemma {:induction false} CreateDirsStopped(n: Node, ps: seq<Path>, qs: seq<Path>)
    requires CreateDirs(n, ps).1 < |ps|
    ensures CreateDirs(n, ps + qs) == CreateDirs(n, ps)
    decreases |qs|
  {
    if qs == [] {
      assert ps + qs == ps;
    } else {
      var front := qs[..|qs| - 1];
      CreateDirsStopped(n, ps, front);
      assert (ps + qs)[..|ps + qs| - 1] == ps + front;
    }
  }

  lemma {:induction false} CreateDirsKeepsWellFormed(n: Node, ps: seq<Path>)
    requires WellFormed(n)
    ensures WellFormed(CreateDirs(n, ps).0)
  {
    if ps != [] {
      var rest := ps[..|ps| - 1];
      CreateDirsKeepsWellFormed(n, rest);
      var (m, k) := CreateDirs(n, rest);
      var p := ps[|ps| - 1];
      if k == |rest| && !Exists(m, p) && MakeDirs(m, p).Some? {
        MakeDirsKeepsWellFormed(m, p);
      }
    }
  }
}
