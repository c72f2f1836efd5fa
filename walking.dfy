/**
 * `os.walk(top)` over the filesystem tree: a top-down traversal that yields,
 * for every directory, its path, the names of its sub-directories and the
 * names of its files, a directory before everything below it.
 */
module Walking {
  import opened Wrappers
  import opened Sequences
  import opened FileSystem

  /** One `(root, dirs, files)` triple yielded by `os.walk`. */
  datatype Step = Step(root: Path, dirs: seq<string>, files: seq<string>)

  /** The names of the sub-directories (`dirs`) or of the files (`!dirs`) of a directory, in order. */
  function EntryNames(es: seq<Entry>, dirs: bool): (r: seq<string>)
    ensures forall y :: y in r ==> y in Names(es)
  {
    if es == [] then []
    else (if es[0].node.Dir? == dirs then [es[0].name] else []) + EntryNames(es[1..], dirs)
  }

  /** `join(root, name)` for every name. */
  function Children(root: Path, names: seq<string>): (r: seq<Path>)
    ensures |r| == |names|
    ensures forall i :: 0 <= i < |names| ==> r[i] == root + [names[i]]
  {
    seq(|names|, i requires 0 <= i < |names| => root + [names[i]])
  }

  function StepOf(es: seq<Entry>, root: Path): Step
  {
    Step(root, EntryNames(es, true), EntryNames(es, false))
  }

  /** The steps for the directories below a directory with entries `es` at `root`. */
  function WalkBelow(es: seq<Entry>, root: Path): seq<Step>
  {
    if es == [] then []
    else
      (match es[0].node
       case File(_) => []
       case Dir(sub) => [StepOf(sub, root + [es[0].name])] + WalkBelow(sub, root + [es[0].name]))
      + WalkBelow(es[1..], root)
  }

  /** `os.walk(top)`: nothing when `top` is missing or is a file. */
  function Walk(disk: Node, top: Path): seq<Step>
  {
    match Lookup(disk, top)
    case Some(Dir(es)) => [StepOf(es, top)] + WalkBelow(es, top)
    case _ => []
  }

  /** Every `join(root, d)` for `d` in `dirs` (or every file path), in the order the steps list them. */
  function Listed(steps: seq<Step>, dirs: bool): seq<Path>
  {
    if steps == [] then []
    else
      var last := steps[|steps| - 1];
      Listed(steps[..|steps| - 1], dirs) + Children(last.root, if dirs then last.dirs else last.files)
  }

  lemma {:induction false} ListedAppend(a: seq<Step>, b: seq<Step>, dirs: bool)
    ensures Listed(a + b, dirs) == Listed(a, dirs) + Listed(b, dirs)
    decreases |b|
  {
    if b == [] {
      assert a + b == a;
    } else {
      var last := b[|b| - 1];
      var kids := Children(last.root, if dirs then last.dirs else last.files);
      assert (a + b)[..|a + b| - 1] == a + b[..|b| - 1];
      ListedAppend(a, b[..|b| - 1], dirs);
    }
  }

  /** What the walk lists below a directory. */
  function Below(es: seq<Entry>, root: Path, dirs: bool): seq<Path>
  {
    Listed(WalkBelow(es, root), dirs)
  }

  /** What the walk of a directory lists: its own entries, then everything below. */
  function Within(es: seq<Entry>, root: Path, dirs: bool): seq<Path>
  {
    Listed([StepOf(es, root)] + WalkBelow(es, root), dirs)
  }

  lemma ListedSingle(s: Step, dirs: bool)
    ensures Listed([s], dirs) == Children(s.root, if dirs then s.dirs else s.files)
  {
    assert [s][..0] == [];
  }

  lemma WithinSplit(es: seq<Entry>, root: Path, dirs: bool)
    ensures Within(es, root, dirs) == Children(root, EntryNames(es, dirs)) + Below(es, root, dirs)
  {
    var s := StepOf(es, root);
    ListedAppend([s], WalkBelow(es, root), dirs);
    ListedSingle(s, dirs);
  }

  lemma BelowSplit(es: seq<Entry>, root: Path, dirs: bool)
    requires es != []
    ensures Below(es, root, dirs)
            == (if es[0].node.Dir? then Within(es[0].node.entries, root + [es[0].name], dirs) else [])
               + Below(es[1..], root, dirs)
  {
    var head := match es[0].node
      case File(_) => []
      case Dir(sub) => [StepOf(sub, root + [es[0].name])] + WalkBelow(sub, root + [es[0].name]);
    ListedAppend(head, WalkBelow(es[1..], root), dirs);
  }

  lemma EntryNamesHas(es: seq<Entry>, e: Entry, dirs: bool)
    requires e in es && e.node.Dir? == dirs
    ensures e.name in EntryNames(es, dirs)
  {
    if es[0] != e {
      assert e in es[1..];
      EntryNamesHas(es[1..], e, dirs);
    }
  }

  /** Whatever the walk lists below `root` lies at least two levels down, under one of the sub-directories. */
  lemma {:induction false} BelowShape(es: seq<Entry>, root: Path, dirs: bool, x: Path)
    requires x in Below(es, root, dirs)
    ensures |x| >= |root| + 2 && x[..|root|] == root && x[|root|] in EntryNames(es, true)
    decreases es, 0
  {
    BelowSplit(es, root, dirs);
    var e := es[0];
    if e.node.Dir? && x in Within(e.node.entries, root + [e.name], dirs) {
      var r' := root + [e.name];
      WithinShape(e.node.entries, r', dirs, x);
      assert x[..|r'|][..|root|] == root;
    } else {
      BelowShape(es[1..], root, dirs, x);
    }
  }

  /** Whatever the walk of a directory lists lies below it. */
  lemma {:induction false} WithinShape(es: seq<Entry>, root: Path, dirs: bool, x: Path)
    requires x in Within(es, root, dirs)
    ensures |x| >= |root| + 1 && x[..|root|] == root
    decreases es, 1
  {
    WithinSplit(es, root, dirs);
    if x in Below(es, root, dirs) {
      BelowShape(es, root, dirs, x);
    }
  }

  lemma KidsOfTail(es: seq<Entry>, root: Path, q: Path)
    requires es != [] && q in Children(root, EntryNames(es[1..], true))
    ensures q in Children(root, EntryNames(es, true))
  {
    var names := EntryNames(es[1..], true);
    var k :| 0 <= k < |names| && q == Children(root, names)[k];
    var all := EntryNames(es, true);
    var pre := if es[0].node.Dir? then [es[0].name] else [];
    assert all == pre + names;
    assert all[|pre| + k] == names[k];
    assert q == Children(root, all)[|pre| + k];
  }

  lemma KidOfHead(es: seq<Entry>, root: Path)
    requires es != [] && es[0].node.Dir?
    ensures root + [es[0].name] in Children(root, EntryNames(es, true))
  {
    EntryNamesHas(es, es[0], true);
    var all := EntryNames(es, true);
    var k :| 0 <= k < |all| && all[k] == es[0].name;
    assert Children(root, all)[k] == root + [es[0].name];
  }

  /** Each directory that a walk lists below the top comes after every directory between it and the top. */
  lemma {:induction false} BelowOrder(es: seq<Entry>, root: Path, i: nat, q: Path)
    requires i < |Below(es, root, true)|
    requires root < q < Below(es, root, true)[i]
    ensures q in Children(root, EntryNames(es, true)) || q in Below(es, root, true)[..i]
    decreases es, 1
  {
    var all := Below(es, root, true);
    BelowSplit(es, root, true);
    var e := es[0];
    var head := if e.node.Dir? then Within(e.node.entries, root + [e.name], true) else [];
    var tail := Below(es[1..], root, true);
    assert all == head + tail;
    if i < |head| {
      BelowOrderHead(es, root, i, q);
    } else {
      assert all[i] == tail[i - |head|];
      BelowOrder(es[1..], root, i - |head|, q);
      if q in Children(root, EntryNames(es[1..], true)) {
        KidsOfTail(es, root, q);
      } else {
        assert tail[..i - |head|] == all[|head|..i];
      }
    }
  }

  lemma {:induction false} BelowOrderHead(es: seq<Entry>, root: Path, i: nat, q: Path)
    requires es != [] && es[0].node.Dir?
    requires i < |Within(es[0].node.entries, root + [es[0].name], true)|
    requires Below(es, root, true)
             == Within(es[0].node.entries, root + [es[0].name], true) + Below(es[1..], root, true)
    requires root < q < Below(es, root, true)[i]
    ensures q in Children(root, EntryNames(es, true)) || q in Below(es, root, true)[..i]
    decreases es, 0
  {
    var e := es[0];
    var r' := root + [e.name];
    var head := Within(e.node.entries, r', true);
    var x := head[i];
    assert x in head;
    WithinShape(e.node.entries, r', true, x);
    assert q[..|root| + 1] == x[..|root| + 1];
    if q == r' {
      KidOfHead(es, root);
    } else {
      assert r' < q;
      WithinOrder(e.node.entries, r', i, q);
      assert head[..i] == Below(es, root, true)[..i];
    }
  }

  /** In the walk of a directory, every listed directory comes after all directories between it and the top. */
  lemma {:induction false} WithinOrder(es: seq<Entry>, root: Path, i: nat, q: Path)
    requires i < |Within(es, root, true)|
    requires root < q < Within(es, root, true)[i]
    ensures q in Within(es, root, true)[..i]
    decreases es, 2
  {
    WithinSplit(es, root, true);
    var kids := Children(root, EntryNames(es, true));
    var all := Within(es, root, true);
    if i >= |kids| {
      BelowOrder(es, root, i - |kids|, q);
      if q in kids {
        var k :| 0 <= k < |kids| && kids[k] == q;
        assert all[k] == q;
      } else {
        var j :| 0 <= j < i - |kids| && Below(es, root, true)[j] == q;
        assert all[|kids| + j] == q;
      }
    }
  }

  /** A sub-directory's walk is part of what its parent's walk lists below it. */
  lemma {:induction false} BelowHasSub(es: seq<Entry>, root: Path, e: Entry, dirs: bool, x: Path)
    requires e in es && e.node.Dir? && x in Within(e.node.entries, root + [e.name], dirs)
    ensures x in Below(es, root, dirs)
    decreases es
  {
    BelowSplit(es, root, dirs);
    if es[0] != e {
      assert e in es[1..];
      BelowHasSub(es[1..], root, e, dirs, x);
    }
  }

  /** The walk of a directory lists each of its entries of the kind asked for. */
  lemma ChildListed(es: seq<Entry>, root: Path, e: Entry, dirs: bool)
    requires e in es && e.node.Dir? == dirs
    ensures root + [e.name] in Within(es, root, dirs)
  {
    WithinSplit(es, root, dirs);
    EntryNamesHas(es, e, dirs);
    var names := EntryNames(es, dirs);
    var k :| 0 <= k < |names| && names[k] == e.name;
    assert Children(root, names)[k] == root + [e.name];
  }

  lemma DeeperListed(es: seq<Entry>, root: Path, e: Entry, dirs: bool, rest: Path)
    requires e in es && e.node.Dir? && root + [e.name] + rest in Within(e.node.entries, root + [e.name], dirs)
    ensures root + ([e.name] + rest) in Within(es, root, dirs)
  {
    assert root + [e.name] + rest == root + ([e.name] + rest);
    BelowHasSub(es, root, e, dirs, root + [e.name] + rest);
    WithinSplit(es, root, dirs);
  }

  /** The walk of a directory lists every directory (`dirs`) or every file (`!dirs`) below it. */
  lemma {:induction false} WithinComplete(es: seq<Entry>, root: Path, p: Path, dirs: bool)
    requires p != [] && Lookup(Dir(es), p).Some? && Lookup(Dir(es), p).value.Dir? == dirs
    ensures root + p in Within(es, root, dirs)
    decreases |p|
  {
    var c := Find(es, p[0]).value;
    var e := Entry(p[0], c);
    var rest := p[1..];
    assert p == [p[0]] + rest;
    LookupCons(Dir(es), c, p[0], rest);
    if rest == [] {
      assert Lookup(c, rest) == Some(c) && p == [e.name];
      ChildListed(es, root, e, dirs);
    } else {
      WithinComplete(c.entries, root + [p[0]], rest, dirs);
      DeeperListed(es, root, e, dirs, rest);
    }
  }

  /** Some entry of `es` names each name that `EntryNames` gives. */
  lemma {:induction false} EntryNamesOrigin(es: seq<Entry>, dirs: bool, y: string) returns (e: Entry)
    requires y in EntryNames(es, dirs)
    ensures e in es && e.name == y && e.node.Dir? == dirs
  {
    if es[0].node.Dir? == dirs && es[0].name == y {
      e := es[0];
    } else {
      e := EntryNamesOrigin(es[1..], dirs, y);
    }
  }

  /** Whatever the walk lists below a directory comes from the walk of one of its sub-directories. */
  lemma {:induction false} BelowOrigin(es: seq<Entry>, root: Path, dirs: bool, x: Path) returns (e: Entry)
    requires x in Below(es, root, dirs)
    ensures e in es && e.node.Dir? && x in Within(e.node.entries, root + [e.name], dirs)
    decreases es
  {
    BelowSplit(es, root, dirs);
    if es[0].node.Dir? && x in Within(es[0].node.entries, root + [es[0].name], dirs) {
      e := es[0];
    } else {
      e := BelowOrigin(es[1..], root, dirs, x);
    }
  }

  lemma ChildSound(es: seq<Entry>, root: Path, dirs: bool, x: Path)
    requires DistinctNames(es) && x in Children(root, EntryNames(es, dirs))
    ensures |x| > |root| && x[..|root|] == root
    ensures Lookup(Dir(es), x[|root|..]).Some? && Lookup(Dir(es), x[|root|..]).value.Dir? == dirs
  {
    var names := EntryNames(es, dirs);
    var k :| 0 <= k < |names| && Children(root, names)[k] == x;
    var e := EntryNamesOrigin(es, dirs, names[k]);
    FindDistinct(es, e);
    assert x[|root|..] == [e.name] + [];
    LookupCons(Dir(es), e.node, e.name, []);
  }

  lemma DeeperSound(es: seq<Entry>, root: Path, e: Entry, x: Path, dirs: bool)
    requires DistinctNames(es) && e in es && e.node.Dir?
    requires |x| > |root| + 1 && x[..|root| + 1] == root + [e.name]
    requires Lookup(e.node, x[|root| + 1..]).Some? && Lookup(e.node, x[|root| + 1..]).value.Dir? == dirs
    ensures |x| > |root| && x[..|root|] == root
    ensures Lookup(Dir(es), x[|root|..]).Some? && Lookup(Dir(es), x[|root|..]).value.Dir? == dirs
  {
    var r := |root|;
    var head, rest := x[..r + 1], x[r + 1..];
    FindDistinct(es, e);
    assert x[r] == head[r] == e.name;
    assert x[r..] == [e.name] + rest;
    assert x[..r] == head[..r] == root;
    LookupCons(Dir(es), e.node, e.name, rest);
  }

  /** In a well-formed tree, the walk of a directory lists only directories (`dirs`) or only files (`!dirs`) below it. */
  lemma {:induction false} WithinSound(es: seq<Entry>, root: Path, dirs: bool, x: Path)
    requires WellFormed(Dir(es)) && x in Within(es, root, dirs)
    ensures |x| > |root| && x[..|root|] == root
    ensures Lookup(Dir(es), x[|root|..]).Some? && Lookup(Dir(es), x[|root|..]).value.Dir? == dirs
    decreases es
  {
    WithinSplit(es, root, dirs);
    if x in Children(root, EntryNames(es, dirs)) {
      ChildSound(es, root, dirs, x);
    } else {
      var e := BelowOrigin(es, root, dirs, x);
      var k :| 0 <= k < |es| && es[k] == e;
      assert WellFormed(e.node);
      WithinSound(e.node.entries, root + [e.name], dirs, x);
      DeeperSound(es, root, e, x, dirs);
    }
  }

  /** The rest of a well-formed directory is well-formed. */
  lemma RestWellFormed(es: seq<Entry>)
    requires es != [] && WellFormed(Dir(es))
    ensures WellFormed(Dir(es[1..])) && WellFormed(es[0].node)
  {
    forall i | 0 <= i < |es| - 1 ensures WellFormed(es[1..][i].node) {
      assert es[1..][i] == es[i + 1];
    }
  }

  lemma {:induction false} EntryNamesDistinct(es: seq<Entry>, dirs: bool)
    requires DistinctNames(es)
    ensures Distinct(EntryNames(es, dirs))
  {
    if es != [] {
      assert DistinctNames(es[1..]);
      EntryNamesDistinct(es[1..], dirs);
      if es[0].node.Dir? == dirs {
        FirstNameNotInRest(es, dirs);
        DistinctConcat([es[0].name], EntryNames(es[1..], dirs));
      }
    }
  }

  lemma FirstNameNotInRest(es: seq<Entry>, dirs: bool)
    requires es != [] && DistinctNames(es)
    ensures es[0].name !in EntryNames(es[1..], dirs)
  {
  }

  lemma ChildrenDistinct(root: Path, names: seq<string>)
    requires Distinct(names)
    ensures Distinct(Children(root, names))
  {
    var c := Children(root, names);
    forall i, j | 0 <= i < j < |c| ensures c[i] != c[j] {
      assert c[i][|root|] == names[i] && c[j][|root|] == names[j];
    }
  }

  /** In a well-formed tree, the walk of a directory lists no path twice. */
  lemma {:induction false} WithinDistinct(es: seq<Entry>, root: Path, dirs: bool)
    requires WellFormed(Dir(es))
    ensures Distinct(Within(es, root, dirs))
    decreases es, 1
  {
    WithinSplit(es, root, dirs);
    var kids := Children(root, EntryNames(es, dirs));
    EntryNamesDistinct(es, dirs);
    ChildrenDistinct(root, EntryNames(es, dirs));
    BelowDistinct(es, root, dirs);
    forall x | x in kids ensures x !in Below(es, root, dirs) {
      if x in Below(es, root, dirs) {
        BelowShape(es, root, dirs, x);
      }
    }
    DistinctConcat(kids, Below(es, root, dirs));
  }

  lemma {:induction false} BelowDistinct(es: seq<Entry>, root: Path, dirs: bool)
    requires WellFormed(Dir(es))
    ensures Distinct(Below(es, root, dirs))
    decreases es, 0
  {
    if es != [] {
      BelowSplit(es, root, dirs);
      RestWellFormed(es);
      BelowDistinct(es[1..], root, dirs);
      var e := es[0];
      if e.node.Dir? {
        var r' := root + [e.name];
        var head := Within(e.node.entries, r', dirs);
        WithinDistinct(e.node.entries, r', dirs);
        forall x | x in head ensures x !in Below(es[1..], root, dirs) {
          WithinShape(e.node.entries, r', dirs, x);
          assert x[|root|] == r'[|root|] == e.name by { assert x[..|r'|] == r'; }
          if x in Below(es[1..], root, dirs) {
            BelowShape(es[1..], root, dirs, x);
            FirstNameNotInRest(es, true);
          }
        }
        DistinctConcat(head, Below(es[1..], root, dirs));
      } else {
        assert Below(es, root, dirs) == [] + Below(es[1..], root, dirs);
      }
    }
  }

  /**
   * `os.walk(top)` lists exactly the directories (`dirs`) or the files
   * (`!dirs`) strictly below `top`.
   */
  lemma WalkLists(disk: Node, top: Path, dirs: bool, x: Path)
    requires WellFormed(disk)
    ensures x in Listed(Walk(disk, top), dirs)
            <==> top < x && Lookup(disk, x).Some? && Lookup(disk, x).value.Dir? == dirs
  {
    if top < x {
      assert x == top + x[|top|..];
      LookupAppend(disk, top, x[|top|..]);
    }
    match Lookup(disk, top)
    case Some(Dir(es)) =>
      LookupWellFormed(disk, top);
      if x in Listed(Walk(disk, top), dirs) {
        WithinSound(es, top, dirs, x);
      }
      if top < x && Lookup(disk, x).Some? && Lookup(disk, x).value.Dir? == dirs {
        WithinComplete(es, top, x[|top|..], dirs);
      }
    case _ =>
  }

  /** `os.walk` is top-down: a directory is listed after every directory between it and `top`. */
  lemma WalkTopDown(disk: Node, top: Path, i: nat, q: Path)
    requires i < |Listed(Walk(disk, top), true)|
    requires top < q < Listed(Walk(disk, top), true)[i]
    ensures q in Listed(Walk(disk, top), true)[..i]
  {
    var es := Lookup(disk, top).value.entries;
    WithinOrder(es, top, i, q);
  }

  /** In a well-formed tree, `os.walk` lists no path twice. */
  lemma WalkDistinct(disk: Node, top: Path, dirs: bool)
    requires WellFormed(disk)
    ensures Distinct(Listed(Walk(disk, top), dirs))
  {
    match Lookup(disk, top)
    case Some(Dir(es)) =>
      LookupWellFormed(disk, top);
      WithinDistinct(es, top, dirs);
    case _ =>
  }
}
