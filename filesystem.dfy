/**
 * The filesystem that appinst/win32.py works on through `os`, as a tree.
 *
 * A path is the sequence of its components, so `join(p, name)` is
 * `p + [name]`. A directory lists its entries in order: that order is the
 * order in which `os.walk` reports them. A file is `locked` when the system
 * refuses to remove it (read-only or in use); removing a directory fails
 * when it is missing, is not a directory or is not empty.
 */
module FileSystem {
  import opened Wrappers

  type Path = seq<string>

  datatype Node = File(locked: bool) | Dir(entries: seq<Entry>)

  datatype Entry = Entry(name: string, node: Node)

  /** What a path holds, without the contents of a directory. */
  datatype Kind = FileKind(locked: bool) | DirKind

  function KindOf(n: Node): Kind
  {
    if n.File? then FileKind(n.locked) else DirKind
  }

  function Names(es: seq<Entry>): (r: seq<string>)
    ensures |r| == |es|
    ensures forall i :: 0 <= i < |es| ==> r[i] == es[i].name
  {
    if es == [] then [] else [es[0].name] + Names(es[1..])
  }

  /** The first entry called `x`, as a directory lookup by name finds it. */
  function Find(es: seq<Entry>, x: string): (r: Option<Node>)
    ensures r.Some? <==> x in Names(es)
    ensures r.Some? ==> Entry(x, r.value) in es
  {
    if es == [] then None
    else if es[0].name == x then Some(es[0].node)
    else
      assert Names(es) == [es[0].name] + Names(es[1..]);
      Find(es[1..], x)
  }

  /** The node at path `p` below `n`. */
  function Lookup(n: Node, p: Path): Option<Node>
    decreases |p|
  {
    if p == [] then Some(n)
    else if n.File? then None
    else match Find(n.entries, p[0])
      case None => None
      case Some(c) => Lookup(c, p[1..])
  }

  function KindAt(n: Node, p: Path): Option<Kind>
  {
    match Lookup(n, p)
    case None => None
    case Some(m) => Some(KindOf(m))
  }

  /** `os.path.exists`. */
  predicate Exists(n: Node, p: Path)
  {
    Lookup(n, p).Some?
  }

  predicate IsFileAt(n: Node, p: Path)
  {
    KindAt(n, p).Some? && KindAt(n, p).value.FileKind?
  }

  predicate IsDirAt(n: Node, p: Path)
  {
    KindAt(n, p) == Some(DirKind)
  }

  /** Looking a path up is looking up its first part, then the rest from there. */
  lemma {:induction false} LookupAppend(n: Node, a: Path, b: Path)
    ensures Lookup(n, a + b) == match Lookup(n, a) case None => None case Some(m) => Lookup(m, b)
    decreases |a|
  {
    if a == [] {
      assert a + b == b;
    } else if n.Dir? {
      assert (a + b)[0] == a[0] && (a + b)[1..] == a[1..] + b;
      match Find(n.entries, a[0])
      case None =>
      case Some(c) => LookupAppend(c, a[1..], b);
    }
  }

  /** One step down: below a directory, a path is looked up in the entry its first part names. */
  lemma LookupCons(n: Node, c: Node, x: string, rest: Path)
    requires n.Dir? && Find(n.entries, x) == Some(c)
    ensures Lookup(n, [x] + rest) == Lookup(c, rest)
  {
    assert ([x] + rest)[0] == x && ([x] + rest)[1..] == rest;
  }

  /** Every proper prefix of an existing path is a directory. */
  lemma AncestorIsDir(n: Node, q: Path, p: Path)
    requires q < p && Exists(n, p)
    ensures IsDirAt(n, q)
  {
    assert p == q + p[|q|..];
    LookupAppend(n, q, p[|q|..]);
    assert p[|q|..] != [];
  }

  /** Nothing lies below a missing path. */
  lemma MissingBelow(n: Node, q: Path, f: Path)
    requires KindAt(n, q) == None && q < f
    ensures KindAt(n, f) == None
  {
    assert f == q + f[|q|..];
    LookupAppend(n, q, f[|q|..]);
  }

  /** Entries whose names are pairwise different, as in any real directory. */
  predicate DistinctNames(es: seq<Entry>)
  {
    forall i, j :: 0 <= i < j < |es| ==> es[i].name != es[j].name
  }

  /** With unique names, looking an entry's name up finds that entry. */
  lemma {:induction false} FindDistinct(es: seq<Entry>, e: Entry)
    requires DistinctNames(es) && e in es
    ensures Find(es, e.name) == Some(e.node)
  {
    if es[0] != e {
      assert e in es[1..];
      assert DistinctNames(es[1..]);
      var k :| 0 <= k < |es| - 1 && es[1..][k] == e;
      assert es[0].name != es[k + 1].name;
      FindDistinct(es[1..], e);
    }
  }

  /** Names are unique within every directory of the tree. */
  predicate WellFormed(n: Node)
  {
    match n
    case File(_) => true
    case Dir(es) => DistinctNames(es) && forall i :: 0 <= i < |es| ==> WellFormed(es[i].node)
  }

  /** Every part of a well-formed tree is well-formed. */
  lemma {:induction false} LookupWellFormed(n: Node, p: Path)
    requires WellFormed(n) && Lookup(n, p).Some?
    ensures WellFormed(Lookup(n, p).value)
    decreases |p|
  {
    if p != [] {
      var c := Find(n.entries, p[0]).value;
      var k :| 0 <= k < |n.entries| && n.entries[k] == Entry(p[0], c);
      LookupWellFormed(c, p[1..]);
    }
  }

  /** The entries without those called `x`. */
  function Without(es: seq<Entry>, x: string): (r: seq<Entry>)
    ensures forall e :: e in r ==> e in es && e.name != x
  {
    if es == [] then []
    else (if es[0].name == x then [] else [es[0]]) + Without(es[1..], x)
  }

  /** The entries with the first one called `x` now holding `c`. */
  function Put(es: seq<Entry>, x: string, c: Node): (r: seq<Entry>)
    ensures Names(r) == Names(es)
  {
    if es == [] then []
    else if es[0].name == x then [Entry(x, c)] + es[1..]
    else [es[0]] + Put(es[1..], x, c)
  }

  lemma {:induction false} FindWithout(es: seq<Entry>, x: string, y: string)
    ensures Find(Without(es, x), y) == if y == x then None else Find(es, y)
  {
    if es == [] {
    } else {
      var rest := Without(es[1..], x);
      FindWithout(es[1..], x, y);
      if es[0].name == x {
        assert Without(es, x) == rest;
      } else {
        assert Without(es, x) == [es[0]] + rest;
        assert ([es[0]] + rest)[1..] == rest;
      }
    }
  }

  lemma {:induction false} FindPut(es: seq<Entry>, x: string, c: Node, y: string)
    ensures Find(Put(es, x, c), y) == if y == x && Find(es, x).Some? then Some(c) else Find(es, y)
  {
    if es != [] {
      if es[0].name == x {
        assert ([Entry(x, c)] + es[1..])[1..] == es[1..];
      } else {
        FindPut(es[1..], x, c, y);
        assert ([es[0]] + Put(es[1..], x, c))[1..] == Put(es[1..], x, c);
      }
    }
  }

  lemma {:induction false} FindAppend(es: seq<Entry>, e: Entry, y: string)
    ensures Find(es + [e], y) == if Find(es, y).Some? then Find(es, y)
                                 else if y == e.name then Some(e.node) else None
  {
    if es == [] {
      assert es + [e] == [e];
    } else {
      assert (es + [e])[1..] == es[1..] + [e];
      FindAppend(es[1..], e, y);
    }
  }

  lemma {:induction false} WithoutKeepsDistinct(es: seq<Entry>, x: string)
    requires DistinctNames(es)
    ensures DistinctNames(Without(es, x))
  {
    if es != [] {
      WithoutKeepsDistinct(es[1..], x);
      var rest := Without(es[1..], x);
      if es[0].name != x {
        forall e | e in rest ensures e.name != es[0].name {
          var j :| 0 <= j < |es[1..]| && es[1..][j] == e;
          assert es[j + 1] == e;
        }
      }
    }
  }

  lemma {:induction false} WithoutKeepsWellFormed(es: seq<Entry>, x: string)
    requires forall i :: 0 <= i < |es| ==> WellFormed(es[i].node)
    ensures forall i :: 0 <= i < |Without(es, x)| ==> WellFormed(Without(es, x)[i].node)
  {
    forall i | 0 <= i < |Without(es, x)| ensures WellFormed(Without(es, x)[i].node) {
      var e := Without(es, x)[i];
      assert e in es;
    }
  }

  lemma {:induction false} PutKeepsWellFormed(es: seq<Entry>, x: string, c: Node)
    requires forall i :: 0 <= i < |es| ==> WellFormed(es[i].node)
    requires WellFormed(c)
    ensures forall i :: 0 <= i < |Put(es, x, c)| ==> WellFormed(Put(es, x, c)[i].node)
  {
    if es != [] && es[0].name != x {
      PutKeepsWellFormed(es[1..], x, c);
      var r := Put(es, x, c);
      assert r == [es[0]] + Put(es[1..], x, c);
      forall i | 0 <= i < |r| ensures WellFormed(r[i].node) {
        if i > 0 { assert r[i] == Put(es[1..], x, c)[i - 1]; }
      }
    }
  }

  lemma PutKeepsDistinct(es: seq<Entry>, x: string, c: Node)
    requires DistinctNames(es)
    ensures DistinctNames(Put(es, x, c))
  {
    var r := Put(es, x, c);
    forall i, j | 0 <= i < j < |r| ensures r[i].name != r[j].name {
      assert Names(r)[i] == Names(es)[i] && Names(r)[j] == Names(es)[j];
    }
  }

  /** What a successful removal demands of the node it removes. */
  predicate Removable(c: Node, wantDir: bool)
  {
    if wantDir then c == Dir([]) else c == File(false)
  }

  /**
   * Removes the node at `p`: a file that is not locked (`os.unlink`,
   * `os.remove`) or, with `wantDir`, an empty directory (`os.rmdir`).
   * None when the system would raise instead.
   */
  function Delete(n: Node, p: Path, wantDir: bool): Option<Node>
    decreases |p|
  {
    if p == [] || n.File? then None
    else match Find(n.entries, p[0])
      case None => None
      case Some(c) =>
        if |p| == 1 then
          if Removable(c, wantDir) then Some(Dir(Without(n.entries, p[0]))) else None
        else match Delete(c, p[1..], wantDir)
          case None => None
          case Some(c') => Some(Dir(Put(n.entries, p[0], c')))
  }

  /** A removal succeeds exactly when the path holds what may be removed there. */
  lemma {:induction false} DeleteSucceeds(n: Node, p: Path, wantDir: bool)
    ensures Delete(n, p, wantDir).Some?
            <==> p != [] && Lookup(n, p).Some? && Removable(Lookup(n, p).value, wantDir)
    decreases |p|
  {
    if p != [] && n.Dir? && |p| > 1 {
      match Find(n.entries, p[0])
      case None =>
      case Some(c) => DeleteSucceeds(c, p[1..], wantDir);
    }
  }

  /** A removal takes away the path and what lies below it, and nothing else. */
  lemma {:induction false} DeleteKinds(n: Node, p: Path, wantDir: bool, q: Path)
    requires Delete(n, p, wantDir).Some?
    ensures KindAt(Delete(n, p, wantDir).value, q) == if p <= q then None else KindAt(n, q)
    decreases |p|
  {
    var n' := Delete(n, p, wantDir).value;
    var x, c := p[0], Find(n.entries, p[0]).value;
    if q == [] {
      assert !(p <= q);
    } else {
      var y := q[0];
      PrefixHead(p, q);
      KindAtStep(n, q);
      KindAtStep(n', q);
      if |p| == 1 {
        FindWithout(n.entries, x, y);
        assert p[1..] == [];
      } else {
        var c' := Delete(c, p[1..], wantDir).value;
        FindPut(n.entries, x, c', y);
        if y == x {
          DeleteKinds(c, p[1..], wantDir, q[1..]);
        }
      }
    }
  }

  lemma KindAtStep(n: Node, q: Path)
    requires n.Dir? && q != []
    ensures KindAt(n, q) == match Find(n.entries, q[0])
                            case None => None
                            case Some(c) => KindAt(c, q[1..])
  {
  }

  /** A path is a prefix of another when the heads agree and the tails are prefixes. */
  lemma PrefixHead(p: Path, q: Path)
    requires p != [] && q != []
    ensures p <= q <==> p[0] == q[0] && p[1..] <= q[1..]
  {
    if p[0] == q[0] && p[1..] <= q[1..] {
      assert p == [p[0]] + p[1..] && q == [q[0]] + q[1..];
      assert q[..|p|] == p;
    }
  }

  lemma {:induction false} DeleteKeepsWellFormed(n: Node, p: Path, wantDir: bool)
    requires WellFormed(n) && Delete(n, p, wantDir).Some?
    ensures WellFormed(Delete(n, p, wantDir).value)
    decreases |p|
  {
    var es := n.entries;
    var c := Find(es, p[0]).value;
    var i :| 0 <= i < |es| && es[i] == Entry(p[0], c);
    assert WellFormed(es[i].node);
    if |p| == 1 {
      WithoutKeepsDistinct(es, p[0]);
      WithoutKeepsWellFormed(es, p[0]);
    } else {
      DeleteKeepsWellFormed(c, p[1..], wantDir);
      PutKeepsDistinct(es, p[0], Delete(c, p[1..], wantDir).value);
      PutKeepsWellFormed(es, p[0], Delete(c, p[1..], wantDir).value);
    }
  }

  /** A fresh chain of directories along `p`, the last one empty. */
  function Chain(p: Path): Node
  {
    if p == [] then Dir([]) else Dir([Entry(p[0], Chain(p[1..]))])
  }

  /**
   * `os.makedirs(p)`: creates `p` and every missing directory above it.
   * None when the system would raise: `p` exists already, or a file stands
   * where a directory is needed.
   */
  function MakeDirs(n: Node, p: Path): Option<Node>
    decreases |p|
  {
    if p == [] || n.File? then None
    else match Find(n.entries, p[0])
      case None => Some(Dir(n.entries + [Entry(p[0], Chain(p[1..]))]))
      case Some(c) =>
        if |p| == 1 then None
        else match MakeDirs(c, p[1..])
          case None => None
          case Some(c') => Some(Dir(Put(n.entries, p[0], c')))
  }

  lemma {:induction false} ChainKinds(p: Path, q: Path)
    ensures KindAt(Chain(p), q) == if q <= p then Some(DirKind) else None
  {
    if p != [] && q != [] {
      ChainKinds(p[1..], q[1..]);
      assert q <= p <==> (q[0] == p[0] && q[1..] <= p[1..]);
    }
  }

  /** `makedirs` creates directories along the path and leaves everything else as it was. */
  lemma {:induction false} MakeDirsKinds(n: Node, p: Path, q: Path)
    requires MakeDirs(n, p).Some?
    ensures KindAt(MakeDirs(n, p).value, q) == if q <= p then Some(DirKind) else KindAt(n, q)
    decreases |p|
  {
    var n' := MakeDirs(n, p).value;
    var es, x := n.entries, p[0];
    if q != [] {
      var y := q[0];
      match Find(es, x)
      case None =>
        FindAppend(es, Entry(x, Chain(p[1..])), y);
        if y == x {
          ChainKinds(p[1..], q[1..]);
          assert q <= p <==> q[1..] <= p[1..];
        }
      case Some(c) =>
        var c' := MakeDirs(c, p[1..]).value;
        FindPut(es, x, c', y);
        if y == x {
          MakeDirsKinds(c, p[1..], q[1..]);
          assert q <= p <==> q[1..] <= p[1..];
        }
    }
  }

  /** `makedirs` fails exactly when the path exists or a file stands on the way. */
  lemma {:induction false} MakeDirsSucceeds(n: Node, p: Path)
    requires n.Dir?
    ensures MakeDirs(n, p).Some? <==> !Exists(n, p) && forall q :: q < p ==> !IsFileAt(n, q)
    decreases |p|
  {
    if p != [] {
      var x, rest := p[0], p[1..];
      assert p == [x] + rest;
      match Find(n.entries, x)
      case None =>
        forall q | q < p ensures !IsFileAt(n, q) {
          if q != [] { assert q[0] == x; }
        }
      case Some(c) =>
        LookupCons(n, c, x, rest);
        if c.File? {
          LookupCons(n, c, x, []);
          var top := [x] + [];
          assert IsFileAt(n, top);
          if rest != [] {
            assert top < p;
          }
        } else if rest != [] {
          MakeDirsSucceeds(c, rest);
          if MakeDirs(c, rest).Some? {
            forall q | q < p ensures !IsFileAt(n, q) {
              if q != [] {
                assert q == [x] + q[1..] && q[1..] < rest;
                LookupCons(n, c, x, q[1..]);
                assert !IsFileAt(c, q[1..]);
              }
            }
          } else if !Exists(c, rest) {
            var q' :| q' < rest && IsFileAt(c, q');
            LookupCons(n, c, x, q');
            assert [x] + q' < p && IsFileAt(n, [x] + q');
          }
        }
    }
  }

  lemma {:induction false} ChainWellFormed(p: Path)
    ensures WellFormed(Chain(p))
  {
    if p != [] {
      ChainWellFormed(p[1..]);
    }
  }

  lemma {:induction false} MakeDirsKeepsWellFormed(n: Node, p: Path)
    requires WellFormed(n) && MakeDirs(n, p).Some?
    ensures WellFormed(MakeDirs(n, p).value)
    decreases |p|
  {
    var es := n.entries;
    match Find(es, p[0])
    case None =>
      ChainWellFormed(p[1..]);
      var r := es + [Entry(p[0], Chain(p[1..]))];
      forall i, j | 0 <= i < j < |r| ensures r[i].name != r[j].name {
        if j == |es| { assert Names(es)[i] == es[i].name; }
      }
    case Some(c) =>
      var i :| 0 <= i < |es| && es[i] == Entry(p[0], c);
      assert WellFormed(es[i].node);
      MakeDirsKeepsWellFormed(c, p[1..]);
      PutKeepsDistinct(es, p[0], MakeDirs(c, p[1..]).value);
      PutKeepsWellFormed(es, p[0], MakeDirs(c, p[1..]).value);
  }
}
