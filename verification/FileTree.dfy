/** A file tree and the operating system calls the controller makes on it. A path is the sequence of its elements. */
module FileTree {

  type Path = seq<string>

  datatype Node = Dir | File(content: string)

  type Tree = map<Path, Node>

  datatype Outcome = Success(tree: Tree) | Failure

  function Parent(p: Path): Path
    requires p != []
  {
    p[..|p| - 1]
  }

  /** The root is a directory and everything else lies in a directory. */
  predicate WellFormed(t: Tree) {
    && [] in t && t[[]].Dir?
    && (forall p :: p in t && p != [] ==> Parent(p) in t && t[Parent(p)].Dir?)
  }

  predicate Under(dir: Path, p: Path) {
    dir <= p
  }

  /** The two trees agree on everything at or below `p`. */
  ghost predicate SameUnder(t: Tree, t': Tree, p: Path) {
    forall q :: Under(p, q) ==> (q in t' <==> q in t) && (q in t ==> t'[q] == t[q])
  }

  // ---------------------------------------------------------------- MkdirAll, RemoveAll, Rename

  predicate PathIsDirs(t: Tree, p: Path) {
    forall i :: 0 <= i <= |p| && p[..i] in t ==> t[p[..i]].Dir?
  }

  /** os.MkdirAll: fails without effect when a file is in the way. */
  function MkdirAll(t: Tree, p: Path): Outcome {
    if PathIsDirs(t, p) then Success(t + map q | q in Missing(t, p) :: Dir) else Failure
  }

  function Missing(t: Tree, p: Path): set<Path> {
    set i | 0 <= i <= |p| && p[..i] !in t :: p[..i]
  }

  /** os.RemoveAll */
  function RemoveAll(t: Tree, p: Path): Tree {
    map q | q in t && !Under(p, q) :: t[q]
  }

  /** A RemoveAll that failed half-way: of what was below `p`, only `removed` is gone. */
  function RemoveSome(t: Tree, p: Path, removed: set<Path>): Tree {
    map q | q in t && !(Under(p, q) && q in removed) :: t[q]
  }

  predicate Childless(t: Tree, p: Path) {
    forall q :: q in t && Under(p, q) ==> q == p
  }

  predicate CanRename(t: Tree, a: Path, b: Path) {
    && a in t && a != []
    && b != [] && Parent(b) in t && t[Parent(b)].Dir?
    && !(a < b) && !(b < a)
    && (b in t && a != b ==> (t[a].Dir? && t[b].Dir? && Childless(t, b)) || (t[a].File? && t[b].File?))
  }

  function Moved(t: Tree, a: Path, b: Path): Tree {
    var landed := set q | q in t && Under(a, q) :: b + q[|a|..];
    (map q | q in t && !Under(a, q) && !Under(b, q) :: t[q]) +
    (map q | q in landed && a + q[|b|..] in t :: t[a + q[|b|..]])
  }

  /** os.Rename: `a` must exist and `b`'s parent be a directory; neither may contain the other; an existing `b` is only
      replaced when it is an empty directory and `a` a directory, or both are files. */
  function Rename(t: Tree, a: Path, b: Path): Outcome {
    if !CanRename(t, a, b) then Failure
    else if a == b then Success(t)
    else Success(Moved(t, a, b))
  }

  // ---------------------------------------------------------------- laws

  lemma MkdirAllIs(t: Tree, p: Path)
    requires MkdirAll(t, p).Success?
    ensures var t' := MkdirAll(t, p).tree;
            && p in t' && t'[p].Dir?
            && (forall q :: q in t ==> q in t' && t'[q] == t[q])
            && (forall q :: q in t' && q !in t ==> Under(q, p) && t'[q].Dir?)
  {
    var t' := MkdirAll(t, p).tree;
    assert p[..|p|] == p;
    assert p !in t ==> p in Missing(t, p);
    forall q | q in t' && q !in t
      ensures Under(q, p) && t'[q].Dir?
    {
      var i :| 0 <= i <= |p| && p[..i] !in t && q == p[..i];
    }
  }

  lemma MkdirAllNoop(t: Tree, p: Path)
    requires WellFormed(t) && p in t && t[p].Dir?
    ensures MkdirAll(t, p) == Success(t)
  {
    AncestorsAreDirs(t, p);
    assert Missing(t, p) == {};
    assert (map q | q in Missing(t, p) :: Dir) == map[];
  }

  lemma {:induction false} AncestorsAreDirs(t: Tree, p: Path)
    requires WellFormed(t) && p in t
    ensures forall i :: 0 <= i < |p| ==> p[..i] in t && t[p[..i]].Dir?
    ensures p[..|p|] == p
    decreases |p|
  {
    if p != [] {
      AncestorsAreDirs(t, Parent(p));
      forall i | 0 <= i < |p|
        ensures p[..i] in t && t[p[..i]].Dir?
      {
        if i == |p| - 1 {
          assert p[..i] == Parent(p);
        } else {
          assert p[..i] == Parent(p)[..i];
        }
      }
    }
  }

  lemma MkdirAllWellFormed(t: Tree, p: Path)
    requires WellFormed(t) && MkdirAll(t, p).Success?
    ensures WellFormed(MkdirAll(t, p).tree)
  {
    var t' := MkdirAll(t, p).tree;
    MkdirAllIs(t, p);
    forall q | q in t' && q != []
      ensures Parent(q) in t' && t'[Parent(q)].Dir?
    {
      if q !in t {
        var i :| 0 <= i <= |p| && q == p[..i];
        assert Parent(q) == p[..i - 1];
        assert p[..i - 1] !in t ==> p[..i - 1] in Missing(t, p);
      }
    }
  }

  lemma RemoveAllWellFormed(t: Tree, p: Path)
    requires WellFormed(t) && p != []
    ensures WellFormed(RemoveAll(t, p))
  {
    var t' := RemoveAll(t, p);
    forall q | q in t' && q != []
      ensures Parent(q) in t' && t'[Parent(q)].Dir?
    {
      assert Under(p, Parent(q)) ==> Under(p, q);
    }
  }

  ghost predicate Relocated(t: Tree, t': Tree, a: Path, b: Path) {
    && (forall r :: (b + r in t' <==> a + r in t) && (a + r in t ==> t'[b + r] == t[a + r]))
    && (forall q :: Under(a, q) ==> q !in t')
    && (forall q :: !Under(a, q) && !Under(b, q) ==> (q in t' <==> q in t) && (q in t ==> t'[q] == t[q]))
  }

  /** Renaming moves the whole subtree: below `b` is what was below `a`, `a` is gone, nothing else changed. */
  lemma RenameMoves(t: Tree, a: Path, b: Path)
    requires Rename(t, a, b).Success? && a != b
    ensures Relocated(t, Rename(t, a, b).tree, a, b)
  {
    var t' := Rename(t, a, b).tree;
    var landed := set q | q in t && Under(a, q) :: b + q[|a|..];
    forall r
      ensures (b + r in t' <==> a + r in t) && (a + r in t ==> t'[b + r] == t[a + r])
    {
      assert (a + r)[|a|..] == r && (b + r)[|b|..] == r;
      assert Under(a, a + r) && Under(b, b + r);
      assert a + r in t ==> b + r in landed;
    }
    forall q | Under(a, q)
      ensures q !in t'
    {
      assert q in landed ==> Under(b, q);
      if Under(b, q) {
        Comparable(a, b, q);
      }
    }
    forall q | !Under(a, q) && !Under(b, q)
      ensures (q in t' <==> q in t) && (q in t ==> t'[q] == t[q])
    {
      assert forall x :: Under(a, x) ==> Under(b, b + x[|a|..]);
    }
  }

  lemma ParentOutside(t: Tree, t': Tree, a: Path, b: Path, q: Path)
    requires WellFormed(t) && Relocated(t, t', a, b) && q in t' && q != [] && !Under(b, q)
    ensures Parent(q) in t' && t'[Parent(q)].Dir?
  {
    assert q in t && !Under(a, q);
    assert Under(a, Parent(q)) ==> Under(a, q);
    assert Under(b, Parent(q)) ==> Under(b, q);
  }

  lemma ParentInside(t: Tree, t': Tree, a: Path, b: Path, r: Path)
    requires WellFormed(t) && Relocated(t, t', a, b) && b + r in t' && r != []
    ensures Parent(b + r) in t' && t'[Parent(b + r)].Dir?
  {
    assert a + r in t;
    assert Parent(b + r) == b + Parent(r);
    assert Parent(a + r) == a + Parent(r);
  }

  lemma ParentOfTarget(t: Tree, t': Tree, a: Path, b: Path)
    requires CanRename(t, a, b) && a != b && Relocated(t, t', a, b)
    ensures Parent(b) in t' && t'[Parent(b)].Dir?
  {
    assert Under(a, Parent(b)) ==> a < b;
  }

  lemma RenameWellFormed(t: Tree, a: Path, b: Path)
    requires WellFormed(t) && Rename(t, a, b).Success?
    ensures WellFormed(Rename(t, a, b).tree)
  {
    if a != b {
      var t' := Rename(t, a, b).tree;
      RenameMoves(t, a, b);
      assert !Under(a, []) && !Under(b, []);
      forall q | q in t' && q != []
        ensures Parent(q) in t' && t'[Parent(q)].Dir?
      {
        if q == b {
          ParentOfTarget(t, t', a, b);
        } else if Under(b, q) {
          assert q == b + q[|b|..];
          ParentInside(t, t', a, b, q[|b|..]);
        } else {
          ParentOutside(t, t', a, b, q);
        }
      }
    }
  }

  /** Two prefixes of one path are nested. */
  lemma Comparable(a: Path, b: Path, q: Path)
    requires a <= q && b <= q
    ensures a <= b || b <= a
  {
    assert a == q[..|a|] && b == q[..|b|];
  }
}
