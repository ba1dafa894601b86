/** The storage behind the gateway, reduced to what the file operations depend on: per space a tree of
    directories and files, in which a deletion takes the whole subtree. */
module Gateway {
  import opened Bytes
  import opened Paths

  type Path = seq<string>

  datatype Node = Dir | File(content: seq<byte>)

  type Tree = map<Path, Node>

  function Parent(p: Path): Path
    requires p != []
  {
    p[..|p| - 1]
  }

  ghost predicate HasParent(t: Tree, p: Path) {
    p != [] ==> Parent(p) in t && t[Parent(p)].Dir?
  }

  /** The root is a directory, and everything else lies in one. */
  ghost predicate WellFormed(t: Tree) {
    [] in t && t[[]].Dir? && forall p | p in t :: HasParent(t, p)
  }

  datatype Code = OK | NOT_FOUND | ALREADY_EXISTS | REFUSED

  datatype StatReply = Info(node: Node) | StatNotFound | StatFailed

  function Stat(t: Tree, p: Path): StatReply {
    if p in t then Info(t[p]) else StatNotFound
  }

  /** The names of the entries of a directory. */
  function Children(t: Tree, p: Path): set<string> {
    set q | q in t && q != [] && Parent(q) == p :: q[|q| - 1]
  }

  function Subtree(t: Tree, p: Path): set<Path> {
    set q | q in t && p <= q
  }

  /** What is at a path and below it. */
  function Restricted(t: Tree, p: Path): Tree {
    map q | q in t && p <= q :: t[q]
  }

  function Remaining(t: Tree, p: Path): Tree {
    map q | q in t && !(p <= q) :: t[q]
  }

  function Delete(t: Tree, p: Path): (Tree, Code) {
    if p !in t then (t, NOT_FOUND) else if p == [] then (t, REFUSED) else (Remaining(t, p), OK)
  }

  function CreateContainer(t: Tree, p: Path): (Tree, Code) {
    if p in t then (t, ALREADY_EXISTS)
    else if p == [] || Parent(p) !in t || !t[Parent(p)].Dir? then (t, REFUSED)
    else (t[p := Dir], OK)
  }

  function Rebase(src: Path, dst: Path, q: Path): Path
    requires src <= q
  {
    dst + q[|src|..]
  }

  /** The paths that a subtree occupies after it has moved. */
  function MovedPaths(t: Tree, src: Path, dst: Path): set<Path> {
    set q | q in t && src <= q :: Rebase(src, dst, q)
  }

  /** Where a path under `dst` was before the move. */
  function Back(src: Path, dst: Path, q: Path): Path
    requires dst <= q
  {
    src + q[|dst|..]
  }

  lemma BackOfRebase(src: Path, dst: Path, q: Path)
    requires src <= q
    ensures dst <= Rebase(src, dst, q) && Back(src, dst, Rebase(src, dst, q)) == q
  {
    assert src + q[|src|..] == q;
  }

  lemma MovedFrom(t: Tree, src: Path, dst: Path)
    ensures forall q | q in MovedPaths(t, src, dst) ::
              dst <= q && src <= Back(src, dst, q) && Back(src, dst, q) in t && q == Rebase(src, dst, Back(src, dst, q))
  {
    forall q | q in MovedPaths(t, src, dst)
      ensures dst <= q && src <= Back(src, dst, q) && Back(src, dst, q) in t && q == Rebase(src, dst, Back(src, dst, q))
    {
      var r :| r in t && src <= r && q == Rebase(src, dst, r);
      BackOfRebase(src, dst, r);
    }
  }

  /** The subtree at `src` moved to `dst`, in place of what was there. */
  function MovedTree(t: Tree, src: Path, dst: Path): Tree {
    MovedFrom(t, src, dst);
    Remaining(Remaining(t, src), dst) + map q | q in MovedPaths(t, src, dst) :: t[Back(src, dst, q)]
  }

  function Move(t: Tree, src: Path, dst: Path, overwrites: bool): (Tree, Code) {
    if src !in t then (t, NOT_FOUND)
    else if src <= dst || dst <= src || Parent(dst) !in t || !t[Parent(dst)].Dir? then (t, REFUSED)
    else if dst in t && !overwrites then (t, ALREADY_EXISTS)
    else (MovedTree(t, src, dst), OK)
  }

  // ----- what the storage keeps -----

  /** Everything above an existing path is a directory. */
  lemma {:induction false} AncestorsAreDirs(t: Tree, p: Path, q: Path)
    requires WellFormed(t) && q in t && p <= q && p != q
    ensures p in t && t[p].Dir?
    decreases |q|
  {
    assert HasParent(t, q);
    if p != Parent(q) {
      AncestorsAreDirs(t, p, Parent(q));
    }
  }

  lemma DeleteKeepsWellFormed(t: Tree, p: Path)
    requires WellFormed(t)
    ensures WellFormed(Delete(t, p).0)
  {
    if p != [] {
      forall q | q in Remaining(t, p) ensures HasParent(Remaining(t, p), q) {
        assert HasParent(t, q);
      }
    }
  }

  lemma CreateKeepsWellFormed(t: Tree, p: Path)
    requires WellFormed(t)
    ensures WellFormed(CreateContainer(t, p).0)
  {
    var (t', code) := CreateContainer(t, p);
    if code == OK {
      forall q | q in t' ensures HasParent(t', q) {
        assert q in t ==> HasParent(t, q);
      }
    }
  }

  lemma MoveKeepsWellFormed(t: Tree, src: Path, dst: Path, overwrites: bool)
    requires WellFormed(t)
    ensures WellFormed(Move(t, src, dst, overwrites).0)
  {
    var (t', code) := Move(t, src, dst, overwrites);
    if code == OK {
      MovedFrom(t, src, dst);
      forall q | q in t' ensures HasParent(t', q) {
        MovedHasParent(t, src, dst, q);
      }
    }
  }

  ghost predicate CanMove(t: Tree, src: Path, dst: Path) {
    src in t && !(src <= dst) && !(dst <= src) && Parent(dst) in t && t[Parent(dst)].Dir?
  }

  lemma KeptInMove(t: Tree, src: Path, dst: Path, q: Path)
    requires q in t && !(src <= q) && !(dst <= q)
    ensures q in MovedTree(t, src, dst) && MovedTree(t, src, dst)[q] == t[q]
  {
    MovedFrom(t, src, dst);
  }

  lemma MovedInMove(t: Tree, src: Path, dst: Path, r: Path)
    requires r in t && src <= r
    ensures Rebase(src, dst, r) in MovedTree(t, src, dst) && MovedTree(t, src, dst)[Rebase(src, dst, r)] == t[r]
  {
    MovedFrom(t, src, dst);
    assert Rebase(src, dst, r) in MovedPaths(t, src, dst);
    BackOfRebase(src, dst, r);
  }

  lemma MovedRootHasParent(t: Tree, src: Path, dst: Path)
    requires WellFormed(t) && CanMove(t, src, dst)
    ensures HasParent(MovedTree(t, src, dst), dst)
  {
    assert !(src <= Parent(dst)) && !(dst <= Parent(dst));
    KeptInMove(t, src, dst, Parent(dst));
  }

  lemma MovedRestHasParent(t: Tree, src: Path, dst: Path, r: Path)
    requires WellFormed(t) && r in t && src <= r && r != src
    ensures HasParent(MovedTree(t, src, dst), Rebase(src, dst, r))
  {
    assert HasParent(t, r) && src <= Parent(r);
    MovedInMove(t, src, dst, Parent(r));
    assert Rebase(src, dst, Parent(r)) == Parent(Rebase(src, dst, r));
  }

  lemma KeptHasParent(t: Tree, src: Path, dst: Path, q: Path)
    requires WellFormed(t) && q in t && !(src <= q) && !(dst <= q)
    ensures HasParent(MovedTree(t, src, dst), q)
  {
    assert HasParent(t, q);
    if q != [] {
      assert !(src <= Parent(q)) && !(dst <= Parent(q));
      KeptInMove(t, src, dst, Parent(q));
    }
  }

  lemma MovedHasParent(t: Tree, src: Path, dst: Path, q: Path)
    requires WellFormed(t) && CanMove(t, src, dst) && q in MovedTree(t, src, dst)
    ensures HasParent(MovedTree(t, src, dst), q)
  {
    MovedFrom(t, src, dst);
    if q !in MovedPaths(t, src, dst) {
      KeptHasParent(t, src, dst, q);
    } else if Back(src, dst, q) == src {
      assert q == dst;
      MovedRootHasParent(t, src, dst);
    } else {
      MovedRestHasParent(t, src, dst, Back(src, dst, q));
    }
  }

  // ----- counting file contents -----

  function FilesWith(t: Tree, c: seq<byte>): set<Path> {
    set q | q in t && t[q] == File(c)
  }

  /** How often `c` is the content of a file. */
  function Count(t: Tree, c: seq<byte>): nat {
    |FilesWith(t, c)|
  }

  /** A non-directory has nothing below it, so deleting it removes one file and nothing else. */
  lemma DeleteFile(t: Tree, p: Path, c: seq<byte>)
    requires WellFormed(t) && p in t && t[p].File?
    ensures Subtree(t, p) == {p} && Remaining(t, p) == t - {p}
    ensures Count(t, c) == Count(Remaining(t, p), c) + if t[p] == File(c) then 1 else 0
  {
    forall q | q in Subtree(t, p) ensures q == p {
      if q != p { AncestorsAreDirs(t, p, q); }
    }
    assert p in Subtree(t, p);
    assert forall q | q in t :: p <= q <==> q == p by {
      forall q | q in t && p <= q ensures q == p { assert q in Subtree(t, p); }
    }
    assert FilesWith(Remaining(t, p), c) == FilesWith(t, c) - {p};
  }

  /** What lies below a directory lies below one of its entries. */
  lemma BelowMeansChild(t: Tree, p: Path, q: Path)
    requires WellFormed(t) && q in t && p <= q && p != q
    ensures q[|p|] in Children(t, p)
  {
    var child := q[..|p| + 1];
    if child != q { AncestorsAreDirs(t, child, q); }
    assert Parent(child) == p && child[|p|] == q[|p|];
  }

  /** A directory without entries has nothing below it. */
  lemma DeleteEmptyDir(t: Tree, p: Path, c: seq<byte>)
    requires WellFormed(t) && p in t && t[p].Dir? && Children(t, p) == {}
    ensures Subtree(t, p) == {p} && Remaining(t, p) == t - {p}
    ensures Count(t, c) == Count(Remaining(t, p), c)
  {
    forall q | q in Subtree(t, p) ensures q == p {
      if q != p { BelowMeansChild(t, p, q); }
    }
    assert p in Subtree(t, p);
    assert forall q | q in t :: p <= q <==> q == p by {
      forall q | q in t && p <= q ensures q == p { assert q in Subtree(t, p); }
    }
    assert FilesWith(Remaining(t, p), c) == FilesWith(t, c);
  }

  function RebaseAll(s: set<Path>, src: Path, dst: Path): set<Path>
    requires forall q | q in s :: src <= q
  {
    set q | q in s :: Rebase(src, dst, q)
  }

  /** Moving the paths of a set under `src` neither merges nor loses any. */
  lemma {:induction false} RebaseKeepsSize(s: set<Path>, src: Path, dst: Path)
    requires forall q | q in s :: src <= q
    ensures |RebaseAll(s, src, dst)| == |s|
    decreases |s|
  {
    if s == {} {
      assert RebaseAll(s, src, dst) == {};
    } else {
      var p :| p in s;
      var rest := s - {p};
      RebaseKeepsSize(rest, src, dst);
      assert RebaseAll(s, src, dst) == RebaseAll(rest, src, dst) + {Rebase(src, dst, p)};
      if q :| q in rest && Rebase(src, dst, q) == Rebase(src, dst, p) {
        BackOfRebase(src, dst, p);
        BackOfRebase(src, dst, q);
        assert false;
      }
    }
  }

  lemma NothingBelow(t: Tree, dst: Path)
    requires WellFormed(t) && dst !in t
    ensures forall q | q in t :: !(dst <= q)
  {
    forall q | q in t ensures !(dst <= q) {
      if dst <= q && q != dst { AncestorsAreDirs(t, dst, q); }
    }
  }

  function Inside(t: Tree, c: seq<byte>, src: Path): (s: set<Path>)
    ensures forall q | q in s :: src <= q
  {
    set q | q in FilesWith(t, c) && src <= q
  }

  lemma FilesAfterMove(t: Tree, src: Path, dst: Path, c: seq<byte>, q: Path)
    requires WellFormed(t) && src in t && dst !in t && !(src <= dst) && !(dst <= src)
    ensures q in FilesWith(MovedTree(t, src, dst), c) <==>
            q in FilesWith(t, c) - Inside(t, c, src) || q in RebaseAll(Inside(t, c, src), src, dst)
  {
    MovedFrom(t, src, dst);
    NothingBelow(t, dst);
    if q in MovedPaths(t, src, dst) {
      var r := Back(src, dst, q);
      assert q in RebaseAll(Inside(t, c, src), src, dst) ==> r in Inside(t, c, src) by {
        if q in RebaseAll(Inside(t, c, src), src, dst) {
          var r' :| r' in Inside(t, c, src) && q == Rebase(src, dst, r');
          BackOfRebase(src, dst, r');
        }
      }
      assert r in Inside(t, c, src) ==> q in RebaseAll(Inside(t, c, src), src, dst);
    }
  }

  lemma FilesMove(t: Tree, src: Path, dst: Path, c: seq<byte>)
    requires WellFormed(t) && src in t && dst !in t && !(src <= dst) && !(dst <= src)
    ensures FilesWith(MovedTree(t, src, dst), c) ==
            (FilesWith(t, c) - Inside(t, c, src)) + RebaseAll(Inside(t, c, src), src, dst)
    ensures FilesWith(t, c) !! RebaseAll(Inside(t, c, src), src, dst)
  {
    forall q {
      FilesAfterMove(t, src, dst, c, q);
    }
    NothingBelow(t, dst);
    forall q | q in RebaseAll(Inside(t, c, src), src, dst) ensures q !in FilesWith(t, c) {
      assert dst <= q;
    }
  }

  /** A move to a path that does not exist keeps every file's content, as often as it occurs. */
  lemma MoveConserves(t: Tree, src: Path, dst: Path, c: seq<byte>)
    requires WellFormed(t) && src in t && dst !in t && !(src <= dst) && !(dst <= src)
    ensures Count(MovedTree(t, src, dst), c) == Count(t, c)
  {
    var inside := Inside(t, c, src);
    var outside, moved := FilesWith(t, c) - inside, RebaseAll(inside, src, dst);
    FilesMove(t, src, dst, c);
    RebaseKeepsSize(inside, src, dst);
    assert FilesWith(t, c) == outside + inside;
    assert |outside + moved| == |outside| + |moved|;
  }

  lemma CountSplits(t: Tree, p: Path, c: seq<byte>)
    ensures Count(t, c) == Count(Remaining(t, p), c) + |Inside(t, c, p)|
  {
    assert FilesWith(t, c) == FilesWith(Remaining(t, p), c) + Inside(t, c, p);
  }

  lemma PrefixesCompare(p: Path, p': Path, q: Path)
    ensures p <= q && p' <= q ==> p <= p' || p' <= p
  {
  }

  /** What is at the target has no influence on the result of a move. */
  lemma MoveIgnoresTarget(t: Tree, src: Path, dst: Path)
    requires !(src <= dst) && !(dst <= src)
    ensures MovedTree(Remaining(t, dst), src, dst) == MovedTree(t, src, dst)
  {
    assert MovedPaths(Remaining(t, dst), src, dst) == MovedPaths(t, src, dst) by {
      forall q | q in t && src <= q ensures !(dst <= q) {
        PrefixesCompare(src, dst, q);
      }
    }
    MovedFrom(t, src, dst);
    MovedFrom(Remaining(t, dst), src, dst);
  }

  /** A move loses the files that were at or below its target, as often as each content occurs there, and no others. */
  lemma MoveReplaces(t: Tree, src: Path, dst: Path, c: seq<byte>)
    requires WellFormed(t) && src in t && !(src <= dst) && !(dst <= src)
    ensures Count(t, c) == Count(MovedTree(t, src, dst), c) + |Inside(t, c, dst)|
    ensures dst !in t ==> Inside(t, c, dst) == {}
  {
    assert WellFormed(Remaining(t, dst)) by {
      if dst in t {
        DeleteKeepsWellFormed(t, dst);
      } else {
        NothingBelow(t, dst);
        assert Remaining(t, dst) == t;
      }
    }
    if dst !in t { NothingBelow(t, dst); }
    MoveIgnoresTarget(t, src, dst);
    MoveConserves(Remaining(t, dst), src, dst, c);
    CountSplits(t, dst, c);
  }
}
