/** What a client is told, request by request, and what the request leaves behind: for all paths, states of the storage
    and answers of the gateway. */
module ServedRequests {
  import opened Options
  import opened Paths
  import opened Spaces
  import opened Gateway
  import opened Namespace

  // ----- where a path leads -----

  /** Some listed space has the name that is the path's first element. */
  ghost predicate NamesSpace(w: World, path: string) {
    exists k :: 0 <= k < |w.spaces| && w.spaces[k].name == SplitAbsolutePath(path).0
  }

  /** `k` is the first listed space with that name. */
  ghost predicate IsFirst(spaces: seq<Space>, name: string, k: nat) {
    k < |spaces| && spaces[k].name == name && forall j | 0 <= j < k :: spaces[j].name != name
  }

  /** A path leads somewhere exactly if the spaces are listed and its first element names one; the place is then in the
      first space of that name. If listing fails the error says only that; in all other cases the path does not
      exist. */
  lemma {:induction false} PathLeads(w: World, path: string, a: Answers)
    requires Good(w)
    ensures var l := Locate(w, path, a);
            && (l.There? <==> a.spaces == Listed && NamesSpace(w, path))
            && (l == Nowhere(OTHER) <==> a.spaces == ListingBroken)
            && (l.Nowhere? ==> l.err == OTHER || l.err == NOT_EXIST)
            && (l.There? ==> exists k: nat :: IsFirst(w.spaces, SplitAbsolutePath(path).0, k) && w.spaces[k].id == l.at.id)
            && (l.There? ==> l.at.path == Segments(SplitAbsolutePath(path).1))
  {
    var name := SplitAbsolutePath(path).0;
    if k: nat :| k < |w.spaces| && w.spaces[k].name == name {
      var first := EarliestNamed(w.spaces, k);
      FirstNamedIsFirst(name, w.spaces, first);
      assert IsFirst(w.spaces, name, first) && w.spaces[first] in w.spaces;
    } else {
      FirstNamedSkips(name, w.spaces, |w.spaces|);
    }
  }

  ghost predicate IsDir(w: World, l: Located) {
    l.There? && l.at.id in w.trees && l.at.path in w.trees[l.at.id] && w.trees[l.at.id][l.at.path].Dir?
  }

  ghost predicate IsAbsent(w: World, l: Located) {
    l.There? && l.at.id in w.trees && l.at.path !in w.trees[l.at.id]
  }

  // ----- each request -----

  /** What a remove of `l` answers: it takes a file, refuses a directory as an invalid request, and says of what is not
      there that it is not. */
  ghost predicate RemoveAnswers(w: World, l: Located, a: Answers, w': World, err: Err) {
    && (err == NIL <==> a.stat == a.act == Answered && IsFile(w, l))
    && (err == INVALID <==> a.stat == Answered && IsDir(w, l))
    && (err == NOT_EXIST <==> l == Nowhere(NOT_EXIST) || (a.stat == Answered && IsAbsent(w, l)))
    && (err == NIL || err == INVALID || err == NOT_EXIST || err == OTHER)
    && (err != NIL ==> w' == w)
    && (err == NIL ==> l.at.id in w.trees && w' == Without(w, l.at))
  }

  /** Rmdir takes an empty directory, and says of a file that it is no directory and of a directory with entries that it
      is not empty. */
  ghost predicate RmdirAnswers(w: World, l: Located, a: Answers, w': World, err: Err) {
    && (err == NIL <==> a.stat == a.list == a.act == Answered && IsEmptyDir(w, l) && l.at.path != [])
    && (err == NOT_DIRECTORY <==> a.stat == Answered && IsFile(w, l))
    && (err == NOT_EMPTY <==> a.stat == a.list == Answered && IsDir(w, l) && !IsEmptyDir(w, l))
    && (err == NOT_EXIST <==> l == Nowhere(NOT_EXIST) || (a.stat == Answered && IsAbsent(w, l)))
    && (err == NIL || err == NOT_DIRECTORY || err == NOT_EMPTY || err == NOT_EXIST || err == OTHER)
    && (err != NIL ==> w' == w)
    && (err == NIL ==> l.at.id in w.trees && w' == Without(w, l.at))
  }

  /** Mkdir adds a directory at a free path in an existing one, and says of a taken path that it exists. */
  ghost predicate MkdirAnswers(w: World, l: Located, a: Answers, w': World, err: Err) {
    && (err == NIL <==> a.act == Answered && IsAbsent(w, l) && HasParent(w.trees[l.at.id], l.at.path))
    && (err == EXIST <==> a.act == Answered && (IsFile(w, l) || IsDir(w, l)))
    && (err == NOT_EXIST <==> l == Nowhere(NOT_EXIST))
    && (err == NIL || err == EXIST || err == NOT_EXIST || err == OTHER)
    && (err != NIL ==> w' == w)
    && (err == NIL ==> l.at.id in w.trees && w' == Put(w, l.at.id, w.trees[l.at.id][l.at.path := Dir]))
  }

  /** The errors that a path can give by itself. */
  predicate PathError(l: Located) {
    l.Nowhere? ==> l.err == NOT_EXIST || l.err == OTHER
  }

  lemma {:induction false} AnyRemove(w: World, l: Located, a: Answers)
    requires Good(w) && Known(w, l) && PathError(l)
    ensures RemoveAnswers(w, l, a, RemoveAt(w, l, a).0, RemoveAt(w, l, a).1)
  {
    RemoveTakesOneFile(w, l, a, []);
  }

  lemma {:induction false} AnyRmdir(w: World, l: Located, a: Answers)
    requires Good(w) && Known(w, l) && PathError(l)
    ensures RmdirAnswers(w, l, a, RmdirAt(w, l, a).0, RmdirAt(w, l, a).1)
  {
    RmdirTakesOneEmptyDirectory(w, l, a, []);
  }

  lemma {:induction false} AnyMkdir(w: World, l: Located, a: Answers)
    requires Good(w) && Known(w, l) && PathError(l)
    ensures MkdirAnswers(w, l, a, MkdirAt(w, l, a).0, MkdirAt(w, l, a).1)
  {
    if l.There? {
      MkdirAddsOneDirectory(w, l, a, []);
    }
  }

  lemma {:induction false} ServeRemove(w: World, path: string, a: Answers)
    requires Good(w)
    ensures var (w', err) := Serve(w, Remove(path), a); RemoveAnswers(w, Locate(w, path, a), a, w', err)
  {
    PathLeads(w, path, a);
    AnyRemove(w, Locate(w, path, a), a);
  }

  lemma {:induction false} ServeRmdir(w: World, path: string, a: Answers)
    requires Good(w)
    ensures var (w', err) := Serve(w, Rmdir(path), a); RmdirAnswers(w, Locate(w, path, a), a, w', err)
  {
    PathLeads(w, path, a);
    AnyRmdir(w, Locate(w, path, a), a);
  }

  lemma {:induction false} ServeMkdir(w: World, path: string, a: Answers)
    requires Good(w)
    ensures var (w', err) := Serve(w, Mkdir(path), a); MkdirAnswers(w, Locate(w, path, a), a, w', err)
  {
    PathLeads(w, path, a);
    AnyMkdir(w, Locate(w, path, a), a);
  }

  /** Both paths are in one space. */
  predicate InOneSpace(src: Located, dst: Located) {
    src.There? && dst.There? && src.at.id == dst.at.id
  }

  /** The check of a plain rename finds its target taken. */
  predicate SeesTarget(w: World, dst: Located, allowOverwrite: bool, a: Answers)
    requires dst.There? && dst.at.id in w.trees
  {
    !allowOverwrite && a.stat == Answered && dst.at.path in w.trees[dst.at.id]
  }

  /** A rename is done only within one space. A path that leads nowhere is reported with its own error, the source's
      first; two spaces as such; a target that exists, by the check or by the storage, as existing; a source that does
      not, as not there. */
  ghost predicate RenameAnswers(w: World, src: Located, dst: Located, allowOverwrite: bool, a: Answers, w': World,
                                err: Err)
    requires Known(w, src) && Known(w, dst)
  {
    && (err != NIL ==> w' == w)
    && (src.Nowhere? ==> err == src.err)
    && (src.There? && dst.Nowhere? ==> err == dst.err)
    && (src.There? && dst.There? && src.at.id != dst.at.id ==> err == CROSS_SPACE)
    && (InOneSpace(src, dst) ==>
          var t := w.trees[src.at.id];
          var seen := SeesTarget(w, dst, allowOverwrite, a);
          var possible := a.act == Answered && CanMove(t, src.at.path, dst.at.path);
          && (err == NIL <==> !seen && possible && (dst.at.path in t ==> w.moveOverwrites))
          && (err == EXIST <==> seen || (possible && dst.at.path in t && !w.moveOverwrites))
          && (err == NOT_EXIST <==> !seen && a.act == Answered && src.at.path !in t)
          && (err == NIL || err == EXIST || err == NOT_EXIST || err == OTHER)
          && (err == NIL ==> w' == Put(w, src.at.id, MovedTree(t, src.at.path, dst.at.path))))
  }

  lemma {:induction false} AnyRename(w: World, src: Located, dst: Located, allowOverwrite: bool, a: Answers)
    requires Good(w) && Known(w, src) && Known(w, dst)
    ensures var (w', err) := RenameAt(w, src, dst, allowOverwrite, a);
            RenameAnswers(w, src, dst, allowOverwrite, a, w', err)
  {
  }

  /** A plain rename answers so without, and a POSIX rename with leave to overwrite. */
  lemma {:induction false} ServeRename(w: World, oldpath: string, newpath: string, a: Answers)
    requires Good(w)
    ensures var src, dst := Locate(w, oldpath, a), Locate(w, newpath, a);
            && RenameAnswers(w, src, dst, false, a, Serve(w, Rename(oldpath, newpath), a).0,
                             Serve(w, Rename(oldpath, newpath), a).1)
            && RenameAnswers(w, src, dst, true, a, Serve(w, PosixRename(oldpath, newpath), a).0,
                             Serve(w, PosixRename(oldpath, newpath), a).1)
  {
    AnyRename(w, Locate(w, oldpath, a), Locate(w, newpath, a), false, a);
    AnyRename(w, Locate(w, oldpath, a), Locate(w, newpath, a), true, a);
  }

  /** Nothing else is served. */
  lemma ServeNothingElse(w: World, q: Request, a: Answers)
    requires q.Setstat? || q.Link? || q.Symlink? || q.Unknown?
    ensures Serve(w, q, a) == (w, UNSUPPORTED)
  {
  }
}
