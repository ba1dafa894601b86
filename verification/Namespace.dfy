/** The namespace commands of a session: each resolves its paths to a space and then runs a short sequence of
    gateway calls, checking before acting. */
module Namespace {
  import opened Options
  import opened Bytes
  import opened Paths
  import opened Spaces
  import opened Gateway

  datatype Err =
    | NIL | NOT_EXIST | EXIST | INVALID | NOT_DIRECTORY | NOT_EMPTY | CROSS_SPACE | UNSUPPORTED | OTHER

  type Failure = e: Err | e != NIL witness OTHER

  /** Whether the gateway answers a call, truthfully, or the call fails in any other way. */
  datatype Answer = Answered | Broken

  /** Listing the spaces can also be refused without an error, which is read as "no spaces". */
  datatype Listing = Listed | Unlisted | ListingBroken

  datatype Answers = Answers(spaces: Listing, stat: Answer, list: Answer, act: Answer)

  /** The spaces of the user and, by space id, what is in them; and whether the storage's Move replaces its target. */
  datatype World = World(spaces: seq<Space>, trees: map<string, Tree>, moveOverwrites: bool)

  ghost predicate Good(w: World) {
    && (forall s | s in w.spaces :: s.id in w.trees)
    && forall id | id in w.trees :: WellFormed(w.trees[id])
  }

  datatype Place = Place(id: string, path: Path)

  function Visible(w: World, a: Answers): seq<Space> {
    if a.spaces == Listed then w.spaces else []
  }

  /** Where a path leads, if its first element names a space. */
  function Resolve(spaces: seq<Space>, path: string): Option<Place> {
    var (name, rest) := SplitAbsolutePath(path);
    var space := FirstNamed(name, spaces);
    if space.None? then None else Some(Place(space.value.id, Segments(rest)))
  }

  /** What becomes of a path before the first gateway call on it: a place, or the error to return at once. */
  datatype Located = Nowhere(err: Failure) | There(at: Place)

  predicate Known(w: World, l: Located) {
    l.There? ==> l.at.id in w.trees
  }

  function Locate(w: World, path: string, a: Answers): (l: Located)
    ensures Known(w, l)
  {
    if a.spaces == ListingBroken then Nowhere(OTHER)
    else
      var place := Resolve(Visible(w, a), path);
      if place.Some? && place.value.id in w.trees then There(place.value) else Nowhere(NOT_EXIST)
  }

  function Put(w: World, id: string, t: Tree): World {
    w.(trees := w.trees[id := t])
  }

  function StatWith(t: Tree, p: Path, a: Answer): StatReply {
    if a == Broken then StatFailed else Stat(t, p)
  }

  function MkdirAt(w: World, l: Located, a: Answers): (World, Err)
    requires Known(w, l)
  {
    if l.Nowhere? then (w, l.err)
    else if a.act == Broken then (w, OTHER)
    else
      var (t, code) := CreateContainer(w.trees[l.at.id], l.at.path);
      if code == OK then (Put(w, l.at.id, t), NIL) else (w, if code == ALREADY_EXISTS then EXIST else OTHER)
  }

  /** The gateway's deletion of a place, subtree and all. */
  function DeleteAt(w: World, at: Place): (World, Err)
    requires at.id in w.trees
  {
    var (t, code) := Delete(w.trees[at.id], at.path);
    if code == OK then (Put(w, at.id, t), NIL) else (w, if code == NOT_FOUND then NOT_EXIST else OTHER)
  }

  function RemoveAt(w: World, l: Located, a: Answers): (World, Err)
    requires Known(w, l)
  {
    if l.Nowhere? then (w, l.err)
    else
      var stat := StatWith(w.trees[l.at.id], l.at.path, a.stat);
      if stat.StatFailed? then (w, OTHER)
      else if stat.StatNotFound? then (w, NOT_EXIST)
      else if stat.node.Dir? then (w, INVALID)
      else if a.act == Broken then (w, OTHER)
      else DeleteAt(w, l.at)
  }

  function RmdirAt(w: World, l: Located, a: Answers): (World, Err)
    requires Known(w, l)
  {
    if l.Nowhere? then (w, l.err)
    else
      var stat := StatWith(w.trees[l.at.id], l.at.path, a.stat);
      if stat.StatFailed? then (w, OTHER)
      else if stat.StatNotFound? then (w, NOT_EXIST)
      else if !stat.node.Dir? then (w, NOT_DIRECTORY)
      else if a.list == Broken then (w, OTHER)
      else if Children(w.trees[l.at.id], l.at.path) != {} then (w, NOT_EMPTY)
      else if a.act == Broken then (w, OTHER)
      else DeleteAt(w, l.at)
  }

  function MoveAt(w: World, id: string, src: Path, dst: Path): (World, Err)
    requires id in w.trees
  {
    var (t, code) := Move(w.trees[id], src, dst, w.moveOverwrites);
    if code == OK then (Put(w, id, t), NIL)
    else (w, if code == NOT_FOUND then NOT_EXIST else if code == ALREADY_EXISTS then EXIST else OTHER)
  }

  function RenameAt(w: World, src: Located, dst: Located, allowOverwrite: bool, a: Answers): (World, Err)
    requires Known(w, src) && Known(w, dst)
  {
    if src.Nowhere? then (w, src.err)
    else if dst.Nowhere? then (w, dst.err)
    else if src.at.id != dst.at.id then (w, CROSS_SPACE)
    // Any answer of Stat but "it exists" falls through to the move.
    else if !allowOverwrite && StatWith(w.trees[dst.at.id], dst.at.path, a.stat).Info? then (w, EXIST)
    else if a.act == Broken then (w, OTHER)
    else MoveAt(w, src.at.id, src.at.path, dst.at.path)
  }

  /** The requests of the SFTP server that concern the namespace. */
  datatype Request =
    | Mkdir(path: string) | Rmdir(path: string) | Remove(path: string)
    | Rename(oldpath: string, newpath: string) | PosixRename(oldpath: string, newpath: string)
    | Setstat | Link | Symlink | Unknown

  /** The command a request is dispatched to, with its paths located. */
  datatype Command =
    | DoMkdir(l: Located) | DoRmdir(l: Located) | DoRemove(l: Located)
    | DoRename(src: Located, dst: Located, allowOverwrite: bool)
    | Unsupported

  predicate KnownCommand(w: World, c: Command) {
    match c
    case DoRename(src, dst, _) => Known(w, src) && Known(w, dst)
    case Unsupported => true
    case _ => Known(w, c.l)
  }

  /** The dispatch: a plain rename must not overwrite, the POSIX one may. */
  function Dispatch(w: World, q: Request, a: Answers): (c: Command)
    ensures KnownCommand(w, c)
    ensures c.DoRename? ==> (c.allowOverwrite <==> q.PosixRename?)
  {
    match q
    case Rename(oldpath, newpath) => DoRename(Locate(w, oldpath, a), Locate(w, newpath, a), false)
    case PosixRename(oldpath, newpath) => DoRename(Locate(w, oldpath, a), Locate(w, newpath, a), true)
    case Rmdir(path) => DoRmdir(Locate(w, path, a))
    case Remove(path) => DoRemove(Locate(w, path, a))
    case Mkdir(path) => DoMkdir(Locate(w, path, a))
    case _ => Unsupported
  }

  function Perform(w: World, c: Command, a: Answers): (World, Err)
    requires KnownCommand(w, c)
  {
    match c
    case DoMkdir(l) => MkdirAt(w, l, a)
    case DoRmdir(l) => RmdirAt(w, l, a)
    case DoRemove(l) => RemoveAt(w, l, a)
    case DoRename(src, dst, allowOverwrite) => RenameAt(w, src, dst, allowOverwrite, a)
    case Unsupported => (w, UNSUPPORTED)
  }

  function Serve(w: World, q: Request, a: Answers): (World, Err) {
    Perform(w, Dispatch(w, q, a), a)
  }

  /** A session's root object, with the storage behind its gateway. */
  class Root {
    var spaces: seq<Space>
    var trees: map<string, Tree>
    const moveOverwrites: bool

    ghost function View(): World
      reads this
    {
      World(spaces, trees, moveOverwrites)
    }

    constructor (spaces: seq<Space>, trees: map<string, Tree>, moveOverwrites: bool)
      ensures View() == World(spaces, trees, moveOverwrites)
    {
      this.spaces, this.trees, this.moveOverwrites := spaces, trees, moveOverwrites;
    }

    /** Resolve a path to a place, or to the error to return at once. */
    method Find(path: string, a: Answers) returns (l: Located)
      ensures l == Locate(View(), path, a)
    {
      if a.spaces == ListingBroken { return Nowhere(OTHER); }
      var storageSpaces := if a.spaces == Listed then spaces else [];
      var spc, relPath := FindSpaceForPath(path, storageSpaces);
      if spc.None? || spc.value.id !in trees { return Nowhere(NOT_EXIST); }
      return There(Place(spc.value.id, Segments(relPath)));
    }

    method MakeDir(path: string, a: Answers) returns (err: Err)
      modifies this`trees
      ensures (View(), err) == MkdirAt(old(View()), Locate(old(View()), path, a), a)
    {
      var l := Find(path, a);
      if l.Nowhere? { return l.err; }
      if a.act == Broken { return OTHER; }
      var (t, code) := CreateContainer(trees[l.at.id], l.at.path);
      if code != OK {
        if code == ALREADY_EXISTS { return EXIST; }
        return OTHER;
      }
      trees := trees[l.at.id := t];
      return NIL;
    }

    method RenameFile(oldpath: string, newpath: string, allowOverwrite: bool, a: Answers) returns (err: Err)
      modifies this`trees
      ensures (View(), err) ==
              RenameAt(old(View()), Locate(old(View()), oldpath, a), Locate(old(View()), newpath, a), allowOverwrite, a)
    {
      var src := Find(oldpath, a);
      if src.Nowhere? { return src.err; }
      var dst := Find(newpath, a);
      if dst.Nowhere? { return dst.err; }
      if src.at.id != dst.at.id { return CROSS_SPACE; }
      if !allowOverwrite {
        var stat := StatWith(trees[dst.at.id], dst.at.path, a.stat);
        if stat.Info? { return EXIST; }
      }
      if a.act == Broken { return OTHER; }
      var (t, code) := Move(trees[src.at.id], src.at.path, dst.at.path, moveOverwrites);
      if code != OK {
        return if code == NOT_FOUND then NOT_EXIST else if code == ALREADY_EXISTS then EXIST else OTHER;
      }
      trees := trees[src.at.id := t];
      return NIL;
    }

    method DeleteResource(at: Place) returns (err: Err)
      requires at.id in trees
      modifies this`trees
      ensures (View(), err) == DeleteAt(old(View()), at)
    {
      var (t, code) := Delete(trees[at.id], at.path);
      if code != OK {
        if code == NOT_FOUND { return NOT_EXIST; }
        return OTHER;
      }
      trees := trees[at.id := t];
      return NIL;
    }

    method RemoveFile(path: string, a: Answers) returns (err: Err)
      modifies this`trees
      ensures (View(), err) == RemoveAt(old(View()), Locate(old(View()), path, a), a)
    {
      var l := Find(path, a);
      if l.Nowhere? { return l.err; }
      var stat := StatWith(trees[l.at.id], l.at.path, a.stat);
      if stat.StatFailed? { return OTHER; }
      if stat.StatNotFound? { return NOT_EXIST; }
      if stat.node.Dir? { return INVALID; }
      if a.act == Broken { return OTHER; }
      err := DeleteResource(l.at);
    }

    method RemoveDir(path: string, a: Answers) returns (err: Err)
      modifies this`trees
      ensures (View(), err) == RmdirAt(old(View()), Locate(old(View()), path, a), a)
    {
      var l := Find(path, a);
      if l.Nowhere? { return l.err; }
      var stat := StatWith(trees[l.at.id], l.at.path, a.stat);
      if stat.StatFailed? { return OTHER; }
      if stat.StatNotFound? { return NOT_EXIST; }
      if !stat.node.Dir? { return NOT_DIRECTORY; }
      if a.list == Broken { return OTHER; }
      if Children(trees[l.at.id], l.at.path) != {} { return NOT_EMPTY; }
      if a.act == Broken { return OTHER; }
      err := DeleteResource(l.at);
    }

    method Filecmd(q: Request, a: Answers) returns (err: Err)
      modifies this`trees
      ensures (View(), err) == Serve(old(View()), q, a)
    {
      match q {
        case Rename(oldpath, newpath) => err := RenameFile(oldpath, newpath, false, a);
        case PosixRename(oldpath, newpath) => err := RenameFile(oldpath, newpath, true, a);
        case Rmdir(path) => err := RemoveDir(path, a);
        case Remove(path) => err := RemoveFile(path, a);
        case Mkdir(path) => err := MakeDir(path, a);
        case _ => err := UNSUPPORTED;
      }
    }
  }

  // ----- what one command does -----

  ghost predicate IsFile(w: World, l: Located) {
    l.There? && l.at.id in w.trees && l.at.path in w.trees[l.at.id] && w.trees[l.at.id][l.at.path].File?
  }

  ghost predicate IsEmptyDir(w: World, l: Located) {
    l.There? && l.at.id in w.trees && l.at.path in w.trees[l.at.id] && w.trees[l.at.id][l.at.path].Dir?
    && Children(w.trees[l.at.id], l.at.path) == {}
  }

  /** The world without the one path at `at`. */
  function Without(w: World, at: Place): World
    requires at.id in w.trees
  {
    Put(w, at.id, w.trees[at.id] - {at.path})
  }

  /** A remove succeeds exactly on an existing non-directory when every call is answered, and then that one file goes;
      otherwise nothing changes. */
  lemma RemoveTakesOneFile(w: World, l: Located, a: Answers, c: seq<byte>)
    requires Good(w) && Known(w, l)
    ensures var (w', err) := RemoveAt(w, l, a);
            && (err == NIL <==> a.stat == Answered && a.act == Answered && IsFile(w, l))
            && w' == (if err == NIL then Without(w, l.at) else w)
            && (err == NIL ==>
                  Count(w.trees[l.at.id], c) ==
                  Count(w'.trees[l.at.id], c) + if w.trees[l.at.id][l.at.path] == File(c) then 1 else 0)
  {
    if IsFile(w, l) {
      DeleteFile(w.trees[l.at.id], l.at.path, c);
    }
  }

  /** A rmdir succeeds exactly on an existing empty directory other than the space itself, and takes only that. */
  lemma RmdirTakesOneEmptyDirectory(w: World, l: Located, a: Answers, c: seq<byte>)
    requires Good(w) && Known(w, l)
    ensures var (w', err) := RmdirAt(w, l, a);
            && (err == NIL <==> a.stat == a.list == a.act == Answered && IsEmptyDir(w, l) && l.at.path != [])
            && w' == (if err == NIL then Without(w, l.at) else w)
            && (err == NIL ==> Count(w'.trees[l.at.id], c) == Count(w.trees[l.at.id], c))
  {
    if IsEmptyDir(w, l) {
      DeleteEmptyDir(w.trees[l.at.id], l.at.path, c);
    }
  }

  /** A plain rename onto an existing path leaves everything as it was if and only if the Stat is answered, or the
      storage's Move refuses existing targets, or the move would have failed in any case. */
  lemma RenameOntoExisting(w: World, id: string, src: Path, dst: Path, a: Answers)
    requires Good(w) && id in w.trees && dst in w.trees[id]
    ensures RenameAt(w, There(Place(id, src)), There(Place(id, dst)), false, a).0 == w <==>
            || a.stat == Answered || !w.moveOverwrites
            || a.act == Broken || src !in w.trees[id] || src <= dst || dst <= src
  {
    var t := w.trees[id];
    if src in t && !(src <= dst) && !(dst <= src) {
      assert HasParent(t, dst);
      MovedFrom(t, src, dst);
      assert src !in MovedTree(t, src, dst);
      assert Put(w, id, MovedTree(t, src, dst)).trees[id] != t;
    }
  }

  /** A rename succeeds exactly when the move can be made and does not meet an existing target that the check, or the
      storage, would have refused; it then moves the subtree and loses the files at its target, as often as each
      content occurs there, and nothing else. A rename that fails changes nothing. */
  lemma RenameMoves(w: World, id: string, src: Path, dst: Path, allowOverwrite: bool, a: Answers,
                    c: seq<byte>)
    requires Good(w) && id in w.trees
    ensures var t := w.trees[id];
            var (w', err) := RenameAt(w, There(Place(id, src)), There(Place(id, dst)), allowOverwrite, a);
            && (err == NIL <==>
                  && a.act == Answered && CanMove(t, src, dst)
                  && (dst in t ==> w.moveOverwrites && (allowOverwrite || a.stat == Broken)))
            && w' == (if err == NIL then Put(w, id, MovedTree(t, src, dst)) else w)
            && Count(t, c) == Count(w'.trees[id], c) + (if err == NIL then |Inside(t, c, dst)| else 0)
            && (err == NIL && dst !in t ==> Inside(t, c, dst) == {})
  {
    if CanMove(w.trees[id], src, dst) {
      MoveReplaces(w.trees[id], src, dst, c);
    }
  }

  /** A mkdir succeeds exactly on a free path in an existing directory, and adds that one directory; for an existing
      path of any kind the error says so. */
  lemma MkdirAddsOneDirectory(w: World, l: Located, a: Answers, c: seq<byte>)
    requires Good(w) && Known(w, l) && l.There?
    ensures var t := w.trees[l.at.id];
            var (w', err) := MkdirAt(w, l, a);
            && (err == NIL <==> a.act == Answered && l.at.path !in t && HasParent(t, l.at.path))
            && (err == EXIST <==> a.act == Answered && l.at.path in t)
            && w' == (if err == NIL then Put(w, l.at.id, t[l.at.path := Dir]) else w)
            && Count(w'.trees[l.at.id], c) == Count(t, c)
  {
    var t := w.trees[l.at.id];
    if l.at.path !in t {
      assert FilesWith(t[l.at.path := Dir], c) == FilesWith(t, c);
    }
  }

  // ----- whole runs -----

  /** The space a command may change. */
  function Concerns(c: Command): Option<string> {
    match c
    case Unsupported => None
    case DoRename(src, _, _) => if src.There? then Some(src.at.id) else None
    case _ => if c.l.There? then Some(c.l.at.id) else None
  }

  /** 1 if the command removes a file with that content from space `id`. */
  function Removed(w: World, c: Command, a: Answers, id: string, content: seq<byte>): nat
    requires KnownCommand(w, c)
  {
    if c.DoRemove? && c.l.There? && c.l.at.id == id && RemoveAt(w, c.l, a).1 == NIL
       && c.l.at.path in w.trees[id] && w.trees[id][c.l.at.path] == File(content) then 1 else 0
  }

  /** How many files with that content in space `id` lie where the command's rename succeeds in moving something. */
  function Overwritten(w: World, c: Command, a: Answers, id: string, content: seq<byte>): nat
    requires KnownCommand(w, c)
  {
    if c.DoRename? && c.dst.There? && c.dst.at.id == id && RenameAt(w, c.src, c.dst, c.allowOverwrite, a).1 == NIL
    then |Inside(w.trees[id], content, c.dst.at.path)| else 0
  }

  /** Well formed still, and nothing but the tree of that space differs. */
  ghost predicate Keeps(w: World, w': World, concerned: Option<string>) {
    && Good(w') && w'.spaces == w.spaces && w'.moveOverwrites == w.moveOverwrites && w'.trees.Keys == w.trees.Keys
    && forall id | id in w.trees && concerned != Some(id) :: w'.trees[id] == w.trees[id]
  }

  lemma PutKeeps(w: World, id: string, t: Tree)
    requires Good(w) && id in w.trees && WellFormed(t)
    ensures Keeps(w, Put(w, id, t), Some(id))
  {
  }

  lemma MkdirKeeps(w: World, l: Located, a: Answers)
    requires Good(w) && Known(w, l)
    ensures Keeps(w, MkdirAt(w, l, a).0, Concerns(DoMkdir(l)))
  {
    if l.There? {
      CreateKeepsWellFormed(w.trees[l.at.id], l.at.path);
      PutKeeps(w, l.at.id, CreateContainer(w.trees[l.at.id], l.at.path).0);
    }
  }

  lemma DeleteKeeps(w: World, l: Located, a: Answers)
    requires Good(w) && Known(w, l)
    ensures Keeps(w, RemoveAt(w, l, a).0, Concerns(DoRemove(l)))
    ensures Keeps(w, RmdirAt(w, l, a).0, Concerns(DoRmdir(l)))
  {
    if l.There? {
      DeleteKeepsWellFormed(w.trees[l.at.id], l.at.path);
      PutKeeps(w, l.at.id, Delete(w.trees[l.at.id], l.at.path).0);
    }
  }

  lemma MoveKeeps(w: World, id: string, src: Path, dst: Path)
    requires Good(w) && id in w.trees
    ensures Keeps(w, MoveAt(w, id, src, dst).0, Some(id))
  {
    MoveKeepsWellFormed(w.trees[id], src, dst, w.moveOverwrites);
    PutKeeps(w, id, Move(w.trees[id], src, dst, w.moveOverwrites).0);
  }

  lemma RenameKeeps(w: World, src: Located, dst: Located, allowOverwrite: bool, a: Answers)
    requires Good(w) && Known(w, src) && Known(w, dst)
    ensures Keeps(w, RenameAt(w, src, dst, allowOverwrite, a).0, Concerns(DoRename(src, dst, allowOverwrite)))
  {
    if src.There? && dst.There? {
      MoveKeeps(w, src.at.id, src.at.path, dst.at.path);
    }
  }

  /** Every command keeps the trees well formed and leaves all spaces but the one it concerns as they were. */
  lemma PerformKeeps(w: World, c: Command, a: Answers)
    requires Good(w) && KnownCommand(w, c)
    ensures Keeps(w, Perform(w, c, a).0, Concerns(c))
  {
    match c
    case DoMkdir(l) => MkdirKeeps(w, l, a);
    case DoRmdir(l) => DeleteKeeps(w, l, a);
    case DoRemove(l) => DeleteKeeps(w, l, a);
    case DoRename(src, dst, allowOverwrite) => RenameKeeps(w, src, dst, allowOverwrite, a);
    case Unsupported =>
  }

  /** Every command keeps the files of every space, up to the one that a remove takes and those at the target of a
      rename. */
  lemma PerformConserves(w: World, c: Command, a: Answers, id: string, content: seq<byte>)
    requires Good(w) && KnownCommand(w, c) && id in w.trees
    ensures id in Perform(w, c, a).0.trees
    ensures Count(w.trees[id], content) ==
            Count(Perform(w, c, a).0.trees[id], content)
            + Removed(w, c, a, id, content) + Overwritten(w, c, a, id, content)
  {
    PerformKeeps(w, c, a);
    if Concerns(c) == Some(id) {
      match c
      case DoMkdir(l) => MkdirAddsOneDirectory(w, l, a, content);
      case DoRmdir(l) => RmdirTakesOneEmptyDirectory(w, l, a, content);
      case DoRemove(l) => RemoveTakesOneFile(w, l, a, content);
      case DoRename(src, dst, allowOverwrite) =>
        if dst.There? && dst.at.id == id {
          RenameMoves(w, id, src.at.path, dst.at.path, allowOverwrite, a, content);
        }
    }
  }

  datatype Step = Step(q: Request, a: Answers)

  function RunAll(w: World, steps: seq<Step>): World {
    if steps == [] then w
    else Serve(RunAll(w, steps[..|steps| - 1]), steps[|steps| - 1].q, steps[|steps| - 1].a).0
  }

  /** How many files with that content the removes, and the renames, of a run took from space `id`. */
  function LostInAll(w: World, steps: seq<Step>, id: string, content: seq<byte>): (nat, nat) {
    if steps == [] then (0, 0)
    else
      var (removed, overwritten) := LostInAll(w, steps[..|steps| - 1], id, content);
      var before, last := RunAll(w, steps[..|steps| - 1]), steps[|steps| - 1];
      var c := Dispatch(before, last.q, last.a);
      (removed + Removed(before, c, last.a, id, content), overwritten + Overwritten(before, c, last.a, id, content))
  }

  /** Conservation over whole runs: in every sequence of requests with whatever answers, in every space and for every
      file content, what was there is still there, except what successful removes took, one by one, and what lay at
      the target of a rename that succeeded; and the trees stay well formed. */
  lemma {:induction false} Conservation(w: World, steps: seq<Step>, id: string, content: seq<byte>)
    requires Good(w) && id in w.trees
    ensures var w' := RunAll(w, steps);
            var (removed, overwritten) := LostInAll(w, steps, id, content);
            && Good(w') && id in w'.trees && w'.moveOverwrites == w.moveOverwrites
            && Count(w.trees[id], content) == Count(w'.trees[id], content) + removed + overwritten
    decreases |steps|
  {
    if steps != [] {
      var prefix, last := steps[..|steps| - 1], steps[|steps| - 1];
      var before := RunAll(w, prefix);
      Conservation(w, prefix, id, content);
      var c := Dispatch(before, last.q, last.a);
      PerformKeeps(before, c, last.a);
      PerformConserves(before, c, last.a, id, content);
    }
  }

  /** A step whose rename, if it is one, is plain, and either its Stat is answered or the storage refuses existing
      targets. */
  predicate Safe(w: World, s: Step) {
    !s.q.PosixRename? && (s.q.Rename? ==> s.a.stat == Answered || !w.moveOverwrites)
  }

  lemma SafeStepOverwritesNothing(w: World, s: Step, id: string, content: seq<byte>)
    requires Good(w) && id in w.trees && Safe(w, s)
    ensures Overwritten(w, Dispatch(w, s.q, s.a), s.a, id, content) == 0
  {
    var c := Dispatch(w, s.q, s.a);
    if c.DoRename? && c.dst.There? && c.dst.at.id == id && c.src.There? && c.src.at.id == id {
      RenameMoves(w, id, c.src.at.path, c.dst.at.path, false, s.a, content);
    }
  }

  /** A run of such steps loses nothing but what its removes took. */
  lemma {:induction false} SafeRunsOverwriteNothing(w: World, steps: seq<Step>, id: string, content: seq<byte>)
    requires Good(w) && id in w.trees && forall s | s in steps :: Safe(w, s)
    ensures LostInAll(w, steps, id, content).1 == 0
    decreases |steps|
  {
    if steps != [] {
      var prefix, last := steps[..|steps| - 1], steps[|steps| - 1];
      assert last in steps && forall s | s in prefix :: s in steps;
      SafeRunsOverwriteNothing(w, prefix, id, content);
      Conservation(w, prefix, id, content);
      SafeStepOverwritesNothing(RunAll(w, prefix), last, id, content);
    }
  }

  // ----- the hypothesis on renames is needed -----

  const TWO_FILES: Tree := map[[] := Dir, ["a"] := File([1]), ["b"] := File([2])]

  lemma MoveOverTarget()
    ensures Move(TWO_FILES, ["a"], ["b"], true) == (map[[] := Dir, ["b"] := File([1])], OK)
  {
    assert "a"[0] != "b"[0] && ["a"][0] == "a" && ["b"][0] == "b" && Parent(["b"]) == [];
    var t' := MovedTree(TWO_FILES, ["a"], ["b"]);
    MovedFrom(TWO_FILES, ["a"], ["b"]);
    MovedInMove(TWO_FILES, ["a"], ["b"], ["a"]);
    KeptInMove(TWO_FILES, ["a"], ["b"], []);
    assert Rebase(["a"], ["b"], ["a"]) == ["b"];
    forall q | q in t' ensures q == [] || q == ["b"] {
      if q in MovedPaths(TWO_FILES, ["a"], ["b"]) {
        assert Back(["a"], ["b"], q) == ["a"];
      }
    }
    assert t' == map[[] := Dir, ["b"] := File([1])];
  }

  /** With a failing Stat and a storage that overwrites, a plain rename destroys its target. */
  lemma PlainRenameDestroysTarget(w: World, id: string, a: Answers)
    requires id in w.trees && w.trees[id] == TWO_FILES && w.moveOverwrites && a.stat == Broken && a.act == Answered
    ensures RenameAt(w, There(Place(id, ["a"])), There(Place(id, ["b"])), false, a) ==
            (Put(w, id, map[[] := Dir, ["b"] := File([1])]), NIL)
  {
    var t := w.trees[id];
    MoveOverTarget();
    assert Move(t, ["a"], ["b"], true) == (map[[] := Dir, ["b"] := File([1])], OK);
  }

  // ----- resolution -----

  lemma LocateSplit(w: World, k: nat, path: string, rest: string, a: Answers)
    requires Good(w) && a.spaces == Listed && k < |w.spaces|
    requires SplitAbsolutePath(path) == (w.spaces[k].name, rest)
    requires forall j | 0 <= j < k :: w.spaces[j].name != w.spaces[k].name
    ensures Locate(w, path, a) == There(Place(w.spaces[k].id, Segments(rest)))
  {
    assert Visible(w, a) == w.spaces && w.spaces[k] in w.spaces;
    FirstNamedIsFirst(w.spaces[k].name, w.spaces, k);
  }

  /** The path of a place is located there again, for the first space with its name and any canonical path inside it. */
  lemma LocateOfJoin(w: World, k: nat, rest: string, a: Answers)
    requires Good(w) && a.spaces == Listed && k < |w.spaces| && IsName(w.spaces[k].name) && IsCanonical(rest)
    requires forall j | 0 <= j < k :: w.spaces[j].name != w.spaces[k].name
    ensures Locate(w, Join(w.spaces[k].name, rest), a) == There(Place(w.spaces[k].id, Segments(rest)))
  {
    SplitOfJoin(w.spaces[k].name, rest);
    LocateSplit(w, k, Join(w.spaces[k].name, rest), rest, a);
  }
}
