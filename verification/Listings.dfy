/** Directory listings: file infos, their agreement with stat, and paging. */
module Listings {
  import opened Options
  import opened Paging
  import opened Paths
  import opened Spaces
  import opened Gateway
  import opened Namespace

  // The directory bit of a file mode, and the permissions rw-r--r--, rwxr-xr-x and rwxrwxr-x.
  const MODE_DIR := 0x8000_0000
  const MODE_0644 := 6 * 64 + 4 * 8 + 4
  const MODE_0755 := 7 * 64 + 5 * 8 + 5
  const MODE_0775 := 7 * 64 + 7 * 8 + 5

  /** What the gateway reports about a resource. */
  datatype ResourceInfo = ResourceInfo(name: string, size: nat, container: bool)

  datatype FileInfo = FileInfo(name: string, size: nat, mode: nat, isDir: bool)

  function ToFileInfo(ri: ResourceInfo): FileInfo {
    FileInfo(ri.name, ri.size, if ri.container then MODE_0755 + MODE_DIR else MODE_0644, ri.container)
  }

  /** The entry of a directory is a directory, by its kind and by the one bit of its mode, that anyone may enter; any
      other entry is a plain file that only its owner may write. */
  ghost predicate Describes(f: FileInfo, name: string, size: nat, container: bool) {
    && f.name == name && f.size == size && (f.isDir <==> container)
    && (f.mode >= MODE_DIR <==> container)
    && f.mode % MODE_DIR == if container then 7 * 64 + 5 * 8 + 5 else 6 * 64 + 4 * 8 + 4
  }

  lemma ToFileInfoDescribes(ri: ResourceInfo)
    ensures Describes(ToFileInfo(ri), ri.name, ri.size, ri.container)
  {
  }

  method ToFileInfos(infos: seq<ResourceInfo>) returns (files: seq<FileInfo>)
    ensures |files| == |infos| && forall i | 0 <= i < |infos| :: files[i] == ToFileInfo(infos[i])
    ensures forall i | 0 <= i < |infos| :: Describes(files[i], infos[i].name, infos[i].size, infos[i].container)
  {
    files := [];
    for k := 0 to |infos|
      invariant |files| == k && forall i | 0 <= i < k :: files[i] == ToFileInfo(infos[i])
    {
      var mode, isDir := MODE_0644, false;
      if infos[k].container {
        mode := MODE_0755 + MODE_DIR;
        isDir := true;
      }
      files := files + [FileInfo(infos[k].name, infos[k].size, mode, isDir)];
    }
  }

  method StorageSpacesToFileInfo(spaces: seq<Space>) returns (files: seq<FileInfo>)
    ensures |files| == |spaces|
    ensures forall i | 0 <= i < |spaces| :: files[i] == FileInfo(spaces[i].name, 0, MODE_0775 + MODE_DIR, true)
  {
    files := [];
    for k := 0 to |spaces|
      invariant |files| == k
      invariant forall i | 0 <= i < k :: files[i] == FileInfo(spaces[i].name, 0, MODE_0775 + MODE_DIR, true)
    {
      files := files + [FileInfo(spaces[k].name, 0, MODE_0775 + MODE_DIR, true)];
    }
  }

  function InfoAt(t: Tree, p: Path): ResourceInfo
    requires p in t && p != []
  {
    ResourceInfo(p[|p| - 1], if t[p].File? then |t[p].content| else 0, t[p].Dir?)
  }

  /** `infos` reports each entry of the directory once, in any order. */
  ghost predicate Reports(t: Tree, p: Path, infos: seq<ResourceInfo>) {
    && (forall i, j | 0 <= i < |infos| && 0 <= j < |infos| && infos[i].name == infos[j].name :: i == j)
    && (forall i | 0 <= i < |infos| :: p + [infos[i].name] in t && infos[i] == InfoAt(t, p + [infos[i].name]))
    && (forall n | n in Children(t, p) :: exists i :: 0 <= i < |infos| && infos[i].name == n)
  }

  /** The stat of a path below a space, for an existing resource and an answered request. */
  function StatInfo(w: World, path: string, a: Answers): Option<FileInfo> {
    var l := Locate(w, path, a);
    if l.There? && a.stat == Answered && l.at.path in w.trees[l.at.id] && l.at.path != []
    then Some(ToFileInfo(InfoAt(w.trees[l.at.id], l.at.path))) else None
  }

  lemma LocateOfChild(w: World, path: string, name: string, a: Answers)
    requires IsName(name) && SplitAbsolutePath(path).0 != "" && Locate(w, path, a).There?
    ensures Locate(w, path + "/" + name, a) ==
            There(Place(Locate(w, path, a).at.id, Locate(w, path, a).at.path + [name]))
  {
    var (space, rest) := SplitAbsolutePath(path);
    assert SplitAbsolutePath(path + "/" + name).0 == space by { SplitOfChild(path, name); }
    assert Segments(SplitAbsolutePath(path + "/" + name).1) == Segments(rest) + [name] by { SplitOfChild(path, name); }
  }

  /** Stat, one name further down. */
  lemma StatOfChild(w: World, path: string, name: string, a: Answers)
    requires IsName(name) && SplitAbsolutePath(path).0 != "" && a.stat == Answered && Locate(w, path, a).There?
    ensures var at := Locate(w, path, a).at;
            var t, q := w.trees[at.id], at.path + [name];
            StatInfo(w, path + "/" + name, a) == if q in t then Some(ToFileInfo(InfoAt(t, q))) else None
  {
    LocateOfChild(w, path, name, a);
  }

  /** A truthful listing has exactly one entry for each name in the directory, and it describes what is there. */
  lemma EntryDescribes(t: Tree, p: Path, infos: seq<ResourceInfo>, name: string)
    requires Reports(t, p, infos)
    ensures forall i | 0 <= i < |infos| && infos[i].name == name ::
              && p + [name] in t && infos[i] == InfoAt(t, p + [name])
              && Describes(ToFileInfo(infos[i]), name, SizeOf(t[p + [name]]), t[p + [name]].Dir?)
    ensures (exists i :: 0 <= i < |infos| && infos[i].name == name) <==> p + [name] in t
  {
    var q := p + [name];
    if q in t {
      assert Parent(q) == p && q[|q| - 1] == name;
      assert name in Children(t, p);
    }
  }

  function SizeOf(node: Node): nat {
    if node.File? then |node.content| else 0
  }

  /** Below the root, listing and stat agree: every entry of a directory's listing is what stat says of the entry's own
      path, and describes what is there; and every path one name further down that stat knows has exactly one entry. */
  lemma ListAgreesWithStat(w: World, path: string, infos: seq<ResourceInfo>, a: Answers, name: string)
    requires IsName(name) && SplitAbsolutePath(path).0 != "" && a.stat == Answered
    requires var l := Locate(w, path, a); l.There? && Reports(w.trees[l.at.id], l.at.path, infos)
    ensures var at := Locate(w, path, a).at;
            var t, q := w.trees[at.id], at.path + [name];
            forall i | 0 <= i < |infos| && infos[i].name == name ::
              && StatInfo(w, path + "/" + name, a) == Some(ToFileInfo(infos[i]))
              && q in t && Describes(ToFileInfo(infos[i]), name, SizeOf(t[q]), t[q].Dir?)
    ensures (exists i :: 0 <= i < |infos| && infos[i].name == name) <==> StatInfo(w, path + "/" + name, a).Some?
  {
    var at := Locate(w, path, a).at;
    StatOfChild(w, path, name, a);
    EntryDescribes(w.trees[at.id], at.path, infos, name);
  }

  /** The paths "/" and "" name no space: their stat reports "not found", although "/" can be listed. */
  lemma RootHasNoStat(w: World, a: Answers)
    requires forall s | s in w.spaces :: s.name != ""
    ensures StatInfo(w, "/", a).None? && StatInfo(w, "", a).None?
  {
    forall k | 0 <= k < |w.spaces| ensures w.spaces[k].name != "" { assert w.spaces[k] in w.spaces; }
    NamesNoSpace("/");
    NamesNoSpace("");
    FirstNamedSkips("", Visible(w, a), |Visible(w, a)|);
  }

  /** The lister: copies entries from `offset` on into the caller's buffer, and reports the end when the buffer is not
      filled. */
  method ListAt(f: seq<FileInfo>, ls: array<FileInfo>, offset: nat) returns (n: nat, eof: bool)
    modifies ls
    ensures n <= ls.Length && ls[n..] == old(ls[n..])
    ensures Page(ls[..n], eof) == ListPage(f, offset, ls.Length)
    ensures n == (if |f| <= offset then 0 else if ls.Length <= |f| - offset then ls.Length else |f| - offset)
    ensures forall i | 0 <= i < n :: ls[i] == f[offset + i]
    ensures eof <==> |f| <= offset || |f| - offset < ls.Length
  {
    if offset >= |f| { return 0, true; }
    n := 0;
    while n < ls.Length && offset + n < |f|
      invariant n <= ls.Length && offset + n <= |f|
      invariant ls[..n] == f[offset..offset + n]
      invariant forall k | n <= k < ls.Length :: ls[k] == old(ls[k])
      decreases ls.Length - n
    {
      ls[n] := f[offset + n];
      n := n + 1;
    }
    eof := n < ls.Length;
  }

  function ListPage(f: seq<FileInfo>, offset: nat, n: nat): Page<FileInfo> {
    if |f| <= offset then Page([], true) else Page(Slice(f, offset, n), |Slice(f, offset, n)| < n)
  }

  /** Paged listing is complete: for any list and any positive page sizes, asking at accumulated offsets until the end
      terminates and yields every entry exactly once, in order, also when the last page is exactly full. */
  lemma PagedListingIsComplete(f: seq<FileInfo>, sizes: nat -> nat)
    requires forall j: nat :: 0 < sizes(j)
    ensures var pager := (u: (), off, n) => (u, ListPage(f, off, n));
            Serves(pager, u => true, f) && Drain(pager, u => true, f, (), 0, sizes, 0) == f
  {
    DrainYieldsAll((u: (), off, n) => (u, ListPage(f, off, n)), u => true, f, (), 0, sizes, 0);
  }
}
