/** An open file handle, its remote file and its mutex as values, with one function for each indivisible piece
    of the handler's code. `FileHandler` proves its method bodies against these functions and `Protocol` runs
    them as the steps of concurrent workers, so that both models share one definition of what the code does. */
module Handler {
  import opened Bytes
  import opened Options
  import opened Paging

  /** ETags are numbers; 0 is the empty string, which means "none seen". */
  type Tag = nat
  const NO_TAG: Tag := 0

  datatype Handle = Handle(cache: Option<seq<byte>>, valid: bool, size: nat, etag: Tag) {
    /** The bytes of the cache slice; a nil slice has none. */
    function Content(): seq<byte> {
      if cache.Some? then cache.value else []
    }

    predicate Warm() {
      valid && cache.Some?
    }

    /** What holds whenever no write section is under way. */
    predicate Consistent() {
      size == |Content()| && (valid ==> cache.Some?)
    }

    /** The bytes sent by an upload. */
    function Body(): seq<byte> {
      Slice(Content(), 0, size)
    }
  }

  const FRESH := Handle(None, false, 0, NO_TAG)

  // ----- the remote file: all its versions, the last one current; version number k has ETag k + 1 -----

  type Remote = r: seq<Option<seq<byte>>> | 0 < |r| witness [None]

  function Current(r: Remote): Option<seq<byte>> {
    r[|r| - 1]
  }

  function CurrentTag(r: Remote): Tag {
    |r|
  }

  /** If-Match: no condition, or the current version exists and carries that tag. */
  predicate Accepts(r: Remote, ifMatch: Tag) {
    ifMatch == NO_TAG || (Current(r).Some? && ifMatch == CurrentTag(r))
  }

  function Publish(r: Remote, body: seq<byte>): Remote {
    r + [Some(body)]
  }

  /** How the gateway answers one request: granted, granted without an ETag in the reply, or refused or failed. */
  datatype Reply = Granted | Untagged | Failed

  /** Contents found by a download: the version seen, its bytes if the file existed, and the ETag header. */
  datatype Found = Found(version: nat, file: Option<seq<byte>>, tag: Tag) {
    function Content(): seq<byte> {
      if file.Some? then file.value else []
    }
  }

  // ----- the mutex -----

  /** A Go RWMutex: it counts, it does not know who holds it, and releasing what nobody holds is fatal. */
  datatype Lock = Lock(readers: nat, writer: bool, crashed: bool) {
    predicate Free() {
      readers == 0 && !writer && !crashed
    }

    function AcquireRead(): Lock {
      this.(readers := readers + 1)
    }

    function ReleaseRead(): Lock {
      if readers == 0 then this.(crashed := true) else this.(readers := readers - 1)
    }

    function AcquireWrite(): Lock {
      this.(writer := true)
    }

    function ReleaseWrite(): Lock {
      if !writer then this.(crashed := true) else this.(writer := false)
    }
  }

  const UNLOCKED := Lock(0, false, false)

  // ----- the pieces of the handler's code -----

  /** Make room for a write that ends at `end`. */
  function GrowCache(h: Handle, end: nat): (h': Handle)
    ensures end <= |h'.Content()|
  {
    if |h.Content()| < end then h.(cache := Some(Grow(h.Content(), end)), size := end) else h
  }

  /** Copy `b` into the cache at `off`. */
  function CopyIn(h: Handle, off: nat, b: seq<byte>): Handle
    requires off + |b| <= |h.Content()|
  {
    if h.cache.Some? then h.(cache := Some(Overwrite(h.cache.value, off, b))) else h
  }

  /** The bytes of `b` that Go's `copy` takes, when it copies `b` into the cache from `off` on: as many as fit. */
  function Copyable(h: Handle, off: nat, b: seq<byte>): (data: seq<byte>)
    requires off <= |h.Content()|
    ensures data <= b && off + |data| <= |h.Content()|
  {
    if off + |b| <= |h.Content()| then b else b[..|h.Content()| - off]
  }

  function ResizeCache(h: Handle, n: nat): Handle {
    h.(cache := Some(Resize(h.Content(), n)))
  }

  function SetSize(h: Handle, n: nat): Handle {
    h.(size := n)
  }

  /** The first half of what a download installs under the lock. */
  function InstallCache(h: Handle, x: Found): Handle {
    h.(cache := Some(x.Content()), valid := true)
  }

  /** The second half; the branch for a missing file leaves the ETag alone. */
  function InstallSize(h: Handle, x: Found): Handle {
    if x.file.Some? then h.(size := |x.Content()|, etag := x.tag) else h.(size := 0)
  }

  /** After an accepted upload, the ETag moves only if the reply has one. */
  function AfterPut(h: Handle, r: Remote, put: Reply): Handle {
    if put == Granted then h.(etag := CurrentTag(r)) else h
  }

  function ReadCache(h: Handle, off: nat, n: nat): Page<byte> {
    if h.size <= off then Page([], true)
    else
      var data := Slice(h.Content(), off, n);
      Page(data, h.size <= off + |data|)
  }

  /** The simple file's own pread. */
  function Pread(s: seq<byte>, off: nat, n: nat): Page<byte> {
    var data := Slice(s, off, n);
    Page(data, |s| <= off + |data|)
  }

  lemma ReadCacheIsPread(h: Handle, off: nat, n: nat)
    requires h.Consistent()
    ensures ReadCache(h, off, n) == Pread(h.Content(), off, n)
  {
  }

  // ----- whole calls, one at a time -----

  datatype Call = ReadAt(n: nat, off: nat) | WriteAt(b: seq<byte>, off: nat) | Truncate(length: nat) {
    function End(): nat
      requires WriteAt?
    {
      off + |b|
    }

    function Mutations(): seq<Mutation> {
      match this
      case ReadAt(_, _) => []
      case WriteAt(b, off) => [Write(off, b)]
      case Truncate(n) => [SetLength(n)]
    }
  }

  datatype Outcome = Got(page: Page<byte>) | Wrote(n: nat, ok: bool) | Truncated(ok: bool) | DownloadError

  /** The gateway's answers during one call, request by request. */
  datatype Replies = Replies(stat: Reply, fetch: Reply, initiate: Reply, put: Reply)

  datatype After = After(h: Handle, r: Remote, out: Outcome) {
    /** The call changed the file and the change reached the remote. */
    predicate Acknowledged() {
      (out.Wrote? || out.Truncated?) && out.ok
    }
  }

  function Observed(r: Remote, fetch: Reply): Found {
    Found(|r| - 1, Current(r), if fetch == Granted then CurrentTag(r) else NO_TAG)
  }

  /** A download fails if its Stat does, or if the file exists and fetching it fails. */
  predicate DownloadSucceeds(r: Remote, a: Replies) {
    a.stat != Failed && (Current(r).Some? ==> a.fetch != Failed)
  }

  function Download(h: Handle, r: Remote, a: Replies): Handle {
    if DownloadSucceeds(r, a) then InstallSize(InstallCache(h, Observed(r, a.fetch)), Observed(r, a.fetch)) else h
  }

  predicate UploadSucceeds(h: Handle, r: Remote, a: Replies) {
    a.initiate != Failed && Accepts(r, h.etag) && a.put != Failed
  }

  function Upload(h: Handle, r: Remote, a: Replies): (Handle, Remote) {
    if UploadSucceeds(h, r, a) then (AfterPut(h, Publish(r, h.Body()), a.put), Publish(r, h.Body())) else (h, r)
  }

  function ReadAtSpec(h: Handle, r: Remote, c: Call, a: Replies): After
    requires c.ReadAt?
  {
    if h.Warm() then After(h, r, Got(ReadCache(h, c.off, c.n)))
    else if !DownloadSucceeds(r, a) then After(h, r, DownloadError)
    else After(Download(h, r, a), r, Got(ReadCache(Download(h, r, a), c.off, c.n)))
  }

  /** The handle a write starts from: a cold one is downloaded first, and a failed download is ignored. */
  function Loaded(h: Handle, r: Remote, a: Replies): Handle {
    if h.valid then h else Download(h, r, a)
  }

  /** The write section: patch the cache and upload it. */
  function WriteSectionSpec(h: Handle, r: Remote, c: Call, a: Replies): After
    requires c.WriteAt?
  {
    var h1 := CopyIn(GrowCache(h, c.End()), c.off, c.b);
    var (h2, r2) := Upload(h1, r, a);
    After(h2, r2, Wrote(|c.b|, UploadSucceeds(h1, r, a)))
  }

  function WriteAtSpec(h: Handle, r: Remote, c: Call, a: Replies): After
    requires c.WriteAt?
  {
    WriteSectionSpec(Loaded(h, r, a), r, c, a)
  }

  function TruncateSpec(h: Handle, r: Remote, c: Call, a: Replies): After
    requires c.Truncate?
  {
    if !h.valid && !DownloadSucceeds(r, a) then After(h, r, DownloadError)
    else
      var h1 := SetSize(ResizeCache(Loaded(h, r, a), c.length), c.length);
      var (h2, r2) := Upload(h1, r, a);
      After(h2, r2, Truncated(UploadSucceeds(h1, r, a)))
  }

  function CallSpec(h: Handle, r: Remote, c: Call, a: Replies): After {
    match c
    case ReadAt(_, _) => ReadAtSpec(h, r, c, a)
    case WriteAt(_, _) => WriteAtSpec(h, r, c, a)
    case Truncate(_) => TruncateSpec(h, r, c, a)
  }

  /** An upload sends the whole cache. */
  lemma BodyIsContent(h: Handle)
    requires h.size == |h.Content()|
    ensures h.Body() == h.Content()
  {
    assert h.Content()[0..|h.Content()|] == h.Content();
  }

  /** Patching the cache in two steps is the simple file's write, on the cache and its size. */
  lemma PatchIsWrite(h: Handle, off: nat, b: seq<byte>)
    requires h.Consistent()
    ensures var h' := CopyIn(GrowCache(h, off + |b|), off, b);
            && h'.Consistent() && h'.Content() == Apply(h.Content(), Write(off, b))
            && h'.valid == h.valid && h'.etag == h.etag
  {
    var g := GrowCache(h, off + |b|);
    assert g.Content() == Grow(h.Content(), off + |b|);
    if g.cache.None? {
      assert off == 0 && b == [];
      assert Apply([], Write(0, [])) == [];
    }
  }
}
