/** What each call on a handle does, byte by byte: from any handle, warm or cold, and for all answers of the gateway. */
module Effects {
  import opened Bytes
  import opened Paging
  import opened Handler
  import opened Options
  import opened LoneClient

  /** A handle that has no valid cache cannot get one: the Stat fails, or there is a file and fetching it fails. */
  predicate CannotLoad(h: Handle, r: Remote, a: Replies) {
    !h.valid && (a.stat == Failed || (Current(r).Some? && a.fetch == Failed))
  }

  /** The file that a call works on: the cache if it is valid or cannot be made so, and otherwise the remote's file,
      which is empty if there is none. */
  function FileOf(h: Handle, r: Remote, a: Replies): seq<byte> {
    if h.valid || CannotLoad(h, r, a) then h.Content()
    else match Current(r)
      case Some(file) => file
      case None => []
  }

  /** The ETag that a call has once it has loaded: that of the version it fetched, or the one it had. A fetched version
      whose reply has no ETag leaves none. */
  function TagOf(h: Handle, r: Remote, a: Replies): Tag {
    if h.valid || CannotLoad(h, r, a) || Current(r).None? then h.etag
    else if a.fetch == Granted then |r|
    else NO_TAG
  }

  /** The upload of a change is accepted: its requests are granted, and it carries no ETag or that of the current
      file. */
  predicate IsAccepted(h: Handle, r: Remote, a: Replies) {
    && a.initiate != Failed && a.put != Failed
    && (TagOf(h, r, a) == NO_TAG || (TagOf(h, r, a) == |r| && Current(r).Some?))
  }

  /** The ETag after a change: the new version's if the reply has one, and otherwise what it was. */
  function TagAfter(h: Handle, r: Remote, a: Replies): Tag {
    if IsAccepted(h, r, a) && a.put == Granted then |r| + 1 else TagOf(h, r, a)
  }

  lemma LoadedHasTag(h: Handle, r: Remote, a: Replies)
    ensures Loaded(h, r, a).etag == TagOf(h, r, a)
  {
  }

  lemma LoadedIsFile(h: Handle, r: Remote, a: Replies)
    requires h.Consistent()
    ensures Loaded(h, r, a).Content() == FileOf(h, r, a) && Loaded(h, r, a).Consistent()
    ensures Loaded(h, r, a).valid <==> !CannotLoad(h, r, a)
    ensures CannotLoad(h, r, a) <==> !h.valid && !DownloadSucceeds(r, a)
  {
  }

  /** `page` is as much of `f` from `off` on as `n` bytes have room for, and tells the end exactly if nothing is
      left. */
  ghost predicate IsPage(page: Page<byte>, f: seq<byte>, off: nat, n: nat) {
    && |page.items| == (if |f| <= off then 0 else if n <= |f| - off then n else |f| - off)
    && (forall i | 0 <= i < |page.items| :: page.items[i] == f[off + i])
    && (page.eof <==> |f| <= off + |page.items|)
  }

  lemma PreadIsPage(f: seq<byte>, off: nat, n: nat)
    ensures IsPage(Pread(f, off, n), f, off, n)
  {
  }

  /** A read fails exactly if it cannot load; otherwise it returns its page, and leaves a valid handle on that file. The
      remote stays as it is. */
  lemma ReadReturns(h: Handle, r: Remote, off: nat, n: nat, a: Replies)
    requires h.Consistent()
    ensures var after, f := CallSpec(h, r, ReadAt(n, off), a), FileOf(h, r, a);
            && after.r == r && after.h.Content() == f && after.h.etag == TagOf(h, r, a)
            && (after.h.valid <==> !CannotLoad(h, r, a))
            && if CannotLoad(h, r, a) then after.out == DownloadError && after.h == h
               else after.out.Got? && IsPage(after.out.page, f, off, n)
  {
    AnyCall(h, r, ReadAt(n, off), a);
    LoadedIsFile(h, r, a);
    PreadIsPage(FileOf(h, r, a), off, n);
  }

  /** `c` is `f`, as long as it was or as a write of `b` at `off` needs, with these bytes where they belong, the old ones
      around them and zeros between. */
  ghost predicate IsWritten(c: seq<byte>, f: seq<byte>, b: seq<byte>, off: nat) {
    && |c| == (if off + |b| <= |f| then |f| else off + |b|)
    && forall i | 0 <= i < |c| :: c[i] == if off <= i < off + |b| then b[i - off] else if i < |f| then f[i] else 0
  }

  /** `c` is `n` bytes long, of those of `f` as many as fit and zeros after them. */
  ghost predicate IsCut(c: seq<byte>, f: seq<byte>, n: nat) {
    |c| == n && forall i | 0 <= i < n :: c[i] == if i < |f| then f[i] else 0
  }

  lemma {:induction false} MutationsMean(f: seq<byte>, b: seq<byte>, off: nat, n: nat)
    ensures IsWritten(Fold(f, [Write(off, b)]), f, b, off)
    ensures IsCut(Fold(f, [SetLength(n)]), f, n)
  {
    FoldOne(f, Write(off, b));
    FoldOne(f, SetLength(n));
  }

  /** A write reports all its bytes, whatever happens. It leaves the cache written, and that becomes the remote's next
      version exactly if no error is reported. */
  lemma {:induction false} WriteLeaves(h: Handle, r: Remote, b: seq<byte>, off: nat, a: Replies)
    requires h.Consistent()
    ensures var after := CallSpec(h, r, WriteAt(b, off), a);
            var cache := after.h.Content();
            && after.out.Wrote? && after.out.n == |b|
            && after.h.size == |cache| && IsWritten(cache, FileOf(h, r, a), b, off)
            && (after.h.valid <==> !CannotLoad(h, r, a))
            && after.r == if after.out.ok then r + [Some(cache)] else r
  {
    AnyCall(h, r, WriteAt(b, off), a);
    LoadedIsFile(h, r, a);
    MutationsMean(FileOf(h, r, a), b, off, 0);
  }

  /** A truncation to `n` fails exactly if it cannot load, and then changes nothing. Otherwise it leaves the cache cut, or
      extended, to `n` bytes, and that becomes the remote's next version exactly if no error is reported. */
  lemma {:induction false} TruncateLeaves(h: Handle, r: Remote, n: nat, a: Replies)
    requires h.Consistent()
    ensures var after := CallSpec(h, r, Truncate(n), a);
            var cache := after.h.Content();
            if CannotLoad(h, r, a) then after == After(h, r, DownloadError)
            else
              && after.out.Truncated? && after.h.valid
              && after.h.size == n && IsCut(cache, FileOf(h, r, a), n)
              && after.r == if after.out.ok then r + [Some(cache)] else r
  {
    AnyCall(h, r, Truncate(n), a);
    LoadedIsFile(h, r, a);
    MutationsMean(FileOf(h, r, a), [], 0, n);
  }

  lemma UploadIsAnswered(patched: Handle, h: Handle, r: Remote, a: Replies)
    requires patched.etag == TagOf(h, r, a)
    ensures UploadSucceeds(patched, r, a) <==> IsAccepted(h, r, a)
    ensures Upload(patched, r, a).0.etag == TagAfter(h, r, a)
  {
  }

  /** A change that gets as far as its upload reports no error exactly if the upload is accepted, and then carries the
      ETag on. */
  lemma ChangeIsAnswered(h: Handle, r: Remote, c: Call, m: Mutation, a: Replies)
    requires h.Consistent() && !c.ReadAt? && c.Mutations() == [m] && (c.Truncate? ==> !CannotLoad(h, r, a))
    ensures var after := CallSpec(h, r, c, a);
            && (after.Acknowledged() <==> IsAccepted(h, r, a))
            && after.h.etag == TagAfter(h, r, a)
  {
    var patched := Changed(Loaded(h, r, a), m);
    LoadedIsFile(h, r, a);
    LoadedHasTag(h, r, a);
    ChangeIsMutation(Loaded(h, r, a), m);
    UploadIsAnswered(patched, h, r, a);
  }
}
