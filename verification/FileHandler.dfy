/** The open file handle as an object: a backing array, a length that may be shorter, and the fields of the
    handler, updated in place. Every method is proved against the value functions of `Handler`. */
module FileHandlers {
  import opened Bytes
  import opened Paging
  import opened Handler
  import opened Options

  /** No version of the file is longer than a slice can be. */
  ghost predicate Fits(r: Remote) {
    forall v | v in r && v.Some? :: |v.value| <= MAX_INT64
  }

  const MAX_INT64 := 0x7fff_ffff_ffff_ffff
  newtype int64 = x: int | -0x8000_0000_0000_0000 <= x <= MAX_INT64

  /** Go's `copy` of a run of bytes into an array, starting at `at`. */
  method CopyBytes(dst: array<byte>, at: nat, src: seq<byte>)
    requires at + |src| <= dst.Length
    modifies dst
    ensures dst[..] == Overwrite(old(dst[..]), at, src)
  {
    var i := 0;
    while i < |src|
      invariant i <= |src|
      invariant dst[..] == Overwrite(old(dst[..]), at, src[..i])
    {
      dst[at + i] := src[i];
      i := i + 1;
      assert src[..i] == src[..i - 1] + [src[i - 1]];
    }
    assert src[..|src|] == src;
  }

  lemma KeepsFitting(r: Remote, body: seq<byte>)
    requires Fits(r) && |body| <= MAX_INT64
    ensures Fits(Publish(r, body))
  {
  }

  /** Copying as many bytes as there is room for is pread, the end of the file told by the position after them. */
  lemma CopiedPage(content: seq<byte>, off: nat, room: nat, n: nat)
    requires off < |content| && n == if room <= |content| - off then room else |content| - off
    ensures Page(content[off..off + n], off + n >= |content|) == Pread(content, off, room)
  {
  }

  class FileHandler {
    // The slice `h.cache`: the first `len` elements of `buf`, or nil.
    var buf: array<byte>
    var len: nat
    var isNil: bool

    var cacheValid: bool
    var fileSize: int64
    var etag: Tag
    var mu: Lock

    // The file behind the gateway.
    var remote: Remote

    ghost predicate Shape()
      reads this`buf, this`len, this`isNil, this`fileSize
    {
      len <= buf.Length && (isNil ==> len == 0) && 0 <= fileSize && len <= MAX_INT64
    }

    ghost function View(): Handle
      reads this`buf, this`len, this`isNil, this`cacheValid, this`fileSize, this`etag, buf
      requires Shape()
    {
      Handle(if isNil then None else Some(buf[..len]), cacheValid, fileSize as int, etag)
    }

    /** Between calls: the size is the length of the cache, a valid cache is not nil, and nobody holds the mutex. */
    ghost predicate Valid()
      reads this, buf
    {
      Shape() && View().Consistent() && mu == UNLOCKED && Fits(remote)
    }

    constructor (remote: Remote)
      requires Fits(remote)
      ensures Valid() && View() == FRESH && this.remote == remote && fresh(buf)
    {
      buf := new byte[0];
      len, isNil := 0, true;
      cacheValid, fileSize, etag := false, 0, NO_TAG;
      mu := UNLOCKED;
      this.remote := remote;
    }

    /** Replace the cache by a new array of `n` bytes that starts with the old content. */
    method Reallocate(n: int64)
      requires Shape() && len <= n as int
      modifies this`buf, this`len, this`isNil
      ensures Shape() && fresh(buf) && len == n as int && !isNil
      ensures buf[..len] == Grow(old(buf[..len]), n as int)
    {
      var content := buf[..len];
      var newCache := new byte[n](_ => 0);
      CopyBytes(newCache, 0, content);
      buf, len, isNil := newCache, n as int, false;
      assert buf[..len] == buf[..];
    }

    /** Extend the cache if a write that ends at `requiredSize` does not fit. */
    method GrowTo(requiredSize: int64)
      requires Shape() && 0 <= requiredSize
      modifies this`buf, this`len, this`isNil, this`fileSize
      ensures Shape() && View() == GrowCache(old(View()), requiredSize as int)
      ensures requiredSize as int <= len && (buf == old(buf) || fresh(buf))
      ensures len == if old(len) < requiredSize as int then requiredSize as int else old(len)
    {
      if len < requiredSize as int {
        Reallocate(requiredSize);
        fileSize := requiredSize;
      }
    }

    /** Copy `b` into the cache, in place. */
    method WriteInto(b: seq<byte>, off: int64) returns (n: nat)
      requires Shape() && 0 <= off && off as int + |b| <= len
      modifies buf
      ensures Shape() && View() == CopyIn(old(View()), off as int, b) && n == |b|
    {
      ghost var before := buf[..];
      CopyBytes(buf, off as int, b);
      n := |b|;
      assert buf[..len] == Overwrite(before[..len], off as int, b);
      assert isNil ==> buf[..len] == [];
    }

    /** Copy as much of the cache from `off` on as fits into the client's buffer. */
    method CopyOut(b: array<byte>, off: int64) returns (n: nat)
      requires Shape() && 0 <= off && off as int <= len && b != buf
      modifies b
      ensures Shape() && View() == old(View())
      ensures n == (if b.Length <= len - off as int then b.Length else len - off as int)
      ensures b[..n] == View().Content()[off..off as int + n] && b[n..] == old(b[n..])
    {
      var rest := len - off as int;
      n := if b.Length <= rest then b.Length else rest;
      var page := buf[off..off as int + n];
      assert page == buf[..len][off..off as int + n];
      CopyBytes(b, 0, page);
      assert b[..n] == page;
    }

    /** `page` is the answer to a read of `n` bytes at `off`: how many there are, which, and whether they are the
        last. */
    ghost predicate Answers(page: Page<byte>, off: int64, n: nat)
      reads this`buf, this`len, this`isNil, this`cacheValid, this`fileSize, this`etag, buf
      requires Shape() && 0 <= off
    {
      && page == ReadCache(View(), off as int, n) == Pread(View().Content(), off as int, n)
      && |page.items| == (if fileSize <= off then 0 else if n <= (fileSize - off) as int then n
                          else (fileSize - off) as int)
      && (page.eof <==> fileSize as int <= off as int + |page.items|)
    }

    /** The client's buffer `b` receives the bytes from `off` on; what lies past the count is untouched. */
    method ReadLocked(b: array<byte>, off: int64) returns (n: nat, eof: bool)
      requires Shape() && View().Consistent() && 0 <= off && b != buf
      modifies b
      ensures Shape() && View() == old(View())
      ensures n <= b.Length && b[n..] == old(b[n..])
      ensures Answers(Page(b[..n], eof), off, b.Length)
    {
      ReadCacheIsPread(View(), off as int, b.Length);
      if off >= fileSize { return 0, true; }
      ghost var content := View().Content();
      n := CopyOut(b, off);
      var end: int64 := off + n as int64;
      eof := end >= fileSize;
      CopiedPage(content, off as int, b.Length, n);
    }

    method ReadFromCache(b: array<byte>, off: int64) returns (n: nat, eof: bool)
      requires Valid() && 0 <= off && b != buf
      modifies b, this`mu
      ensures Valid() && View() == old(View())
      ensures n <= b.Length && b[n..] == old(b[n..])
      ensures Answers(Page(b[..n], eof), off, b.Length)
    {
      mu := mu.AcquireRead();
      n, eof := ReadLocked(b, off);
      mu := mu.ReleaseRead();
    }

    /** The patch of a write: room first, then the bytes, in place. */
    method Patch(b: seq<byte>, off: int64) returns (n: nat)
      requires Shape() && View().Consistent() && 0 <= off && off as int + |b| <= MAX_INT64
      modifies this`buf, this`len, this`isNil, this`fileSize, buf
      ensures Shape() && View().Consistent() && (buf == old(buf) || fresh(buf))
      ensures View() == CopyIn(GrowCache(old(View()), off as int + |b|), off as int, b) && n == |b|
    {
      ghost var before := View();
      var requiredSize: int64 := off + |b| as int64;
      GrowTo(requiredSize);
      n := WriteInto(b, off);
      PatchIsWrite(before, off as int, b);
    }

    /** The resize of a truncation: a new empty cache, a shorter slice of the same array, or a longer zero-filled
        one. */
    method Resize(size: int64)
      requires Shape() && 0 <= size
      modifies this`buf, this`len, this`isNil, this`fileSize
      ensures Shape() && View().Consistent() && (buf == old(buf) || fresh(buf))
      ensures View() == SetSize(ResizeCache(old(View()), size as int), size as int)
      ensures len == size as int && fileSize == size && !isNil
      ensures forall i | 0 <= i < len :: buf[i] == if i < old(len) then old(buf[..len])[i] else 0
    {
      ghost var before := View();
      if size == 0 {
        buf, len, isNil := new byte[0], 0, false;
      } else if size as int < len {
        len := size as int;
      } else {
        Reallocate(size);
      }
      fileSize := size;
      assert buf[..len] == Bytes.Resize(before.Content(), size as int);
    }

    /** Download the file; a missing file becomes a valid empty cache, with the ETag left as it was. */
    method DownloadFile(a: Replies) returns (ok: bool)
      requires Valid()
      modifies this`buf, this`len, this`isNil, this`cacheValid, this`fileSize, this`etag, this`mu
      ensures Valid() && (buf == old(buf) || fresh(buf))
      ensures ok == DownloadSucceeds(remote, a) && View() == Download(old(View()), remote, a)
      ensures ok <==> a.stat != Failed && (Current(remote).Some? ==> a.fetch != Failed)
      ensures if !ok then View() == old(View()) else View().Warm() && (Current(remote).None? ==> etag == old(etag))
    {
      if a.stat == Failed { return false; }
      var current := Current(remote);
      assert current in remote;
      if current.None? {
        mu := mu.AcquireWrite();
        buf, len, isNil := new byte[0], 0, false;
        cacheValid := true;
        fileSize := 0;
        mu := mu.ReleaseWrite();
        assert buf[..len] == [];
        return true;
      }
      if a.fetch == Failed { return false; }
      var content := current.value;
      mu := mu.AcquireWrite();
      buf := new byte[|content|](i requires 0 <= i < |content| => content[i]);
      len, isNil := |content|, false;
      cacheValid := true;
      fileSize := |content| as int64;
      etag := if a.fetch == Granted then CurrentTag(remote) else NO_TAG;
      mu := mu.ReleaseWrite();
      assert buf[..len] == content;
      return true;
    }

    /** Send the whole cache, on the condition that the remote still has the last ETag seen. */
    method UploadFile(a: Replies) returns (ok: bool)
      requires Shape() && View().size == len
      modifies this`etag, this`remote
      ensures Shape() && (View(), remote) == Upload(old(View()), old(remote), a)
      ensures ok == UploadSucceeds(old(View()), old(remote), a)
      ensures remote == if ok then old(remote) + [Some(buf[..len])] else old(remote)
      ensures View().cache == old(View()).cache && View().size == old(View()).size && View().valid == old(View()).valid
    {
      if a.initiate == Failed || !Accepts(remote, etag) { return false; }
      if a.put == Failed { return false; }
      ghost var h := View();
      BodyIsContent(h);
      remote := Publish(remote, buf[..fileSize as int]);
      if a.put == Granted {
        etag := CurrentTag(remote);
      }
      return true;
    }

    /** Look for a cache under the read lock, and download one if there is none. */
    method Load(a: Replies) returns (ok: bool)
      requires Valid()
      modifies this`buf, this`len, this`isNil, this`cacheValid, this`fileSize, this`etag, this`mu
      ensures Valid() && (buf == old(buf) || fresh(buf))
      ensures ok == (old(View()).Warm() || DownloadSucceeds(remote, a))
      ensures View() == if old(View()).Warm() then old(View()) else Download(old(View()), remote, a)
    {
      mu := mu.AcquireRead();
      if cacheValid && !isNil {
        mu := mu.ReleaseRead();
        return true;
      }
      mu := mu.ReleaseRead();
      ok := DownloadFile(a);
    }

    method ReadAt(b: array<byte>, off: int64, a: Replies) returns (n: nat, eof: bool, ok: bool)
      requires Valid() && 0 <= off && b != buf
      modifies b, this`buf, this`len, this`isNil, this`cacheValid, this`fileSize, this`etag, this`mu
      ensures Valid() && (buf == old(buf) || fresh(buf)) && remote == old(remote)
      ensures n <= b.Length && b[n..] == old(b[n..])
      ensures if ok then Answers(Page(b[..n], eof), off, b.Length) else n == 0 && !eof && b[..] == old(b[..])
      ensures After(View(), remote, if ok then Got(Page(b[..n], eof)) else DownloadError) ==
              ReadAtSpec(old(View()), old(remote), Call.ReadAt(b.Length, off as int), a)
    {
      ok := Load(a);
      if !ok { return 0, false, false; }
      n, eof := ReadFromCache(b, off);
    }

    /** The write section: patch and upload under the mutex. */
    method WriteSection(b: seq<byte>, off: int64, a: Replies) returns (n: nat, ok: bool)
      requires Valid() && 0 <= off && off as int + |b| <= MAX_INT64
      modifies this`buf, this`len, this`isNil, this`fileSize, this`etag, this`mu, this`remote, buf
      ensures Valid() && (buf == old(buf) || fresh(buf))
      ensures After(View(), remote, Wrote(n, ok)) ==
              WriteSectionSpec(old(View()), old(remote), Call.WriteAt(b, off as int), a)
      ensures n == |b|
    {
      mu := mu.AcquireWrite();
      n := Patch(b, off);
      KeepsFitting(remote, View().Body());
      ok := UploadFile(a);
      mu := mu.ReleaseWrite();
    }

    method WriteAt(b: seq<byte>, off: int64, a: Replies) returns (n: nat, ok: bool)
      requires Valid() && 0 <= off && off as int + |b| <= MAX_INT64
      modifies this, buf
      ensures Valid() && (buf == old(buf) || fresh(buf))
      ensures After(View(), remote, Wrote(n, ok)) ==
              WriteAtSpec(old(View()), old(remote), Call.WriteAt(b, off as int), a)
      ensures n == |b|
    {
      if !cacheValid {
        var _ := DownloadFile(a);
      }
      assert View() == Loaded(old(View()), old(remote), a);
      n, ok := WriteSection(b, off, a);
    }

    /** The write section of a truncation: resize and upload, then release the mutex. */
    method ResizeSection(size: int64, a: Replies) returns (ok: bool)
      requires Shape() && View().Consistent() && Fits(remote) && mu == UNLOCKED.AcquireWrite() && 0 <= size
      modifies this`buf, this`len, this`isNil, this`fileSize, this`etag, this`mu, this`remote
      ensures Valid() && (buf == old(buf) || fresh(buf))
      ensures len == size as int && fileSize == size && !isNil
      ensures var resized := SetSize(ResizeCache(old(View()), size as int), size as int);
              (View(), remote) == Upload(resized, old(remote), a) && ok == UploadSucceeds(resized, old(remote), a)
    {
      Resize(size);
      KeepsFitting(remote, View().Body());
      ok := UploadFile(a);
      mu := mu.ReleaseWrite();
    }

    /** The mutex is released a second time, which is fatal, exactly when a cold download fails. */
    method Truncate(size: int64, a: Replies) returns (ok: bool)
      requires Valid()
      modifies this, buf
      ensures Shape() && (buf == old(buf) || fresh(buf))
      ensures 0 <= size && !mu.crashed ==> len == size as int && fileSize == size && !isNil
      ensures size < 0 ==> !ok && View() == old(View()) && remote == old(remote) && Valid()
      ensures 0 <= size ==>
                var after := TruncateSpec(old(View()), old(remote), Call.Truncate(size as int), a);
                && View() == after.h && remote == after.r
                && mu.crashed == after.out.DownloadError?
                && (mu.crashed || (Valid() && after.out == Truncated(ok)))
    {
      mu := mu.AcquireWrite();
      if size < 0 {
        mu := mu.ReleaseWrite();
        return false;
      }
      if !cacheValid {
        mu := mu.ReleaseWrite();
        ok := DownloadFile(a);
        if !ok {
          mu := mu.ReleaseWrite();
          return false;
        }
        mu := mu.AcquireWrite();
      }
      ok := ResizeSection(size, a);
    }
  }
}
