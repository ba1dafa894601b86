/** Upload a file through one handle, download it through another. */
module RoundTrips {
  import opened Bytes
  import opened Paging
  import opened Handler
  import opened Options
  import opened LoneClient

  /** Opening for writing with Creat or Trunc touches the file and nothing else; the handle starts cold. */
  function OpenFile(r: Remote, write: bool, creat: bool, trunc: bool, touch: Reply): (Handle, Remote) {
    if write && (creat || trunc) && touch != Failed && Current(r).None? then (FRESH, Publish(r, [])) else (FRESH, r)
  }

  /** An open leaves a cold handle and every byte of the file. It brings a missing file into existence exactly if it is
      for writing, has Creat or Trunc, and the touch is granted; and it touches nothing that exists. */
  lemma OpenOnlyCreates(r: Remote, write: bool, creat: bool, trunc: bool, touch: Reply)
    ensures var (h', r') := OpenFile(r, write, creat, trunc, touch);
            && h' == FRESH && !h'.valid && h'.cache.None? && h'.etag == NO_TAG
            && FileBytes(r') == FileBytes(r)
            && (Current(r').Some? <==> Current(r).Some? || (write && (creat || trunc) && touch != Failed))
            && (Current(r).Some? || !write || !(creat || trunc) || touch == Failed ==> r' == r)
            && (Current(r).None? && Current(r').Some? ==> r' == r + [Some([])])
  {
  }

  ghost predicate Uploads(qs: seq<Request>, data: seq<byte>) {
    && (forall q | q in qs :: q.call.WriteAt?)
    && Chunks(data, Mutations(qs))
  }

  /** The file a handle reads: its cache when it is warm, and otherwise the remote, if its next download succeeds. */
  ghost predicate Reads(h: Handle, r: Remote, a: Replies, f: seq<byte>) {
    h.Consistent() && (if h.Warm() then h.Content() == f else DownloadSucceeds(r, a) && f == FileBytes(r))
  }

  /** A read returns its page of that file and leaves a handle that reads the same file whatever the gateway answers
      from then on. */
  lemma ReadAtServes(h: Handle, r: Remote, off: nat, n: nat, a: Replies, f: seq<byte>)
    requires Reads(h, r, a, f)
    ensures var after := ReadAtSpec(h, r, ReadAt(n, off), a);
            && after.out == Got(Pread(f, off, n)) && after.r == r
            && forall later: Replies :: Reads(after.h, r, later, f)
  {
    AnyCall(h, r, ReadAt(n, off), a);
  }

  /** A client's read, on a handle that has served `done` reads before: the `k`-th meets the answers `answers(k)`. */
  datatype Reader = Reader(h: Handle, done: nat)

  function ReadNext(r: Remote, answers: nat -> Replies, c: Reader, off: nat, n: nat): (Reader, Page<byte>) {
    var after := ReadAtSpec(c.h, r, ReadAt(n, off), answers(c.done));
    (Reader(after.h, c.done + 1), if after.out.Got? then after.out.page else Page([], true))
  }

  ghost predicate ReaderReads(r: Remote, answers: nat -> Replies, f: seq<byte>, c: Reader) {
    Reads(c.h, r, answers(c.done), f)
  }

  lemma ReaderIsServed(r: Remote, answers: nat -> Replies, f: seq<byte>)
    ensures Serves((c, off, n) => ReadNext(r, answers, c, off, n), c => ReaderReads(r, answers, f, c), f)
  {
    forall c: Reader, off: nat, n: nat | ReaderReads(r, answers, f, c) && off <= |f| && 0 < n
      ensures var (c', page) := ReadNext(r, answers, c, off, n);
              ReaderReads(r, answers, f, c') && page == Pread(f, off, n)
    {
      ReadAtServes(c.h, r, off, n, answers(c.done), f);
    }
  }

  /** What the client collects who reads the handle to its end. */
  ghost function ReadAll(h: Handle, r: Remote, f: seq<byte>, sizes: nat -> nat, answers: nat -> Replies): seq<byte>
    requires Reads(h, r, answers(0), f) && forall j: nat :: 0 < sizes(j)
  {
    ReaderIsServed(r, answers, f);
    Drain((c, off, n) => ReadNext(r, answers, c, off, n), c => ReaderReads(r, answers, f, c), f, Reader(h, 0),
          0, sizes, 0)
  }

  /** Reading a handle to the end, each read on the handle that the one before left, yields its file for all positive
      buffer sizes; of the downloads only the first need succeed. */
  lemma {:induction false} ReadToTheEnd(h: Handle, r: Remote, f: seq<byte>, sizes: nat -> nat, answers: nat -> Replies)
    requires Reads(h, r, answers(0), f) && forall j: nat :: 0 < sizes(j)
    ensures ReadAll(h, r, f, sizes, answers) == f
  {
    ReaderIsServed(r, answers, f);
    DrainYieldsAll((c, off, n) => ReadNext(r, answers, c, off, n), c => ReaderReads(r, answers, f, c), f, Reader(h, 0),
                   0, sizes, 0);
  }

  lemma {:induction false} UploadArrives(r: Remote, qs: seq<Request>, data: seq<byte>)
    requires qs != [] && Uploads(qs, data)
    requires DownloadSucceeds(r, qs[0].answers) && LastAfter(FRESH, r, qs).Acknowledged()
    ensures FileBytes(Run(FRESH, r, qs).1) == data + if |data| < |FileBytes(r)| then FileBytes(r)[|data|..] else []
  {
    RefinesTheSimpleFile(r, qs);
    LastSaved(FRESH, r, qs);
    ChunksAssemble(FileBytes(r), data, Mutations(qs));
  }

  /** Upload then download, for any split of `data` into writes in any order and any positive buffer sizes: if the last
      write was acknowledged, a client that reads a new handle to its end gets `data` followed by the old content past
      it, since opening never truncates; for a new file or one no longer than `data` that is exactly `data`. */
  lemma {:induction false} RoundTrip(r: Remote, creat: bool, trunc: bool, touch: Reply, qs: seq<Request>,
                                     data: seq<byte>, sizes: nat -> nat, answers: nat -> Replies)
    requires creat || trunc
    requires qs != [] && Uploads(qs, data)
    requires var (h1, r1) := OpenFile(r, true, creat, trunc, touch);
             && DownloadSucceeds(r1, qs[0].answers)
             && LastAfter(h1, r1, qs).Acknowledged()
             && DownloadSucceeds(Run(h1, r1, qs).1, answers(0))
    requires forall j: nat :: 0 < sizes(j)
    ensures var (h1, r1) := OpenFile(r, true, creat, trunc, touch);
            var (h2, r2) := OpenFile(Run(h1, r1, qs).1, false, false, false, touch);
            var file := data + if |data| < |FileBytes(r)| then FileBytes(r)[|data|..] else [];
            Reads(h2, r2, answers(0), file) && ReadAll(h2, r2, file, sizes, answers) == file
  {
    var (h1, r1) := OpenFile(r, true, creat, trunc, touch);
    var r2 := Run(h1, r1, qs).1;
    UploadArrives(r1, qs, data);
    assert FileBytes(r1) == FileBytes(r);
    ReadToTheEnd(FRESH, r2, FileBytes(r2), sizes, answers);
  }
}
