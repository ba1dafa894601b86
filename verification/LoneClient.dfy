/** One client, one call at a time, nobody else writing: the cached handle refines the simple file. */
module LoneClient {
  import opened Bytes
  import opened Paging
  import opened Handler
  import opened Options

  datatype Request = Request(call: Call, answers: Replies)

  /** Handle and remote after a sequence of calls. */
  function Run(h: Handle, r: Remote, qs: seq<Request>): (Handle, Remote) {
    if qs == [] then (h, r)
    else
      var (h1, r1) := Run(h, r, qs[..|qs| - 1]);
      var q := qs[|qs| - 1];
      (CallSpec(h1, r1, q.call, q.answers).h, CallSpec(h1, r1, q.call, q.answers).r)
  }

  /** What the last call of a nonempty sequence returned. */
  function LastAfter(h: Handle, r: Remote, qs: seq<Request>): After
    requires qs != []
  {
    var (h1, r1) := Run(h, r, qs[..|qs| - 1]);
    CallSpec(h1, r1, qs[|qs| - 1].call, qs[|qs| - 1].answers)
  }

  /** How many calls the last acknowledged upload reaches back over: everything up to it is on the remote. */
  function SavedPrefix(h: Handle, r: Remote, qs: seq<Request>): (k: nat)
    ensures k <= |qs|
  {
    if qs == [] then 0
    else if LastAfter(h, r, qs).Acknowledged() then |qs|
    else SavedPrefix(h, r, qs[..|qs| - 1])
  }

  function Mutations(qs: seq<Request>): seq<Mutation> {
    if qs == [] then [] else Mutations(qs[..|qs| - 1]) + qs[|qs| - 1].call.Mutations()
  }

  function Changed(h: Handle, m: Mutation): Handle {
    match m
    case Write(off, b) => CopyIn(GrowCache(h, off + |b|), off, b)
    case SetLength(n) => SetSize(ResizeCache(h, n), n)
  }

  lemma ChangeIsMutation(h: Handle, m: Mutation)
    requires h.Consistent()
    ensures var h' := Changed(h, m);
            h'.Consistent() && h'.Content() == Fold(h.Content(), [m]) && h'.valid == h.valid && h'.etag == h.etag
  {
    FoldOne(h.Content(), m);
    if m.Write? { PatchIsWrite(h, m.off, m.data); }
  }

  /** An upload leaves the cache alone, and publishes all of it if it succeeds. */
  lemma UploadPublishes(h: Handle, r: Remote, a: Replies)
    requires h.Consistent()
    ensures var (h', r') := Upload(h, r, a);
            && h'.Consistent() && h'.Content() == h.Content() && h'.valid == h.valid
            && r' == if UploadSucceeds(h, r, a) then Publish(r, h.Content()) else r
  {
    BodyIsContent(h);
  }

  /** The call fails before it has touched anything: a read or a truncation of a cold handle that cannot download. */
  predicate FailsEarly(h: Handle, r: Remote, c: Call, a: Replies) {
    !c.WriteAt? && !h.valid && !DownloadSucceeds(r, a)
  }

  lemma FoldOne(s: seq<byte>, m: Mutation)
    ensures Fold(s, [m]) == Apply(s, m)
  {
    FoldSnoc(s, [], m);
    assert [] + [m] == [m];
  }

  /** The call is the simple file's request on the content the handle was loaded with, and puts the result on the
      remote exactly when it is acknowledged. */
  ghost predicate IsTheRequest(h: Handle, r: Remote, c: Call, a: Replies) {
    var start := Loaded(h, r, a);
    var after := CallSpec(h, r, c, a);
    && after.h.Consistent()
    && (FailsEarly(h, r, c, a) <==> after.out == DownloadError)
    && if after.out == DownloadError then after.h == h && after.r == r
       else
         && after.h.valid == start.valid && after.h.Content() == Fold(start.Content(), c.Mutations())
         && after.r == (if after.Acknowledged() then Publish(r, after.h.Content()) else r)
         && (c.ReadAt? ==> after.out == Got(Pread(after.h.Content(), c.off, c.n)))
  }

  lemma AnyChange(h: Handle, r: Remote, c: Call, m: Mutation, patched: Handle, a: Replies)
    requires h.Consistent() && !c.ReadAt? && c.Mutations() == [m] && patched == Changed(Loaded(h, r, a), m)
    ensures IsTheRequest(h, r, c, a)
  {
    ChangeIsMutation(Loaded(h, r, a), m);
    UploadPublishes(patched, r, a);
  }

  /** So it is for one call on any handle, warm or cold, with whatever is in its cache. */
  lemma AnyCall(h: Handle, r: Remote, c: Call, a: Replies)
    requires h.Consistent()
    ensures IsTheRequest(h, r, c, a)
  {
    match c
    case ReadAt(n, off) =>
    case WriteAt(b, off) => AnyChange(h, r, c, Write(off, b), Changed(Loaded(h, r, a), Write(off, b)), a);
    case Truncate(n) => AnyChange(h, r, c, SetLength(n), Changed(Loaded(h, r, a), SetLength(n)), a);
  }

  /** A single call on a warm handle is the simple file's request, and an acknowledged one puts that file on the
      remote. */
  lemma WarmCall(h: Handle, r: Remote, c: Call, a: Replies)
    requires h.Consistent() && h.valid
    ensures var f := Fold(h.Content(), c.Mutations());
            var after := CallSpec(h, r, c, a);
            && after.h.Consistent() && after.h.valid && after.h.Content() == f
            && (if after.Acknowledged() then Current(after.r) == Some(f) else after.r == r)
            && (c.ReadAt? ==> after.out == Got(Pread(f, c.off, c.n)))
  {
    AnyCall(h, r, c, a);
  }

  lemma NextCall(h: Handle, r: Remote, qs: seq<Request>)
    requires qs != [] && Run(h, r, qs[..|qs| - 1]).0.Consistent()
    ensures var (h', r') := Run(h, r, qs);
            && h'.Consistent()
            && r' == if LastAfter(h, r, qs).Acknowledged() then Publish(Run(h, r, qs[..|qs| - 1]).1, h'.Content())
                     else Run(h, r, qs[..|qs| - 1]).1
  {
    var (h1, r1) := Run(h, r, qs[..|qs| - 1]);
    AnyCall(h1, r1, qs[|qs| - 1].call, qs[|qs| - 1].answers);
  }

  /** The remote is as it was if no call of the run was acknowledged, and is otherwise the cache as it was after the
      last acknowledged one: for every run, from any handle, with whatever downloads failed on the way. */
  lemma {:induction false} RemoteIsLastSaved(h: Handle, r: Remote, qs: seq<Request>)
    requires h.Consistent()
    ensures var k := SavedPrefix(h, r, qs);
            && Run(h, r, qs).0.Consistent()
            && if k == 0 then Run(h, r, qs).1 == r
               else Current(Run(h, r, qs).1) == Some(Run(h, r, qs[..k]).0.Content())
    decreases |qs|
  {
    if qs != [] {
      RemoteIsLastSaved(h, r, qs[..|qs| - 1]);
      NextCall(h, r, qs);
      SavedHere(h, r, qs);
    }
  }

  lemma SavedHere(h: Handle, r: Remote, qs: seq<Request>)
    requires qs != []
    ensures var before, k := qs[..|qs| - 1], SavedPrefix(h, r, qs);
            if LastAfter(h, r, qs).Acknowledged() then k == |qs| && qs[..k] == qs
            else k == SavedPrefix(h, r, before) && qs[..k] == before[..k]
  {
  }

  /** The cache of a warm handle is the fold of all requests. */
  lemma {:induction false} WarmRun(h: Handle, r: Remote, qs: seq<Request>)
    requires h.Consistent() && h.valid
    ensures var h' := Run(h, r, qs).0;
            h'.Consistent() && h'.valid && h'.Content() == Fold(h.Content(), Mutations(qs))
    decreases |qs|
  {
    if qs != [] {
      var before, last := qs[..|qs| - 1], qs[|qs| - 1];
      WarmRun(h, r, before);
      var (h1, r1) := Run(h, r, before);
      WarmCall(h1, r1, last.call, last.answers);
      FoldConcat(h.Content(), Mutations(before), last.call.Mutations());
    }
  }

  /** If the last call was acknowledged, the remote is the cache. */
  lemma {:induction false} LastSaved(h: Handle, r: Remote, qs: seq<Request>)
    requires h.Consistent() && qs != [] && LastAfter(h, r, qs).Acknowledged()
    ensures Current(Run(h, r, qs).1) == Some(Run(h, r, qs).0.Content())
  {
    RemoteIsLastSaved(h, r, qs);
    SavedHere(h, r, qs);
  }

  /** A cold call whose download succeeds does what it would have done after the download. */
  lemma FirstCall(r: Remote, c: Call, a: Replies)
    requires DownloadSucceeds(r, a)
    ensures CallSpec(FRESH, r, c, a) == CallSpec(Download(FRESH, r, a), r, c, a)
  {
  }

  lemma {:induction false} ColdRun(r: Remote, qs: seq<Request>)
    requires qs != [] && DownloadSucceeds(r, qs[0].answers)
    ensures var h := Download(FRESH, r, qs[0].answers);
            Run(FRESH, r, qs) == Run(h, r, qs) && SavedPrefix(FRESH, r, qs) == SavedPrefix(h, r, qs)
            && LastAfter(FRESH, r, qs) == LastAfter(h, r, qs)
    decreases |qs|
  {
    if |qs| == 1 {
      FirstCall(r, qs[0].call, qs[0].answers);
      assert qs[..0] == [];
      var h := Download(FRESH, r, qs[0].answers);
      assert Run(h, r, qs[..0]) == (h, r) && Run(FRESH, r, qs[..0]) == (FRESH, r);
      assert SavedPrefix(h, r, []) == 0 && SavedPrefix(FRESH, r, []) == 0;
    } else {
      ColdRun(r, qs[..|qs| - 1]);
    }
  }

  function FileBytes(r: Remote): seq<byte> {
    if Current(r).Some? then Current(r).value else []
  }

  /** Refinement of the simple file, for every sequence of calls and every mix of accepted and failed uploads, from
      a freshly opened handle whose first download succeeds: the cache is the fold of all requests, failed uploads
      included, and the remote is that fold up to the last acknowledged upload, which carried every unsaved patch. */
  lemma {:induction false} RefinesTheSimpleFile(r: Remote, qs: seq<Request>)
    requires qs != [] && DownloadSucceeds(r, qs[0].answers)
    ensures var (h', r') := Run(FRESH, r, qs);
            && h'.Content() == Fold(FileBytes(r), Mutations(qs)) && h'.size == |h'.Content()|
            && var k := SavedPrefix(FRESH, r, qs);
               if k == 0 then r' == r else Current(r') == Some(Fold(FileBytes(r), Mutations(qs[..k])))
    ensures forall off: nat, n: nat, a: Replies ::
              CallSpec(Run(FRESH, r, qs).0, Run(FRESH, r, qs).1, ReadAt(n, off), a).out ==
              Got(Pread(Fold(FileBytes(r), Mutations(qs)), off, n))
  {
    var h := Download(FRESH, r, qs[0].answers);
    ColdRun(r, qs);
    RemoteIsLastSaved(h, r, qs);
    WarmRun(h, r, qs[..SavedPrefix(h, r, qs)]);
    WarmRun(h, r, qs);
    var (h', r') := Run(FRESH, r, qs);
    forall off: nat, n: nat, a: Replies
      ensures CallSpec(h', r', ReadAt(n, off), a).out == Got(Pread(h'.Content(), off, n))
    {
      WarmCall(h', r', ReadAt(n, off), a);
    }
  }

  /** Reordering freedom: any two orders of the same writes, agreeing on overlaps, leave a warm handle with the same
      cache, and the remote with the same file if the last upload of each is accepted. */
  lemma {:induction false} WritesInAnyOrder(h: Handle, r: Remote, qs: seq<Request>, ps: seq<Request>)
    requires h.Consistent() && h.valid
    requires AllWrites(Mutations(qs)) && Compatible(Mutations(qs)) && multiset(Mutations(ps)) == multiset(Mutations(qs))
    ensures Run(h, r, qs).0.Content() == Run(h, r, ps).0.Content() && Run(h, r, qs).0.size == Run(h, r, ps).0.size
    ensures qs != [] && ps != [] && LastAfter(h, r, qs).Acknowledged() && LastAfter(h, r, ps).Acknowledged() ==>
              Current(Run(h, r, qs).1) == Current(Run(h, r, ps).1) == Some(Fold(h.Content(), Mutations(qs)))
  {
    assert Fold(h.Content(), Mutations(ps)) == Fold(h.Content(), Mutations(qs)) by {
      SameElements(Mutations(ps), Mutations(qs));
      SameFile(h.Content(), Mutations(ps), Mutations(qs));
    }
    WarmRun(h, r, qs);
    WarmRun(h, r, ps);
    if qs != [] && ps != [] && LastAfter(h, r, qs).Acknowledged() && LastAfter(h, r, ps).Acknowledged() {
      LastSaved(h, r, qs);
      LastSaved(h, r, ps);
    }
  }
}
