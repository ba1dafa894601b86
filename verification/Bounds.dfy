/** Lengths and offsets over whole runs: nothing the handler computes exceeds what its clients and the remote ask of it,
    so that 64-bit arithmetic never overflows when those stay in range. */
module Bounds {
  import opened Bytes
  import opened Paging
  import opened Handler
  import opened Options
  import opened Protocol

  predicate FileFits(file: Option<seq<byte>>, max: nat) {
    file.Some? ==> |file.value| <= max
  }

  /** A write's end and a truncation's length; a read may ask for anything. */
  predicate CallFits(call: Call, max: nat) {
    match call
    case ReadAt(_, _) => true
    case WriteAt(_, _) => call.End() <= max
    case Truncate(n) => n <= max
  }

  predicate ActionFits(a: Action, max: nat) {
    match a
    case Start(_, call) => CallFits(call, max)
    case Step(_, _) => true
    case Other(file) => FileFits(file, max)
  }

  /** The file a worker has found, the end of its request, and the end of the page it is about to return. */
  predicate WorkerFits(h: Handle, me: Worker, max: nat) {
    && (me.pc.HasFound() ==> FileFits(me.pc.x.file, max))
    && (me.pc.Active() ==> CallFits(me.call, max))
    && (me.pc.CopyingOut? && me.call.off < h.size ==>
          me.call.off + |ReadCache(h, me.call.off, me.call.n).items| <= max)
  }

  /** The end of a page that was read, and every other length in the log. */
  predicate EventFits(e: Event, max: nat) {
    match e
    case Read(_, off, _, page) => page.items != [] ==> off + |page.items| <= max
    case Applied(_, Write(off, data)) => off + |data| <= max
    case Applied(_, SetLength(n)) => n <= max
    case Installed(_, x) => FileFits(x.file, max)
    case Saved(_, _, _) => true
  }

  ghost predicate Bounded(s: State, max: nat) {
    && |s.h.Content()| <= max && s.h.size <= max
    && (forall v | v in s.r :: FileFits(v, max))
    && (forall i | 0 <= i < |s.ws| :: WorkerFits(s.h, s.ws[i], max))
    && (forall e | e in s.log :: EventFits(e, max))
  }

  lemma PageFits(h: Handle, off: nat, n: nat, max: nat)
    requires |h.Content()| <= max && h.size <= max
    ensures off < h.size || ReadCache(h, off, n).items != [] ==> off + |ReadCache(h, off, n).items| <= max
  {
  }

  /** What a step of worker `w` adds, all of it within the bound. */
  ghost predicate AddsBounded(s: State, s': State, w: nat, max: nat) {
    && w < |s.ws| && w < |s'.ws| && s'.ws == s.ws[w := s'.ws[w]]
    && |s'.h.Content()| <= max && s'.h.size <= max
    && (s'.ws[w].pc.HasFound() ==> FileFits(s'.ws[w].pc.x.file, max))
    && (s'.ws[w].pc.Active() ==> CallFits(s'.ws[w].call, max))
    && (s'.r == s.r || exists v :: s'.r == s.r + [v] && FileFits(v, max))
    && (s'.log == s.log || exists e :: s'.log == s.log + [e] && EventFits(e, max))
  }

  lemma DownloadAdds(s: State, w: nat, reply: Reply, max: nat)
    requires Bounded(s, max) && w < |s.ws| && s.ws[w].pc.Downloading()
    ensures AddsBounded(s, StepDownload(s, w, reply), w, max)
  {
    assert WorkerFits(s.h, s.ws[w], max);
    assert Current(s.r) in s.r;
  }

  lemma UploadAdds(s: State, w: nat, reply: Reply, max: nat)
    requires Bounded(s, max) && w < |s.ws| && s.ws[w].pc.Uploading() && !OutOfRange(s, w)
    ensures AddsBounded(s, StepUpload(s, w, reply), w, max)
  {
    assert WorkerFits(s.h, s.ws[w], max);
    assert FileFits(Some(s.h.Body()), max);
  }

  lemma ReadAdds(s: State, w: nat, max: nat)
    requires Bounded(s, max) && w < |s.ws| && s.ws[w].pc.Reading() && !OutOfRange(s, w)
    ensures AddsBounded(s, StepRead(s, w), w, max)
  {
    assert WorkerFits(s.h, s.ws[w], max);
    PageFits(s.h, s.ws[w].call.off, s.ws[w].call.n, max);
  }

  lemma WriteAdds(s: State, w: nat, max: nat)
    requires Bounded(s, max) && w < |s.ws| && s.ws[w].pc.Writing() && !OutOfRange(s, w)
    ensures AddsBounded(s, StepWrite(s, w), w, max)
  {
    assert WorkerFits(s.h, s.ws[w], max);
  }

  lemma TruncateAdds(s: State, w: nat, max: nat)
    requires Bounded(s, max) && w < |s.ws| && s.ws[w].pc.Truncating()
    ensures AddsBounded(s, StepTruncate(s, w), w, max)
  {
    assert WorkerFits(s.h, s.ws[w], max);
  }

  lemma StepAdds(s: State, w: nat, reply: Reply, max: nat)
    requires Bounded(s, max) && Enabled(s, Step(w, reply))
    ensures AddsBounded(s, Advance(s, w, reply), w, max)
  {
    if OutOfRange(s, w) {
      assert WorkerFits(s.h, s.ws[w], max);
    } else if s.ws[w].pc.Downloading() {
      DownloadAdds(s, w, reply, max);
    } else if s.ws[w].pc.Uploading() {
      UploadAdds(s, w, reply, max);
    } else if s.ws[w].pc.Reading() {
      ReadAdds(s, w, max);
    } else if s.ws[w].pc.Writing() {
      WriteAdds(s, w, max);
    } else {
      TruncateAdds(s, w, max);
    }
  }

  lemma StaysBounded(s: State, s': State, w: nat, max: nat)
    requires Bounded(s, max) && AddsBounded(s, s', w, max)
    ensures Bounded(s', max)
  {
    forall i | 0 <= i < |s'.ws| ensures WorkerFits(s'.h, s'.ws[i], max) {
      assert WorkerFits(s.h, s.ws[i], max);
      assert i != w ==> s'.ws[i] == s.ws[i];
      if s'.ws[i].call.ReadAt? { PageFits(s'.h, s'.ws[i].call.off, s'.ws[i].call.n, max); }
    }
  }

  lemma StepKeepsBounded(s: State, a: Action, max: nat)
    requires Bounded(s, max) && Enabled(s, a) && ActionFits(a, max)
    ensures Bounded(Do(s, a), max)
  {
    if a.Step? {
      StepAdds(s, a.w, a.reply, max);
      StaysBounded(s, Do(s, a), a.w, max);
    } else if a.Start? {
      StaysBounded(s, Do(s, a), a.w, max);
    }
  }

  /** In every run, halfway states, interleaved installs and failing truncations included: if every request ends within
      `max`, and so do the file as it was and every version that other clients put, then at every moment so do the
      cache, the size, every version, every file found, every request's end and every page's end. */
  lemma {:induction false} LengthsStayBounded(k: Rely, n: nat, r: Remote, acts: seq<Action>, max: nat)
    requires Legal(k, Opened(n, r), acts) && forall v | v in r :: FileFits(v, max)
    requires forall a | a in acts :: ActionFits(a, max)
    ensures Bounded(Exec(Opened(n, r), acts), max)
    decreases |acts|
  {
    if acts != [] {
      var before, last := acts[..|acts| - 1], acts[|acts| - 1];
      assert last in acts && forall a | a in before :: a in acts;
      LengthsStayBounded(k, n, r, before, max);
      StepKeepsBounded(Exec(Opened(n, r), before), last, max);
    }
  }
}
