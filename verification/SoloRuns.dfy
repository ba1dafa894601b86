/** The two models meet: a worker that runs a call while nobody else moves ends where `CallSpec` says, and `CallSpec`
    is what the methods of `FileHandler` are proved to compute. */
module SoloRuns {
  import opened Bytes
  import opened Handler
  import opened Options
  import opened Protocol
  import opened Runs

  /** The state in which worker `w` is at `pc`, with a new handle, remote and mutex; the log is any. */
  ghost predicate At(s: State, s': State, w: nat, h: Handle, mu: Lock, r: Remote, pc: Pc)
    requires w < |s.ws|
  {
    s'.h == h && s'.mu == mu && s'.r == r && !s'.panicked && AnyWorker(s.ws[w].call, pc).Fitting()
    && s'.ws == s.ws[w := AnyWorker(s.ws[w].call, pc)]
  }

  lemma SoloDownload(p: Play, s: State, w: nat, a: Replies) returns (s': State)
    requires Turn(p, s, w) && p.k == ANYTHING && s.ws[w].pc.Stating? && s.mu == UNLOCKED
    ensures p.reach(s')
    ensures At(s, s', w, Download(s.h, s.r, a), UNLOCKED, s.r,
               if DownloadSucceeds(s.r, a) then AfterDownload(s.ws[w].call) else AfterFailure(s.ws[w].call))
  {
    s' := GoDownload(p, s, w, a.stat);
    if s'.ws[w].pc.Fetching? {
      s' := GoDownload(p, s', w, a.fetch);
    }
    if DownloadSucceeds(s.r, a) {
      s' := Install(p, s', w);
    }
  }

  /** The upload comes to send more than the cache has. */
  predicate UploadPanics(h: Handle, r: Remote, a: Replies) {
    a.initiate != Failed && Accepts(r, h.etag) && |h.Content()| < h.size
  }

  lemma SoloUpload(p: Play, s: State, w: nat, a: Replies) returns (s': State)
    requires Turn(p, s, w) && p.k == ANYTHING && s.ws[w].pc.Initiating? && s.mu == UNLOCKED.AcquireWrite()
    ensures p.reach(s')
    ensures if UploadPanics(s.h, s.r, a) then s'.panicked
            else At(s, s', w, Upload(s.h, s.r, a).0, UNLOCKED, Upload(s.h, s.r, a).1,
                    Returned(Result(s.ws[w].call, s.ws[w].pc.copied, UploadSucceeds(s.h, s.r, a))))
  {
    s' := GoUpload(p, s, w, a.initiate);
    if UploadPanics(s.h, s.r, a) {
      s' := GoPanic(p, s', w);
    } else {
      if s'.ws[w].pc.Putting? {
        s' := GoUpload(p, s', w, a.put);
      }
      s' := GoUpload(p, s', w, Granted);
    }
  }

  function AfterPatch(h: Handle, call: Call): Handle
    requires !call.ReadAt?
  {
    if call.WriteAt? then CopyIn(GrowCache(h, call.End()), call.off, call.b)
    else SetSize(ResizeCache(h, call.length), call.length)
  }

  /** How many bytes a call copies. */
  function Length(call: Call): nat {
    if call.WriteAt? then |call.b| else 0
  }

  /** From the start of a write section to the return. */
  lemma SoloSection(p: Play, s: State, w: nat, a: Replies) returns (s': State)
    requires Turn(p, s, w) && p.k == ANYTHING && (s.ws[w].pc.Growing? || s.ws[w].pc.Resizing?)
    requires s.mu == UNLOCKED.AcquireWrite()
    ensures p.reach(s')
    ensures var call := s.ws[w].call; var patched := AfterPatch(s.h, call);
            if UploadPanics(patched, s.r, a) then s'.panicked
            else At(s, s', w, Upload(patched, s.r, a).0, UNLOCKED, Upload(patched, s.r, a).1,
                    Returned(Result(call, Length(call), UploadSucceeds(patched, s.r, a))))
  {
    if s.ws[w].pc.Growing? {
      s' := GoWrite(p, s, w);
      s' := GoWrite(p, s', w);
    } else {
      s' := GoTruncate(p, s, w);
      s' := GoTruncate(p, s', w);
    }
    s' := SoloUpload(p, s', w, a);
  }

  /** The call comes to a slice expression that is out of range: it starts from a handle whose size is not the length of
      its cache. */
  predicate CallPanics(h: Handle, r: Remote, c: Call, a: Replies) {
    match c
    case ReadAt(_, off) =>
      var start := if h.Warm() then h else Download(h, r, a);
      (h.Warm() || DownloadSucceeds(r, a)) && off < start.size && |start.Content()| < off
    case WriteAt(_, _) => UploadPanics(AfterPatch(Loaded(h, r, a), c), r, a)
    case Truncate(_) => false
  }

  lemma ConsistentDoesNotPanic(h: Handle, r: Remote, c: Call, a: Replies)
    requires h.Consistent()
    ensures !CallPanics(h, r, c, a)
  {
    if c.WriteAt? {
      PatchIsWrite(Loaded(h, r, a), c.off, c.b);
    }
  }

  /** What a call leaves behind when it runs alone. */
  ghost predicate RanAlone(s: State, s': State, w: nat, call: Call, a: Replies)
    requires w < |s.ws|
  {
    var after := CallSpec(s.h, s.r, call, a);
    && s'.h == after.h && s'.r == after.r
    && s'.ws == s.ws[w := AnyWorker(call, Returned(after.out))]
    && s'.mu == UNLOCKED.(crashed := call.Truncate? && after.out.DownloadError?)
  }

  ghost predicate RanOrPanicked(s: State, s': State, w: nat, call: Call, a: Replies)
    requires w < |s.ws|
  {
    if CallPanics(s.h, s.r, call, a) then s'.panicked else RanAlone(s, s', w, call, a)
  }

  lemma SoloCopy(p: Play, s: State, w: nat) returns (s': State)
    requires Turn(p, s, w) && p.k == ANYTHING && s.ws[w].pc.CopyLocking? && s.mu == UNLOCKED
    ensures p.reach(s')
    ensures var call := s.ws[w].call;
            if call.off < s.h.size && |s.h.Content()| < call.off then s'.panicked
            else At(s, s', w, s.h, UNLOCKED, s.r, Returned(Got(ReadCache(s.h, call.off, call.n))))
  {
    s' := GoRead(p, s, w);
    if OutOfRange(s', w) {
      s' := GoPanic(p, s', w);
    } else {
      s' := GoRead(p, s', w);
    }
  }

  lemma SoloRead(p: Play, s: State, w: nat, a: Replies) returns (s': State)
    requires Turn(p, s, w) && p.k == ANYTHING && s.ws[w].pc.ReadLocking? && s.mu == UNLOCKED
    ensures p.reach(s') && RanOrPanicked(s, s', w, s.ws[w].call, a)
  {
    s' := GoRead(p, s, w);
    s' := GoRead(p, s', w);
    if !s.h.Warm() {
      s' := SoloDownload(p, s', w, a);
    }
    if s'.ws[w].pc.CopyLocking? {
      s' := SoloCopy(p, s', w);
    }
  }

  lemma SoloWrite(p: Play, s: State, w: nat, a: Replies) returns (s': State)
    requires Turn(p, s, w) && p.k == ANYTHING && s.ws[w].pc.WriteChecking? && s.mu == UNLOCKED
    ensures p.reach(s') && RanOrPanicked(s, s', w, s.ws[w].call, a)
  {
    s' := GoWrite(p, s, w);
    if !s.h.valid {
      s' := SoloDownload(p, s', w, a);
    }
    s' := GoWrite(p, s', w);
    s' := SoloSection(p, s', w, a);
  }

  lemma SoloTruncate(p: Play, s: State, w: nat, a: Replies) returns (s': State)
    requires Turn(p, s, w) && p.k == ANYTHING && s.ws[w].pc.TruncLocking? && s.mu == UNLOCKED
    ensures p.reach(s') && RanOrPanicked(s, s', w, s.ws[w].call, a)
  {
    s' := GoTruncate(p, s, w);
    s' := GoTruncate(p, s', w);
    if !s.h.valid {
      s' := SoloDownload(p, s', w, a);
      s' := GoTruncate(p, s', w);
    }
    if s.h.valid || DownloadSucceeds(s.r, a) {
      s' := SoloSection(p, s', w, a);
    }
  }

  /** From any state in which the mutex is free, a worker that is not in a call can run one by itself, and then
      handle, remote, mutex and result are those of the sequential model; unless it panics, which it does not from a
      handle whose size is the length of its cache. */
  lemma SoloCall(s: State, w: nat, call: Call, a: Replies) returns (s': State)
    requires w < |s.ws| && !s.ws[w].pc.Active() && s.mu == UNLOCKED && !s.panicked
    ensures Leads(ANYTHING, Some(w), Do(s, Start(w, call)), s') && RanOrPanicked(s, s', w, call, a)
    ensures s.h.Consistent() ==> RanAlone(s, s', w, call, a)
  {
    var s1 := Do(s, Start(w, call));
    var p := From(ANYTHING, Some(w), s1);
    ReachableIsClosed(ANYTHING, Some(w), s1);
    match call {
    case ReadAt(_, _) => s' := SoloRead(p, s1, w, a);
    case WriteAt(_, _) => s' := SoloWrite(p, s1, w, a);
    case Truncate(_) => s' := SoloTruncate(p, s1, w, a);
    }
    if s.h.Consistent() { ConsistentDoesNotPanic(s.h, s.r, call, a); }
  }

  // ----- and nothing else can come of it -----

  /** The handle that a call goes on with after its check, and its download if it needs one. */
  function StartOf(h: Handle, r: Remote, c: Call, a: Replies): Handle {
    if NeedsDownload(h, c) then Download(h, r, a) else h
  }

  predicate NeedsDownload(h: Handle, c: Call) {
    if c.ReadAt? then !h.Warm() else !h.valid
  }

  /** Handle, mutex and remote of a state. */
  predicate Is(s: State, h: Handle, mu: Lock, r: Remote) {
    s.h == h && s.mu == mu && s.r == r
  }

  /** Where a download has come to that began with handle `h` and remote `r`, meeting the answers `a`. */
  predicate Downloads(s: State, h: Handle, r: Remote, a: Replies, pc: Pc) {
    match pc
    case Stating => Is(s, h, UNLOCKED, r)
    case Fetching => Is(s, h, UNLOCKED, r) && a.stat != Failed && Current(r).Some?
    case InstallLocking(x) => Is(s, h, UNLOCKED, r) && Finds(r, a, x)
    case Installing(x) => Is(s, h, UNLOCKED.AcquireWrite(), r) && Finds(r, a, x)
    case InstallSizing(x) => Is(s, InstallCache(h, x), UNLOCKED.AcquireWrite(), r) && Finds(r, a, x)
    case _ => false
  }

  /** What a successful download finds; without a file there is no ETag to install. */
  predicate Finds(r: Remote, a: Replies, x: Found) {
    DownloadSucceeds(r, a) && x.file == Current(r) && (x.file.Some? ==> x == Observed(r, a.fetch))
  }

  /** Where an upload has come to that began with handle `h`. */
  predicate Uploads(s: State, h: Handle, r: Remote, a: Replies, n: nat, pc: Pc) {
    match pc
    case Initiating(m) => m == n && Is(s, h, UNLOCKED.AcquireWrite(), r)
    case Putting(m, _) =>
      m == n && Is(s, h, UNLOCKED.AcquireWrite(), r) && a.initiate != Failed && Accepts(r, h.etag)
    case Releasing(m, ok) =>
      && m == n && ok == UploadSucceeds(h, r, a)
      && Is(s, Upload(h, r, a).0, UNLOCKED.AcquireWrite(), Upload(h, r, a).1)
    case _ => false
  }

  /** Where a worker that runs call `c` alone, from handle `h` and remote `r`, has come to when it is at `pc`, for some
      answers of the gateway that agree with `a` as far as it has asked. */
  predicate OnTheWay(s: State, h: Handle, r: Remote, c: Call, a: Replies, pc: Pc) {
    var start := StartOf(h, r, c, a);
    var loaded := NeedsDownload(h, c) ==> c.WriteAt? || DownloadSucceeds(r, a);
    match pc
    case Idle => false
    case ReadLocking => Is(s, h, UNLOCKED, r)
    case ReadChecking => Is(s, h, UNLOCKED.AcquireRead(), r)
    case CopyLocking => Is(s, start, UNLOCKED, r) && loaded
    case CopyingOut => Is(s, start, UNLOCKED.AcquireRead(), r) && loaded
    case WriteChecking => Is(s, h, UNLOCKED, r)
    case WriteLocking => Is(s, start, UNLOCKED, r)
    case Growing => Is(s, start, UNLOCKED.AcquireWrite(), r)
    case CopyingIn => c.WriteAt? && Is(s, GrowCache(start, c.End()), UNLOCKED.AcquireWrite(), r)
    case TruncLocking => Is(s, h, UNLOCKED, r)
    case TruncChecking => Is(s, h, UNLOCKED.AcquireWrite(), r)
    case Relocking => Is(s, start, UNLOCKED, r) && loaded
    case Resizing => Is(s, start, UNLOCKED.AcquireWrite(), r) && loaded
    case Sizing => c.Truncate? && Is(s, ResizeCache(start, c.length), UNLOCKED.AcquireWrite(), r) && loaded
    case FailingUnlock => Is(s, h, UNLOCKED, r) && NeedsDownload(h, c) && !DownloadSucceeds(r, a)
    case Initiating(_) => !c.ReadAt? && loaded && Uploads(s, AfterPatch(start, c), r, a, Length(c), pc)
    case Putting(_, _) => !c.ReadAt? && loaded && Uploads(s, AfterPatch(start, c), r, a, Length(c), pc)
    case Releasing(_, _) => !c.ReadAt? && loaded && Uploads(s, AfterPatch(start, c), r, a, Length(c), pc)
    case Returned(out) =>
      && After(s.h, s.r, out) == CallSpec(h, r, c, a)
      && s.mu == UNLOCKED.(crashed := c.Truncate? && out.DownloadError?)
    case _ => NeedsDownload(h, c) && Downloads(s, h, r, a, pc)
  }

  /** The answers, once the one to the worker's next request is known. */
  function Record(a: Replies, pc: Pc, reply: Reply): Replies {
    match pc
    case Stating => a.(stat := reply)
    case Fetching => a.(fetch := reply)
    case Initiating(_) => a.(initiate := reply)
    case Putting(_, _) => a.(put := reply)
    case _ => a
  }

  /** The worker has come one step further along the way. */
  ghost predicate StillOnTheWay(s: State, s': State, w: nat, h: Handle, r: Remote, a: Replies)
    requires w < |s.ws|
  {
    && w < |s'.ws| && s'.ws == s.ws[w := s'.ws[w]] && s'.ws[w].call == s.ws[w].call
    && OnTheWay(s', h, r, s.ws[w].call, a, s'.ws[w].pc)
  }

  lemma DownloadGoesOn(s: State, w: nat, reply: Reply, h: Handle, r: Remote, a: Replies)
    requires Enabled(s, Step(w, reply)) && s.ws[w].pc.Downloading() && Downloads(s, h, r, a, s.ws[w].pc)
    ensures var s', a' := StepDownload(s, w, reply), Record(a, s.ws[w].pc, reply);
            var pc' := s'.ws[w].pc;
            if pc'.Downloading() then Downloads(s', h, r, a', pc')
            else if s.ws[w].pc.InstallSizing? then
              DownloadSucceeds(r, a') && Is(s', Download(h, r, a'), UNLOCKED, r) && pc' == AfterDownload(s.ws[w].call)
            else
              !DownloadSucceeds(r, a') && Is(s', h, UNLOCKED, r) && pc' == AfterFailure(s.ws[w].call)
  {
  }

  lemma DownloadOnTheWay(s: State, w: nat, reply: Reply, h: Handle, r: Remote, a: Replies)
    requires Enabled(s, Step(w, reply)) && s.ws[w].pc.Downloading()
    requires OnTheWay(s, h, r, s.ws[w].call, a, s.ws[w].pc)
    ensures StillOnTheWay(s, StepDownload(s, w, reply), w, h, r, Record(a, s.ws[w].pc, reply))
  {
    DownloadGoesOn(s, w, reply, h, r, a);
  }

  lemma UploadGoesOn(s: State, w: nat, reply: Reply, h: Handle, r: Remote, a: Replies, n: nat)
    requires w < |s.ws| && s.ws[w].pc.Uploading() && !OutOfRange(s, w) && Uploads(s, h, r, a, n, s.ws[w].pc)
    ensures var s', a' := StepUpload(s, w, reply), Record(a, s.ws[w].pc, reply);
            if s.ws[w].pc.Releasing? then
              && Is(s', Upload(h, r, a).0, UNLOCKED, Upload(h, r, a).1)
              && s'.ws[w].pc == Returned(Result(s.ws[w].call, n, UploadSucceeds(h, r, a)))
            else Uploads(s', h, r, a', n, s'.ws[w].pc)
  {
  }

  lemma ChangeReturns(h: Handle, r: Remote, c: Call, a: Replies)
    requires !c.ReadAt? && (NeedsDownload(h, c) ==> c.WriteAt? || DownloadSucceeds(r, a))
    ensures var patched := AfterPatch(StartOf(h, r, c, a), c);
            var (h', r') := Upload(patched, r, a);
            CallSpec(h, r, c, a) == After(h', r', Result(c, Length(c), UploadSucceeds(patched, r, a)))
  {
  }

  lemma UploadOnTheWay(s: State, w: nat, reply: Reply, h: Handle, r: Remote, a: Replies)
    requires w < |s.ws| && s.ws[w].pc.Uploading() && !OutOfRange(s, w)
    requires OnTheWay(s, h, r, s.ws[w].call, a, s.ws[w].pc)
    ensures StillOnTheWay(s, StepUpload(s, w, reply), w, h, r, Record(a, s.ws[w].pc, reply))
  {
    var c := s.ws[w].call;
    UploadGoesOn(s, w, reply, AfterPatch(StartOf(h, r, c, a), c), r, a, Length(c));
    ChangeReturns(h, r, c, a);
    assert StartOf(h, r, c, Record(a, s.ws[w].pc, reply)) == StartOf(h, r, c, a);
  }

  lemma ReadOnTheWay(s: State, w: nat, h: Handle, r: Remote, a: Replies)
    requires w < |s.ws| && s.ws[w].pc.Reading() && !OutOfRange(s, w)
    requires OnTheWay(s, h, r, s.ws[w].call, a, s.ws[w].pc)
    ensures StillOnTheWay(s, StepRead(s, w), w, h, r, a)
  {
  }

  lemma WriteOnTheWay(s: State, w: nat, h: Handle, r: Remote, a: Replies)
    requires w < |s.ws| && s.ws[w].pc.Writing() && !OutOfRange(s, w)
    requires OnTheWay(s, h, r, s.ws[w].call, a, s.ws[w].pc)
    ensures StillOnTheWay(s, StepWrite(s, w), w, h, r, a)
  {
  }

  lemma TruncateOnTheWay(s: State, w: nat, h: Handle, r: Remote, a: Replies)
    requires w < |s.ws| && s.ws[w].pc.Truncating()
    requires OnTheWay(s, h, r, s.ws[w].call, a, s.ws[w].pc)
    ensures StillOnTheWay(s, StepTruncate(s, w), w, h, r, a)
  {
  }

  lemma StepOnTheWay(s: State, w: nat, reply: Reply, h: Handle, r: Remote, a: Replies)
    requires Enabled(s, Step(w, reply)) && OnTheWay(s, h, r, s.ws[w].call, a, s.ws[w].pc)
    ensures exists a' :: StillOnTheWay(s, Advance(s, w, reply), w, h, r, a')
  {
    var pc, s' := s.ws[w].pc, Advance(s, w, reply);
    if OutOfRange(s, w) {
      assert StillOnTheWay(s, s', w, h, r, a);
    } else if pc.Downloading() {
      DownloadOnTheWay(s, w, reply, h, r, a);
    } else if pc.Uploading() {
      UploadOnTheWay(s, w, reply, h, r, a);
    } else if pc.Reading() {
      ReadOnTheWay(s, w, h, r, a);
    } else if pc.Writing() {
      WriteOnTheWay(s, w, h, r, a);
    } else {
      TruncateOnTheWay(s, w, h, r, a);
    }
  }

  lemma {:induction false} RunOnTheWay(s: State, w: nat, call: Call, acts: seq<Action>) returns (a: Replies)
    requires w < |s.ws| && !s.ws[w].pc.Active() && s.mu == UNLOCKED && !s.panicked
    requires Legal(ANYTHING, Do(s, Start(w, call)), acts) && forall x | x in acts :: By(Some(w), x)
    ensures var s' := Exec(Do(s, Start(w, call)), acts);
            w < |s'.ws| && s'.ws == s.ws[w := s'.ws[w]] && s'.ws[w].call == call
            && OnTheWay(s', s.h, s.r, call, a, s'.ws[w].pc)
    decreases |acts|
  {
    if acts == [] {
      a := Replies(Failed, Failed, Failed, Failed);
    } else {
      var before, last := acts[..|acts| - 1], acts[|acts| - 1];
      assert last in acts && forall x | x in before :: x in acts;
      a := RunOnTheWay(s, w, call, before);
      var s1 := Exec(Do(s, Start(w, call)), before);
      StepOnTheWay(s1, w, last.reply, s.h, s.r, a);
      a :| StillOnTheWay(s1, Advance(s1, w, last.reply), w, s.h, s.r, a);
    }
  }

  /** Every run of a worker by itself that returns from the call has, for some answers of the gateway, exactly the
      handle, remote, mutex and result of the sequential model. */
  lemma {:induction false} EverySoloCall(s: State, w: nat, call: Call, acts: seq<Action>)
    requires w < |s.ws| && !s.ws[w].pc.Active() && s.mu == UNLOCKED && !s.panicked
    requires Legal(ANYTHING, Do(s, Start(w, call)), acts) && forall x | x in acts :: By(Some(w), x)
    ensures var s' := Exec(Do(s, Start(w, call)), acts);
            w < |s'.ws| && (s'.ws[w].pc.Returned? ==> exists a :: RanAlone(s, s', w, call, a))
  {
    var a := RunOnTheWay(s, w, call, acts);
    var s' := Exec(Do(s, Start(w, call)), acts);
    if s'.ws[w].pc.Returned? {
      assert RanAlone(s, s', w, call, a);
    }
  }
}
