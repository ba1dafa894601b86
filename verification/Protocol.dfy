/** The open handle under concurrency: any number of workers, one handle, one mutex, one remote file that other
    clients may change at any moment. Every step of a worker is one piece of code between two points where another
    worker can be observed; what it does to the handle is the function of `Handler` that the class is proved against. */
module Protocol {
  import opened Bytes
  import opened Paging
  import opened Handler
  import opened Options

  /** Where a worker is in its call. */
  datatype Pc =
    | Idle
    // ReadAt
    | ReadLocking | ReadChecking
    | CopyLocking | CopyingOut
    // WriteAt
    | WriteChecking | WriteLocking
    | Growing | CopyingIn
    // Truncate
    | TruncLocking | TruncChecking | Relocking
    | Resizing | Sizing
    | FailingUnlock            // the deferred Unlock of a Truncate that no longer holds the mutex
    // uploadFile, inside a write section
    | Initiating(copied: nat) | Putting(copied: nat, ifMatch: Tag) | Releasing(copied: nat, ok: bool)
    // downloadFile, the mutex held only while installing
    | Stating | Fetching | InstallLocking(x: Found) | Installing(x: Found) | InstallSizing(x: Found)
    | Returned(out: Outcome)
  {
    predicate Active() { !Idle? && !Returned? }

    predicate HoldsRead() { ReadChecking? || CopyingOut? }

    predicate InSection() {
      Growing? || CopyingIn? || Resizing? || Sizing? || Initiating? || Putting? || Releasing?
    }

    predicate HoldsWrite() { InSection() || TruncChecking? || Installing? || InstallSizing? }

    predicate Downloading() { Stating? || Fetching? || HasFound() }

    predicate HasFound() { InstallLocking? || Installing? || InstallSizing? }

    predicate Reading() { ReadLocking? || ReadChecking? || CopyLocking? || CopyingOut? }

    predicate Writing() { WriteChecking? || WriteLocking? || Growing? || CopyingIn? }

    predicate Truncating() { TruncLocking? || TruncChecking? || Relocking? || Resizing? || Sizing? || FailingUnlock? }

    predicate Uploading() { Initiating? || Putting? || Releasing? }
  }

  datatype AnyWorker = AnyWorker(call: Call, pc: Pc) {
    predicate Fitting() {
      && (pc.Reading() ==> call.ReadAt?)
      && (pc.Writing() ==> call.WriteAt?)
      && (pc.Truncating() ==> call.Truncate?)
      && (pc.Uploading() ==> !call.ReadAt?)
    }
  }

  type Worker = w: AnyWorker | w.Fitting() witness AnyWorker(Truncate(0), Idle)

  /** What has happened so far, in the order in which it happened. */
  datatype Event =
    | Applied(w: nat, m: Mutation)                             // a request patched the cache
    | Installed(w: nat, x: Found)                              // a download replaced the cache
    | Saved(w: nat, version: nat, ifMatch: Tag)                // an upload was accepted and became that version
    | Read(w: nat, off: nat, n: nat, page: Page<byte>)         // a read copied a page out of the cache

  datatype State = State(h: Handle, mu: Lock, r: Remote, ws: seq<Worker>, log: seq<Event>, panicked: bool)

  /** One worker's step with the gateway's answer to it, the start of a call, or another client's new version. */
  datatype Action = Start(w: nat, call: Call) | Step(w: nat, reply: Reply) | Other(file: Option<seq<byte>>)

  function FirstPc(call: Call): Pc {
    match call
    case ReadAt(_, _) => ReadLocking
    case WriteAt(_, _) => WriteChecking
    case Truncate(_) => TruncLocking
  }

  function AfterDownload(call: Call): Pc {
    match call
    case ReadAt(_, _) => CopyLocking
    case WriteAt(_, _) => WriteLocking
    case Truncate(_) => Relocking
  }

  /** A read reports the error, a write ignores it, a truncation returns with its Unlock still pending. */
  function AfterFailure(call: Call): Pc {
    match call
    case ReadAt(_, _) => Returned(DownloadError)
    case WriteAt(_, _) => WriteLocking
    case Truncate(_) => FailingUnlock
  }

  function Result(call: Call, copied: nat, ok: bool): Outcome {
    if call.WriteAt? then Wrote(copied, ok) else Truncated(ok)
  }

  predicate Enabled(s: State, a: Action) {
    match a
    case Other(_) => true
    case Start(w, _) => w < |s.ws| && !s.mu.crashed && !s.panicked && !s.ws[w].pc.Active()
    case Step(w, reply) =>
      && w < |s.ws| && !s.mu.crashed && !s.panicked
      && match s.ws[w].pc
         case Idle => false
         case Returned(_) => false
         case ReadLocking => !s.mu.writer
         case CopyLocking => !s.mu.writer
         case WriteLocking => s.mu.Free()
         case TruncLocking => s.mu.Free()
         case Relocking => s.mu.Free()
         case InstallLocking(_) => s.mu.Free()
         case Fetching => reply == Failed || Current(s.r).Some?
         case _ => true
  }

  /** The slice expression that worker `w` is about to evaluate is out of range. */
  predicate OutOfRange(s: State, w: nat)
    requires w < |s.ws|
  {
    match s.ws[w].pc
    case CopyingOut => s.ws[w].call.off < s.h.size && |s.h.Content()| < s.ws[w].call.off
    case CopyingIn => |s.h.Content()| < s.ws[w].call.off
    case Putting(_, _) => |s.h.Content()| < s.h.size
    case _ => false
  }

  function StepRead(s: State, w: nat): State
    requires w < |s.ws| && s.ws[w].pc.Reading() && !OutOfRange(s, w)
  {
    var call := s.ws[w].call;
    match s.ws[w].pc
    case ReadLocking => s.(ws := s.ws[w := AnyWorker(call, ReadChecking)], mu := s.mu.AcquireRead())
    case ReadChecking =>
      var pc := if s.h.Warm() then CopyLocking else Stating;
      s.(ws := s.ws[w := AnyWorker(call, pc)], mu := s.mu.ReleaseRead())
    case CopyLocking => s.(ws := s.ws[w := AnyWorker(call, CopyingOut)], mu := s.mu.AcquireRead())
    case CopyingOut =>
      var page := ReadCache(s.h, call.off, call.n);
      s.(ws := s.ws[w := AnyWorker(call, Returned(Got(page)))], mu := s.mu.ReleaseRead(),
         log := s.log + [Read(w, call.off, call.n, page)])
  }

  function StepWrite(s: State, w: nat): State
    requires w < |s.ws| && s.ws[w].pc.Writing() && !OutOfRange(s, w)
  {
    var call := s.ws[w].call;
    match s.ws[w].pc
    case WriteChecking => s.(ws := s.ws[w := AnyWorker(call, if s.h.valid then WriteLocking else Stating)])
    case WriteLocking => s.(ws := s.ws[w := AnyWorker(call, Growing)], mu := s.mu.AcquireWrite())
    case Growing => s.(ws := s.ws[w := AnyWorker(call, CopyingIn)], h := GrowCache(s.h, call.End()))
    case CopyingIn =>
      var data := Copyable(s.h, call.off, call.b);
      s.(ws := s.ws[w := AnyWorker(call, Initiating(|data|))], h := CopyIn(s.h, call.off, data),
         log := s.log + [Applied(w, Write(call.off, data))])
  }

  function StepTruncate(s: State, w: nat): State
    requires w < |s.ws| && s.ws[w].pc.Truncating()
  {
    var call := s.ws[w].call;
    match s.ws[w].pc
    case TruncLocking => s.(ws := s.ws[w := AnyWorker(call, TruncChecking)], mu := s.mu.AcquireWrite())
    case TruncChecking =>
      if s.h.valid then s.(ws := s.ws[w := AnyWorker(call, Resizing)])
      else s.(ws := s.ws[w := AnyWorker(call, Stating)], mu := s.mu.ReleaseWrite())
    case Relocking => s.(ws := s.ws[w := AnyWorker(call, Resizing)], mu := s.mu.AcquireWrite())
    case Resizing => s.(ws := s.ws[w := AnyWorker(call, Sizing)], h := ResizeCache(s.h, call.length))
    case Sizing =>
      s.(ws := s.ws[w := AnyWorker(call, Initiating(0))], h := SetSize(s.h, call.length),
         log := s.log + [Applied(w, SetLength(call.length))])
    case FailingUnlock => s.(ws := s.ws[w := AnyWorker(call, Returned(DownloadError))], mu := s.mu.ReleaseWrite())
  }

  function StepUpload(s: State, w: nat, reply: Reply): State
    requires w < |s.ws| && s.ws[w].pc.Uploading() && !OutOfRange(s, w)
  {
    var call := s.ws[w].call;
    match s.ws[w].pc
    case Initiating(n) =>
      var pc := if reply == Failed || !Accepts(s.r, s.h.etag) then Releasing(n, false) else Putting(n, s.h.etag);
      s.(ws := s.ws[w := AnyWorker(call, pc)])
    case Putting(n, ifMatch) =>
      if reply == Failed then s.(ws := s.ws[w := AnyWorker(call, Releasing(n, false))])
      else
        var r := Publish(s.r, s.h.Body());
        s.(ws := s.ws[w := AnyWorker(call, Releasing(n, true))], r := r, h := AfterPut(s.h, r, reply),
           log := s.log + [Saved(w, |s.r|, ifMatch)])
    case Releasing(n, ok) =>
      s.(ws := s.ws[w := AnyWorker(call, Returned(Result(call, n, ok)))], mu := s.mu.ReleaseWrite())
  }

  function StepDownload(s: State, w: nat, reply: Reply): State
    requires w < |s.ws| && s.ws[w].pc.Downloading()
  {
    var call := s.ws[w].call;
    match s.ws[w].pc
    case Stating =>
      var pc := if reply == Failed then AfterFailure(call)
                else if Current(s.r).None? then InstallLocking(Observed(s.r, reply))
                else Fetching;
      s.(ws := s.ws[w := AnyWorker(call, pc)])
    case Fetching =>
      var pc := if reply == Failed then AfterFailure(call) else InstallLocking(Observed(s.r, reply));
      s.(ws := s.ws[w := AnyWorker(call, pc)])
    case InstallLocking(x) => s.(ws := s.ws[w := AnyWorker(call, Installing(x))], mu := s.mu.AcquireWrite())
    case Installing(x) =>
      s.(ws := s.ws[w := AnyWorker(call, InstallSizing(x))], h := InstallCache(s.h, x),
         log := s.log + [Installed(w, x)])
    case InstallSizing(x) =>
      s.(ws := s.ws[w := AnyWorker(call, AfterDownload(call))], h := InstallSize(s.h, x), mu := s.mu.ReleaseWrite())
  }

  /** The step of worker `w`. A slice expression out of range panics, which is the end of the process. */
  function Advance(s: State, w: nat, reply: Reply): State
    requires Enabled(s, Step(w, reply))
  {
    var pc := s.ws[w].pc;
    if OutOfRange(s, w) then s.(panicked := true)
    else if pc.Downloading() then StepDownload(s, w, reply)
    else if pc.Uploading() then StepUpload(s, w, reply)
    else if pc.Reading() then StepRead(s, w)
    else if pc.Writing() then StepWrite(s, w)
    else StepTruncate(s, w)
  }

  /** The state after an action; an action that is not enabled changes nothing. */
  function Do(s: State, a: Action): State {
    if !Enabled(s, a) then s
    else match a
      case Start(w, call) => s.(ws := s.ws[w := AnyWorker(call, FirstPc(call))])
      case Step(w, reply) => Advance(s, w, reply)
      case Other(file) => s.(r := s.r + [file])
  }

  function Exec(s: State, acts: seq<Action>): State {
    if acts == [] then s else Do(Exec(s, acts[..|acts| - 1]), acts[|acts| - 1])
  }

  /** A handle just opened for `n` workers. */
  function Opened(n: nat, r: Remote): State {
    State(FRESH, UNLOCKED, r, seq(n, _ => AnyWorker(Truncate(0), Idle)), [], false)
  }

  // ----- what a theorem may assume of the surroundings -----

  datatype Rely = Rely(
    truncateDownloadsSucceed: bool,    // no download on behalf of a Truncate fails
    checkedAtCommit: bool,             // the storage enforces If-Match when it commits the upload, not only before
    oneCallAtATime: bool,              // a call starts only when no other is under way
    noSectionDuringDownload: bool,     // no write section begins while a download is in flight
    noDownloadDuringSection: bool,     // no download begins while a write section is under way
    othersSilent: bool)                // no other client changes the file

  const ANYTHING := Rely(false, false, false, false, false, false)

  predicate SomeoneDownloads(s: State) {
    exists i | 0 <= i < |s.ws| :: s.ws[i].pc.Downloading()
  }

  predicate SomeoneInSection(s: State) {
    exists i | 0 <= i < |s.ws| :: s.ws[i].pc.InSection()
  }

  predicate BeginsSection(s: State, w: nat)
    requires w < |s.ws|
  {
    s.ws[w].pc.WriteLocking? || s.ws[w].pc.Relocking? || (s.ws[w].pc.TruncChecking? && s.h.valid)
  }

  predicate BeginsDownload(s: State, w: nat)
    requires w < |s.ws|
  {
    || (s.ws[w].pc.ReadChecking? && !s.h.Warm())
    || ((s.ws[w].pc.WriteChecking? || s.ws[w].pc.TruncChecking?) && !s.h.valid)
  }

  predicate Allows(k: Rely, s: State, a: Action) {
    && Enabled(s, a)
    && (a.Other? ==> !k.othersSilent)
    && (a.Start? && k.oneCallAtATime ==> forall i | 0 <= i < |s.ws| :: !s.ws[i].pc.Active())
    && (a.Step? ==>
          var me := s.ws[a.w];
          && (k.truncateDownloadsSucceed && me.call.Truncate? && (me.pc.Stating? || me.pc.Fetching?) ==>
                a.reply != Failed)
          && (k.checkedAtCommit && me.pc.Putting? && a.reply != Failed ==> Accepts(s.r, me.pc.ifMatch))
          && (k.noSectionDuringDownload && BeginsSection(s, a.w) ==> !SomeoneDownloads(s))
          && (k.noDownloadDuringSection && BeginsDownload(s, a.w) ==> !SomeoneInSection(s)))
  }

  /** `acts` is a run from `s` in surroundings that keep to `k`. */
  predicate Legal(k: Rely, s: State, acts: seq<Action>) {
    acts == [] ||
    (Legal(k, s, acts[..|acts| - 1]) && Allows(k, Exec(s, acts[..|acts| - 1]), acts[|acts| - 1]))
  }

  lemma Extend(k: Rely, s: State, acts: seq<Action>, a: Action)
    ensures Exec(s, acts + [a]) == Do(Exec(s, acts), a)
    ensures Legal(k, s, acts + [a]) <==> Legal(k, s, acts) && Allows(k, Exec(s, acts), a)
  {
    assert (acts + [a])[..|acts|] == acts;
  }

  // ----- the simple file that the log describes -----

  /** The file after an event. */
  function Effect(file: seq<byte>, e: Event): seq<byte> {
    match e
    case Applied(_, m) => Apply(file, m)
    case Installed(_, x) => x.Content()
    case _ => file
  }

  /** The file that results from the installs and requests in the log, in their order. */
  function Replay(log: seq<Event>): seq<byte> {
    if log == [] then [] else Effect(Replay(log[..|log| - 1]), log[|log| - 1])
  }

  /** The file as it was when cache and remote last agreed: at the last install or accepted upload. */
  function Origin(log: seq<Event>): seq<byte> {
    if log == [] then []
    else if log[|log| - 1].Installed? || log[|log| - 1].Saved? then Replay(log)
    else Origin(log[..|log| - 1])
  }

  /** The requests applied since then. */
  function Unsaved(log: seq<Event>): seq<Mutation> {
    if log == [] || log[|log| - 1].Installed? || log[|log| - 1].Saved? then []
    else if log[|log| - 1].Applied? then Unsaved(log[..|log| - 1]) + [log[|log| - 1].m]
    else Unsaved(log[..|log| - 1])
  }

  /** The file is what it was at the last agreement with the remote, plus everything applied since. */
  lemma {:induction false} ReplayFromOrigin(log: seq<Event>)
    ensures Replay(log) == Fold(Origin(log), Unsaved(log))
    decreases |log|
  {
    if log != [] {
      ReplayFromOrigin(log[..|log| - 1]);
      if log[|log| - 1].Applied? {
        FoldSnoc(Origin(log), Unsaved(log[..|log| - 1]), log[|log| - 1].m);
      }
    }
  }

  lemma LogSnoc(log: seq<Event>, e: Event)
    ensures Replay(log + [e]) == Effect(Replay(log), e)
    ensures Origin(log + [e]) == if e.Installed? || e.Saved? then Effect(Replay(log), e) else Origin(log)
  {
    assert (log + [e])[..|log|] == log;
  }
}
