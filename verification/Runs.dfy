/** Building runs of the protocol step by step: how a proof shows that a state can be reached. */
module Runs {
  import opened Bytes
  import opened Handler
  import opened Options
  import opened Protocol

  /** The action is the step of worker `only`, if one is named. */
  predicate By(only: Option<nat>, a: Action) {
    only.Some? ==> a.Step? && a.w == only.value
  }

  /** A run in surroundings `k`, of all workers or of one alone, leads from `s0` to `s`. */
  ghost predicate Leads(k: Rely, only: Option<nat>, s0: State, s: State) {
    exists acts :: Legal(k, s0, acts) && (forall a | a in acts :: By(only, a)) && Exec(s0, acts) == s
  }

  /** Surroundings, and a set of states that no action allowed there leaves. Proofs about longer runs are about any
      such set, so that they meet one state at a time and no run. */
  datatype Play = Play(k: Rely, only: Option<nat>, reach: State -> bool)

  ghost predicate Closed(p: Play) {
    forall x: State, a: Action {:trigger Do(x, a)} |
      p.reach(x) && Allows(p.k, x, a) && By(p.only, a) :: p.reach(Do(x, a))
  }

  ghost function From(k: Rely, only: Option<nat>, s0: State): Play {
    Play(k, only, s => Leads(k, only, s0, s))
  }

  lemma ReachableIsClosed(k: Rely, only: Option<nat>, s0: State)
    ensures Closed(From(k, only, s0)) && From(k, only, s0).reach(s0)
  {
    assert Legal(k, s0, []) && Exec(s0, []) == s0;
    forall x: State, a: Action | Leads(k, only, s0, x) && Allows(k, x, a) && By(only, a)
      ensures Leads(k, only, s0, Do(x, a))
    {
      var acts :| Legal(k, s0, acts) && (forall b | b in acts :: By(only, b)) && Exec(s0, acts) == x;
      Extend(k, s0, acts, a);
      assert Legal(k, s0, acts + [a]);
    }
  }

  /** The play has come to `s`, and worker `w` may make the next step. */
  ghost predicate Turn(p: Play, s: State, w: nat) {
    && Closed(p) && p.reach(s) && w < |s.ws| && (p.only.Some? ==> p.only.value == w)
    && !s.mu.crashed && !s.panicked
  }

  lemma Begin(p: Play, s: State, w: nat, call: Call) returns (s': State)
    requires Turn(p, s, w) && !s.ws[w].pc.Active() && p.only.None?
    requires p.k.oneCallAtATime ==> forall i | 0 <= i < |s.ws| :: !s.ws[i].pc.Active()
    ensures p.reach(s') && s' == s.(ws := s.ws[w := AnyWorker(call, FirstPc(call))])
  {
    s' := Do(s, Start(w, call));
  }

  lemma Intrude(p: Play, s: State, file: seq<byte>) returns (s': State)
    requires Closed(p) && p.reach(s) && !p.k.othersSilent && p.only.None?
    ensures p.reach(s') && s' == s.(r := s.r + [Some(file)])
  {
    s' := Do(s, Other(Some(file)));
  }

  lemma GoWrite(p: Play, s: State, w: nat) returns (s': State)
    requires Turn(p, s, w) && s.ws[w].pc.Writing() && !OutOfRange(s, w) && (s.ws[w].pc.WriteLocking? ==> s.mu.Free())
    requires s.ws[w].pc.WriteLocking? && p.k.noSectionDuringDownload ==> !SomeoneDownloads(s)
    requires s.ws[w].pc.WriteChecking? && !s.h.valid && p.k.noDownloadDuringSection ==> !SomeoneInSection(s)
    ensures p.reach(s') && s' == StepWrite(s, w)
  {
    s' := Do(s, Step(w, Granted));
  }

  lemma GoRead(p: Play, s: State, w: nat) returns (s': State)
    requires Turn(p, s, w) && s.ws[w].pc.Reading() && !OutOfRange(s, w) && !s.mu.writer
    requires s.ws[w].pc.ReadChecking? && !s.h.Warm() && p.k.noDownloadDuringSection ==> !SomeoneInSection(s)
    ensures p.reach(s') && s' == StepRead(s, w)
  {
    s' := Do(s, Step(w, Granted));
  }

  lemma GoTruncate(p: Play, s: State, w: nat) returns (s': State)
    requires Turn(p, s, w) && s.ws[w].pc.Truncating()
    requires s.ws[w].pc.TruncLocking? || s.ws[w].pc.Relocking? ==> s.mu.Free()
    requires BeginsSection(s, w) && p.k.noSectionDuringDownload ==> !SomeoneDownloads(s)
    requires BeginsDownload(s, w) && p.k.noDownloadDuringSection ==> !SomeoneInSection(s)
    ensures p.reach(s') && s' == StepTruncate(s, w)
  {
    s' := Do(s, Step(w, Granted));
  }

  lemma GoUpload(p: Play, s: State, w: nat, reply: Reply) returns (s': State)
    requires Turn(p, s, w) && s.ws[w].pc.Uploading() && !OutOfRange(s, w)
    requires p.k.checkedAtCommit && s.ws[w].pc.Putting? && reply != Failed ==> Accepts(s.r, s.ws[w].pc.ifMatch)
    ensures p.reach(s') && s' == StepUpload(s, w, reply)
  {
    s' := Do(s, Step(w, reply));
  }

  lemma GoDownload(p: Play, s: State, w: nat, reply: Reply) returns (s': State)
    requires Turn(p, s, w) && s.ws[w].pc.Downloading()
    requires s.ws[w].pc.InstallLocking? ==> s.mu.Free()
    requires s.ws[w].pc.Fetching? && reply != Failed ==> Current(s.r).Some?
    requires p.k.truncateDownloadsSucceed && s.ws[w].call.Truncate? && !s.ws[w].pc.HasFound() ==> reply != Failed
    ensures p.reach(s') && s' == StepDownload(s, w, reply)
  {
    s' := Do(s, Step(w, reply));
  }

  lemma GoPanic(p: Play, s: State, w: nat) returns (s': State)
    requires Turn(p, s, w) && OutOfRange(s, w)
    requires p.k.checkedAtCommit ==> !s.ws[w].pc.Putting?
    ensures p.reach(s') && s' == s.(panicked := true)
  {
    s' := Do(s, Step(w, Granted));
  }

  lemma Install(p: Play, s: State, w: nat) returns (s': State)
    requires Turn(p, s, w) && s.ws[w].pc.InstallLocking? && s.mu == UNLOCKED
    ensures p.reach(s')
    ensures var x, call := s.ws[w].pc.x, s.ws[w].call;
            && s'.h == InstallSize(InstallCache(s.h, x), x) && s'.mu == UNLOCKED && s'.r == s.r
            && s'.ws == s.ws[w := AnyWorker(call, AfterDownload(call))] && s'.log == s.log + [Installed(w, x)]
            && !s'.panicked
  {
    s' := GoDownload(p, s, w, Granted);
    s' := GoDownload(p, s', w, Granted);
    s' := GoDownload(p, s', w, Granted);
  }
}
