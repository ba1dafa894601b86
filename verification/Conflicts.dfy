/** Other clients: what the ETag protects, and when. */
module Conflicts {
  import opened Bytes
  import opened Handler
  import opened Options
  import opened Protocol
  import opened Locking
  import opened Linearizability

  /** What a worker knows about the remote. */
  ghost predicate Informed(h: Handle, r: Remote, pc: Pc) {
    && (pc.HasFound() ==> pc.x.version < |r| && r[pc.x.version] == pc.x.file
                          && (pc.x.tag == NO_TAG || pc.x.tag == pc.x.version + 1))
    && (pc.Putting? ==> pc.ifMatch == h.etag)
  }

  /** ETags belong to versions that existed. */
  ghost predicate TagInv(s: State) {
    && s.h.etag <= |s.r| && (s.h.etag != NO_TAG ==> s.r[s.h.etag - 1].Some?)
    && forall i | 0 <= i < |s.ws| :: Informed(s.h, s.r, s.ws[i].pc)
  }

  /** The other workers stay informed if the remote only grows and the ETag moves only while nobody is uploading. */
  lemma OthersStayInformed(s: State, s': State, w: nat)
    requires TagInv(s) && w < |s.ws| && w < |s'.ws| && s'.ws == s.ws[w := s'.ws[w]]
    requires |s.r| <= |s'.r| && s'.r[..|s.r|] == s.r
    requires s'.h.etag == s.h.etag || forall i | 0 <= i < |s.ws| && i != w :: !s.ws[i].pc.Putting?
    requires Informed(s'.h, s'.r, s'.ws[w].pc)
    requires s'.h.etag <= |s'.r| && (s'.h.etag != NO_TAG ==> s'.r[s'.h.etag - 1].Some?)
    ensures TagInv(s')
  {
    assert forall v | 0 <= v < |s.r| :: s'.r[v] == s'.r[..|s.r|][v];
    forall i | 0 <= i < |s'.ws| ensures Informed(s'.h, s'.r, s'.ws[i].pc) {
      assert Informed(s.h, s.r, s.ws[i].pc);
    }
  }

  ghost predicate Tagged(s: State, w: nat) {
    && w < |s.ws| && Informed(s.h, s.r, s.ws[w].pc)
    && s.h.etag <= |s.r| && (s.h.etag != NO_TAG ==> s.r[s.h.etag - 1].Some?)
  }

  lemma DownloadInforms(s: State, w: nat, reply: Reply)
    requires Tagged(s, w) && s.ws[w].pc.Downloading()
    requires s.ws[w].pc.Fetching? && reply != Failed ==> Current(s.r).Some?
    ensures Tagged(StepDownload(s, w, reply), w)
    ensures StepDownload(s, w, reply).h.etag == s.h.etag || s.ws[w].pc.HoldsWrite()
  {
  }

  lemma UploadInforms(s: State, w: nat, reply: Reply)
    requires Tagged(s, w) && s.ws[w].pc.Uploading() && !OutOfRange(s, w)
    ensures Tagged(StepUpload(s, w, reply), w)
  {
  }

  lemma StepInforms(s: State, w: nat, reply: Reply)
    requires Tagged(s, w) && Enabled(s, Step(w, reply))
    ensures Tagged(Advance(s, w, reply), w)
    ensures Advance(s, w, reply).h.etag == s.h.etag || s.ws[w].pc.HoldsWrite()
  {
    var pc := s.ws[w].pc;
    if OutOfRange(s, w) {
      assert Tagged(s.(panicked := true), w);
    } else if pc.Downloading() {
      DownloadInforms(s, w, reply);
    } else if pc.Uploading() {
      UploadInforms(s, w, reply);
    }
  }

  lemma StepKeepsTags(s: State, a: Action)
    requires Balanced(s) && TagInv(s) && Enabled(s, a)
    ensures TagInv(Do(s, a))
  {
    if a.Step? {
      assert Informed(s.h, s.r, s.ws[a.w].pc);
      StepInforms(s, a.w, a.reply);
      Exclusion(s);
      OthersStayInformed(s, Do(s, a), a.w);
    } else if a.Start? {
      OthersStayInformed(s, Do(s, a), a.w);
    } else {
      forall i | 0 <= i < |s.ws| ensures Informed(s.h, s.r + [a.file], s.ws[i].pc) {
        assert Informed(s.h, s.r, s.ws[i].pc);
      }
    }
  }

  // ----- no lost update -----

  ghost predicate NobodyInstalls(s: State) {
    forall i | 0 <= i < |s.ws| :: !s.ws[i].pc.InstallSizing?
  }

  /** If the handle's ETag is still the current one, the current version is exactly what the cache was built from. */
  ghost predicate Matched(s: State) {
    NobodyInstalls(s) && s.h.etag == CurrentTag(s.r) ==> Current(s.r) == Some(Origin(s.log))
  }

  /** A conditional upload replaced the version its ETag names, and that version is what the cache was built from:
      the bytes it published are that version with the handle's own requests applied to it. */
  ghost predicate CleanEvent(r: Remote, log: seq<Event>, i: nat)
    requires i < |log|
  {
    log[i].Saved? && log[i].ifMatch != NO_TAG ==>
      && log[i].ifMatch == log[i].version && log[i].version < |r|
      && r[log[i].version - 1] == Some(Origin(log[..i]))
      && r[log[i].version] == Some(Fold(Origin(log[..i]), Unsaved(log[..i])))
  }

  ghost predicate CleanLog(s: State) {
    forall i | 0 <= i < |s.log| :: CleanEvent(s.r, s.log, i)
  }

  /** The one step that can break the tie between ETag and cache: the branch for a missing file empties the cache and
      keeps the ETag, while that ETag is the current one. */
  predicate KeepsForeignTag(s: State, a: Action) {
    && a.Step? && a.w < |s.ws| && s.ws[a.w].pc.InstallSizing? && s.ws[a.w].pc.x.file.None?
    && s.h.etag == CurrentTag(s.r) && Current(s.r) != Some([])
  }

  lemma CleanGrows(s: State, s': State)
    requires CleanLog(s) && s.log <= s'.log && |s'.log| <= |s.log| + 1 && |s.r| <= |s'.r| && s'.r[..|s.r|] == s.r
    requires |s.log| < |s'.log| ==> CleanEvent(s'.r, s'.log, |s.log|)
    ensures CleanLog(s')
  {
    forall i | 0 <= i < |s'.log| ensures CleanEvent(s'.r, s'.log, i) {
      if i < |s.log| {
        assert CleanEvent(s.r, s.log, i) && s'.log[..i] == s.log[..i] && s'.log[i] == s.log[i];
        assert forall v | 0 <= v < |s.r| :: s'.r[v] == s'.r[..|s.r|][v];
      }
    }
  }

  lemma {:induction false} SavedIsClean(r: Remote, body: seq<byte>, log: seq<Event>, e: Event)
    requires e.Saved? && e.version == |r| && body == Replay(log)
    requires e.ifMatch != NO_TAG ==> e.ifMatch == |r| && Current(r) == Some(Origin(log))
    ensures CleanEvent(Publish(r, body), log + [e], |log|)
  {
    ReplayFromOrigin(log);
    assert (log + [e])[..|log|] == log;
  }

  lemma PutIsClean(s: State, w: nat, reply: Reply)
    requires Balanced(s) && CacheInv(s) && TagInv(s) && Matched(s) && CleanLog(s)
    requires w < |s.ws| && s.ws[w].pc.Putting? && reply != Failed && Accepts(s.r, s.ws[w].pc.ifMatch)
    ensures !OutOfRange(s, w) && CleanEvent(StepUpload(s, w, reply).r, StepUpload(s, w, reply).log, |s.log|)
  {
    Exclusion(s);
    InRange(s, w);
    assert Informed(s.h, s.r, s.ws[w].pc);
    assert Settled(s) && NobodyInstalls(s);
    BodyIsContent(s.h);
    SavedIsClean(s.r, s.h.Body(), s.log, Saved(w, |s.r|, s.ws[w].pc.ifMatch));
  }

  lemma StepGrows(s: State, a: Action)
    requires Enabled(s, a)
    ensures var s' := Do(s, a);
            && s.log <= s'.log && |s'.log| <= |s.log| + 1 && |s.r| <= |s'.r| && s'.r[..|s.r|] == s.r
            && (|s.log| < |s'.log| && s'.log[|s.log|].Saved? ==> a.Step? && s.ws[a.w].pc.Putting? && a.reply != Failed)
  {
  }

  lemma StepKeepsClean(k: Rely, s: State, a: Action)
    requires Balanced(s) && CacheInv(s) && TagInv(s) && Matched(s) && CleanLog(s)
    requires Allows(k, s, a) && k.checkedAtCommit
    ensures CleanLog(Do(s, a))
  {
    StepGrows(s, a);
    if a.Step? && s.ws[a.w].pc.Putting? && a.reply != Failed {
      PutIsClean(s, a.w, a.reply);
    }
    CleanGrows(s, Do(s, a));
  }

  /** All other steps neither install nor publish. */
  lemma LogsNoAgreement(s: State, a: Action)
    requires Enabled(s, a)
    requires !(a.Step? && (s.ws[a.w].pc.Putting? || s.ws[a.w].pc.Installing? || s.ws[a.w].pc.InstallSizing?))
    ensures Do(s, a).h.etag == s.h.etag
    ensures Do(s, a).log == s.log || exists e :: Do(s, a).log == s.log + [e] && !e.Installed? && !e.Saved?
  {
    var s' := Do(s, a);
    if s'.log != s.log {
      var e := s'.log[|s.log|];
      assert s'.log == s.log + [e] && !e.Installed? && !e.Saved?;
    }
  }

  lemma OriginKept(s: State, a: Action)
    requires Enabled(s, a)
    requires !(a.Step? && (s.ws[a.w].pc.Putting? || s.ws[a.w].pc.Installing? || s.ws[a.w].pc.InstallSizing?))
    ensures Origin(Do(s, a).log) == Origin(s.log) && Do(s, a).h.etag == s.h.etag
  {
    LogsNoAgreement(s, a);
    if Do(s, a).log != s.log {
      var e :| Do(s, a).log == s.log + [e] && !e.Installed? && !e.Saved?;
      LogSnoc(s.log, e);
    }
  }

  lemma InstallersKept(s: State, a: Action)
    requires Enabled(s, a)
    requires !(a.Step? && s.ws[a.w].pc.InstallSizing?)
    ensures NobodyInstalls(Do(s, a)) ==> NobodyInstalls(s)
  {
    var s' := Do(s, a);
    if NobodyInstalls(s') {
      forall i | 0 <= i < |s.ws| ensures !s.ws[i].pc.InstallSizing? {
        assert !s'.ws[i].pc.InstallSizing?;
      }
    }
  }

  lemma PutKeepsMatch(s: State, w: nat, reply: Reply)
    requires Balanced(s) && CacheInv(s) && TagInv(s) && Matched(s)
    requires w < |s.ws| && s.ws[w].pc.Putting?
    ensures !OutOfRange(s, w) && Matched(StepUpload(s, w, reply))
  {
    Exclusion(s);
    InRange(s, w);
    assert NobodyInstalls(s) && Settled(s);
    BodyIsContent(s.h);
    LogSnoc(s.log, Saved(w, |s.r|, s.ws[w].pc.ifMatch));
  }

  lemma InstallKeepsMatch(s: State, w: nat, reply: Reply)
    requires Balanced(s) && CacheInv(s) && TagInv(s)
    requires w < |s.ws| && s.ws[w].pc.InstallSizing?
    ensures Matched(StepDownload(s, w, reply)) <==> !KeepsForeignTag(s, Step(w, reply))
  {
    Exclusion(s);
    assert Informed(s.h, s.r, s.ws[w].pc) && MidwayAgrees(s.h, s.log, s.ws[w]);
    assert NobodyInstalls(StepDownload(s, w, reply));
  }

  /** Exactly when a step keeps the tie: always, except for that one. */
  lemma StepKeepsMatch(s: State, a: Action)
    requires Balanced(s) && CacheInv(s) && TagInv(s) && Matched(s) && Enabled(s, a)
    ensures Matched(Do(s, a)) <==> !KeepsForeignTag(s, a)
  {
    if a.Step? && s.ws[a.w].pc.Putting? {
      PutKeepsMatch(s, a.w, a.reply);
    } else if a.Step? && s.ws[a.w].pc.Installing? {
      assert Do(s, a).ws[a.w].pc.InstallSizing?;
    } else if a.Step? && s.ws[a.w].pc.InstallSizing? {
      InstallKeepsMatch(s, a.w, a.reply);
    } else {
      OriginKept(s, a);
      InstallersKept(s, a);
    }
  }

  ghost predicate Protected(s: State) {
    Balanced(s) && CacheInv(s) && TagInv(s) && Matched(s) && CleanLog(s)
  }

  lemma OpenedIsProtected(n: nat, r: Remote)
    ensures Protected(Opened(n, r)) && Sound(Opened(n, r))
  {
    OpenedIsSound(n, r);
  }

  lemma StepKeepsProtected(k: Rely, s: State, a: Action)
    requires Protected(s) && Allows(k, s, a) && k.checkedAtCommit
    requires !UnlocksTwice(s, a) && !KeepsForeignTag(s, a)
    ensures Protected(Do(s, a))
  {
    LockBalance(s, a);
    StepKeepsCache(s, a);
    StepKeepsTags(s, a);
    StepKeepsMatch(s, a);
    StepKeepsClean(k, s, a);
  }

  /** No step of the run installs a missing file over an ETag that is still current. */
  predicate Careful(s: State, acts: seq<Action>) {
    acts == [] ||
    (Careful(s, acts[..|acts| - 1]) && !KeepsForeignTag(Exec(s, acts[..|acts| - 1]), acts[|acts| - 1]))
  }

  /** No lost update, under any concurrency: a run that never takes that step replaces, with every conditional upload,
      exactly the version its cache was built from. */
  lemma {:induction false} CarefulRunsLoseNothing(k: Rely, s: State, acts: seq<Action>)
    requires Protected(s) && NobodyFails(s) && Legal(k, s, acts)
    requires k.checkedAtCommit && k.truncateDownloadsSucceed && Careful(s, acts)
    ensures Protected(Exec(s, acts)) && NobodyFails(Exec(s, acts))
    decreases |acts|
  {
    if acts != [] {
      var before, last := Exec(s, acts[..|acts| - 1]), acts[|acts| - 1];
      CarefulRunsLoseNothing(k, s, acts[..|acts| - 1]);
      StepKeepsBalance(k, before, last);
      StepKeepsProtected(k, before, last);
    }
  }

  // ----- one call at a time -----

  /** A worker that saw the file missing knows that the handle's ETag is older than that. */
  predicate AbsentIsNews(etag: Tag, pc: Pc) {
    pc.HasFound() && pc.x.file.None? ==> etag <= pc.x.version
  }

  ghost predicate OneAtATime(s: State) {
    && (forall i, j | 0 <= i < |s.ws| && 0 <= j < |s.ws| && s.ws[i].pc.Active() && s.ws[j].pc.Active() :: i == j)
    && forall i | 0 <= i < |s.ws| :: AbsentIsNews(s.h.etag, s.ws[i].pc)
  }

  lemma StepKeepsNews(s: State, w: nat, reply: Reply)
    requires Tagged(s, w) && Enabled(s, Step(w, reply))
    requires AbsentIsNews(s.h.etag, s.ws[w].pc)
    ensures var s' := Advance(s, w, reply);
            AbsentIsNews(s'.h.etag, s'.ws[w].pc) && s'.ws == s.ws[w := s'.ws[w]]
  {
  }

  /** The workers after one has moved while no other was in a call. */
  lemma StillOneAtATime(s: State, s': State, w: nat)
    requires w < |s.ws| && w < |s'.ws| && s'.ws == s.ws[w := s'.ws[w]] && AbsentIsNews(s'.h.etag, s'.ws[w].pc)
    requires forall i | 0 <= i < |s.ws| && i != w :: !s.ws[i].pc.Active()
    ensures OneAtATime(s')
  {
    forall i | 0 <= i < |s'.ws| && i != w ensures !s'.ws[i].pc.Active() {
      assert s'.ws[i] == s.ws[i];
    }
    forall i | 0 <= i < |s'.ws| ensures AbsentIsNews(s'.h.etag, s'.ws[i].pc) {
      assert i == w || !s'.ws[i].pc.Active();
    }
  }

  lemma StepKeepsOneAtATime(k: Rely, s: State, a: Action)
    requires TagInv(s) && OneAtATime(s) && Allows(k, s, a) && k.oneCallAtATime
    ensures OneAtATime(Do(s, a))
    ensures !KeepsForeignTag(s, a)
  {
    if a.Step? {
      assert Informed(s.h, s.r, s.ws[a.w].pc) && AbsentIsNews(s.h.etag, s.ws[a.w].pc);
      StepKeepsNews(s, a.w, a.reply);
      StillOneAtATime(s, Advance(s, a.w, a.reply), a.w);
    } else if a.Start? {
      StillOneAtATime(s, Do(s, a), a.w);
    }
  }

  lemma SecondUnlockCrashes(s: State, a: Action)
    requires Balanced(s) && OneAtATime(s) && Enabled(s, a) && UnlocksTwice(s, a)
    ensures Do(s, a).mu.crashed
  {
    forall w | w in s.ws ensures !Holds(w, true) {
      var i :| 0 <= i < |s.ws| && s.ws[i] == w;
      assert i == a.w || !s.ws[i].pc.Active();
    }
    NobodyHolds(s.ws, true);
  }

  lemma {:induction false} SequentialRun(k: Rely, s: State, acts: seq<Action>)
    requires Protected(s) && OneAtATime(s) && Legal(k, s, acts)
    requires k.checkedAtCommit && k.oneCallAtATime
    ensures var s' := Exec(s, acts); (Protected(s') && OneAtATime(s')) || (s'.mu.crashed && CleanLog(s'))
    decreases |acts|
  {
    if acts != [] {
      var before, last := Exec(s, acts[..|acts| - 1]), acts[|acts| - 1];
      SequentialRun(k, s, acts[..|acts| - 1]);
      CleanStep(k, before, last);
    }
  }

  lemma CleanStep(k: Rely, s: State, a: Action)
    requires (Protected(s) && OneAtATime(s)) || (s.mu.crashed && CleanLog(s))
    requires Allows(k, s, a) && k.checkedAtCommit && k.oneCallAtATime
    ensures var s' := Do(s, a); (Protected(s') && OneAtATime(s')) || (s'.mu.crashed && CleanLog(s'))
  {
    if s.mu.crashed {
      CleanGrows(s, Do(s, a));
    } else if UnlocksTwice(s, a) {
      SecondUnlockCrashes(s, a);
      CleanGrows(s, Do(s, a));
    } else {
      StepKeepsOneAtATime(k, s, a);
      StepKeepsProtected(k, s, a);
    }
  }

  /** No lost update: when calls on a handle are sequential and the storage enforces If-Match, then whatever other
      clients do between any two requests, every accepted conditional upload replaced exactly the version from which
      the cache was built, by that version with the handle's own requests applied. */
  lemma {:induction false} NoLostUpdate(k: Rely, n: nat, r: Remote, acts: seq<Action>)
    requires Legal(k, Opened(n, r), acts) && k.checkedAtCommit && k.oneCallAtATime
    ensures CleanLog(Exec(Opened(n, r), acts))
  {
    OpenedIsProtected(n, r);
    SequentialRun(k, Opened(n, r), acts);
  }

  // ----- a conflict is permanent -----

  /** A warm handle whose ETag the remote has moved past. */
  ghost predicate Conflicting(s: State) {
    && WarmAndQuiet(s) && s.h.etag != NO_TAG && s.h.etag < CurrentTag(s.r)
    && forall i | 0 <= i < |s.ws| && s.ws[i].pc.Putting? :: s.ws[i].pc.ifMatch == s.h.etag
  }

  function OthersVersions(acts: seq<Action>): seq<Option<seq<byte>>> {
    if acts == [] then []
    else
      var before, last := OthersVersions(acts[..|acts| - 1]), acts[|acts| - 1];
      if last.Other? then before + [last.file] else before
  }

  lemma StepKeepsConflict(k: Rely, s: State, a: Action)
    requires Conflicting(s) && Allows(k, s, a) && k.checkedAtCommit
    ensures var s' := Do(s, a);
            && Conflicting(s') && s'.h.etag == s.h.etag
            && s'.r == if a.Other? then s.r + [a.file] else s.r
  {
    StepStaysWarm(s, a);
    if !a.Other? {
      assert a.Step? ==> !s.ws[a.w].pc.Downloading();
      forall i | 0 <= i < |s.ws| && Do(s, a).ws[i].pc.Putting? ensures Do(s, a).ws[i].pc.ifMatch == s.h.etag {
        assert i != a.w ==> Do(s, a).ws[i] == s.ws[i];
      }
    }
  }

  /** A conflict is permanent: once the remote has moved past the non-empty ETag of a warm handle, no run of that handle
      changes the remote again; it holds what other clients put there and nothing else. */
  lemma {:induction false} ConflictIsPermanent(k: Rely, s: State, acts: seq<Action>)
    requires Conflicting(s) && Legal(k, s, acts) && k.checkedAtCommit
    ensures Conflicting(Exec(s, acts)) && Exec(s, acts).h.etag == s.h.etag
    ensures Exec(s, acts).r == s.r + OthersVersions(acts)
    decreases |acts|
  {
    if acts == [] {
      assert s.r + [] == s.r;
    } else {
      ConflictIsPermanent(k, s, acts[..|acts| - 1]);
      StepKeepsConflict(k, Exec(s, acts[..|acts| - 1]), acts[|acts| - 1]);
    }
  }
}
