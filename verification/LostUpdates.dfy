/** How an update of another client is lost: after the one step that breaks the tie between cache and ETag, and by
    uploads that carry no ETag. */
module LostUpdates {
  import opened Bytes
  import opened Handler
  import opened Options
  import opened Protocol
  import opened Locking
  import opened Linearizability
  import opened Conflicts
  import opened Runs
  import opened Traces

  /** Worker `w` has changed the cache and is about to save it. */
  ghost predicate HasChanged(s: State, s': State, w: nat, m: Mutation) {
    && w < |s.ws| && w < |s'.ws| && s'.ws[w].pc.Initiating? && !s'.mu.crashed && !s'.panicked
    && s'.h.Consistent() && s'.h.etag == s.h.etag && s'.r == s.r && s'.log == s.log + [Applied(w, m)]
  }

  lemma WriteChanges(p: Play, s: State, w: nat) returns (s': State, m: Mutation)
    requires Turn(p, s, w) && s.ws[w].pc.Growing? && s.h.Consistent()
    ensures p.reach(s') && HasChanged(s, s', w, m)
  {
    var call := s.ws[w].call;
    m := Write(call.off, call.b);
    PatchIsWrite(s.h, call.off, call.b);
    s' := GoWrite(p, s, w);
    assert Copyable(s'.h, call.off, call.b) == call.b;
    s' := GoWrite(p, s', w);
  }

  lemma TruncateChanges(p: Play, s: State, w: nat) returns (s': State, m: Mutation)
    requires Turn(p, s, w) && s.ws[w].pc.Resizing? && s.h.Consistent()
    ensures p.reach(s') && HasChanged(s, s', w, m)
  {
    m := SetLength(s.ws[w].call.length);
    s' := GoTruncate(p, s, w);
    s' := GoTruncate(p, s', w);
  }

  /** From its section's start worker `w` changes the cache and saves it, on the condition that the ETag is current. */
  lemma SectionSaves(p: Play, s: State, w: nat) returns (s': State, m: Mutation)
    requires Turn(p, s, w) && (s.ws[w].pc.Growing? || s.ws[w].pc.Resizing?)
    requires s.h.Consistent() && Accepts(s.r, s.h.etag)
    ensures p.reach(s') && s'.log == s.log + [Applied(w, m)] + [Saved(w, |s.r|, s.h.etag)]
    ensures |s'.r| == |s.r| + 1 && s'.r[..|s.r|] == s.r
  {
    if s.ws[w].pc.Growing? {
      s', m := WriteChanges(p, s, w);
    } else {
      s', m := TruncateChanges(p, s, w);
    }
    s' := GoUpload(p, s', w, Granted);
    s' := GoUpload(p, s', w, Granted);
  }

  /** A conditional upload that replaces a version other than the one the cache was built from. */
  lemma {:induction false} SavedOverForeign(s: State, log: seq<Event>, w: nat, m: Mutation, version: nat)
    requires s.log == log + [Applied(w, m)] + [Saved(w, version, version)]
    requires 0 < version < |s.r| && s.r[version - 1] != Some(Origin(log))
    ensures !CleanLog(s)
  {
    LogSnoc(log, Applied(w, m));
    assert s.log[..|log| + 1] == log + [Applied(w, m)];
    assert !CleanEvent(s.r, s.log, |log| + 1);
  }

  /** The state after the install of a missing file over an ETag that is current. */
  ghost predicate EmptiedOverForeign(s: State) {
    && s.mu == UNLOCKED && !s.panicked && s.h.Warm() && s.h.Consistent()
    && s.h.etag == CurrentTag(s.r) && Current(s.r).Some? && Current(s.r) != Some(Origin(s.log))
  }

  /** From there a worker that goes for the mutex to change the file loses the current version. */
  lemma ChangeLosesUpdate(p: Play, s: State, w: nat) returns (s': State)
    requires Turn(p, s, w) && EmptiedOverForeign(s) && !p.k.noSectionDuringDownload
    requires s.ws[w].pc.WriteLocking? || s.ws[w].pc.Relocking?
    ensures p.reach(s') && !CleanLog(s')
  {
    var s1 := s;
    if s.ws[w].pc.WriteLocking? {
      s1 := GoWrite(p, s, w);
    } else {
      s1 := GoTruncate(p, s, w);
    }
    var m;
    s', m := SectionSaves(p, s1, w);
    assert s'.r[|s.r| - 1] == s'.r[..|s.r|][|s.r| - 1];
    SavedOverForeign(s', s.log, w, m, |s.r|);
  }

  /** A reader returns first, and its next call is the change. */
  lemma ReaderThenLosesUpdate(p: Play, s: State, w: nat) returns (s': State)
    requires Turn(p, s, w) && p.only.None? && EmptiedOverForeign(s) && s.ws[w].pc.CopyLocking?
    requires !p.k.noSectionDuringDownload && !p.k.oneCallAtATime
    ensures p.reach(s') && !CleanLog(s')
  {
    var call := s.ws[w].call;
    s' := GoRead(p, s, w);
    LogSnoc(s.log, Read(w, call.off, call.n, ReadCache(s.h, call.off, call.n)));
    s' := GoRead(p, s', w);
    s' := Begin(p, s', w, WriteAt([], 0));
    s' := GoWrite(p, s', w);
    s' := ChangeLosesUpdate(p, s', w);
  }

  /** The step that breaks the tie between cache and ETag has to be excluded: from the state after it there is always a
      run that replaces, by a conditional upload, a version from which the cache was not built. */
  lemma ForeignTagLosesUpdate(k: Rely, s: State, w: nat, reply: Reply)
    requires Balanced(s) && CacheInv(s) && TagInv(s) && Allows(k, s, Step(w, reply))
    requires KeepsForeignTag(s, Step(w, reply)) && !k.oneCallAtATime && !k.noSectionDuringDownload
    ensures exists s' :: Leads(k, None, s, s') && !CleanLog(s')
  {
    Exclusion(s);
    assert Informed(s.h, s.r, s.ws[w].pc) && MidwayAgrees(s.h, s.log, s.ws[w]);
    var p := From(k, None, s);
    ReachableIsClosed(k, None, s);
    var s1 := GoDownload(p, s, w, Granted);
    assert EmptiedOverForeign(s1);
    var s';
    if s1.ws[w].pc.CopyLocking? {
      s' := ReaderThenLosesUpdate(p, s1, w);
    } else {
      s' := ChangeLosesUpdate(p, s1, w);
    }
  }

  // ----- uploads without an ETag -----

  /** The version that the handle last agreed with: the last one it installed or published, or -1. */
  function Seen(log: seq<Event>): int {
    if log == [] then -1
    else
      match log[|log| - 1]
      case Installed(_, x) => x.version
      case Saved(_, version, _) => version
      case _ => Seen(log[..|log| - 1])
  }

  lemma SeenSnoc(log: seq<Event>, e: Event)
    ensures Seen(log + [e]) == if e.Installed? then e.x.version else if e.Saved? then e.version else Seen(log)
  {
    assert (log + [e])[..|log|] == log;
  }

  /** An accepted upload replaces a version that the handle has not seen. */
  predicate ReplacesUnseen(log: seq<Event>, i: nat)
    requires i < |log|
  {
    log[i].Saved? && log[i].version - 1 != Seen(log[..i])
  }

  /** The handle's ETag is not younger than what it last agreed with; halfway through an install that is what the
      install brings. */
  ghost predicate TagIsSeen(s: State) {
    && Seen(s.log) < |s.r| && (NobodyInstalls(s) ==> s.h.etag <= Seen(s.log) + 1)
    && forall i | 0 <= i < |s.ws| && s.ws[i].pc.InstallSizing? :: Seen(s.log) == s.ws[i].pc.x.version
  }

  lemma PutKeepsSeen(s: State, w: nat, reply: Reply)
    requires Balanced(s) && TagInv(s) && w < |s.ws| && s.ws[w].pc.Putting? && !OutOfRange(s, w) && TagIsSeen(s)
    ensures TagIsSeen(StepUpload(s, w, reply))
  {
    Exclusion(s);
    assert NobodyInstalls(s);
    SeenSnoc(s.log, Saved(w, |s.r|, s.ws[w].pc.ifMatch));
  }

  lemma InstallKeepsSeen(s: State, w: nat, reply: Reply)
    requires Balanced(s) && TagInv(s) && w < |s.ws| && AbsentIsNews(s.h.etag, s.ws[w].pc) && TagIsSeen(s)
    requires s.ws[w].pc.Installing? || s.ws[w].pc.InstallSizing?
    ensures TagIsSeen(StepDownload(s, w, reply))
  {
    Exclusion(s);
    assert Informed(s.h, s.r, s.ws[w].pc);
    if s.ws[w].pc.Installing? {
      SeenSnoc(s.log, Installed(w, s.ws[w].pc.x));
      assert StepDownload(s, w, reply).ws[w].pc.InstallSizing?;
    }
  }

  lemma SeenKept(s: State, a: Action)
    requires Enabled(s, a)
    requires !(a.Step? && (s.ws[a.w].pc.Putting? || s.ws[a.w].pc.Installing? || s.ws[a.w].pc.InstallSizing?))
    ensures Seen(Do(s, a).log) == Seen(s.log) && Do(s, a).h.etag == s.h.etag && |s.r| <= |Do(s, a).r|
    ensures a.Other? || (a.w < |Do(s, a).ws| && Do(s, a).ws == s.ws[a.w := Do(s, a).ws[a.w]])
    ensures a.Other? || !Do(s, a).ws[a.w].pc.InstallSizing?
  {
    LogsNoAgreement(s, a);
    if Do(s, a).log != s.log {
      var e :| Do(s, a).log == s.log + [e] && !e.Installed? && !e.Saved?;
      SeenSnoc(s.log, e);
    }
  }

  lemma StepKeepsSeen(s: State, a: Action)
    requires Balanced(s) && CacheInv(s) && TagInv(s) && OneAtATime(s) && TagIsSeen(s) && Enabled(s, a)
    ensures TagIsSeen(Do(s, a))
  {
    if a.Step? && s.ws[a.w].pc.Putting? {
      InRange(s, a.w);
      PutKeepsSeen(s, a.w, a.reply);
    } else if a.Step? && (s.ws[a.w].pc.Installing? || s.ws[a.w].pc.InstallSizing?) {
      InstallKeepsSeen(s, a.w, a.reply);
    } else {
      SeenKept(s, a);
      InstallersKept(s, a);
      forall i | 0 <= i < |Do(s, a).ws| && Do(s, a).ws[i].pc.InstallSizing?
        ensures Seen(Do(s, a).log) == Do(s, a).ws[i].pc.x.version
      {
        assert a.Other? || i != a.w;
        assert Do(s, a).ws[i] == s.ws[i];
      }
    }
  }

  /** With one call at a time, exactly when an accepted upload replaces a version that the handle has not seen: when it
      carries no ETag, and the current version is not the one the handle last agreed with. */
  lemma UnseenExactly(k: Rely, s: State, w: nat, reply: Reply)
    requires Balanced(s) && CacheInv(s) && TagInv(s) && TagIsSeen(s) && k.checkedAtCommit
    requires Allows(k, s, Step(w, reply)) && s.ws[w].pc.Putting? && reply != Failed
    ensures var s' := Do(s, Step(w, reply));
            && s'.log == s.log + [Saved(w, |s.r|, s.ws[w].pc.ifMatch)]
            && (ReplacesUnseen(s'.log, |s.log|) <==> s.ws[w].pc.ifMatch == NO_TAG && Seen(s.log) != |s.r| - 1)
  {
    Exclusion(s);
    InRange(s, w);
    assert Informed(s.h, s.r, s.ws[w].pc) && NobodyInstalls(s);
    var s' := Do(s, Step(w, reply));
    assert s'.log[..|s.log|] == s.log;
  }

  ghost predicate OnlyUntagged(log: seq<Event>) {
    forall i | 0 <= i < |log| && ReplacesUnseen(log, i) :: log[i].ifMatch == NO_TAG
  }

  lemma OnlyUntaggedGrows(log: seq<Event>, log': seq<Event>)
    requires OnlyUntagged(log) && log <= log' && |log'| <= |log| + 1
    requires |log| < |log'| && ReplacesUnseen(log', |log|) ==> log'[|log|].ifMatch == NO_TAG
    ensures OnlyUntagged(log')
  {
    forall i | 0 <= i < |log'| && ReplacesUnseen(log', i) ensures log'[i].ifMatch == NO_TAG {
      if i < |log| {
        assert log'[..i] == log[..i];
        assert ReplacesUnseen(log, i);
      }
    }
  }

  /** One step of a sequential run. */
  lemma StepOnlyUntagged(k: Rely, s: State, a: Action)
    requires Protected(s) && OneAtATime(s) && TagIsSeen(s) && OnlyUntagged(s.log)
    requires Allows(k, s, a) && k.checkedAtCommit && k.oneCallAtATime
    ensures OnlyUntagged(Do(s, a).log) && TagIsSeen(Do(s, a))
  {
    StepGrows(s, a);
    StepKeepsSeen(s, a);
    if a.Step? && s.ws[a.w].pc.Putting? && a.reply != Failed {
      UnseenExactly(k, s, a.w, a.reply);
    }
    OnlyUntaggedGrows(s.log, Do(s, a).log);
  }

  /** With one call at a time and If-Match enforced, whatever other clients do, only uploads without an ETag replace a
      version that the handle has not seen. */
  lemma {:induction false} OnlyUntaggedReplaceUnseen(k: Rely, n: nat, r: Remote, acts: seq<Action>)
    requires Legal(k, Opened(n, r), acts) && k.checkedAtCommit && k.oneCallAtATime
    ensures var s := Exec(Opened(n, r), acts); OnlyUntagged(s.log) && (s.mu.crashed || TagIsSeen(s))
    decreases |acts|
  {
    if acts != [] {
      var before, last := Exec(Opened(n, r), acts[..|acts| - 1]), acts[|acts| - 1];
      OnlyUntaggedReplaceUnseen(k, n, r, acts[..|acts| - 1]);
      OpenedIsProtected(n, r);
      SequentialRun(k, Opened(n, r), acts[..|acts| - 1]);
      if before.mu.crashed {
        assert Do(before, last).mu.crashed && Do(before, last).log == before.log;
      } else {
        StepOnlyUntagged(k, before, last);
      }
    }
  }

  /** One call at a time, If-Match enforced, no failure: everything but the silence of other clients. */
  const SEQUENTIAL := Rely(true, true, true, true, true, false)

  /** A write that saw the file missing is about to be uploaded without an ETag. */
  lemma UntaggedUpload(p: Play) returns (s: State)
    requires Tracing(p, SEQUENTIAL, Opened(1, ABSENT))
    ensures p.reach(s) && s.h == Handle(Some([1]), true, 1, NO_TAG) && s.mu == UNLOCKED.AcquireWrite() && s.r == ABSENT
    ensures s.ws == [AnyWorker(FIRST, Putting(1, NO_TAG))] && !s.panicked
    ensures s.log == [Installed(0, SEEN_ABSENT), Applied(0, Write(0, [1]))]
  {
    s := Begin(p, Opened(1, ABSENT), 0, FIRST);
    s := GoWrite(p, s, 0);
    s := GoDownload(p, s, 0, Granted);
    s := Install(p, s, 0);
    SmallFiles();
    s := Patch(p, s, 0);
  }

  lemma SeenAfterPatch()
    ensures Seen([Installed(0, SEEN_ABSENT), Applied(0, Write(0, [1]))]) == 0
  {
    SeenSnoc([], Installed(0, SEEN_ABSENT));
    SeenSnoc([Installed(0, SEEN_ABSENT)], Applied(0, Write(0, [1])));
    assert [] + [Installed(0, SEEN_ABSENT)] == [Installed(0, SEEN_ABSENT)];
    assert [Installed(0, SEEN_ABSENT)] + [Applied(0, Write(0, [1]))] ==
           [Installed(0, SEEN_ABSENT), Applied(0, Write(0, [1]))];
  }

  /** A file that another client has created meanwhile is replaced, unseen. */
  lemma UntaggedUploadLosesUpdate()
    ensures exists s :: Leads(SEQUENTIAL, None, Opened(1, ABSENT), s)
                        && s.r == [None, Some([9]), Some([1])] && |s.log| == 3 && ReplacesUnseen(s.log, 2)
  {
    var p := From(SEQUENTIAL, None, Opened(1, ABSENT));
    ReachableIsClosed(SEQUENTIAL, None, Opened(1, ABSENT));
    var s := UntaggedUpload(p);
    s := Intrude(p, s, [9]);
    s := Finish(p, s, 0);
    assert s.log[..2] == [Installed(0, SEEN_ABSENT), Applied(0, Write(0, [1]))];
    SeenAfterPatch();
  }
}
