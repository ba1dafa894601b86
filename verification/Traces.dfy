/** Concrete runs that show each hypothesis of the theorems to be needed. */
module Traces {
  import opened Bytes
  import opened Handler
  import opened Options
  import opened Protocol
  import opened Runs
  import opened Locking
  import opened Linearizability
  import opened Conflicts
  import opened ColdStart

  ghost predicate Tracing(p: Play, k: Rely, s: State) {
    Closed(p) && p.k == k && p.only.None? && p.reach(s)
  }

  /** Worker `w` has patched the cache and is now at `pc`. */
  ghost predicate Patched(s: State, s': State, w: nat, pc: Pc)
    requires w < |s.ws| && s.ws[w].call.WriteAt?
  {
    var call := s.ws[w].call;
    var file := Apply(s.h.Content(), Write(call.off, call.b));
    && s'.h == s.h.(cache := Some(file), size := |file|)
    && s'.mu == UNLOCKED.AcquireWrite() && s'.r == s.r
    && AnyWorker(call, pc).Fitting() && s'.ws == s.ws[w := AnyWorker(call, pc)]
    && s'.log == s.log + [Applied(w, Write(call.off, call.b))] && !s'.panicked
  }

  lemma PatchedHandle(h: Handle, off: nat, b: seq<byte>)
    requires h.Consistent() && b != []
    ensures var file := Apply(h.Content(), Write(off, b));
            CopyIn(GrowCache(h, off + |b|), off, b) == h.(cache := Some(file), size := |file|)
  {
    PatchIsWrite(h, off, b);
  }

  lemma GrowAndCopy(p: Play, s: State, w: nat) returns (s': State)
    requires Turn(p, s, w) && s.ws[w].pc.Growing? && s.h.Consistent() && s.ws[w].call.b != []
    requires s.mu == UNLOCKED.AcquireWrite()
    ensures p.reach(s') && Patched(s, s', w, Initiating(|s.ws[w].call.b|))
  {
    var call := s.ws[w].call;
    s' := GoWrite(p, s, w);
    assert Copyable(s'.h, call.off, call.b) == call.b;
    s' := GoWrite(p, s', w);
    PatchedHandle(s.h, call.off, call.b);
  }

  lemma PatchCache(p: Play, s: State, w: nat) returns (s': State)
    requires Turn(p, s, w) && s.ws[w].pc.WriteLocking? && s.mu == UNLOCKED
    requires p.k.noSectionDuringDownload ==> !SomeoneDownloads(s)
    requires s.h.Consistent() && s.ws[w].call.b != []
    ensures p.reach(s') && Patched(s, s', w, Initiating(|s.ws[w].call.b|))
  {
    s' := GoWrite(p, s, w);
    s' := GrowAndCopy(p, s', w);
  }

  lemma Patch(p: Play, s: State, w: nat) returns (s': State)
    requires Turn(p, s, w) && s.ws[w].pc.WriteLocking? && s.mu == UNLOCKED
    requires p.k.noSectionDuringDownload ==> !SomeoneDownloads(s)
    requires s.h.Consistent() && s.ws[w].call.b != [] && Accepts(s.r, s.h.etag)
    ensures p.reach(s') && Patched(s, s', w, Putting(|s.ws[w].call.b|, s.h.etag))
  {
    s' := PatchCache(p, s, w);
    s' := GoUpload(p, s', w, Granted);
  }

  lemma Finish(p: Play, s: State, w: nat) returns (s': State)
    requires Turn(p, s, w) && s.ws[w].pc.Putting? && s.mu == UNLOCKED.AcquireWrite()
    requires s.h.Consistent() && (p.k.checkedAtCommit ==> Accepts(s.r, s.ws[w].pc.ifMatch))
    ensures p.reach(s')
    ensures var call := s.ws[w].call;
            && s'.h == s.h.(etag := |s.r| + 1) && s'.mu == UNLOCKED && s'.r == s.r + [Some(s.h.Content())]
            && s'.ws == s.ws[w := AnyWorker(call, Returned(Result(call, s.ws[w].pc.copied, true)))]
            && s'.log == s.log + [Saved(w, |s.r|, s.ws[w].pc.ifMatch)] && !s'.panicked
  {
    BodyIsContent(s.h);
    s' := GoUpload(p, s, w, Granted);
    s' := GoUpload(p, s', w, Granted);
  }

  // ----- a stale "not found" drops an acknowledged write -----

  /** Every hypothesis but one: write sections may begin while a download is in flight. */
  const SECTION_DURING_DOWNLOAD := Rely(true, true, false, false, true, true)

  const FIRST := Call.WriteAt([1], 0)
  const SECOND := Call.WriteAt([2], 1)
  const ABSENT: Remote := [None]
  const SEEN_ABSENT := Found(0, None, 1)

  lemma SmallFiles()
    ensures Apply([], Write(0, [1])) == [1]
    ensures Apply([], Write(1, [2])) == [0, 2]
    ensures Apply([7], Write(1, [2])) == [7, 2]
    ensures Apply([1], Write(1, [2])) == [1, 2]
  {
  }

  /** Worker `w` of two starts a write, on a cold handle, and sees that there is no file. */
  lemma SeesNothing(p: Play, s: State, w: nat, call: Call) returns (s': State)
    requires Turn(p, s, w) && p.only.None? && !s.ws[w].pc.Active() && s.mu == UNLOCKED
    requires !p.k.oneCallAtATime && !SomeoneInSection(s) && !s.h.valid && s.r == ABSENT && call.WriteAt?
    ensures p.reach(s') && s' == s.(ws := s.ws[w := AnyWorker(call, InstallLocking(SEEN_ABSENT))])
  {
    s' := Begin(p, s, w, call);
    assert !SomeoneInSection(s') by {
      forall i | 0 <= i < |s'.ws| ensures !s'.ws[i].pc.InSection() { assert !s.ws[i].pc.InSection() || i == w; }
    }
    s' := GoWrite(p, s', w);
    s' := GoDownload(p, s', w, Granted);
  }

  /** The second worker's write is acknowledged while the first still holds its answer "not found". */
  lemma SavedOverPending(p: Play) returns (s: State)
    requires Tracing(p, SECTION_DURING_DOWNLOAD, Opened(2, ABSENT))
    ensures p.reach(s) && s.h == Handle(Some([1]), true, 1, 2) && s.mu == UNLOCKED && s.r == [None, Some([1])]
    ensures s.ws == [AnyWorker(SECOND, InstallLocking(SEEN_ABSENT)), AnyWorker(FIRST, Returned(Wrote(1, true)))]
    ensures s.log == [Installed(1, SEEN_ABSENT), Applied(1, Write(0, [1])), Saved(1, 1, NO_TAG)] && !s.panicked
  {
    s := SeesNothing(p, Opened(2, ABSENT), 0, SECOND);
    s := SeesNothing(p, s, 1, FIRST);
    s := Install(p, s, 1);
    SmallFiles();
    s := Patch(p, s, 1);
    s := Finish(p, s, 1);
  }

  /** Installing that answer empties the cache but keeps the new ETag, and the first worker's conditional upload is then
      accepted. */
  lemma StaleNotFound(p: Play) returns (s: State)
    requires Tracing(p, SECTION_DURING_DOWNLOAD, Opened(2, ABSENT))
    ensures p.reach(s) && s.r == [None, Some([1]), Some([0, 2])]
    ensures s.log == [Installed(1, SEEN_ABSENT), Applied(1, Write(0, [1])), Saved(1, 1, NO_TAG),
                      Installed(0, SEEN_ABSENT), Applied(0, Write(1, [2])), Saved(0, 2, 2)]
    ensures s.h.Content() == [0, 2] && Settled(s)
  {
    s := SavedOverPending(p);
    s := Install(p, s, 0);
    SmallFiles();
    s := Patch(p, s, 0);
    s := Finish(p, s, 0);
  }

  /** Without "no section begins during a download" there is a run, with nobody else about and If-Match enforced, in
      which an acknowledged write is rolled back and then overwritten by an accepted conditional upload. */
  lemma SectionDuringDownloadLosesWrite()
    ensures exists s :: Leads(SECTION_DURING_DOWNLOAD, None, Opened(2, ABSENT), s) && !NoRollback(s.log) && !CleanLog(s)
                        && s.r == [None, Some([1]), Some([0, 2])]
  {
    ReachableIsClosed(SECTION_DURING_DOWNLOAD, None, Opened(2, ABSENT));
    var s := StaleNotFound(From(SECTION_DURING_DOWNLOAD, None, Opened(2, ABSENT)));
    assert s.log[2].Saved? && s.log[3].Installed? && s.log[2].version > s.log[3].x.version;
    var before := s.log[..5];
    assert Origin(before) == [] by {
      assert before[..4] == s.log[..4] && before[4].Applied?;
      assert s.log[..4][3].Installed?;
    }
    assert !CleanEvent(s.r, s.log, 5);
  }

  lemma RequestsSnoc(log: seq<Event>, e: Event)
    ensures Requests(log + [e]) == if e.Applied? then Requests(log) + [e.m] else Requests(log)
  {
    assert (log + [e])[..|log|] == log;
  }

  lemma RequestsOfRound(log: seq<Event>, a: Event, b: Event, c: Event)
    requires !a.Applied? && b.Applied? && !c.Applied?
    ensures Requests(log + [a, b, c]) == Requests(log) + [b.m]
  {
    RequestsSnoc(log, a);
    RequestsSnoc(log + [a], b);
    RequestsSnoc(log + [a] + [b], c);
    assert log + [a, b, c] == log + [a] + [b] + [c];
  }

  lemma TwoRequests(log: seq<Event>)
    requires log == [Installed(1, SEEN_ABSENT), Applied(1, Write(0, [1])), Saved(1, 1, NO_TAG),
                     Installed(0, SEEN_ABSENT), Applied(0, Write(1, [2])), Saved(0, 2, 2)]
    ensures Requests(log) == [] + [Write(0, [1])] + [Write(1, [2])]
  {
    RequestsOfRound([], log[0], log[1], log[2]);
    RequestsOfRound([] + [log[0], log[1], log[2]], log[3], log[4], log[5]);
    assert log == [] + [log[0], log[1], log[2]] + [log[3], log[4], log[5]];
  }

  lemma FoldOfTwo(s: seq<byte>, a: Mutation, b: Mutation)
    ensures Fold(s, [] + [a] + [b]) == Apply(Apply(s, a), b)
  {
    FoldSnoc(s, [], a);
    FoldSnoc(s, [] + [a], b);
  }

  /** A handle that starts cold is not linearizable: after the same run its cache is not the file with the two requests
      applied that the workers were told had succeeded. */
  lemma ColdHandleIsNotLinearizable()
    ensures exists s :: Leads(SECTION_DURING_DOWNLOAD, None, Opened(2, ABSENT), s) && Settled(s)
                        && s.h.Content() != Fold([], Requests(s.log))
  {
    ReachableIsClosed(SECTION_DURING_DOWNLOAD, None, Opened(2, ABSENT));
    var s := StaleNotFound(From(SECTION_DURING_DOWNLOAD, None, Opened(2, ABSENT)));
    TwoRequests(s.log);
    FoldOfTwo([], Write(0, [1]), Write(1, [2]));
    SmallFiles();
  }

  // ----- a download that begins during a write section -----

  const DOWNLOAD_DURING_SECTION := Rely(true, true, false, true, false, true)
  const SEVEN: Remote := [Some([7])]

  const STALE := Found(0, Some([7]), NO_TAG)

  lemma PatchedCold(p: Play) returns (s: State)
    requires Tracing(p, DOWNLOAD_DURING_SECTION, Opened(2, SEVEN))
    ensures p.reach(s) && s.h == Handle(Some([1]), false, 1, NO_TAG) && s.mu == UNLOCKED.AcquireWrite() && s.r == SEVEN
    ensures s.ws == [AnyWorker(FIRST, Putting(1, NO_TAG)), AnyWorker(Truncate(0), Idle)]
    ensures s.log == [Applied(0, Write(0, [1]))] && !s.panicked
  {
    s := Begin(p, Opened(2, SEVEN), 0, FIRST);
    s := GoWrite(p, s, 0);
    s := GoDownload(p, s, 0, Failed);
    SmallFiles();
    s := Patch(p, s, 0);
  }

  lemma FetchDuringSection(p: Play) returns (s: State)
    requires Tracing(p, DOWNLOAD_DURING_SECTION, Opened(2, SEVEN))
    ensures p.reach(s) && s.h == Handle(Some([1]), false, 1, NO_TAG) && s.mu == UNLOCKED.AcquireWrite() && s.r == SEVEN
    ensures s.ws == [AnyWorker(FIRST, Putting(1, NO_TAG)), AnyWorker(SECOND, InstallLocking(STALE))]
    ensures s.log == [Applied(0, Write(0, [1]))] && !s.panicked
  {
    s := PatchedCold(p);
    s := Begin(p, s, 1, SECOND);
    s := GoWrite(p, s, 1);
    s := GoDownload(p, s, 1, Granted);
    s := GoDownload(p, s, 1, Untagged);
  }

  /** A first write goes ahead after its download failed; a second one fetches the old file before the first is
      accepted and installs it afterwards. */
  lemma StaleFetch(p: Play) returns (s: State)
    requires Tracing(p, DOWNLOAD_DURING_SECTION, Opened(2, SEVEN))
    ensures p.reach(s) && s.r == [Some([7]), Some([1]), Some([7, 2])]
    ensures s.log == [Applied(0, Write(0, [1])), Saved(0, 1, NO_TAG), Installed(1, STALE),
                      Applied(1, Write(1, [2])), Saved(1, 2, NO_TAG)]
  {
    s := FetchDuringSection(p);
    s := Finish(p, s, 0);
    s := Install(p, s, 1);
    SmallFiles();
    s := Patch(p, s, 1);
    s := Finish(p, s, 1);
  }

  /** The other half of the hypothesis is needed as well: even if no section ever begins during a download, an
      acknowledged write is lost when a download may begin during a section. */
  lemma DownloadDuringSectionLosesWrite()
    ensures exists s :: Leads(DOWNLOAD_DURING_SECTION, None, Opened(2, SEVEN), s) && !NoRollback(s.log)
                        && s.r == [Some([7]), Some([1]), Some([7, 2])]
  {
    ReachableIsClosed(DOWNLOAD_DURING_SECTION, None, Opened(2, SEVEN));
    var s := StaleFetch(From(DOWNLOAD_DURING_SECTION, None, Opened(2, SEVEN)));
    assert s.log[1].Saved? && s.log[2].Installed? && s.log[1].version > s.log[2].x.version;
  }

  // ----- If-Match checked only when the upload is initiated -----

  const CHECKED_EARLY := Rely(true, false, true, true, true, false)

  lemma LateCommit(p: Play) returns (s: State)
    requires Tracing(p, CHECKED_EARLY, Opened(1, SEVEN))
    ensures p.reach(s) && s.r == [Some([7]), Some([9]), Some([7, 2])]
    ensures s.log == [Installed(0, Found(0, Some([7]), 1)), Applied(0, Write(1, [2])), Saved(0, 2, 1)]
  {
    s := Begin(p, Opened(1, SEVEN), 0, SECOND);
    s := GoWrite(p, s, 0);
    s := GoDownload(p, s, 0, Granted);
    s := GoDownload(p, s, 0, Granted);
    s := Install(p, s, 0);
    SmallFiles();
    s := Patch(p, s, 0);
    s := Intrude(p, s, [9]);
    s := Finish(p, s, 0);
  }

  /** If the storage looks at If-Match only before the transfer, a single sequential write overwrites another client's
      version although its upload was conditional: the PUT request itself carries no condition. */
  lemma CheckBeforeTransferIsNotEnough()
    ensures exists s :: Leads(CHECKED_EARLY, None, Opened(1, SEVEN), s) && !CleanLog(s)
                        && s.r == [Some([7]), Some([9]), Some([7, 2])]
  {
    ReachableIsClosed(CHECKED_EARLY, None, Opened(1, SEVEN));
    var s := LateCommit(From(CHECKED_EARLY, None, Opened(1, SEVEN)));
    assert !CleanEvent(s.r, s.log, 2);
  }

  // ----- the second Unlock of a failing Truncate -----

  const TRUNCATE_MAY_FAIL := Rely(false, true, false, true, true, true)

  /** Worker `w` starts a truncation of a cold handle whose download fails. */
  lemma TruncateFails(p: Play, s: State, w: nat) returns (s': State)
    requires Turn(p, s, w) && p.only.None? && !p.k.truncateDownloadsSucceed && !p.k.oneCallAtATime
    requires !s.ws[w].pc.Active() && s.mu == UNLOCKED && !SomeoneInSection(s) && !s.h.valid
    ensures p.reach(s') && s' == s.(ws := s.ws[w := AnyWorker(Truncate(0), FailingUnlock)])
  {
    s' := Begin(p, s, w, Truncate(0));
    s' := GoTruncate(p, s', w);
    assert !SomeoneInSection(s') by {
      forall i | 0 <= i < |s'.ws| ensures !s'.ws[i].pc.InSection() { assert !s.ws[i].pc.InSection() || i == w; }
    }
    s' := GoTruncate(p, s', w);
    s' := GoDownload(p, s', w, Failed);
    assert s'.ws == s.ws[w := AnyWorker(Truncate(0), FailingUnlock)];
  }

  /** Worker `w` starts a write to a cold handle; the download fails and it goes for the mutex all the same. */
  lemma WriteGoesAhead(p: Play, s: State, w: nat, call: Call) returns (s': State)
    requires Turn(p, s, w) && p.only.None? && !p.k.oneCallAtATime && call.WriteAt?
    requires !s.ws[w].pc.Active() && s.mu == UNLOCKED && !SomeoneInSection(s) && !s.h.valid
    ensures p.reach(s') && s' == s.(ws := s.ws[w := AnyWorker(call, WriteLocking)])
  {
    s' := Begin(p, s, w, call);
    assert !SomeoneInSection(s') by {
      forall i | 0 <= i < |s'.ws| ensures !s'.ws[i].pc.InSection() { assert !s.ws[i].pc.InSection() || i == w; }
    }
    s' := GoWrite(p, s', w);
    s' := GoDownload(p, s', w, Failed);
    assert s'.ws == s.ws[w := AnyWorker(call, WriteLocking)];
  }

  /** A Truncate whose download fails brings the process down. */
  lemma FailedTruncateCrashes()
    ensures exists s :: Leads(TRUNCATE_MAY_FAIL, None, Opened(1, ABSENT), s) && s.mu.crashed
  {
    var p := From(TRUNCATE_MAY_FAIL, None, Opened(1, ABSENT));
    ReachableIsClosed(TRUNCATE_MAY_FAIL, None, Opened(1, ABSENT));
    var s := TruncateFails(p, Opened(1, ABSENT), 0);
    s := GoTruncate(p, s, 0);
  }

  ghost predicate TwoWriters(s: State) {
    |s.ws| == 3 && s.ws[1].pc.InSection() && s.ws[2].pc.InSection()
  }

  lemma StolenMutex(p: Play) returns (s: State)
    requires Tracing(p, TRUNCATE_MAY_FAIL, Opened(3, ABSENT))
    ensures p.reach(s) && TwoWriters(s)
  {
    s := TruncateFails(p, Opened(3, ABSENT), 0);
    s := WriteGoesAhead(p, s, 1, FIRST);
    s := WriteGoesAhead(p, s, 2, FIRST);
    s := GoWrite(p, s, 1);
    s := GoTruncate(p, s, 0);
    s := GoWrite(p, s, 2);
  }

  /** Or, if a writer holds the mutex at that moment, it takes it away: then two writers are in their sections at
      once. */
  lemma FailedTruncateAdmitsTwoWriters()
    ensures exists s :: Leads(TRUNCATE_MAY_FAIL, None, Opened(3, ABSENT), s) && TwoWriters(s)
  {
    ReachableIsClosed(TRUNCATE_MAY_FAIL, None, Opened(3, ABSENT));
    var s := StolenMutex(From(TRUNCATE_MAY_FAIL, None, Opened(3, ABSENT)));
  }
}
