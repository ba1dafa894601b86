/** Downloads by one worker and acknowledged writes by another. */
module ColdStart {
  import opened Bytes
  import opened Handler
  import opened Options
  import opened Protocol
  import opened Runs
  import opened Locking
  import opened Linearizability
  import opened Conflicts

  /** No download puts a version into the cache that is older than an upload acknowledged before. */
  ghost predicate NoRollback(log: seq<Event>) {
    forall i, j | 0 <= j < i < |log| && log[j].Saved? && log[i].Installed? :: log[j].version <= log[i].x.version
  }

  ghost predicate SavedUpTo(log: seq<Event>, version: int) {
    forall j | 0 <= j < |log| && log[j].Saved? :: log[j].version <= version
  }

  /** No download has rolled back, and none of the results still to be installed would. */
  ghost predicate UpToDate(s: State) {
    && NoRollback(s.log) && SavedUpTo(s.log, |s.r| - 1)
    && forall i | 0 <= i < |s.ws| && s.ws[i].pc.HasFound() ::
         s.ws[i].pc.x.version < |s.r| && SavedUpTo(s.log, s.ws[i].pc.x.version)
  }

  /** An upload is accepted while another worker holds the result of a download that it has yet to install. */
  ghost predicate SavesOverPending(s: State, a: Action) {
    && a.Step? && a.w < |s.ws| && s.ws[a.w].pc.Putting? && a.reply != Failed && !OutOfRange(s, a.w)
    && exists i :: 0 <= i < |s.ws| && s.ws[i].pc.HasFound()
  }

  /** What a step of worker `w` does to sections, downloads, log and versions. It enters a write section, and starts a
      download, only by the two kinds of step that the surroundings may restrict. */
  ghost predicate Enters(s: State, s': State, w: nat) {
    && w < |s.ws| && w < |s'.ws| && s'.ws == s.ws[w := s'.ws[w]]
    && var pc, pc' := s.ws[w].pc, s'.ws[w].pc;
       && (pc'.InSection() ==> pc.InSection() || BeginsSection(s, w))
       && (pc'.Downloading() ==> pc.Downloading() || BeginsDownload(s, w))
       && (pc'.HasFound() ==> if pc.HasFound() then pc'.x == pc.x else pc'.x.version == |s.r| - 1)
       && s.log <= s'.log && |s'.log| <= |s.log| + 1 && |s.r| <= |s'.r|
       && ((s.log < s'.log && s'.log[|s.log|].Saved?) || s'.r == s.r)
       && (s.log < s'.log && s'.log[|s.log|].Saved? ==>
             s'.log[|s.log|].version == |s.r| == |s'.r| - 1 && pc.Putting? && !pc'.Downloading())
       && (s.log < s'.log && s'.log[|s.log|].Installed? ==> pc.HasFound() && s'.log[|s.log|].x == pc.x)
  }

  lemma DownloadEnters(s: State, w: nat, reply: Reply)
    requires w < |s.ws| && s.ws[w].pc.Downloading()
    ensures Enters(s, StepDownload(s, w, reply), w)
  {
  }

  lemma UploadEnters(s: State, w: nat, reply: Reply)
    requires w < |s.ws| && s.ws[w].pc.Uploading() && !OutOfRange(s, w)
    ensures Enters(s, StepUpload(s, w, reply), w)
  {
  }

  lemma WriteEnters(s: State, w: nat)
    requires w < |s.ws| && s.ws[w].pc.Writing() && !OutOfRange(s, w)
    ensures Enters(s, StepWrite(s, w), w)
  {
  }

  lemma TruncateEnters(s: State, w: nat)
    requires w < |s.ws| && s.ws[w].pc.Truncating()
    ensures Enters(s, StepTruncate(s, w), w)
  {
  }

  lemma ReadEnters(s: State, w: nat)
    requires w < |s.ws| && s.ws[w].pc.Reading() && !OutOfRange(s, w)
    ensures Enters(s, StepRead(s, w), w)
  {
  }

  lemma StepEnters(s: State, w: nat, reply: Reply)
    requires Enabled(s, Step(w, reply))
    ensures Enters(s, Advance(s, w, reply), w)
  {
    if OutOfRange(s, w) {
      assert Advance(s, w, reply).ws == s.ws;
    } else if s.ws[w].pc.Downloading() {
      DownloadEnters(s, w, reply);
    } else if s.ws[w].pc.Uploading() {
      UploadEnters(s, w, reply);
    } else if s.ws[w].pc.Writing() {
      WriteEnters(s, w);
    } else if s.ws[w].pc.Reading() {
      ReadEnters(s, w);
    } else {
      TruncateEnters(s, w);
    }
  }

  lemma SavingOutdates(s: State, s': State, w: nat, i: nat)
    requires w < |s.ws| && w < |s'.ws| && s'.ws == s.ws[w := s'.ws[w]] && !s'.ws[w].pc.HasFound()
    requires |s'.log| == |s.log| + 1 && s'.log[|s.log|].Saved? && s'.log[|s.log|].version == |s.r|
    requires UpToDate(s) && i < |s.ws| && i != w && s.ws[i].pc.HasFound()
    ensures !UpToDate(s')
  {
    assert s'.ws[i] == s.ws[i] && s.ws[i].pc.x.version < |s.r|;
    assert !SavedUpTo(s'.log, s'.ws[i].pc.x.version);
  }

  lemma NothingOutdated(s: State, s': State, w: nat)
    requires UpToDate(s) && w < |s.ws| && w < |s'.ws| && s'.ws == s.ws[w := s'.ws[w]]
    requires s.log <= s'.log && |s'.log| <= |s.log| + 1 && |s.r| <= |s'.r|
    requires s.log < s'.log && s'.log[|s.log|].Saved? ==>
               && s'.log[|s.log|].version == |s'.r| - 1 && forall i | 0 <= i < |s'.ws| :: !s'.ws[i].pc.HasFound()
    requires s.log < s'.log && s'.log[|s.log|].Installed? ==>
               s.ws[w].pc.HasFound() && s'.log[|s.log|].x == s.ws[w].pc.x
    requires s'.ws[w].pc.HasFound() ==>
               if s.ws[w].pc.HasFound() then s'.ws[w].pc.x == s.ws[w].pc.x else s'.ws[w].pc.x.version == |s.r| - 1
    ensures UpToDate(s')
  {
    forall i | 0 <= i < |s'.ws| && s'.ws[i].pc.HasFound()
      ensures s'.ws[i].pc.x.version < |s'.r| && SavedUpTo(s'.log, s'.ws[i].pc.x.version)
    {
      assert i != w ==> s'.ws[i] == s.ws[i];
    }
  }

  /** Exactly when a step can lead to a rollback: when it is an upload accepted over a pending download. */
  lemma {:induction false} StepStaysUpToDate(s: State, a: Action)
    requires UpToDate(s) && Enabled(s, a)
    ensures UpToDate(Do(s, a)) <==> !SavesOverPending(s, a)
  {
    var s' := Do(s, a);
    if a.Step? {
      StepEnters(s, a.w, a.reply);
      if SavesOverPending(s, a) {
        var i :| 0 <= i < |s.ws| && s.ws[i].pc.HasFound();
        SavingOutdates(s, s', a.w, i);
      } else {
        NothingOutdated(s, s', a.w);
      }
    }
  }

  ghost predicate NeverOverPending(s: State, acts: seq<Action>) {
    acts == [] ||
    (NeverOverPending(s, acts[..|acts| - 1]) && !SavesOverPending(Exec(s, acts[..|acts| - 1]), acts[|acts| - 1]))
  }

  lemma {:induction false} AlwaysUpToDate(k: Rely, s: State, acts: seq<Action>)
    requires UpToDate(s) && Legal(k, s, acts) && NeverOverPending(s, acts)
    ensures UpToDate(Exec(s, acts))
    decreases |acts|
  {
    if acts != [] {
      AlwaysUpToDate(k, s, acts[..|acts| - 1]);
      StepStaysUpToDate(Exec(s, acts[..|acts| - 1]), acts[|acts| - 1]);
    }
  }

  /** In every run in which no upload is accepted while a download result is pending, with whatever else interleaving
      and failing, no download drops an acknowledged write. */
  lemma {:induction false} NeverRollsBack(k: Rely, n: nat, r: Remote, acts: seq<Action>)
    requires Legal(k, Opened(n, r), acts) && NeverOverPending(Opened(n, r), acts)
    ensures NoRollback(Exec(Opened(n, r), acts).log)
  {
    AlwaysUpToDate(k, Opened(n, r), acts);
  }

  /** And the condition is needed at every such step: after an upload accepted over a pending download, the worker that
      waits can go on, three steps later, to install the version that the upload has replaced. */
  lemma PendingRollsBack(k: Rely, s: State, w: nat, reply: Reply, i: nat)
    requires Balanced(s) && UpToDate(s) && Allows(k, s, Step(w, reply)) && SavesOverPending(s, Step(w, reply))
    requires i < |s.ws| && s.ws[i].pc.HasFound()
    ensures exists s' :: Leads(k, None, s, s') && !NoRollback(s'.log)
  {
    Exclusion(s);
    var p := From(k, None, s);
    ReachableIsClosed(k, None, s);
    assert s.ws[i].pc.InstallLocking?;
    var s' := GoUpload(p, s, w, reply);
    s' := ReleaseAndInstall(p, s', w, i);
    assert s'.log[|s.log|].Saved? && s'.log[|s.log| + 1].Installed?;
    assert s'.log[|s.log|].version > s'.log[|s.log| + 1].x.version;
  }

  lemma ReleaseAndInstall(p: Play, s: State, w: nat, i: nat) returns (s': State)
    requires Turn(p, s, w) && p.only.None? && s.ws[w].pc.Releasing? && s.mu == UNLOCKED.AcquireWrite()
    requires i < |s.ws| && s.ws[i].pc.InstallLocking?
    ensures p.reach(s') && s'.log == s.log + [Installed(i, s.ws[i].pc.x)]
  {
    s' := GoUpload(p, s, w, Granted);
    s' := Install(p, s', i);
  }

  // ----- sections and downloads kept apart -----

  /** Nobody downloads while somebody is in a write section. */
  ghost predicate Apart(ws: seq<Worker>) {
    forall i, j | 0 <= i < |ws| && 0 <= j < |ws| :: !(ws[i].pc.Downloading() && ws[j].pc.InSection())
  }

  lemma StaysApart(s: State, s': State, w: nat)
    requires Apart(s.ws) && w < |s.ws| && w < |s'.ws| && s'.ws == s.ws[w := s'.ws[w]]
    requires s'.ws[w].pc.InSection() ==> s.ws[w].pc.InSection() || !SomeoneDownloads(s)
    requires s'.ws[w].pc.Downloading() ==> s.ws[w].pc.Downloading() || !SomeoneInSection(s)
    requires !(s'.ws[w].pc.Downloading() && s'.ws[w].pc.InSection())
    ensures Apart(s'.ws)
  {
    forall i, j | 0 <= i < |s'.ws| && 0 <= j < |s'.ws| ensures !(s'.ws[i].pc.Downloading() && s'.ws[j].pc.InSection()) {
      assert i != w ==> s'.ws[i] == s.ws[i];
      assert j != w ==> s'.ws[j] == s.ws[j];
    }
  }

  lemma StepStaysApart(k: Rely, s: State, a: Action)
    requires Apart(s.ws) && Allows(k, s, a) && k.noSectionDuringDownload && k.noDownloadDuringSection
    ensures Apart(Do(s, a).ws) && !SavesOverPending(s, a)
  {
    if a.Step? {
      StepEnters(s, a.w, a.reply);
      StaysApart(s, Do(s, a), a.w);
    } else if a.Start? {
      StaysApart(s, Do(s, a), a.w);
    }
  }

  /** If write sections and downloads do not overlap, no upload is accepted while a download result is pending. */
  lemma {:induction false} ApartNeverOverPending(k: Rely, s: State, acts: seq<Action>)
    requires Apart(s.ws) && Legal(k, s, acts) && k.noSectionDuringDownload && k.noDownloadDuringSection
    ensures Apart(Exec(s, acts).ws) && NeverOverPending(s, acts)
    decreases |acts|
  {
    if acts != [] {
      ApartNeverOverPending(k, s, acts[..|acts| - 1]);
      StepStaysApart(k, Exec(s, acts[..|acts| - 1]), acts[|acts| - 1]);
    }
  }

  /** Cold-start safety: in every interleaving in which write sections and downloads do not overlap, no download drops
      an acknowledged write: what it installs is the acknowledged version or one that replaced it. */
  lemma {:induction false} ColdStartIsSafe(k: Rely, n: nat, r: Remote, acts: seq<Action>)
    requires Legal(k, Opened(n, r), acts) && k.noSectionDuringDownload && k.noDownloadDuringSection
    ensures NoRollback(Exec(Opened(n, r), acts).log)
  {
    ApartNeverOverPending(k, Opened(n, r), acts);
    NeverRollsBack(k, n, r, acts);
  }

  // ----- a lone client -----

  /** One more than the position of the last accepted upload in the log, or 0. */
  function LastSaved(log: seq<Event>): (j: nat)
    ensures j <= |log| && (0 < j ==> log[j - 1].Saved?)
    ensures forall i | j <= i < |log| :: !log[i].Saved?
  {
    if log == [] then 0 else if log[|log| - 1].Saved? then |log| else LastSaved(log[..|log| - 1])
  }

  /** The last accepted upload is the current version. */
  ghost predicate LastIsCurrent(s: State) {
    0 < LastSaved(s.log) ==> s.log[LastSaved(s.log) - 1].version == |s.r| - 1
  }

  /** A download after an accepted upload brings back exactly the file that upload published. */
  ghost predicate BringsBack(log: seq<Event>, i: nat)
    requires i < |log|
  {
    log[i].Installed? && 0 < LastSaved(log[..i]) ==> log[i].x.Content() == Replay(log[..LastSaved(log[..i]) - 1])
  }

  ghost predicate Alone(s: State) {
    && Sound(s) && TagInv(s) && UpToDate(s) && LastIsCurrent(s)
    && forall i | 0 <= i < |s.log| :: BringsBack(s.log, i)
  }

  lemma LastSavedIsCurrent(s: State)
    requires LogInv(s) && LastIsCurrent(s) && 0 < LastSaved(s.log)
    ensures Current(s.r) == Some(Replay(s.log[..LastSaved(s.log) - 1]))
  {
    var j := LastSaved(s.log) - 1;
    assert EventOk(s.r, Replay(s.log[..j]), s.log[j]);
  }

  /** With the last upload current, a version no older than it can only be the current one. */
  lemma FoundIsCurrent(s: State, x: Found)
    requires LastIsCurrent(s) && 0 < LastSaved(s.log)
    requires x.version < |s.r| && s.r[x.version] == x.file && SavedUpTo(s.log, x.version)
    ensures x.file == Current(s.r)
  {
    var j := LastSaved(s.log) - 1;
    assert s.log[j].Saved? && s.log[j].version <= x.version;
  }

  lemma BringsBackStays(log: seq<Event>, log': seq<Event>, i: nat)
    requires i < |log| && log <= log' && BringsBack(log, i)
    ensures BringsBack(log', i)
  {
    assert log'[..i] == log[..i];
    var j := LastSaved(log[..i]);
    if 0 < j { assert log'[..j - 1] == log[..j - 1]; }
  }

  lemma InstallBringsBack(s: State, s': State, w: nat)
    requires Alone(s) && w < |s.ws| && s.log < s'.log && |s'.log| == |s.log| + 1
    requires s'.log[|s.log|].Installed? ==> s.ws[w].pc.HasFound() && s'.log[|s.log|].x == s.ws[w].pc.x
    ensures BringsBack(s'.log, |s.log|)
  {
    var j := LastSaved(s.log);
    assert s'.log[..|s.log|] == s.log;
    if s'.log[|s.log|].Installed? && 0 < j {
      assert Informed(s.h, s.r, s.ws[w].pc);
      FoundIsCurrent(s, s.ws[w].pc.x);
      LastSavedIsCurrent(s);
      assert s'.log[..j - 1] == s.log[..j - 1];
    }
  }

  lemma AllBringBack(s: State, a: Action)
    requires Alone(s) && Enabled(s, a)
    ensures forall i | 0 <= i < |Do(s, a).log| :: BringsBack(Do(s, a).log, i)
  {
    var s' := Do(s, a);
    if a.Step? {
      StepEnters(s, a.w, a.reply);
    }
    forall i | 0 <= i < |s'.log| ensures BringsBack(s'.log, i) {
      if i < |s.log| {
        BringsBackStays(s.log, s'.log, i);
      } else {
        InstallBringsBack(s, s', a.w);
      }
    }
  }

  lemma StepStaysCurrent(k: Rely, s: State, a: Action)
    requires LastIsCurrent(s) && Allows(k, s, a) && k.othersSilent
    ensures LastIsCurrent(Do(s, a))
  {
    if a.Step? {
      StepEnters(s, a.w, a.reply);
      GrowsAlone(s, Do(s, a));
    }
  }

  lemma StepStaysSound(k: Rely, s: State, a: Action)
    requires Sound(s) && TagInv(s) && Allows(k, s, a) && k.truncateDownloadsSucceed
    ensures Sound(Do(s, a)) && TagInv(Do(s, a))
  {
    StepKeepsBalance(k, s, a);
    StepKeepsCache(s, a);
    StepKeepsLog(s, a);
    StepKeepsTags(s, a);
    StepDoesNotPanic(s, a);
  }

  lemma StepStaysAlone(k: Rely, s: State, a: Action)
    requires Alone(s) && Allows(k, s, a) && k.truncateDownloadsSucceed && k.othersSilent && !SavesOverPending(s, a)
    ensures Alone(Do(s, a))
  {
    StepStaysSound(k, s, a);
    StepStaysUpToDate(s, a);
    StepStaysCurrent(k, s, a);
    AllBringBack(s, a);
  }

  lemma GrowsAlone(s: State, s': State)
    requires LastIsCurrent(s) && s.log <= s'.log && |s'.log| <= |s.log| + 1
    requires if s.log < s'.log && s'.log[|s.log|].Saved? then s'.log[|s.log|].version == |s'.r| - 1 else s'.r == s.r
    ensures LastIsCurrent(s')
  {
    if s.log < s'.log {
      assert s'.log[..|s.log|] == s.log;
    }
  }

  lemma {:induction false} AlwaysAlone(k: Rely, s: State, acts: seq<Action>)
    requires Alone(s) && Legal(k, s, acts) && k.truncateDownloadsSucceed && k.othersSilent && NeverOverPending(s, acts)
    ensures Alone(Exec(s, acts))
    decreases |acts|
  {
    if acts != [] {
      AlwaysAlone(k, s, acts[..|acts| - 1]);
      StepStaysAlone(k, Exec(s, acts[..|acts| - 1]), acts[|acts| - 1]);
    }
  }

  lemma OpenedIsAlone(n: nat, r: Remote)
    ensures Alone(Opened(n, r))
  {
    OpenedIsSound(n, r);
  }

  /** The remote is the file at the last acknowledged request, and every download that followed an acknowledged one
      brought that file back. */
  ghost predicate NothingDropped(s: State) {
    && (0 < LastSaved(s.log) ==> Current(s.r) == Some(Replay(s.log[..LastSaved(s.log) - 1])))
    && forall i | 0 <= i < |s.log| :: BringsBack(s.log, i)
  }

  lemma AloneDropsNothing(s: State)
    requires Alone(s)
    ensures NothingDropped(s)
  {
    if 0 < LastSaved(s.log) {
      LastSavedIsCurrent(s);
    }
  }

  /** With no other client about, concurrent workers that have no upload accepted while a download result is pending
      keep the remote equal to the file at the last acknowledged request, and every later download brings exactly that
      file back. */
  lemma {:induction false} AcknowledgedWritesSurvive(k: Rely, n: nat, r: Remote, acts: seq<Action>)
    requires Legal(k, Opened(n, r), acts) && k.truncateDownloadsSucceed && k.othersSilent
    requires NeverOverPending(Opened(n, r), acts)
    ensures NothingDropped(Exec(Opened(n, r), acts))
  {
    OpenedIsAlone(n, r);
    AlwaysAlone(k, Opened(n, r), acts);
    AloneDropsNothing(Exec(Opened(n, r), acts));
  }
}
