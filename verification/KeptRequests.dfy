/** Which requests the file still holds when downloads replace the cache from time to time. */
module KeptRequests {
  import opened Bytes
  import opened Handler
  import opened Options
  import opened Protocol
  import opened Locking
  import opened Linearizability
  import opened ColdStart

  /** The positions in the log of the requests that are still in the file: a download drops those that were not on the
      remote when the last upload before it was accepted. */
  function Kept(log: seq<Event>): (kept: seq<nat>)
    ensures forall i | i in kept :: i < |log| && log[i].Applied?
    ensures forall a, b | 0 <= a < b < |kept| :: kept[a] < kept[b]
    decreases |log|
  {
    if log == [] then []
    else
      var before, last := log[..|log| - 1], log[|log| - 1];
      if last.Applied? then
        var kept := Kept(before);
        assert forall a | 0 <= a < |kept| :: kept[a] in kept;
        kept + [|log| - 1]
      else if !last.Installed? then Kept(before)
      else if LastSaved(before) == 0 then []
      else
        var saved := before[..LastSaved(before) - 1];
        assert forall i | 0 <= i < |saved| :: saved[i] == log[i];
        Kept(saved)
  }

  /** The file they were applied to: empty, or what the first download that brought one found. */
  function Base(log: seq<Event>): seq<byte>
    decreases |log|
  {
    if log == [] then []
    else
      var before, last := log[..|log| - 1], log[|log| - 1];
      if last.Installed? then
        if LastSaved(before) == 0 then last.x.Content() else Base(before[..LastSaved(before) - 1])
      else Base(before)
  }

  /** The requests at these positions of the log. */
  function At(log: seq<Event>, positions: seq<nat>): seq<Mutation>
    requires forall i | i in positions :: i < |log| && log[i].Applied?
  {
    if positions == [] then []
    else
      var last := |positions| - 1;
      assert positions[last] in positions && forall i | i in positions[..last] :: i in positions;
      At(log, positions[..last]) + [log[positions[last]].m]
  }

  lemma {:induction false} AtPrefix(log: seq<Event>, log': seq<Event>, positions: seq<nat>)
    requires log <= log' && forall i | i in positions :: i < |log| && log[i].Applied?
    ensures At(log', positions) == At(log, positions)
    decreases |positions|
  {
    if positions != [] {
      AtPrefix(log, log', positions[..|positions| - 1]);
    }
  }

  ghost predicate AllBroughtBack(log: seq<Event>) {
    forall i | 0 <= i < |log| :: BringsBack(log, i)
  }

  lemma BroughtBackBefore(log: seq<Event>, n: nat)
    requires AllBroughtBack(log) && n <= |log|
    ensures AllBroughtBack(log[..n])
  {
    forall i | 0 <= i < n ensures BringsBack(log[..n], i) {
      assert BringsBack(log, i) && log[..n][..i] == log[..i];
      var j := LastSaved(log[..i]);
      if 0 < j { assert log[..n][..j - 1] == log[..j - 1]; }
    }
  }

  /** The file is the base with the kept requests applied, in their order. */
  ghost predicate FileIsKept(log: seq<Event>) {
    Replay(log) == Fold(Base(log), At(log, Kept(log)))
  }

  lemma KeptSnoc(log: seq<Event>, e: Event)
    requires !e.Installed?
    ensures Base(log + [e]) == Base(log)
    ensures Kept(log + [e]) == if e.Applied? then Kept(log) + [|log|] else Kept(log)
  {
    assert (log + [e])[..|log|] == log;
  }

  lemma AtSnoc(log: seq<Event>, e: Event, positions: seq<nat>)
    requires e.Applied? && forall i | i in positions :: i < |log| && log[i].Applied?
    ensures At(log + [e], positions + [|log|]) == At(log, positions) + [e.m]
  {
    AtPrefix(log, log + [e], positions);
    assert (positions + [|log|])[..|positions|] == positions;
  }

  lemma ExtendedIsKept(log: seq<Event>, e: Event)
    requires FileIsKept(log) && !e.Installed?
    ensures FileIsKept(log + [e])
  {
    KeptSnoc(log, e);
    LogSnoc(log, e);
    if e.Applied? {
      AtSnoc(log, e, Kept(log));
      FoldSnoc(Base(log), At(log, Kept(log)), e.m);
    } else {
      AtPrefix(log, log + [e], Kept(log));
    }
  }

  lemma InstalledIsKept(log: seq<Event>, saved: seq<Event>)
    requires log != [] && log[|log| - 1].Installed? && BringsBack(log, |log| - 1)
    requires var j := LastSaved(log[..|log| - 1]); 0 < j ==> saved == log[..|log| - 1][..j - 1] && FileIsKept(saved)
    ensures FileIsKept(log)
  {
    var before, j := log[..|log| - 1], LastSaved(log[..|log| - 1]);
    if 0 < j {
      assert log[..j - 1] == saved;
      AtPrefix(saved, log, Kept(saved));
    }
  }

  /** The log up to the last accepted upload before its end, without that upload. */
  function UpToSaved(log: seq<Event>): seq<Event>
    requires log != []
  {
    var before := log[..|log| - 1];
    if LastSaved(before) == 0 then [] else before[..LastSaved(before) - 1]
  }

  /** Induction over a log, as far as downloads let it go back. */
  lemma {:induction false} LogInduction(p: seq<Event> -> bool, log: seq<Event>)
    requires p([]) && AllBroughtBack(log)
    requires forall before: seq<Event>, e: Event {:trigger p(before + [e])} |
               p(before) && !e.Installed? :: p(before + [e])
    requires forall all: seq<Event> {:trigger p(all)} |
               all != [] && all[|all| - 1].Installed? && BringsBack(all, |all| - 1) && p(UpToSaved(all)) :: p(all)
    ensures p(log)
    decreases |log|
  {
    if log != [] {
      var before, last := log[..|log| - 1], log[|log| - 1];
      if last.Installed? {
        BroughtBackBefore(log, |UpToSaved(log)|);
        assert log[..|UpToSaved(log)|] == UpToSaved(log);
        LogInduction(p, UpToSaved(log));
      } else {
        BroughtBackBefore(log, |log| - 1);
        LogInduction(p, before);
        assert before + [last] == log;
      }
    }
  }

  lemma {:induction false} AlwaysKept(log: seq<Event>)
    requires AllBroughtBack(log)
    ensures FileIsKept(log)
  {
    forall before: seq<Event>, e: Event | FileIsKept(before) && !e.Installed? ensures FileIsKept(before + [e]) {
      ExtendedIsKept(before, e);
    }
    forall all: seq<Event> |
      all != [] && all[|all| - 1].Installed? && BringsBack(all, |all| - 1) && FileIsKept(UpToSaved(all))
      ensures FileIsKept(all)
    {
      InstalledIsKept(all, UpToSaved(all));
    }
    LogInduction(l => FileIsKept(l), log);
  }

  // ----- what was acknowledged is kept -----

  /** Every accepted upload follows its own request at once. */
  ghost predicate SavedFollows(log: seq<Event>) {
    forall j | 0 <= j < |log| && log[j].Saved? :: 0 < j && log[j - 1].Applied? && log[j - 1].w == log[j].w
  }

  lemma {:induction false} SavedIsKept(log: seq<Event>, j: nat)
    requires SavedFollows(log) && j < |log| && log[j].Saved?
    ensures j - 1 in Kept(log)
    decreases |log|
  {
    var before, last := log[..|log| - 1], log[|log| - 1];
    if j == |log| - 1 {
      assert before[|before| - 1] == log[j - 1];
    } else if last.Installed? {
      var p := LastSaved(before) - 1;
      assert before[j] == log[j] && j <= p;
      if j < p {
        SavedIsKept(before[..p], j);
      } else {
        assert before[..p][p - 1] == log[j - 1];
      }
    } else {
      SavedIsKept(before, j);
    }
  }

  /** Whoever is about to save has just changed the file. */
  ghost predicate AboutToSave(s: State) {
    && SavedFollows(s.log)
    && forall i | 0 <= i < |s.ws| && (s.ws[i].pc.Initiating? || s.ws[i].pc.Putting?) ::
         s.log != [] && s.log[|s.log| - 1].Applied? && s.log[|s.log| - 1].w == i
  }

  /** What a step of worker `w` may add to the log: only what it has the mutex for. */
  ghost predicate LogsInTurn(s: State, s': State, w: nat) {
    && w < |s.ws| && w < |s'.ws| && s'.ws == s.ws[w := s'.ws[w]]
    && var pc, pc' := s.ws[w].pc, s'.ws[w].pc;
       if s'.log == s.log then
         pc'.Initiating? || pc'.Putting? ==> pc.Initiating? || pc.Putting?
       else
         exists e :: && s'.log == s.log + [e] && e.w == w && (pc.HoldsRead() || pc.HoldsWrite())
                     && (e.Saved? ==> pc.Putting?) && !pc'.Putting? && (pc'.Initiating? ==> e.Applied?)
  }

  lemma UploadLogsInTurn(s: State, w: nat, reply: Reply)
    requires w < |s.ws| && s.ws[w].pc.Uploading() && !OutOfRange(s, w)
    ensures LogsInTurn(s, StepUpload(s, w, reply), w)
  {
    if s.ws[w].pc.Putting? && reply != Failed {
      assert StepUpload(s, w, reply).log == s.log + [Saved(w, |s.r|, s.ws[w].pc.ifMatch)];
    }
  }

  lemma SectionLogsInTurn(s: State, w: nat)
    requires w < |s.ws| && !OutOfRange(s, w)
    ensures s.ws[w].pc.Writing() ==> LogsInTurn(s, StepWrite(s, w), w)
    ensures s.ws[w].pc.Truncating() ==> LogsInTurn(s, StepTruncate(s, w), w)
  {
  }

  lemma ReadLogsInTurn(s: State, w: nat, reply: Reply)
    requires w < |s.ws| && !OutOfRange(s, w)
    ensures s.ws[w].pc.Reading() ==> LogsInTurn(s, StepRead(s, w), w)
    ensures s.ws[w].pc.Downloading() ==> LogsInTurn(s, StepDownload(s, w, reply), w)
  {
  }

  lemma StepLogsInTurn(s: State, w: nat, reply: Reply)
    requires Enabled(s, Step(w, reply))
    ensures LogsInTurn(s, Advance(s, w, reply), w)
  {
    if OutOfRange(s, w) {
      assert LogsInTurn(s, s.(panicked := true), w);
    } else if s.ws[w].pc.Uploading() {
      UploadLogsInTurn(s, w, reply);
    } else if s.ws[w].pc.Reading() || s.ws[w].pc.Downloading() {
      ReadLogsInTurn(s, w, reply);
    } else {
      SectionLogsInTurn(s, w);
    }
  }

  lemma StaysAboutToSave(s: State, s': State, w: nat)
    requires Balanced(s) && AboutToSave(s) && LogsInTurn(s, s', w)
    ensures AboutToSave(s')
  {
    Exclusion(s);
    forall i | 0 <= i < |s'.ws| && (s'.ws[i].pc.Initiating? || s'.ws[i].pc.Putting?)
      ensures s'.log != [] && s'.log[|s'.log| - 1].Applied? && s'.log[|s'.log| - 1].w == i
    {
      assert i != w ==> s'.ws[i] == s.ws[i];
    }
  }

  lemma StepKeepsAboutToSave(s: State, a: Action)
    requires Balanced(s) && AboutToSave(s) && Enabled(s, a)
    ensures AboutToSave(Do(s, a))
  {
    if a.Step? {
      StepLogsInTurn(s, a.w, a.reply);
      StaysAboutToSave(s, Do(s, a), a.w);
    } else if a.Start? {
      StaysAboutToSave(s, Do(s, a), a.w);
    }
  }

  lemma {:induction false} AlwaysAboutToSave(k: Rely, s: State, acts: seq<Action>)
    requires Sound(s) && AboutToSave(s) && Legal(k, s, acts) && k.truncateDownloadsSucceed
    ensures AboutToSave(Exec(s, acts))
    decreases |acts|
  {
    if acts != [] {
      AlwaysAboutToSave(k, s, acts[..|acts| - 1]);
      AlwaysSound(k, s, acts[..|acts| - 1]);
      StepKeepsAboutToSave(Exec(s, acts[..|acts| - 1]), acts[|acts| - 1]);
    }
  }

  /** The file that the log describes is the base with a subsequence of the requests applied, in their order, and each
      request whose upload was accepted is among them, from then on and for good. */
  ghost predicate HoldsAcknowledged(log: seq<Event>) {
    && FileIsKept(log)
    && forall j | 0 <= j < |log| && log[j].Saved? ::
         0 < j && log[j - 1].Applied? && log[j - 1].w == log[j].w && j - 1 in Kept(log)
  }

  lemma KeptHoldsAcknowledged(log: seq<Event>)
    requires AllBroughtBack(log) && SavedFollows(log)
    ensures HoldsAcknowledged(log)
  {
    AlwaysKept(log);
    forall j | 0 <= j < |log| && log[j].Saved? ensures j - 1 in Kept(log) {
      SavedIsKept(log, j);
    }
  }

  /** No acknowledged request is ever dropped: with no other client, and no upload accepted while a download result is
      pending, the file and the remote hold every request whose upload was accepted, however often the handle downloads;
      the remote holds exactly what was kept when the last upload was accepted. */
  lemma {:induction false} AcknowledgedAreKept(k: Rely, n: nat, r: Remote, acts: seq<Action>)
    requires Legal(k, Opened(n, r), acts) && k.truncateDownloadsSucceed && k.othersSilent
    requires NeverOverPending(Opened(n, r), acts)
    ensures var s := Exec(Opened(n, r), acts);
            var last := LastSaved(s.log);
            && HoldsAcknowledged(s.log)
            && (0 < last ==> HoldsAcknowledged(s.log[..last]) && Current(s.r) == Some(Replay(s.log[..last])))
  {
    AcknowledgedWritesSurvive(k, n, r, acts);
    OpenedIsSound(n, r);
    AlwaysAboutToSave(k, Opened(n, r), acts);
    SavedHoldsAcknowledged(Exec(Opened(n, r), acts));
  }

  lemma {:induction false} PrefixHoldsAcknowledged(log: seq<Event>, n: nat)
    requires AllBroughtBack(log) && SavedFollows(log) && n <= |log|
    ensures HoldsAcknowledged(log[..n])
  {
    BroughtBackBefore(log, n);
    KeptHoldsAcknowledged(log[..n]);
  }

  lemma {:induction false} LastSavedFile(log: seq<Event>, last: nat)
    requires 0 < last <= |log| && log[last - 1].Saved?
    ensures Replay(log[..last]) == Replay(log[..last - 1])
  {
    assert log[..last] == log[..last - 1] + [log[last - 1]];
    SavingKeepsFile(log[..last - 1], log[last - 1]);
  }

  lemma {:induction false} SavedHoldsAcknowledged(s: State)
    requires NothingDropped(s) && AboutToSave(s)
    ensures var last := LastSaved(s.log);
            && HoldsAcknowledged(s.log)
            && (0 < last ==> HoldsAcknowledged(s.log[..last]) && Current(s.r) == Some(Replay(s.log[..last])))
  {
    KeptHoldsAcknowledged(s.log);
    var last := LastSaved(s.log);
    if 0 < last {
      PrefixHoldsAcknowledged(s.log, last);
      LastSavedFile(s.log, last);
    }
  }
}
