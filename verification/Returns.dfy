/** What a call returned and what the log says it did, from the moment it started, are the same thing. */
module Returns {
  import opened Bytes
  import opened Handler
  import opened Options
  import opened Protocol

  /** How long the log was when worker `w` started its latest call. */
  function StartOf(s: State, acts: seq<Action>, w: nat): (from: nat)
    requires s.log == []
    ensures from <= |Exec(s, acts).log|
  {
    if acts == [] then 0
    else
      var before, last := acts[..|acts| - 1], acts[|acts| - 1];
      LogGrows(Exec(s, before), last);
      if last.Start? && last.w == w && Enabled(Exec(s, before), last) then |Exec(s, before).log|
      else StartOf(s, before, w)
  }

  lemma LogGrows(s: State, a: Action)
    ensures s.log <= Do(s, a).log
  {
  }

  /** The events of worker `w`. */
  function Trail(log: seq<Event>, w: nat): seq<Event> {
    if log == [] then []
    else
      var before, e := Trail(log[..|log| - 1], w), log[|log| - 1];
      if e.w == w then before + [e] else before
  }

  /** The events of its call: everything it did since the call started. */
  function Deeds(log: seq<Event>, from: nat, w: nat): seq<Event>
    requires from <= |log|
  {
    Trail(log[from..], w)
  }

  lemma DeedsSnoc(log: seq<Event>, e: Event, from: nat, w: nat)
    requires from <= |log|
    ensures Deeds(log + [e], from, w) == if e.w == w then Deeds(log, from, w) + [e] else Deeds(log, from, w)
  {
    assert (log + [e])[from..] == log[from..] + [e];
    assert (log[from..] + [e])[..|log[from..]|] == log[from..];
  }

  /** What follows the install of a download, if the call began with one. */
  function AfterInstall(deeds: seq<Event>): seq<Event> {
    if deeds != [] && deeds[0].Installed? then deeds[1..] else deeds
  }

  predicate OnlyRead(deeds: seq<Event>, call: Call, out: Outcome) {
    && |deeds| == 1 && call.ReadAt? && deeds[0].Read? && out == Got(deeds[0].page)
    && deeds[0].off == call.off && deeds[0].n == call.n
  }

  /** The change that a call makes when it copies `n` of its bytes: a write changes just these, a truncation the
      length. */
  predicate Makes(call: Call, n: nat, m: Mutation) {
    match call
    case ReadAt(_, _) => false
    case WriteAt(b, off) => n <= |b| && m == Write(off, b[..n])
    case Truncate(length) => m == SetLength(length)
  }

  predicate OnlyApplied(deeds: seq<Event>, call: Call, n: nat) {
    |deeds| == 1 && deeds[0].Applied? && Makes(call, n, deeds[0].m)
  }

  predicate AppliedAndSaved(deeds: seq<Event>, call: Call, n: nat) {
    |deeds| == 2 && OnlyApplied(deeds[..1], call, n) && deeds[1].Saved?
  }

  /** How many bytes a call reports to have copied, and whether it reports success. */
  predicate Reports(call: Call, out: Outcome, n: nat, ok: bool) {
    !call.ReadAt? && out == Result(call, n, ok)
  }

  function Reported(out: Outcome): nat {
    if out.Wrote? then out.n else 0
  }

  /** A call that has returned did exactly this: after the install of a download, if it needed one, a read copied the
      one page it returned; a change was applied once, a write with as many bytes as it reports, and then saved once if
      and only if it reported success; a call that reports a failed download did nothing. */
  predicate DidWhatItReturned(call: Call, out: Outcome, deeds: seq<Event>) {
    var rest, n := AfterInstall(deeds), Reported(out);
    if out == DownloadError then deeds == [] && !call.WriteAt?
    else if call.ReadAt? then OnlyRead(rest, call, out)
    else
      || (Reports(call, out, n, true) && AppliedAndSaved(rest, call, n))
      || (Reports(call, out, n, false) && OnlyApplied(rest, call, n))
  }

  /** What a worker has done so far in its call. */
  predicate Accounted(me: AnyWorker, deeds: seq<Event>) {
    var rest := AfterInstall(deeds);
    match me.pc
    case Returned(out) => DidWhatItReturned(me.call, out, deeds)
    case Initiating(n) => OnlyApplied(rest, me.call, n)
    case Putting(n, _) => OnlyApplied(rest, me.call, n)
    case Releasing(n, ok) =>
      if ok then AppliedAndSaved(rest, me.call, n) else OnlyApplied(rest, me.call, n)
    case _ =>
      if Downloaded(me.pc) then rest == [] else deeds == []
  }

  /** The points that a call comes to after its download, if it needs one. */
  predicate Downloaded(pc: Pc) {
    || pc.InstallSizing? || pc.CopyLocking? || pc.CopyingOut?
    || pc.WriteLocking? || pc.Growing? || pc.CopyingIn? || pc.Relocking? || pc.Resizing? || pc.Sizing?
  }

  /** What a step of worker `w` keeps of the accounts: its own are in order, and it logs nothing for another. */
  ghost predicate StillAccounted(s: State, s': State, from: nat, w: nat) {
    && w < |s.ws| && w < |s'.ws| && s'.ws == s.ws[w := s'.ws[w]]
    && from <= |s.log| <= |s'.log| && Accounted(s'.ws[w], Deeds(s'.log, from, w))
    && (s'.log == s.log || exists e :: s'.log == s.log + [e] && e.w == w)
  }

  lemma DownloadAccounts(s: State, from: nat, w: nat, reply: Reply)
    requires w < |s.ws| && s.ws[w].pc.Downloading() && from <= |s.log|
    requires Accounted(s.ws[w], Deeds(s.log, from, w))
    ensures StillAccounted(s, StepDownload(s, w, reply), from, w)
  {
    if s.ws[w].pc.Installing? {
      DeedsSnoc(s.log, Installed(w, s.ws[w].pc.x), from, w);
    }
  }

  lemma SavingAccounts(deeds: seq<Event>, e: Event, call: Call, n: nat)
    requires OnlyApplied(AfterInstall(deeds), call, n) && e.Saved?
    ensures AppliedAndSaved(AfterInstall(deeds + [e]), call, n)
  {
    assert AfterInstall(deeds + [e]) == AfterInstall(deeds) + [e];
    assert (AfterInstall(deeds) + [e])[..1] == AfterInstall(deeds);
  }

  lemma UploadAccounts(s: State, from: nat, w: nat, reply: Reply)
    requires w < |s.ws| && s.ws[w].pc.Uploading() && !OutOfRange(s, w) && from <= |s.log|
    requires Accounted(s.ws[w], Deeds(s.log, from, w))
    ensures StillAccounted(s, StepUpload(s, w, reply), from, w)
  {
    if s.ws[w].pc.Putting? && reply != Failed {
      var e := Saved(w, |s.r|, s.ws[w].pc.ifMatch);
      DeedsSnoc(s.log, e, from, w);
      SavingAccounts(Deeds(s.log, from, w), e, s.ws[w].call, s.ws[w].pc.copied);
    }
  }

  /** The one event after which a call has nothing more to do than to save it or to return. */
  lemma FirstDeed(deeds: seq<Event>, e: Event)
    requires AfterInstall(deeds) == [] && !e.Installed?
    ensures AfterInstall(deeds + [e]) == [e]
  {
  }

  lemma CopyAccounts(s: State, from: nat, w: nat, data: seq<byte>)
    requires w < |s.ws| && s.ws[w].pc.CopyingIn? && !OutOfRange(s, w) && from <= |s.log|
    requires data == Copyable(s.h, s.ws[w].call.off, s.ws[w].call.b)
    requires AfterInstall(Deeds(s.log, from, w)) == []
    ensures StillAccounted(s, StepWrite(s, w), from, w)
  {
    var e := Applied(w, Write(s.ws[w].call.off, data));
    DeedsSnoc(s.log, e, from, w);
    FirstDeed(Deeds(s.log, from, w), e);
    assert Makes(s.ws[w].call, |data|, e.m);
  }

  lemma WriteAccounts(s: State, from: nat, w: nat)
    requires w < |s.ws| && s.ws[w].pc.Writing() && !OutOfRange(s, w) && from <= |s.log|
    requires Accounted(s.ws[w], Deeds(s.log, from, w))
    ensures StillAccounted(s, StepWrite(s, w), from, w)
  {
    if s.ws[w].pc.CopyingIn? {
      CopyAccounts(s, from, w, Copyable(s.h, s.ws[w].call.off, s.ws[w].call.b));
    }
  }

  lemma TruncateAccounts(s: State, from: nat, w: nat)
    requires w < |s.ws| && s.ws[w].pc.Truncating() && from <= |s.log|
    requires Accounted(s.ws[w], Deeds(s.log, from, w))
    ensures StillAccounted(s, StepTruncate(s, w), from, w)
  {
    var e := Applied(w, SetLength(s.ws[w].call.length));
    if s.ws[w].pc.Sizing? {
      DeedsSnoc(s.log, e, from, w);
      FirstDeed(Deeds(s.log, from, w), e);
    }
  }

  lemma ReadAccounts(s: State, from: nat, w: nat)
    requires w < |s.ws| && s.ws[w].pc.Reading() && !OutOfRange(s, w) && from <= |s.log|
    requires Accounted(s.ws[w], Deeds(s.log, from, w))
    ensures StillAccounted(s, StepRead(s, w), from, w)
  {
    var call := s.ws[w].call;
    var e := Read(w, call.off, call.n, ReadCache(s.h, call.off, call.n));
    if s.ws[w].pc.CopyingOut? {
      DeedsSnoc(s.log, e, from, w);
      FirstDeed(Deeds(s.log, from, w), e);
    }
  }

  lemma StepAccounts(s: State, from: nat, w: nat, reply: Reply)
    requires Enabled(s, Step(w, reply)) && from <= |s.log| && Accounted(s.ws[w], Deeds(s.log, from, w))
    ensures StillAccounted(s, Advance(s, w, reply), from, w)
  {
    var pc := s.ws[w].pc;
    if OutOfRange(s, w) {
      assert Advance(s, w, reply).log == s.log;
    } else if pc.Downloading() {
      DownloadAccounts(s, from, w, reply);
    } else if pc.Uploading() {
      UploadAccounts(s, from, w, reply);
    } else if pc.Reading() {
      ReadAccounts(s, from, w);
    } else if pc.Writing() {
      WriteAccounts(s, from, w);
    } else {
      TruncateAccounts(s, from, w);
    }
  }

  lemma OthersAccounts(s: State, s': State, mover: nat, from: nat, i: nat)
    requires i < |s.ws| && i < |s'.ws| && i != mover && s'.ws[i] == s.ws[i] && from <= |s.log|
    requires s'.log == s.log || exists e :: s'.log == s.log + [e] && e.w == mover
    requires Accounted(s.ws[i], Deeds(s.log, from, i))
    ensures from <= |s'.log| && Accounted(s'.ws[i], Deeds(s'.log, from, i))
  {
    if s'.log != s.log {
      var e :| s'.log == s.log + [e] && e.w == mover;
      DeedsSnoc(s.log, e, from, i);
    }
  }

  /** One worker's accounts after one more action. */
  lemma ActionAccounts(s: State, a: Action, from: nat, i: nat)
    requires Enabled(s, a) && i < |s.ws| && from <= |s.log| && Accounted(s.ws[i], Deeds(s.log, from, i))
    ensures var s' := Do(s, a);
            var from' := if a.Start? && a.w == i then |s.log| else from;
            i < |s'.ws| && from' <= |s'.log| && Accounted(s'.ws[i], Deeds(s'.log, from', i))
  {
    if a.Step? {
      if a.w == i {
        StepAccounts(s, from, i, a.reply);
      } else {
        StepLogsItsOwn(s, a.w, a.reply);
        OthersAccounts(s, Do(s, a), a.w, from, i);
      }
    }
  }

  lemma StepLogsItsOwn(s: State, w: nat, reply: Reply)
    requires Enabled(s, Step(w, reply))
    ensures var s' := Advance(s, w, reply);
            && w < |s'.ws| && s'.ws == s.ws[w := s'.ws[w]]
            && (s'.log == s.log || exists e :: s'.log == s.log + [e] && e.w == w)
  {
    var s' := Advance(s, w, reply);
    if s'.log != s.log {
      var e := s'.log[|s.log|];
      assert s'.log == s.log + [e] && e.w == w;
    }
  }

  /** In every run whatever, nothing assumed of downloads, uploads or other clients, each worker has done in its latest
      call what its position in the call stands for; one that has returned did exactly what its result says, between
      the start of that very call and its return. */
  lemma {:induction false} ReturnsAreLogged(k: Rely, n: nat, r: Remote, acts: seq<Action>, w: nat)
    requires Legal(k, Opened(n, r), acts) && w < n
    ensures var s := Exec(Opened(n, r), acts);
            w < |s.ws| && Accounted(s.ws[w], Deeds(s.log, StartOf(Opened(n, r), acts, w), w))
    decreases |acts|
  {
    if acts != [] {
      var before := acts[..|acts| - 1];
      ReturnsAreLogged(k, n, r, before, w);
      ActionAccounts(Exec(Opened(n, r), before), acts[|acts| - 1], StartOf(Opened(n, r), before, w), w);
    }
  }
}
