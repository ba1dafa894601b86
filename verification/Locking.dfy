/** The mutex over all interleavings. */
module Locking {
  import opened Handler
  import opened Options
  import opened Protocol

  function Holders(ws: seq<Worker>, write: bool): nat {
    if ws == [] then 0
    else
      var pc := ws[|ws| - 1].pc;
      Holders(ws[..|ws| - 1], write) + if (if write then pc.HoldsWrite() else pc.HoldsRead()) then 1 else 0
  }

  predicate Holds(w: Worker, write: bool) {
    if write then w.pc.HoldsWrite() else w.pc.HoldsRead()
  }

  lemma {:induction false} HoldersUpdate(ws: seq<Worker>, i: nat, x: Worker, write: bool)
    requires i < |ws|
    ensures Holders(ws[i := x], write) ==
            Holders(ws, write) - (if Holds(ws[i], write) then 1 else 0) + (if Holds(x, write) then 1 else 0)
    decreases |ws|
  {
    var last := |ws| - 1;
    if i < last {
      HoldersUpdate(ws[..last], i, x, write);
      assert ws[i := x][..last] == ws[..last][i := x];
    } else {
      assert ws[i := x][..last] == ws[..last];
    }
  }

  lemma {:induction false} HoldersAtLeast(ws: seq<Worker>, i: nat, j: nat, write: bool)
    requires i < |ws| && j < |ws|
    ensures Holds(ws[i], write) ==> 1 <= Holders(ws, write)
    ensures i != j && Holds(ws[i], write) && Holds(ws[j], write) ==> 2 <= Holders(ws, write)
    decreases |ws|
  {
    var last := |ws| - 1;
    if i < last && j < last {
      HoldersAtLeast(ws[..last], i, j, write);
    } else if i < last {
      HoldersAtLeast(ws[..last], i, i, write);
    } else if j < last {
      HoldersAtLeast(ws[..last], j, j, write);
    }
  }

  lemma {:induction false} NobodyHolds(ws: seq<Worker>, write: bool)
    requires forall w | w in ws :: !Holds(w, write)
    ensures Holders(ws, write) == 0
    decreases |ws|
  {
    if ws != [] {
      assert ws[|ws| - 1] in ws;
      NobodyHolds(ws[..|ws| - 1], write);
    }
  }

  /** The mutex's counters are exactly the workers that are inside the sections it guards. */
  ghost predicate Balanced(s: State) {
    && !s.mu.crashed
    && s.mu.readers == Holders(s.ws, false)
    && (if s.mu.writer then 1 else 0) == Holders(s.ws, true)
    && (s.mu.writer ==> s.mu.readers == 0)
  }

  /** Readers and the writer exclude each other, whoever is inside has its lock, and a worker whose call has
      returned has none. */
  lemma Exclusion(s: State)
    requires Balanced(s)
    ensures forall i, j | 0 <= i < |s.ws| && 0 <= j < |s.ws| && i != j ::
              s.ws[i].pc.HoldsWrite() ==> !s.ws[j].pc.HoldsWrite() && !s.ws[j].pc.HoldsRead()
    ensures forall i | 0 <= i < |s.ws| && s.ws[i].pc.HoldsWrite() :: s.mu.writer
    ensures forall i | 0 <= i < |s.ws| && s.ws[i].pc.HoldsRead() :: !s.mu.writer && 0 < s.mu.readers
    ensures (forall i | 0 <= i < |s.ws| :: !s.ws[i].pc.Active()) ==> s.mu == UNLOCKED
  {
    forall i, j | 0 <= i < |s.ws| && 0 <= j < |s.ws|
      ensures s.ws[i].pc.HoldsWrite() ==> s.mu.writer
      ensures s.ws[i].pc.HoldsRead() ==> !s.mu.writer && 0 < s.mu.readers
      ensures i != j && s.ws[i].pc.HoldsWrite() ==> !s.ws[j].pc.HoldsWrite() && !s.ws[j].pc.HoldsRead()
    {
      HoldersAtLeast(s.ws, i, j, true);
      HoldersAtLeast(s.ws, i, i, false);
      HoldersAtLeast(s.ws, j, j, false);
    }
    if forall i | 0 <= i < |s.ws| :: !s.ws[i].pc.Active() {
      NobodyHolds(s.ws, true);
      NobodyHolds(s.ws, false);
    }
  }

  predicate UnlocksTwice(s: State, a: Action) {
    a.Step? && a.w < |s.ws| && s.ws[a.w].pc.FailingUnlock?
  }

  /** What a step of worker `w` does to the mutex, by what the worker holds before and after it. */
  ghost predicate MovesLock(s: State, s': State, w: nat) {
    && w < |s.ws| && w < |s'.ws| && s'.ws == s.ws[w := s'.ws[w]]
    && var pc, pc' := s.ws[w].pc, s'.ws[w].pc;
       && !(pc'.HoldsRead() && pc'.HoldsWrite())
       && if pc.FailingUnlock? then !pc'.HoldsRead() && !pc'.HoldsWrite() && s'.mu == s.mu.ReleaseWrite()
          else if pc.HoldsRead() then
            !pc'.HoldsWrite() && s'.mu == if pc'.HoldsRead() then s.mu else s.mu.ReleaseRead()
          else if pc.HoldsWrite() then
            !pc'.HoldsRead() && s'.mu == if pc'.HoldsWrite() then s.mu else s.mu.ReleaseWrite()
          else if pc'.HoldsRead() then !s.mu.writer && s'.mu == s.mu.AcquireRead()
          else if pc'.HoldsWrite() then s.mu.Free() && s'.mu == s.mu.AcquireWrite()
          else s'.mu == s.mu
  }

  lemma DownloadMovesLock(s: State, w: nat, reply: Reply)
    requires Enabled(s, Step(w, reply)) && s.ws[w].pc.Downloading()
    ensures MovesLock(s, StepDownload(s, w, reply), w)
  {
  }

  lemma UploadMovesLock(s: State, w: nat, reply: Reply)
    requires Enabled(s, Step(w, reply)) && s.ws[w].pc.Uploading() && !OutOfRange(s, w)
    ensures MovesLock(s, StepUpload(s, w, reply), w)
  {
  }

  lemma RestMovesLock(s: State, w: nat, reply: Reply)
    requires Enabled(s, Step(w, reply)) && !OutOfRange(s, w)
    ensures s.ws[w].pc.Reading() ==> MovesLock(s, StepRead(s, w), w)
    ensures s.ws[w].pc.Writing() ==> MovesLock(s, StepWrite(s, w), w)
    ensures s.ws[w].pc.Truncating() ==> MovesLock(s, StepTruncate(s, w), w)
  {
  }

  lemma StepMovesLock(s: State, a: Action)
    requires Enabled(s, a) && !a.Other?
    ensures MovesLock(s, Do(s, a), a.w)
  {
    if a.Step? {
      if OutOfRange(s, a.w) {
        assert MovesLock(s, s.(panicked := true), a.w);
      } else if s.ws[a.w].pc.Downloading() {
        DownloadMovesLock(s, a.w, a.reply);
      } else if s.ws[a.w].pc.Uploading() {
        UploadMovesLock(s, a.w, a.reply);
      } else {
        RestMovesLock(s, a.w, a.reply);
      }
    }
  }

  lemma BalanceAcross(s: State, s': State, w: nat)
    requires Balanced(s) && MovesLock(s, s', w)
    ensures Balanced(s') <==> !s.ws[w].pc.FailingUnlock?
    ensures s.ws[w].pc.FailingUnlock? ==> s'.mu.crashed || (s'.mu.Free() && Holders(s'.ws, true) == 1)
  {
    HoldersUpdate(s.ws, w, s'.ws[w], true);
    HoldersUpdate(s.ws, w, s'.ws[w], false);
    HoldersAtLeast(s.ws, w, w, true);
    HoldersAtLeast(s.ws, w, w, false);
    if s.ws[w].pc.FailingUnlock? {
      assert !Balanced(s');
    } else {
      assert Balanced(s');
    }
  }

  /** Exactly one step of the handler breaks the balance: the second Unlock of a Truncate whose download failed.
      It either crashes the process or takes the mutex away from the worker that holds it. */
  lemma LockBalance(s: State, a: Action)
    requires Balanced(s) && Enabled(s, a)
    ensures Balanced(Do(s, a)) <==> !UnlocksTwice(s, a)
    ensures UnlocksTwice(s, a) ==>
              Do(s, a).mu.crashed || (Do(s, a).mu.Free() && Holders(Do(s, a).ws, true) == 1)
  {
    if !a.Other? {
      StepMovesLock(s, a);
      BalanceAcross(s, Do(s, a), a.w);
    }
  }

  ghost predicate NobodyFails(s: State) {
    forall i | 0 <= i < |s.ws| :: !s.ws[i].pc.FailingUnlock?
  }

  lemma StepKeepsBalance(k: Rely, s: State, a: Action)
    requires Balanced(s) && NobodyFails(s) && Allows(k, s, a) && k.truncateDownloadsSucceed
    ensures Balanced(Do(s, a)) && NobodyFails(Do(s, a))
  {
    LockBalance(s, a);
  }

  /** In every run in which no Truncate's download fails the mutex stays balanced. */
  lemma {:induction false} AlwaysBalanced(k: Rely, s: State, acts: seq<Action>)
    requires Balanced(s) && NobodyFails(s) && Legal(k, s, acts) && k.truncateDownloadsSucceed
    ensures Balanced(Exec(s, acts)) && NobodyFails(Exec(s, acts))
    decreases |acts|
  {
    if acts != [] {
      AlwaysBalanced(k, s, acts[..|acts| - 1]);
      StepKeepsBalance(k, Exec(s, acts[..|acts| - 1]), acts[|acts| - 1]);
    }
  }

  /** Some worker in a call can make its next step. */
  ghost predicate SomeoneCanStep(s: State) {
    exists w: nat, reply :: w < |s.ws| && s.ws[w].pc.Active() && Enabled(s, Step(w, reply))
  }

  lemma {:induction false} SomeoneHolds(ws: seq<Worker>, write: bool) returns (w: nat)
    requires 0 < Holders(ws, write)
    ensures w < |ws| && Holds(ws[w], write)
    decreases |ws|
  {
    if Holds(ws[|ws| - 1], write) {
      w := |ws| - 1;
    } else {
      w := SomeoneHolds(ws[..|ws| - 1], write);
    }
  }

  /** The handler never deadlocks: as long as a call is under way some worker in a call can make a step, since whoever
      holds the mutex waits for nobody. */
  lemma NoDeadlock(s: State, w: nat)
    requires Balanced(s) && !s.panicked && w < |s.ws| && s.ws[w].pc.Active()
    ensures SomeoneCanStep(s)
  {
    if s.mu.writer {
      var i := SomeoneHolds(s.ws, true);
      assert Enabled(s, Step(i, Failed));
    } else if s.mu.readers > 0 {
      var i := SomeoneHolds(s.ws, false);
      assert Enabled(s, Step(i, Failed));
    } else {
      assert Enabled(s, Step(w, Failed));
    }
  }
}
