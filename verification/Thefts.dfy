/** What happens to the slice expressions and to the counts of bytes when a failing Truncate takes the mutex away from
    the worker that holds it, and that nothing happens to them otherwise. */
module Thefts {
  import opened Bytes
  import opened Handler
  import opened Options
  import opened Protocol
  import opened Locking
  import opened Linearizability
  import opened Runs
  import opened Traces

  /** A second Unlock while another worker holds the mutex for writing. */
  predicate Steals(s: State, a: Action) {
    UnlocksTwice(s, a) && s.mu.writer
  }

  predicate NeverSteals(s: State, acts: seq<Action>) {
    acts == [] ||
    (NeverSteals(s, acts[..|acts| - 1]) && !Steals(Exec(s, acts[..|acts| - 1]), acts[|acts| - 1]))
  }

  /** A write that has copied its bytes, or has returned how many, has copied all of them. */
  predicate Whole(me: AnyWorker) {
    me.call.WriteAt? ==>
      && (me.pc.Uploading() ==> me.pc.copied == |me.call.b|)
      && (me.pc.Returned? && me.pc.out.Wrote? ==> me.pc.out.n == |me.call.b|)
  }

  /** No slice expression was out of range, no write was short, and unless the process is down the mutex excludes. */
  ghost predicate Intact(s: State) {
    && !s.panicked && CacheInv(s) && (Balanced(s) || s.mu.crashed)
    && forall i | 0 <= i < |s.ws| :: Whole(s.ws[i])
  }

  lemma StepIsWhole(s: State, w: nat, reply: Reply)
    requires Enabled(s, Step(w, reply)) && !OutOfRange(s, w) && Whole(s.ws[w])
    requires s.ws[w].pc.CopyingIn? ==> s.ws[w].call.End() <= |s.h.Content()|
    ensures var s' := Advance(s, w, reply);
            w < |s'.ws| && s'.ws == s.ws[w := s'.ws[w]] && Whole(s'.ws[w]) && !s'.panicked
  {
  }

  lemma StepStaysIntact(s: State, a: Action)
    requires Intact(s) && Enabled(s, a) && !Steals(s, a)
    ensures Intact(Do(s, a))
  {
    if a.Other? {
      assert CacheInv(Do(s, a));
    } else {
      LockBalance(s, a);
      StepKeepsCache(s, a);
      if a.Step? {
        InRange(s, a.w);
        StepIsWhole(s, a.w, a.reply);
      }
      forall i | 0 <= i < |s.ws| ensures Whole(Do(s, a).ws[i]) {
        assert Whole(s.ws[i]);
      }
    }
  }

  /** In every run in which no Truncate takes the mutex from its holder, whatever downloads fail, no slice expression is
      ever out of range and every write that returns a count returns the number of its bytes. */
  lemma {:induction false} IntactWithoutTheft(k: Rely, n: nat, r: Remote, acts: seq<Action>)
    requires Legal(k, Opened(n, r), acts) && NeverSteals(Opened(n, r), acts)
    ensures Intact(Exec(Opened(n, r), acts))
    decreases |acts|
  {
    if acts == [] {
      OpenedIsSound(n, r);
    } else {
      IntactWithoutTheft(k, n, r, acts[..|acts| - 1]);
      StepStaysIntact(Exec(Opened(n, r), acts[..|acts| - 1]), acts[|acts| - 1]);
    }
  }

  // ----- with a theft -----

  /** If-Match is enforced and no other client is about; downloads may fail, and calls overlap. */
  const STEALING := Rely(false, true, false, false, false, true)

  /** A write of one byte at `off` has made room for it when a failing Truncate takes its mutex away. */
  lemma Robbed(p: Play, off: nat) returns (s: State)
    requires Tracing(p, STEALING, Opened(3, SEVEN))
    ensures p.reach(s) && s.mu == UNLOCKED && s.r == SEVEN && !s.panicked && !s.h.valid && s.h.etag == NO_TAG
    ensures s.ws == [AnyWorker(Truncate(0), Returned(DownloadError)), AnyWorker(WriteAt([1], off), CopyingIn),
                     AnyWorker(Truncate(0), Idle)]
    ensures s.log == []
  {
    s := TruncateFails(p, Opened(3, SEVEN), 0);
    s := WriteGoesAhead(p, s, 1, WriteAt([1], off));
    s := GoWrite(p, s, 1);
    s := GoWrite(p, s, 1);
    s := GoTruncate(p, s, 0);
  }

  /** Then another Truncate, whose download succeeds, empties the cache under the write. */
  lemma Emptied(p: Play, off: nat) returns (s: State)
    requires Tracing(p, STEALING, Opened(3, SEVEN))
    ensures p.reach(s) && s.mu == UNLOCKED.AcquireWrite() && s.r == SEVEN && !s.panicked
    ensures s.h == Handle(Some([]), true, 0, 1)
    ensures s.ws == [AnyWorker(Truncate(0), Returned(DownloadError)), AnyWorker(WriteAt([1], off), CopyingIn),
                     AnyWorker(Truncate(0), Initiating(0))]
  {
    s := Robbed(p, off);
    s := Begin(p, s, 2, Truncate(0));
    s := GoTruncate(p, s, 2);
    s := GoTruncate(p, s, 2);
    s := GoDownload(p, s, 2, Granted);
    s := GoDownload(p, s, 2, Granted);
    s := Install(p, s, 2);
    s := EmptyCache(p, s, 2);
  }

  lemma EmptyCache(p: Play, s: State, w: nat) returns (s': State)
    requires Turn(p, s, w) && !p.k.noSectionDuringDownload && s.mu == UNLOCKED
    requires s.ws[w] == AnyWorker(Truncate(0), Relocking)
    ensures p.reach(s') && s'.h == s.h.(cache := Some([]), size := 0) && s'.mu == UNLOCKED.AcquireWrite() && s'.r == s.r
    ensures s'.ws == s.ws[w := AnyWorker(Truncate(0), Initiating(0))] && !s'.panicked
  {
    s' := GoTruncate(p, s, w);
    s' := GoTruncate(p, s', w);
    assert s'.h.cache == Some([]);
    s' := GoTruncate(p, s', w);
  }

  /** A write of one byte copies none, uploads the empty file, and reports no bytes and no error. */
  lemma TheftShortensWrite()
    ensures exists s :: Leads(STEALING, None, Opened(3, SEVEN), s)
                        && |s.ws| == 3 && s.ws[..2] == [AnyWorker(Truncate(0), Returned(DownloadError)),
                                         AnyWorker(WriteAt([1], 0), Returned(Wrote(0, true)))]
                        && s.h.cache == Some([]) && s.r == [Some([7]), Some([])]
  {
    var p := From(STEALING, None, Opened(3, SEVEN));
    ReachableIsClosed(STEALING, None, Opened(3, SEVEN));
    var s := Emptied(p, 0);
    s := ShortWrite(p, s);
  }

  lemma ShortWrite(p: Play, s: State) returns (s': State)
    requires Turn(p, s, 1) && s.mu.writer && s.r == SEVEN && s.h == Handle(Some([]), true, 0, 1)
    requires s.ws[1] == AnyWorker(WriteAt([1], 0), CopyingIn)
    ensures p.reach(s') && s'.h.cache == Some([]) && s'.r == [Some([7]), Some([])]
    ensures s'.ws == s.ws[1 := AnyWorker(WriteAt([1], 0), Returned(Wrote(0, true)))]
  {
    assert Copyable(s.h, 0, [1]) == [] && Overwrite([], 0, []) == [] && CopyIn(s.h, 0, []) == s.h;
    s' := GoWrite(p, s, 1);
    s' := GoUpload(p, s', 1, Granted);
    s' := GoUpload(p, s', 1, Granted);
    s' := GoUpload(p, s', 1, Granted);
  }

  /** A write of one byte past the start slices the emptied cache out of range. */
  lemma TheftPanics()
    ensures exists s :: Leads(STEALING, None, Opened(3, SEVEN), s) && s.panicked
  {
    var p := From(STEALING, None, Opened(3, SEVEN));
    ReachableIsClosed(STEALING, None, Opened(3, SEVEN));
    var s := Emptied(p, 1);
    s := GoPanic(p, s, 1);
  }
}
