/** Calls return: nobody waits for ever for the others, and nobody goes round in circles. */
module Progress {
  import opened Handler
  import opened Options
  import opened Protocol
  import opened Locking
  import opened Linearizability

  /** A bound on the steps that a worker has before it in its call. */
  function Rank(pc: Pc): nat {
    match pc
    case Idle => 0
    case Returned(_) => 0
    case ReadLocking => 13
    case ReadChecking => 12
    case CopyLocking => 2
    case CopyingOut => 1
    case WriteChecking => 12
    case WriteLocking => 6
    case Growing => 5
    case CopyingIn => 4
    case TruncLocking => 13
    case TruncChecking => 12
    case Relocking => 6
    case Resizing => 5
    case Sizing => 4
    case FailingUnlock => 1
    case Initiating(_) => 3
    case Putting(_, _) => 2
    case Releasing(_, _) => 1
    case Stating => 11
    case Fetching => 10
    case InstallLocking(_) => 9
    case Installing(_) => 8
    case InstallSizing(_) => 7
  }

  function TotalRank(ws: seq<Worker>): nat {
    if ws == [] then 0 else TotalRank(ws[..|ws| - 1]) + Rank(ws[|ws| - 1].pc)
  }

  lemma {:induction false} RankUpdate(ws: seq<Worker>, i: nat, x: Worker)
    requires i < |ws|
    ensures TotalRank(ws[i := x]) == TotalRank(ws) - Rank(ws[i].pc) + Rank(x.pc)
    decreases |ws|
  {
    var last := |ws| - 1;
    if i < last {
      RankUpdate(ws[..last], i, x);
      assert ws[i := x][..last] == ws[..last][i := x];
    } else {
      assert ws[i := x][..last] == ws[..last];
    }
  }

  lemma {:induction false} TotalAtMost(ws: seq<Worker>)
    ensures TotalRank(ws) <= 13 * |ws|
    decreases |ws|
  {
    if ws != [] {
      TotalAtMost(ws[..|ws| - 1]);
    }
  }

  lemma StepLowersRank(s: State, w: nat, reply: Reply)
    requires Enabled(s, Step(w, reply)) && !OutOfRange(s, w)
    ensures var s' := Advance(s, w, reply);
            w < |s'.ws| && s'.ws == s.ws[w := s'.ws[w]] && Rank(s'.ws[w].pc) < Rank(s.ws[w].pc) && !s'.panicked
  {
  }

  function Steps(acts: seq<Action>): nat {
    if acts == [] then 0 else Steps(acts[..|acts| - 1]) + if acts[|acts| - 1].Step? then 1 else 0
  }

  /** A run in which no call starts has boundedly many steps: whatever the interleaving, the failures and the other
      clients, at most 13 for each worker, and one more if the process panics. */
  lemma {:induction false} BoundedlyManySteps(k: Rely, s: State, acts: seq<Action>)
    requires Legal(k, s, acts) && !s.panicked && forall a | a in acts :: !a.Start?
    ensures var s' := Exec(s, acts);
            && |s'.ws| == |s.ws| && Steps(acts) + TotalRank(s'.ws) <= TotalRank(s.ws) + if s'.panicked then 1 else 0
    ensures Steps(acts) <= 13 * |s.ws| + 1
    decreases |acts|
  {
    TotalAtMost(s.ws);
    if acts != [] {
      var prefix, last := acts[..|acts| - 1], acts[|acts| - 1];
      assert last in acts && forall a | a in prefix :: a in acts;
      BoundedlyManySteps(k, s, prefix);
      var before := Exec(s, prefix);
      if last.Step? && !OutOfRange(before, last.w) {
        StepLowersRank(before, last.w, last.reply);
        RankUpdate(before.ws, last.w, Do(before, last).ws[last.w]);
      }
    }
  }

  /** And when such a run cannot go on, every call has returned, unless the mutex is out of balance. */
  lemma StuckOnlyWhenDone(s: State)
    requires Balanced(s) && !s.panicked && !SomeoneCanStep(s)
    ensures forall i | 0 <= i < |s.ws| :: !s.ws[i].pc.Active()
  {
    forall i | 0 <= i < |s.ws| ensures !s.ws[i].pc.Active() {
      if s.ws[i].pc.Active() { NoDeadlock(s, i); }
    }
  }

  /** Hence all calls return: a run without new calls and without a failing Truncate download, from any state that runs
      come to, can have no more than so many steps, and where no worker can make one all calls have returned. */
  lemma {:induction false} CallsReturn(k: Rely, s: State, acts: seq<Action>)
    requires Sound(s) && Legal(k, s, acts) && k.truncateDownloadsSucceed && forall a | a in acts :: !a.Start?
    ensures Steps(acts) <= 13 * |s.ws|
    ensures var s' := Exec(s, acts);
            !SomeoneCanStep(s') ==> forall i | 0 <= i < |s'.ws| :: !s'.ws[i].pc.Active()
  {
    AlwaysSound(k, s, acts);
    BoundedlyManySteps(k, s, acts);
    TotalAtMost(s.ws);
    if !SomeoneCanStep(Exec(s, acts)) {
      StuckOnlyWhenDone(Exec(s, acts));
    }
  }
}
