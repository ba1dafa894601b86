/** When a lone client's changes are acknowledged: the gateway's answers decide, and one reply can decide for good. */
module Acknowledgements {
  import opened Bytes
  import opened Handler
  import opened Options
  import opened LoneClient

  /** Where a handle stands with the remote: without an ETag, with the current one, or with one that is not current. */
  datatype Standing = Untied | Tied | Stranded

  function StandingOf(h: Handle, r: Remote): Standing {
    if h.etag == NO_TAG then Untied else if Accepts(r, h.etag) then Tied else Stranded
  }

  /** The requests that a change needs are granted. */
  predicate Answered(q: Request) {
    !q.call.ReadAt? && q.answers.initiate != Failed && q.answers.put != Failed
  }

  /** The standing after a run, from the answers alone: a granted upload ties the handle to the version it published,
      and one whose reply lacks an ETag strands a handle that had one. */
  function StandingAfter(start: Standing, qs: seq<Request>): Standing {
    if qs == [] then start
    else
      var before, last := StandingAfter(start, qs[..|qs| - 1]), qs[|qs| - 1];
      if before == Stranded || !Answered(last) then before
      else if last.answers.put == Granted then Tied
      else if before == Untied then Untied
      else Stranded
  }

  lemma CallMovesStanding(h: Handle, r: Remote, q: Request)
    requires h.Consistent() && h.valid
    ensures var after := CallSpec(h, r, q.call, q.answers);
            && (after.Acknowledged() <==> Answered(q) && StandingOf(h, r) != Stranded)
            && StandingOf(after.h, after.r) ==
               (if !after.Acknowledged() then StandingOf(h, r)
                else if q.answers.put == Granted then Tied
                else if StandingOf(h, r) == Untied then Untied else Stranded)
  {
  }

  /** On a warm handle of a lone client a call is acknowledged if and only if it is a change, its requests are granted
      and no earlier reply has stranded the handle. */
  lemma {:induction false} AcknowledgedExactly(h: Handle, r: Remote, qs: seq<Request>)
    requires h.Consistent() && h.valid
    ensures StandingOf(Run(h, r, qs).0, Run(h, r, qs).1) == StandingAfter(StandingOf(h, r), qs)
    ensures qs != [] ==>
              (LastAfter(h, r, qs).Acknowledged() <==>
                 Answered(qs[|qs| - 1]) && StandingAfter(StandingOf(h, r), qs[..|qs| - 1]) != Stranded)
    decreases |qs|
  {
    if qs != [] {
      var before := qs[..|qs| - 1];
      AcknowledgedExactly(h, r, before);
      WarmRun(h, r, before);
      CallMovesStanding(Run(h, r, before).0, Run(h, r, before).1, qs[|qs| - 1]);
    }
  }

  /** The same from a new handle whose first download succeeds: it is tied if that found a file and its ETag. */
  lemma {:induction false} AcknowledgedFromTheStart(r: Remote, qs: seq<Request>)
    requires qs != [] && DownloadSucceeds(r, qs[0].answers)
    ensures var start := if Current(r).Some? && qs[0].answers.fetch == Granted then Tied else Untied;
            LastAfter(FRESH, r, qs).Acknowledged() <==>
              Answered(qs[|qs| - 1]) && StandingAfter(start, qs[..|qs| - 1]) != Stranded
  {
    ColdRun(r, qs);
    AcknowledgedExactly(Download(FRESH, r, qs[0].answers), r, qs);
  }

  lemma {:induction false} StrandedStays(start: Standing, qs: seq<Request>, k: nat)
    requires k <= |qs| && StandingAfter(start, qs[..k]) == Stranded
    ensures StandingAfter(start, qs) == Stranded
    decreases |qs|
  {
    if k < |qs| {
      assert qs[..|qs| - 1][..k] == qs[..k];
      StrandedStays(start, qs[..|qs| - 1], k);
    } else {
      assert qs[..k] == qs;
    }
  }

  /** One accepted reply without an ETag, on a handle that held one, is the end: no later change of that handle reaches
      the remote, although no other client has touched the file. */
  lemma {:induction false} StrandedForGood(h: Handle, r: Remote, qs: seq<Request>, k: nat)
    requires h.Consistent() && h.valid && k <= |qs| && StandingAfter(StandingOf(h, r), qs[..k]) == Stranded
    ensures Run(h, r, qs).1 == Run(h, r, qs[..k]).1
    decreases |qs|
  {
    if k < |qs| {
      var before := qs[..|qs| - 1];
      assert before[..k] == qs[..k];
      StrandedForGood(h, r, before, k);
      StrandedStays(StandingOf(h, r), before, k);
      AcknowledgedExactly(h, r, qs);
      WarmRun(h, r, before);
      NextCall(h, r, qs);
    } else {
      assert qs[..k] == qs;
    }
  }
}
