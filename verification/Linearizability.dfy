/** The cache over all interleavings: the handle is the simple file, its requests taking effect one after the other
    in the order in which they are patched in under the mutex. */
module Linearizability {
  import opened Bytes
  import opened Paging
  import opened Handler
  import opened Options
  import opened Protocol
  import opened Locking

  /** Halfway through a change of the cache, where cache and size or log need not agree. */
  predicate Midway(pc: Pc) {
    pc.CopyingIn? || pc.Sizing? || pc.InstallSizing?
  }

  ghost predicate Settled(s: State) {
    forall i | 0 <= i < |s.ws| :: !Midway(s.ws[i].pc)
  }

  /** Outside the three halfway points the cache is exactly the file in the log, and its size is known. */
  ghost predicate Agrees(h: Handle, log: seq<Event>) {
    h.Content() == Replay(log) && h.size == |h.Content()|
  }

  /** What is true of the cache while a worker is at `me`. */
  ghost predicate MidwayAgrees(h: Handle, log: seq<Event>, me: Worker) {
    match me.pc
    case CopyingIn =>
      && h.Content() == Grow(Replay(log), me.call.End()) && h.size == |h.Content()|
      && (h.cache.Some? || me.call.End() == 0)
    case Sizing => h.cache.Some? && h.Content() == Resize(Replay(log), me.call.length)
    case InstallSizing(x) => h.Warm() && h.Content() == Replay(log) == Origin(log) == x.Content()
    case _ => true
  }

  ghost predicate CacheInv(s: State) {
    && (s.h.valid ==> s.h.cache.Some?)
    && (forall i | 0 <= i < |s.ws| :: MidwayAgrees(s.h, s.log, s.ws[i]))
    && (Settled(s) ==> Agrees(s.h, s.log))
  }

  /** A step that leaves cache, size and file alone, and is not at a halfway point, keeps the invariant. */
  lemma CacheFrame(s: State, s': State, w: nat)
    requires CacheInv(s) && w < |s.ws| && w < |s'.ws|
    requires s'.h == s.h && Replay(s'.log) == Replay(s.log) && Origin(s'.log) == Origin(s.log)
    requires s'.ws == s.ws[w := s'.ws[w]]
    requires !Midway(s.ws[w].pc) && !Midway(s'.ws[w].pc)
    ensures CacheInv(s')
  {
    forall i | 0 <= i < |s'.ws| ensures MidwayAgrees(s'.h, s'.log, s'.ws[i]) {
      assert MidwayAgrees(s.h, s.log, s.ws[i]);
    }
    if Settled(s') {
      forall i | 0 <= i < |s.ws| ensures !Midway(s.ws[i].pc) {
        assert !Midway(s'.ws[i].pc);
      }
    }
  }

  /** A worker that is alone with the cache re-establishes the invariant by itself. */
  lemma CacheSole(s: State, w: nat)
    requires w < |s.ws| && forall i | 0 <= i < |s.ws| && i != w :: !Midway(s.ws[i].pc)
    requires s.h.valid ==> s.h.cache.Some?
    requires MidwayAgrees(s.h, s.log, s.ws[w])
    requires Midway(s.ws[w].pc) || Agrees(s.h, s.log)
    ensures CacheInv(s)
  {
  }

  /** A write section changes the cache as its request says: first room, then the bytes. */
  lemma PatchMeetsLog(h: Handle, log: seq<Event>, w: nat, call: Call)
    requires call.WriteAt? && MidwayAgrees(h, log, AnyWorker(call, CopyingIn))
    ensures Agrees(CopyIn(h, call.off, call.b), log + [Applied(w, Write(call.off, call.b))])
    ensures CopyIn(h, call.off, call.b).cache.Some? <==> h.cache.Some?
  {
    var file, m := Replay(log), Write(call.off, call.b);
    assert Replay(log + [Applied(w, m)]) == Apply(file, m) by { LogSnoc(log, Applied(w, m)); }
    if h.cache.None? {
      assert CopyIn(h, call.off, call.b) == h;
      assert call.off == 0 && call.b == [] && file == [];
      assert Apply(file, m) == [];
    } else {
      assert CopyIn(h, call.off, call.b).Content() == Overwrite(h.cache.value, call.off, call.b);
    }
  }

  /** Whoever has the mutex finds the cache as it left it: its slice expressions are in range, and a write has made room
      for all of its bytes. */
  lemma InRange(s: State, w: nat)
    requires Balanced(s) && CacheInv(s) && w < |s.ws|
    ensures !OutOfRange(s, w)
    ensures s.ws[w].pc.CopyingIn? ==> s.ws[w].call.End() <= |s.h.Content()|
  {
    Exclusion(s);
    assert MidwayAgrees(s.h, s.log, s.ws[w]);
    if s.ws[w].pc.CopyingOut? || s.ws[w].pc.Putting? {
      assert Settled(s);
    }
  }

  lemma WriteKeepsCache(s: State, w: nat)
    requires Balanced(s) && CacheInv(s) && w < |s.ws| && (s.ws[w].pc.Growing? || s.ws[w].pc.CopyingIn?)
    ensures !OutOfRange(s, w) && CacheInv(StepWrite(s, w))
  {
    Exclusion(s);
    InRange(s, w);
    assert MidwayAgrees(s.h, s.log, s.ws[w]);
    if s.ws[w].pc.CopyingIn? {
      PatchMeetsLog(s.h, s.log, w, s.ws[w].call);
    } else {
      assert Settled(s);
    }
    CacheSole(StepWrite(s, w), w);
  }

  lemma TruncateKeepsCache(s: State, w: nat)
    requires Balanced(s) && CacheInv(s) && w < |s.ws| && (s.ws[w].pc.Resizing? || s.ws[w].pc.Sizing?)
    ensures CacheInv(StepTruncate(s, w))
  {
    Exclusion(s);
    assert MidwayAgrees(s.h, s.log, s.ws[w]);
    if s.ws[w].pc.Sizing? {
      LogSnoc(s.log, Applied(w, SetLength(s.ws[w].call.length)));
    } else {
      assert Settled(s);
    }
    CacheSole(StepTruncate(s, w), w);
  }

  /** An upload does not touch the cache, whatever else it does. */
  lemma UploadLeavesCache(s: State, s': State, w: nat)
    requires Balanced(s) && CacheInv(s) && w < |s.ws| && s.ws[w].pc.Putting?
    requires w < |s'.ws| && s'.ws == s.ws[w := s'.ws[w]] && s'.ws[w].pc.Releasing?
    requires s'.h.cache == s.h.cache && s'.h.valid == s.h.valid && s'.h.size == s.h.size
    requires Replay(s'.log) == Replay(s.log)
    ensures CacheInv(s')
  {
    Exclusion(s);
    assert Settled(s);
    CacheSole(s', w);
  }

  lemma SavingKeepsFile(log: seq<Event>, e: Event)
    requires e.Saved?
    ensures Replay(log + [e]) == Replay(log)
  {
    LogSnoc(log, e);
  }

  lemma PutKeepsCache(s: State, w: nat, reply: Reply)
    requires Balanced(s) && CacheInv(s) && w < |s.ws| && s.ws[w].pc.Putting? && !OutOfRange(s, w)
    ensures CacheInv(StepUpload(s, w, reply))
  {
    SavingKeepsFile(s.log, Saved(w, |s.r|, s.ws[w].pc.ifMatch));
    UploadLeavesCache(s, StepUpload(s, w, reply), w);
  }

  lemma InstallKeepsCache(s: State, w: nat, reply: Reply)
    requires Balanced(s) && CacheInv(s) && w < |s.ws| && (s.ws[w].pc.Installing? || s.ws[w].pc.InstallSizing?)
    ensures CacheInv(StepDownload(s, w, reply))
  {
    Exclusion(s);
    assert MidwayAgrees(s.h, s.log, s.ws[w]);
    if s.ws[w].pc.Installing? {
      LogSnoc(s.log, Installed(w, s.ws[w].pc.x));
    }
    CacheSole(StepDownload(s, w, reply), w);
  }

  predicate ChangesCache(pc: Pc) {
    || pc.Growing? || pc.CopyingIn? || pc.Resizing? || pc.Sizing?
    || pc.Putting? || pc.Installing? || pc.InstallSizing?
  }

  lemma QuietStepKeepsCache(s: State, a: Action)
    requires Balanced(s) && CacheInv(s) && Enabled(s, a) && a.Step? && !ChangesCache(s.ws[a.w].pc)
    ensures CacheInv(Do(s, a))
  {
    var call := s.ws[a.w].call;
    InRange(s, a.w);
    if s.ws[a.w].pc.CopyingOut? {
      LogSnoc(s.log, Read(a.w, call.off, call.n, ReadCache(s.h, call.off, call.n)));
    }
    CacheFrame(s, Do(s, a), a.w);
  }

  lemma StepKeepsCache(s: State, a: Action)
    requires Balanced(s) && CacheInv(s) && Enabled(s, a)
    ensures CacheInv(Do(s, a))
  {
    if a.Start? {
      CacheFrame(s, Do(s, a), a.w);
    } else if a.Step? {
      var pc := s.ws[a.w].pc;
      if pc.Growing? || pc.CopyingIn? {
        WriteKeepsCache(s, a.w);
      } else if pc.Resizing? || pc.Sizing? {
        TruncateKeepsCache(s, a.w);
      } else if pc.Putting? {
        InRange(s, a.w);
        PutKeepsCache(s, a.w, a.reply);
      } else if pc.Installing? || pc.InstallSizing? {
        InstallKeepsCache(s, a.w, a.reply);
      } else {
        QuietStepKeepsCache(s, a);
      }
    }
  }

  // ----- the log -----

  /** Each read returned the simple file's answer at the moment it copied, and each accepted upload published
      the whole file of that moment. */
  ghost predicate EventOk(r: Remote, file: seq<byte>, e: Event) {
    match e
    case Read(_, off, n, page) => page == Pread(file, off, n)
    case Saved(_, version, _) => 0 < version < |r| && r[version] == Some(file)
    case _ => true
  }

  ghost predicate LogInv(s: State) {
    forall i {:trigger s.log[..i]} | 0 <= i < |s.log| :: EventOk(s.r, Replay(s.log[..i]), s.log[i])
  }

  lemma LogGrows(s: State, s': State, e: Event)
    requires LogInv(s) && s'.log == s.log + [e] && |s.r| <= |s'.r| && s'.r[..|s.r|] == s.r
    requires EventOk(s'.r, Replay(s.log), e)
    ensures LogInv(s')
  {
    forall i | 0 <= i < |s'.log| ensures EventOk(s'.r, Replay(s'.log[..i]), s'.log[i]) {
      if i < |s.log| {
        assert s'.log[..i] == s.log[..i];
        assert EventOk(s.r, Replay(s.log[..i]), s.log[i]);
        RemoteGrows(s.r, s'.r, Replay(s.log[..i]), s.log[i]);
      } else {
        assert s'.log[..i] == s.log;
      }
    }
  }

  lemma RemoteGrows(r: Remote, r': Remote, file: seq<byte>, e: Event)
    requires EventOk(r, file, e) && |r| <= |r'| && r'[..|r|] == r
    ensures EventOk(r', file, e)
  {
    if e.Saved? {
      assert r'[e.version] == r'[..|r|][e.version];
    }
  }

  lemma ReadIsLogged(s: State, w: nat)
    requires Balanced(s) && CacheInv(s) && LogInv(s) && w < |s.ws| && s.ws[w].pc.CopyingOut?
    ensures !OutOfRange(s, w) && LogInv(StepRead(s, w))
  {
    InRange(s, w);
    Exclusion(s);
    assert Settled(s) && Agrees(s.h, s.log);
    var call := s.ws[w].call;
    ReadCacheIsPread(s.h, call.off, call.n);
    LogGrows(s, StepRead(s, w), Read(w, call.off, call.n, ReadCache(s.h, call.off, call.n)));
  }

  lemma SaveIsLogged(s: State, w: nat, reply: Reply)
    requires Balanced(s) && CacheInv(s) && LogInv(s) && w < |s.ws| && s.ws[w].pc.Putting? && reply != Failed
    ensures !OutOfRange(s, w) && LogInv(StepUpload(s, w, reply))
  {
    InRange(s, w);
    Exclusion(s);
    assert Settled(s) && Agrees(s.h, s.log);
    BodyIsContent(s.h);
    LogGrows(s, StepUpload(s, w, reply), Saved(w, |s.r|, s.ws[w].pc.ifMatch));
  }

  lemma StepKeepsLog(s: State, a: Action)
    requires Balanced(s) && CacheInv(s) && LogInv(s) && Enabled(s, a)
    ensures LogInv(Do(s, a))
  {
    var s' := Do(s, a);
    if a.Step? && s.ws[a.w].pc.CopyingOut? {
      ReadIsLogged(s, a.w);
    } else if a.Step? && s.ws[a.w].pc.Putting? && a.reply != Failed {
      SaveIsLogged(s, a.w, a.reply);
    } else if s'.log != s.log {
      LogGrows(s, s', s'.log[|s.log|]);
    } else {
      forall i | 0 <= i < |s.log| ensures EventOk(s'.r, Replay(s'.log[..i]), s'.log[i]) {
        assert EventOk(s.r, Replay(s.log[..i]), s.log[i]);
        RemoteGrows(s.r, s'.r, Replay(s.log[..i]), s.log[i]);
      }
    }
  }

  // ----- whole runs -----

  /** What every run keeps, from any state that has it. */
  ghost predicate Sound(s: State) {
    Balanced(s) && NobodyFails(s) && CacheInv(s) && LogInv(s) && !s.panicked
  }

  lemma StepDoesNotPanic(s: State, a: Action)
    requires Balanced(s) && CacheInv(s) && Enabled(s, a) && !s.panicked
    ensures !Do(s, a).panicked
  {
    if a.Step? {
      InRange(s, a.w);
    }
  }

  lemma OpenedIsSound(n: nat, r: Remote)
    ensures Sound(Opened(n, r))
  {
    NobodyHolds(Opened(n, r).ws, true);
    NobodyHolds(Opened(n, r).ws, false);
  }

  lemma {:induction false} AlwaysSound(k: Rely, s: State, acts: seq<Action>)
    requires Sound(s) && Legal(k, s, acts) && k.truncateDownloadsSucceed
    ensures Sound(Exec(s, acts))
    decreases |acts|
  {
    if acts != [] {
      var before, last := acts[..|acts| - 1], acts[|acts| - 1];
      AlwaysSound(k, s, before);
      StepKeepsBalance(k, Exec(s, before), last);
      StepKeepsCache(Exec(s, before), last);
      StepKeepsLog(Exec(s, before), last);
      StepDoesNotPanic(Exec(s, before), last);
    }
  }

  /** A warm handle with no download in flight. */
  ghost predicate WarmAndQuiet(s: State) {
    s.h.Warm() && forall i | 0 <= i < |s.ws| :: !s.ws[i].pc.Downloading()
  }

  /** What a step of worker `w` keeps of that. */
  ghost predicate KeepsWarm(s: State, s': State, w: nat) {
    && s'.h.Warm() && w < |s.ws| && w < |s'.ws| && s'.ws == s.ws[w := s'.ws[w]] && !s'.ws[w].pc.Downloading()
    && (s'.ws[w].pc.FailingUnlock? ==> s.ws[w].pc.FailingUnlock?)
    && s.log <= s'.log && (s.log < s'.log ==> !s'.log[|s.log|].Installed?)
  }

  lemma SectionKeepsWarm(s: State, w: nat)
    requires WarmAndQuiet(s) && w < |s.ws| && !OutOfRange(s, w)
    ensures s.ws[w].pc.Writing() ==> KeepsWarm(s, StepWrite(s, w), w)
    ensures s.ws[w].pc.Truncating() ==> KeepsWarm(s, StepTruncate(s, w), w)
  {
  }

  lemma UploadKeepsWarm(s: State, w: nat, reply: Reply)
    requires WarmAndQuiet(s) && w < |s.ws| && !OutOfRange(s, w)
    ensures s.ws[w].pc.Uploading() ==> KeepsWarm(s, StepUpload(s, w, reply), w)
    ensures s.ws[w].pc.Reading() ==> KeepsWarm(s, StepRead(s, w), w)
  {
  }

  lemma StepStaysWarm(s: State, a: Action)
    requires WarmAndQuiet(s) && Enabled(s, a)
    ensures WarmAndQuiet(Do(s, a)) && (NobodyFails(s) ==> NobodyFails(Do(s, a)))
    ensures s.log <= Do(s, a).log && (s.log < Do(s, a).log ==> !Do(s, a).log[|s.log|].Installed?)
  {
    if !a.Other? {
      var s' := Do(s, a);
      assert KeepsWarm(s, s', a.w) by {
        if a.Step? && !OutOfRange(s, a.w) {
          SectionKeepsWarm(s, a.w);
          UploadKeepsWarm(s, a.w, a.reply);
        }
      }
      forall i | 0 <= i < |s.ws|
        ensures !s'.ws[i].pc.Downloading() && (NobodyFails(s) ==> !s'.ws[i].pc.FailingUnlock?)
      {
        assert !s.ws[i].pc.Downloading();
      }
    }
  }

  // ----- the order of requests -----

  /** The requests in a stretch of the log. */
  function Requests(log: seq<Event>): seq<Mutation> {
    if log == [] then []
    else
      var before := Requests(log[..|log| - 1]);
      if log[|log| - 1].Applied? then before + [log[|log| - 1].m] else before
  }

  ghost predicate NoInstalls(log: seq<Event>) {
    forall i | 0 <= i < |log| :: !log[i].Installed?
  }

  /** As long as no download replaces the cache, the file is the earlier file with the later requests applied to it. */
  lemma {:induction false} ReplayStretch(before: seq<Event>, later: seq<Event>)
    requires NoInstalls(later)
    ensures Replay(before + later) == Fold(Replay(before), Requests(later))
    decreases |later|
  {
    if later == [] {
      assert before + later == before;
    } else {
      var rest, last := later[..|later| - 1], later[|later| - 1];
      ReplayStretch(before, rest);
      assert Replay(before + later) == Effect(Replay(before + rest), last) by {
        LastOfConcat(before, later);
      }
      assert !last.Installed?;
      if last.Applied? {
        FoldSnoc(Replay(before), Requests(rest), last.m);
      }
    }
  }

  datatype Entry = Entry(w: nat, m: Mutation)

  /** The request whose write section an action begins, if it does. */
  function Acquires(s: State, a: Action): seq<Entry>
    requires Enabled(s, a)
  {
    if a.Step? && BeginsSection(s, a.w) then [Entry(a.w, s.ws[a.w].call.Mutations()[0])] else []
  }

  /** The requests in the order in which their workers acquired the mutex for their write section. */
  function Acquired(s: State, acts: seq<Action>): seq<Entry>
    requires Legal(ANYTHING, s, acts)
  {
    if acts == [] then []
    else Acquired(s, acts[..|acts| - 1]) + Acquires(Exec(s, acts[..|acts| - 1]), acts[|acts| - 1])
  }

  /** The requests in the order in which they took effect. */
  function Effective(log: seq<Event>): seq<Entry> {
    if log == [] then []
    else
      var before, e := Effective(log[..|log| - 1]), log[|log| - 1];
      if e.Applied? then before + [Entry(e.w, e.m)] else before
  }

  predicate Unpatched(pc: Pc) {
    pc.Growing? || pc.CopyingIn? || pc.Resizing? || pc.Sizing?
  }

  /** `effective` is `acquired`, up to the one request that may be halfway through its section. */
  ghost predicate InOrder(ws: seq<Worker>, acquired: seq<Entry>, effective: seq<Entry>) {
    || (acquired == effective && forall i | 0 <= i < |ws| :: !Unpatched(ws[i].pc))
    || (exists i | 0 <= i < |ws| :: Unpatched(ws[i].pc) && acquired == effective + [EntryOf(ws, i)])
  }

  function EntryOf(ws: seq<Worker>, i: nat): Entry
    requires i < |ws| && Unpatched(ws[i].pc)
  {
    Entry(i, ws[i].call.Mutations()[0])
  }

  /** How a step of worker `w` moves it through its section and the log: it begins a section, stays in it,
      takes effect at the end of it, or has nothing to do with it. */
  ghost predicate MovesEntry(s: State, s': State, w: nat) {
    && w < |s.ws| && w < |s'.ws| && s'.ws == s.ws[w := s'.ws[w]] && s'.ws[w].call == s.ws[w].call
    && var pc, pc' := s.ws[w].pc, s'.ws[w].pc;
       if BeginsSection(s, w) then
         Unpatched(pc') && !Unpatched(pc) && (s.mu.Free() || pc.HoldsWrite()) && Effective(s'.log) == Effective(s.log)
       else if Unpatched(pc) then
         Effective(s'.log) == Effective(s.log) + if Unpatched(pc') then [] else [EntryOf(s.ws, w)]
       else !Unpatched(pc') && Effective(s'.log) == Effective(s.log)
  }

  lemma EffectiveSnoc(log: seq<Event>, e: Event)
    ensures Effective(log + [e]) == Effective(log) + if e.Applied? then [Entry(e.w, e.m)] else []
  {
    assert (log + [e])[..|log|] == log;
  }

  lemma WriteMovesEntry(s: State, w: nat)
    requires Enabled(s, Step(w, Granted)) && s.ws[w].pc.Writing() && !OutOfRange(s, w)
    requires s.ws[w].pc.CopyingIn? ==> s.ws[w].call.End() <= |s.h.Content()|
    ensures MovesEntry(s, StepWrite(s, w), w)
  {
    if s.ws[w].pc.CopyingIn? {
      EffectiveSnoc(s.log, Applied(w, Write(s.ws[w].call.off, s.ws[w].call.b)));
    }
  }

  lemma TruncateMovesEntry(s: State, w: nat)
    requires Enabled(s, Step(w, Granted)) && s.ws[w].pc.Truncating()
    ensures MovesEntry(s, StepTruncate(s, w), w)
  {
    if s.ws[w].pc.Sizing? {
      EffectiveSnoc(s.log, Applied(w, SetLength(s.ws[w].call.length)));
    }
  }

  lemma AsideMovesEntry(s: State, s': State, w: nat)
    requires w < |s.ws| && w < |s'.ws| && s'.ws == s.ws[w := s'.ws[w]] && s'.ws[w].call == s.ws[w].call
    requires !Unpatched(s.ws[w].pc) && !Unpatched(s'.ws[w].pc) && !BeginsSection(s, w)
    requires s'.log == s.log || exists e :: s'.log == s.log + [e] && !e.Applied?
    ensures MovesEntry(s, s', w)
  {
    if s'.log != s.log {
      var e :| s'.log == s.log + [e] && !e.Applied?;
      EffectiveSnoc(s.log, e);
    }
  }

  lemma StepMovesEntry(s: State, w: nat, reply: Reply)
    requires Enabled(s, Step(w, reply)) && !OutOfRange(s, w)
    requires s.ws[w].pc.CopyingIn? ==> s.ws[w].call.End() <= |s.h.Content()|
    ensures MovesEntry(s, Advance(s, w, reply), w)
  {
    var pc := s.ws[w].pc;
    if pc.Downloading() {
      AsideMovesEntry(s, StepDownload(s, w, reply), w);
    } else if pc.Uploading() {
      AsideMovesEntry(s, StepUpload(s, w, reply), w);
    } else if pc.Reading() {
      AsideMovesEntry(s, StepRead(s, w), w);
    } else if pc.Writing() {
      WriteMovesEntry(s, w);
    } else {
      TruncateMovesEntry(s, w);
    }
  }

  lemma OrderAcross(s: State, s': State, w: nat, acquired: seq<Entry>)
    requires Balanced(s) && MovesEntry(s, s', w) && InOrder(s.ws, acquired, Effective(s.log))
    ensures InOrder(s'.ws, acquired + if BeginsSection(s, w) then [EntryOf(s'.ws, w)] else [], Effective(s'.log))
  {
    Exclusion(s);
    if BeginsSection(s, w) {
      assert Unpatched(s'.ws[w].pc);
    } else if Unpatched(s.ws[w].pc) {
      assert acquired == Effective(s.log) + [EntryOf(s.ws, w)];
      if Unpatched(s'.ws[w].pc) {
        assert acquired == Effective(s'.log) + [EntryOf(s'.ws, w)];
      }
    } else {
      OthersInOrder(s.ws, s'.ws, w, acquired, Effective(s.log));
    }
    assert acquired + [] == acquired;
  }

  lemma StepInOrder(s: State, a: Action, acquired: seq<Entry>)
    requires Balanced(s) && CacheInv(s) && Enabled(s, a) && InOrder(s.ws, acquired, Effective(s.log))
    ensures InOrder(Do(s, a).ws, acquired + Acquires(s, a), Effective(Do(s, a).log))
  {
    assert acquired + [] == acquired;
    if a.Step? {
      InRange(s, a.w);
      StepMovesEntry(s, a.w, a.reply);
      OrderAcross(s, Advance(s, a.w, a.reply), a.w, acquired);
    } else if a.Start? {
      OthersInOrder(s.ws, Do(s, a).ws, a.w, acquired, Effective(s.log));
    }
  }

  lemma OthersInOrder(ws: seq<Worker>, ws': seq<Worker>, w: nat, acquired: seq<Entry>,
                      effective: seq<Entry>)
    requires w < |ws| && w < |ws'| && ws' == ws[w := ws'[w]] && !Unpatched(ws[w].pc) && !Unpatched(ws'[w].pc)
    requires InOrder(ws, acquired, effective)
    ensures InOrder(ws', acquired, effective)
  {
    if i :| 0 <= i < |ws| && Unpatched(ws[i].pc) && acquired == effective + [EntryOf(ws, i)] {
      assert ws'[i] == ws[i];
    } else {
      forall i | 0 <= i < |ws'| ensures !Unpatched(ws'[i].pc) {
        assert !Unpatched(ws[i].pc);
      }
    }
  }

  // ----- the theorem -----

  /** What a run from the warm state `s` to `s'` did: no download, and every request and read on the one simple file. */
  ghost predicate Linearized(s: State, s': State) {
    && s.log <= s'.log && NoInstalls(s'.log[|s.log|..]) && WarmAndQuiet(s')
    && (Settled(s') ==>
          s'.h.Content() == Fold(Replay(s.log), Requests(s'.log[|s.log|..])) && s'.h.size == |s'.h.Content()|)
    && forall i | |s.log| <= i < |s'.log| ::
         EventOk(s'.r, Fold(Replay(s.log), Requests(s'.log[|s.log|..i])), s'.log[i])
  }

  lemma NoInstallsLater(first: seq<Event>, mid: seq<Event>, last: seq<Event>)
    requires first <= mid <= last && |last| <= |mid| + 1 && NoInstalls(mid[|first|..])
    requires mid < last ==> !last[|mid|].Installed?
    ensures NoInstalls(last[|first|..])
  {
    forall i | 0 <= i < |last[|first|..]| ensures !last[|first|..][i].Installed? {
      if i < |mid| - |first| { assert last[|first|..][i] == mid[|first|..][i]; }
    }
  }

  lemma {:induction false} WarmRun(s: State, acts: seq<Action>)
    requires Sound(s) && WarmAndQuiet(s) && Legal(ANYTHING, s, acts)
    ensures var s' := Exec(s, acts);
            Sound(s') && WarmAndQuiet(s') && s.log <= s'.log && NoInstalls(s'.log[|s.log|..])
    decreases |acts|
  {
    if acts != [] {
      var before, last := Exec(s, acts[..|acts| - 1]), acts[|acts| - 1];
      WarmRun(s, acts[..|acts| - 1]);
      LockBalance(before, last);
      StepStaysWarm(before, last);
      StepKeepsCache(before, last);
      StepKeepsLog(before, last);
      StepDoesNotPanic(before, last);
      NoInstallsLater(s.log, before.log, Do(before, last).log);
    }
  }

  lemma {:induction false} WarmOrder(s: State, acts: seq<Action>)
    requires Sound(s) && WarmAndQuiet(s) && Legal(ANYTHING, s, acts)
    requires forall i | 0 <= i < |s.ws| :: !Unpatched(s.ws[i].pc)
    ensures InOrder(Exec(s, acts).ws, Effective(s.log) + Acquired(s, acts), Effective(Exec(s, acts).log))
    decreases |acts|
  {
    if acts == [] {
      assert Effective(s.log) + [] == Effective(s.log);
    } else {
      var prefix, last := acts[..|acts| - 1], acts[|acts| - 1];
      var before, soFar := Exec(s, prefix), Effective(s.log) + Acquired(s, prefix);
      assert InOrder(Do(before, last).ws, soFar + Acquires(before, last), Effective(Do(before, last).log)) by {
        WarmOrder(s, prefix);
        WarmRun(s, prefix);
        StepInOrder(before, last, soFar);
      }
      assert Effective(s.log) + Acquired(s, acts) == soFar + Acquires(before, last);
    }
  }

  lemma {:induction false} StretchIsFold(early: seq<Event>, log: seq<Event>, i: nat)
    requires early <= log && NoInstalls(log[|early|..]) && |early| <= i <= |log|
    ensures Replay(log[..i]) == Fold(Replay(early), Requests(log[|early|..i]))
  {
    var stretch := log[|early|..i];
    forall j | 0 <= j < |stretch| ensures !stretch[j].Installed? {
      assert stretch[j] == log[|early|..][j];
    }
    assert early + stretch == log[..i];
    ReplayStretch(early, stretch);
  }

  lemma EventOnTheFile(s: State, s': State, i: nat)
    requires LogInv(s') && s.log <= s'.log && NoInstalls(s'.log[|s.log|..]) && |s.log| <= i < |s'.log|
    ensures EventOk(s'.r, Fold(Replay(s.log), Requests(s'.log[|s.log|..i])), s'.log[i])
  {
    StretchIsFold(s.log, s'.log, i);
  }

  lemma BetweenIsLinear(s: State, s': State)
    requires Sound(s') && WarmAndQuiet(s') && s.log <= s'.log && NoInstalls(s'.log[|s.log|..])
    ensures Linearized(s, s')
  {
    assert Replay(s'.log) == Fold(Replay(s.log), Requests(s'.log[|s.log|..])) by {
      assert s.log + s'.log[|s.log|..] == s'.log;
      ReplayStretch(s.log, s'.log[|s.log|..]);
    }
    forall i | |s.log| <= i < |s'.log|
      ensures EventOk(s'.r, Fold(Replay(s.log), Requests(s'.log[|s.log|..i])), s'.log[i])
    {
      EventOnTheFile(s, s', i);
    }
  }

  /** A warm handle is linearizable: in every interleaving of any number of workers, with other clients and failing
      uploads, no download ever starts again; the cache is the simple file with the requests applied in the order in
      which their workers acquired the mutex; every read returned a slice of that file at the moment it copied; and
      every accepted upload published all of it. */
  lemma {:induction false} WarmHandleIsLinearizable(s: State, acts: seq<Action>)
    requires Sound(s) && WarmAndQuiet(s) && Legal(ANYTHING, s, acts)
    ensures Linearized(s, Exec(s, acts))
    ensures (forall i | 0 <= i < |s.ws| :: !Unpatched(s.ws[i].pc)) ==>
              InOrder(Exec(s, acts).ws, Effective(s.log) + Acquired(s, acts), Effective(Exec(s, acts).log))
  {
    WarmRun(s, acts);
    BetweenIsLinear(s, Exec(s, acts));
    if forall i | 0 <= i < |s.ws| :: !Unpatched(s.ws[i].pc) {
      WarmOrder(s, acts);
    }
  }

  /** What happened between two states of a run. */
  function Since(s: State, s': State): seq<Event> {
    if |s.log| <= |s'.log| then s'.log[|s.log|..] else []
  }

  /** Reordering freedom under concurrency: however the workers interleave, two runs from the same warm state that
      applied the same writes, which agree wherever they overlap, end with the same cache. */
  lemma {:induction false} AnyInterleavingSameFile(s: State, one: seq<Action>, two: seq<Action>)
    requires Sound(s) && WarmAndQuiet(s) && Legal(ANYTHING, s, one) && Legal(ANYTHING, s, two)
    requires Settled(Exec(s, one)) && Settled(Exec(s, two))
    requires var ws := Requests(Since(s, Exec(s, one)));
             AllWrites(ws) && Compatible(ws) && multiset(Requests(Since(s, Exec(s, two)))) == multiset(ws)
    ensures Exec(s, one).h.Content() == Exec(s, two).h.Content() && Exec(s, one).h.size == Exec(s, two).h.size
  {
    var ws, ps := Requests(Since(s, Exec(s, one))), Requests(Since(s, Exec(s, two)));
    assert Fold(Replay(s.log), ps) == Fold(Replay(s.log), ws) by {
      SameElements(ps, ws);
      SameFile(Replay(s.log), ps, ws);
    }
    WarmHandleIsLinearizable(s, one);
    WarmHandleIsLinearizable(s, two);
  }

  // ----- sizes and bounds -----

  /** With no write section or install under way the size is the length of the cache and a valid cache is not nil;
      and wherever a worker is, the slice expression it is about to evaluate is in range. */
  lemma SizesAndBounds(s: State)
    requires Sound(s)
    ensures (forall i | 0 <= i < |s.ws| :: !s.ws[i].pc.HoldsWrite()) ==> s.h.Consistent()
    ensures forall i | 0 <= i < |s.ws| ::
              var me := s.ws[i];
              && (me.pc.CopyingOut? && me.call.off < s.h.size ==> me.call.off <= |s.h.Content()|)
              && (me.pc.CopyingIn? ==> me.call.End() <= |s.h.Content()|)
              && (me.pc.Initiating? || me.pc.Putting? ==> s.h.size == |s.h.Content()|)
  {
    Exclusion(s);
    forall i | 0 <= i < |s.ws| && (s.ws[i].pc.CopyingOut? || s.ws[i].pc.Initiating? || s.ws[i].pc.Putting?)
      ensures Settled(s)
    {
    }
    forall i | 0 <= i < |s.ws| ensures s.ws[i].pc.CopyingIn? ==> s.ws[i].call.End() <= |s.h.Content()| {
      assert MidwayAgrees(s.h, s.log, s.ws[i]);
    }
  }
}
