/** Remove and rmdir while other sessions change the same space between the gateway calls. */
module Interference {
  import opened Options
  import opened Bytes
  import opened Gateway
  import opened Spaces
  import opened Namespace

  datatype Task = Removing | RemovingDir

  /** The gateway call that comes next. */
  datatype Pc = Statting | Listing | Deleting | Finished(err: Err)

  /** The tree of the space, where the command is, and what its Delete has destroyed. */
  datatype State = State(t: Tree, pc: Pc, gone: Tree)

  /** The command's next gateway call, or any change by other sessions. */
  datatype Action = Own(a: Answer) | Others(t: Tree)

  function Next(task: Task, p: Path, s: State, act: Action): State {
    match act
    case Others(t) => s.(t := t)
    case Own(a) =>
      match s.pc
      case Finished(_) => s
      case Statting =>
        var stat := StatWith(s.t, p, a);
        s.(pc := if stat.StatFailed? then Finished(OTHER)
                 else if stat.StatNotFound? then Finished(NOT_EXIST)
                 else if task == Removing then (if stat.node.Dir? then Finished(INVALID) else Deleting)
                 else if stat.node.Dir? then Listing else Finished(NOT_DIRECTORY))
      case Listing =>
        // Only a directory can be listed.
        s.(pc := if a == Broken || p !in s.t || !s.t[p].Dir? then Finished(OTHER)
                 else if Children(s.t, p) != {} then Finished(NOT_EMPTY)
                 else Deleting)
      case Deleting =>
        if a == Broken then s.(pc := Finished(OTHER))
        else
          var (t, code) := Delete(s.t, p);
          if code == OK then State(t, Finished(NIL), Restricted(s.t, p))
          else s.(pc := Finished(if code == NOT_FOUND then NOT_EXIST else OTHER))
  }

  function Run(task: Task, p: Path, s: State, acts: seq<Action>): State {
    if acts == [] then s else Next(task, p, Run(task, p, s, acts[..|acts| - 1]), acts[|acts| - 1])
  }

  /** Others keep the tree well formed and, between the command's last check and its Delete, leave the target and what
      is below it alone; before that they may do anything. */
  ghost predicate Courteous(p: Path, s: State, act: Action) {
    act.Others? ==> WellFormed(act.t) && (s.pc.Deleting? ==> Restricted(act.t, p) == Restricted(s.t, p))
  }

  ghost predicate AllCourteous(task: Task, p: Path, s: State, acts: seq<Action>) {
    acts == [] ||
    (AllCourteous(task, p, s, acts[..|acts| - 1])
     && Courteous(p, Run(task, p, s, acts[..|acts| - 1]), acts[|acts| - 1]))
  }

  /** What the command was meant to take: one non-directory, or one empty directory. */
  ghost predicate Meant(task: Task, p: Path, taken: Tree) {
    if task == RemovingDir then taken == map[p := Dir]
    else p in taken && taken[p].File? && taken == map[p := taken[p]]
  }

  /** A Delete takes exactly what was meant if and only if the target is, at that moment, still what was checked. */
  lemma DeleteTakesWhatWasMeant(task: Task, p: Path, t: Tree)
    requires WellFormed(t) && p in t
    ensures Meant(task, p, Restricted(t, p)) <==>
            if task == RemovingDir then t[p].Dir? && Children(t, p) == {} else t[p].File?
  {
    var taken := Restricted(t, p);
    if t[p].File? {
      DeleteFile(t, p, []);
      TakenFromSubtree(t, p);
    } else if Children(t, p) == {} {
      DeleteEmptyDir(t, p, []);
      TakenFromSubtree(t, p);
    } else {
      var n :| n in Children(t, p);
      var q :| q in t && q != [] && Parent(q) == p && q[|q| - 1] == n;
      assert q in taken && q != p;
    }
  }

  lemma TakenFromSubtree(t: Tree, p: Path)
    requires p in t && Subtree(t, p) == {p}
    ensures Restricted(t, p) == map[p := t[p]]
  {
    forall q | q in Restricted(t, p) ensures q == p {
      assert q in Subtree(t, p);
    }
  }

  ghost predicate Invariant(task: Task, p: Path, s: State) {
    && WellFormed(s.t) && (s.pc.Listing? ==> task == RemovingDir)
    && (s.pc.Deleting? ==> p in s.t && Meant(task, p, Restricted(s.t, p)) && s.gone == map[])
    && (s.gone != map[] ==> s.pc == Finished(NIL) && Meant(task, p, s.gone))
  }

  lemma OthersKeepInvariant(task: Task, p: Path, s: State, t: Tree)
    requires Invariant(task, p, s) && WellFormed(t) && (s.pc.Deleting? ==> Restricted(t, p) == Restricted(s.t, p))
    ensures Invariant(task, p, s.(t := t))
  {
    if s.pc.Deleting? {
      assert p in Restricted(s.t, p);
      assert p in Restricted(t, p);
    }
  }

  lemma StepKeepsInvariant(task: Task, p: Path, s: State, act: Action)
    requires Invariant(task, p, s) && Courteous(p, s, act)
    ensures Invariant(task, p, Next(task, p, s, act))
  {
    if act.Others? {
      OthersKeepInvariant(task, p, s, act.t);
    } else {
      OwnStepKeepsInvariant(task, p, s, act.a);
    }
  }

  lemma OwnStepKeepsInvariant(task: Task, p: Path, s: State, a: Answer)
    requires Invariant(task, p, s)
    ensures Invariant(task, p, Next(task, p, s, Own(a)))
  {
    var s' := Next(task, p, s, Own(a));
    match s.pc
    case Finished(_) =>
    case Deleting => DeleteKeepsWellFormed(s.t, p);
    case _ =>
      if s'.pc.Deleting? {
        DeleteTakesWhatWasMeant(task, p, s.t);
      }
  }

  lemma {:induction false} RunKeepsInvariant(task: Task, p: Path, s: State, acts: seq<Action>)
    requires Invariant(task, p, s) && AllCourteous(task, p, s, acts)
    ensures Invariant(task, p, Run(task, p, s, acts))
    decreases |acts|
  {
    if acts != [] {
      RunKeepsInvariant(task, p, s, acts[..|acts| - 1]);
      StepKeepsInvariant(task, p, Run(task, p, s, acts[..|acts| - 1]), acts[|acts| - 1]);
    }
  }

  /** Check-then-act under interference: in every interleaving in which others leave the target and its descendants
      alone between the last check and the Delete, rmdir destroys nothing but an empty directory and remove nothing but
      a non-directory, although the storage's Delete is recursive. */
  lemma DeletesOnlyWhatWasChecked(task: Task, p: Path, t: Tree, acts: seq<Action>)
    requires WellFormed(t) && AllCourteous(task, p, State(t, Statting, map[]), acts)
    ensures var s := Run(task, p, State(t, Statting, map[]), acts);
            s.gone == map[] || (s.pc == Finished(NIL) && Meant(task, p, s.gone))
  {
    RunKeepsInvariant(task, p, State(t, Statting, map[]), acts);
  }

  // ----- without the hypothesis -----

  const EMPTY_DIR: Tree := map[[] := Dir, ["d"] := Dir]
  const FILLED_DIR: Tree := map[[] := Dir, ["d"] := Dir, ["d", "f"] := File([1])]
  const PLAIN_FILE: Tree := map[[] := Dir, ["d"] := File([])]

  lemma BothWellFormed()
    ensures WellFormed(EMPTY_DIR) && WellFormed(FILLED_DIR) && WellFormed(PLAIN_FILE)
  {
    assert Parent(["d"]) == [] && Parent(["d", "f"]) == ["d"];
  }

  lemma WhatIsThere()
    ensures Children(EMPTY_DIR, ["d"]) == {}
    ensures ["d", "f"] in Restricted(FILLED_DIR, ["d"]) && Delete(FILLED_DIR, ["d"]) == (map[[] := Dir], OK)
  {
    assert Parent(["d"]) == [];
    assert ["d"] <= ["d", "f"];
    assert Remaining(FILLED_DIR, ["d"]) == map[[] := Dir];
  }

  /** Another session creates a file in the directory after it was found empty, or puts a directory with a file where
      remove saw a file, and the file is lost with it. */
  lemma InterferenceLosesFile(task: Task)
    ensures var t := if task == Removing then PLAIN_FILE else EMPTY_DIR;
            var acts := if task == Removing then [Own(Answered), Others(FILLED_DIR), Own(Answered)]
                        else [Own(Answered), Own(Answered), Others(FILLED_DIR), Own(Answered)];
            && WellFormed(t) && WellFormed(FILLED_DIR)
            && Run(task, ["d"], State(t, Statting, map[]), acts) ==
               State(map[[] := Dir], Finished(NIL), Restricted(FILLED_DIR, ["d"]))
            && ["d", "f"] in Restricted(FILLED_DIR, ["d"])
  {
    BothWellFormed();
    WhatIsThere();
    if task == Removing {
      RunThree(task, ["d"], State(PLAIN_FILE, Statting, map[]), Own(Answered), Others(FILLED_DIR), Own(Answered));
    } else {
      var s := State(EMPTY_DIR, Statting, map[]);
      RunThree(task, ["d"], s, Own(Answered), Own(Answered), Others(FILLED_DIR));
      RunSnoc(task, ["d"], s, [Own(Answered), Own(Answered), Others(FILLED_DIR)], Own(Answered));
      assert [Own(Answered), Own(Answered), Others(FILLED_DIR)] + [Own(Answered)] ==
             [Own(Answered), Own(Answered), Others(FILLED_DIR), Own(Answered)];
    }
  }

  lemma RunSnoc(task: Task, p: Path, s: State, acts: seq<Action>, a: Action)
    ensures Run(task, p, s, acts + [a]) == Next(task, p, Run(task, p, s, acts), a)
  {
    assert (acts + [a])[..|acts|] == acts;
  }

  lemma RunThree(task: Task, p: Path, s: State, a: Action, b: Action, c: Action)
    ensures Run(task, p, s, [a, b]) == Next(task, p, Next(task, p, s, a), b)
    ensures Run(task, p, s, [a, b, c]) == Next(task, p, Next(task, p, Next(task, p, s, a), b), c)
  {
    RunSnoc(task, p, s, [], a);
    RunSnoc(task, p, s, [a], b);
    RunSnoc(task, p, s, [a, b], c);
    assert [] + [a] == [a] && [a] + [b] == [a, b] && [a, b] + [c] == [a, b, c];
  }

  // ----- alone -----

  /** Without interference the calls of a remove, one after the other, are the remove of the sequential model. */
  lemma RemoveAlone(w: World, at: Place, a: Answers)
    requires at.id in w.trees
    ensures var s := Run(Removing, at.path, State(w.trees[at.id], Statting, map[]), [Own(a.stat), Own(a.act)]);
            var (w', err) := RemoveAt(w, There(at), a);
            s.pc == Finished(err) && w' == Put(w, at.id, s.t)
  {
    RunThree(Removing, at.path, State(w.trees[at.id], Statting, map[]), Own(a.stat), Own(a.act), Own(a.act));
    assert Put(w, at.id, w.trees[at.id]) == w;
  }

  lemma RmdirAlone(w: World, at: Place, a: Answers)
    requires at.id in w.trees
    ensures var acts := [Own(a.stat), Own(a.list), Own(a.act)];
            var s := Run(RemovingDir, at.path, State(w.trees[at.id], Statting, map[]), acts);
            var (w', err) := RmdirAt(w, There(at), a);
            s.pc == Finished(err) && w' == Put(w, at.id, s.t)
  {
    RunThree(RemovingDir, at.path, State(w.trees[at.id], Statting, map[]), Own(a.stat), Own(a.list), Own(a.act));
    assert Put(w, at.id, w.trees[at.id]) == w;
  }
}
