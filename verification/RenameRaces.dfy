/** A plain rename while other sessions change the same space between its Stat and its Move. */
module RenameRaces {
  import opened Options
  import opened Bytes
  import opened Gateway
  import opened Namespace

  /** Source and target, in one space, and whether the storage's Move replaces its target. */
  datatype Task = Task(src: Path, dst: Path, overwrites: bool)

  /** The gateway call that comes next. */
  datatype Pc = Checking | Moving | Finished(err: Err)

  /** The tree of the space, where the rename is, and what its Move has destroyed. */
  datatype State = State(t: Tree, pc: Pc, gone: Tree)

  /** The rename's next gateway call, or any change by other sessions. */
  datatype Action = Own(a: Answer) | Others(t: Tree)

  function Next(task: Task, s: State, act: Action): State {
    match act
    case Others(t) => s.(t := t)
    case Own(a) =>
      match s.pc
      case Finished(_) => s
      // Any answer of Stat but "it exists" falls through to the move.
      case Checking => s.(pc := if StatWith(s.t, task.dst, a).Info? then Finished(EXIST) else Moving)
      case Moving =>
        if a == Broken then s.(pc := Finished(OTHER))
        else
          var (t, code) := Move(s.t, task.src, task.dst, task.overwrites);
          if code == OK then State(t, Finished(NIL), Restricted(s.t, task.dst))
          else
            s.(pc := Finished(if code == NOT_FOUND then NOT_EXIST else if code == ALREADY_EXISTS then EXIST else OTHER))
  }

  function Run(task: Task, s: State, acts: seq<Action>): State {
    if acts == [] then s else Next(task, Run(task, s, acts[..|acts| - 1]), acts[|acts| - 1])
  }

  /** The step moves something over a target that exists. */
  predicate MovesOverTarget(task: Task, s: State, act: Action) {
    && act == Own(Answered) && s.pc.Moving? && task.overwrites
    && task.src in s.t && !(task.src <= task.dst) && !(task.dst <= task.src) && task.dst in s.t
  }

  /** Exactly when a step of the rename destroys something: when the target exists at the moment of the Move, whatever
      the check saw, and the storage replaces it. */
  lemma {:induction false} LosesExactly(task: Task, s: State, act: Action)
    requires WellFormed(s.t) && s.gone == map[]
    ensures Next(task, s, act).gone != map[] <==> MovesOverTarget(task, s, act)
  {
    if task.dst in s.t {
      assert HasParent(s.t, task.dst);
    }
    if act == Own(Answered) && s.pc.Moving? && Move(s.t, task.src, task.dst, task.overwrites).1 == OK {
      if task.dst in s.t {
        assert task.dst in Restricted(s.t, task.dst);
      } else {
        NothingBelow(s.t, task.dst);
      }
    }
  }

  /** Others keep the tree well formed and, between the check and the Move, do not create the target; before that they
      may do anything. On a storage that replaces targets the check is answered. */
  ghost predicate Courteous(task: Task, s: State, act: Action) {
    match act
    case Others(t) => WellFormed(t) && (s.pc.Moving? && task.overwrites && task.dst !in s.t ==> task.dst !in t)
    case Own(a) => s.pc.Checking? && task.overwrites ==> a == Answered
  }

  ghost predicate AllCourteous(task: Task, s: State, acts: seq<Action>) {
    acts == [] ||
    (AllCourteous(task, s, acts[..|acts| - 1]) && Courteous(task, Run(task, s, acts[..|acts| - 1]), acts[|acts| - 1]))
  }

  ghost predicate Invariant(task: Task, s: State) {
    WellFormed(s.t) && s.gone == map[] && (s.pc.Moving? && task.overwrites ==> task.dst !in s.t)
  }

  lemma StepKeepsInvariant(task: Task, s: State, act: Action)
    requires Invariant(task, s) && Courteous(task, s, act)
    ensures Invariant(task, Next(task, s, act))
  {
    LosesExactly(task, s, act);
    MoveKeepsWellFormed(s.t, task.src, task.dst, task.overwrites);
  }

  /** In every interleaving in which others do not create the target between the check and the Move, a plain rename
      destroys nothing. */
  lemma {:induction false} PlainRenameDestroysNothing(task: Task, t: Tree, acts: seq<Action>)
    requires WellFormed(t) && AllCourteous(task, State(t, Checking, map[]), acts)
    ensures Invariant(task, Run(task, State(t, Checking, map[]), acts))
    decreases |acts|
  {
    if acts != [] {
      var before := acts[..|acts| - 1];
      PlainRenameDestroysNothing(task, t, before);
      StepKeepsInvariant(task, Run(task, State(t, Checking, map[]), before), acts[|acts| - 1]);
    }
  }

  lemma RunTwo(task: Task, s: State, a: Action, b: Action)
    ensures Run(task, s, [a, b]) == Next(task, Next(task, s, a), b)
  {
    assert [a, b][..1] == [a] && [a][..0] == [];
    assert Run(task, s, [a]) == Next(task, Run(task, s, []), a);
  }

  const ONE_FILE: Tree := map[[] := Dir, ["a"] := File([1])]

  lemma SmallTrees()
    ensures WellFormed(ONE_FILE) && WellFormed(TWO_FILES) && ["b"] !in ONE_FILE
    ensures Restricted(TWO_FILES, ["b"]) == map[["b"] := File([2])]
  {
    assert "a"[0] != "b"[0] && ["a"][0] == "a" && ["b"][0] == "b" && Parent(["a"]) == [] && Parent(["b"]) == [];
  }

  /** Another session creates the target after the check found it free, and its file is lost. */
  lemma RaceDestroysTarget()
    ensures var task := Task(["a"], ["b"], true);
            var s := Next(task, State(ONE_FILE, Checking, map[]), Own(Answered));
            var s' := Run(task, s, [Others(TWO_FILES), Own(Answered)]);
            && WellFormed(ONE_FILE) && WellFormed(TWO_FILES) && s.pc == Moving
            && s'.pc == Finished(NIL) && s'.gone == map[["b"] := File([2])]
            && s'.t == map[[] := Dir, ["b"] := File([1])]
  {
    var task := Task(["a"], ["b"], true);
    SmallTrees();
    RunTwo(task, State(ONE_FILE, Moving, map[]), Others(TWO_FILES), Own(Answered));
    MoveOverTarget();
  }

  /** Without interference the calls of a plain rename, one after the other, are the rename of the sequential model. */
  lemma RenameAlone(w: World, id: string, src: Path, dst: Path, a: Answers)
    requires id in w.trees
    ensures var task := Task(src, dst, w.moveOverwrites);
            var s := Run(task, State(w.trees[id], Checking, map[]), [Own(a.stat), Own(a.act)]);
            var (w', err) := RenameAt(w, There(Place(id, src)), There(Place(id, dst)), false, a);
            s.pc == Finished(err) && w' == Put(w, id, s.t)
  {
    RunTwo(Task(src, dst, w.moveOverwrites), State(w.trees[id], Checking, map[]), Own(a.stat), Own(a.act));
    assert Put(w, id, w.trees[id]) == w;
  }
}
