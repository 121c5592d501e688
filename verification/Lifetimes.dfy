/** Job instances as goroutines that share one WaitGroup: main adds and spawns one instance
    per job and waits; an instance may add and spawn its successor before it leaves. */
module Lifetimes {

  // Where an instance is: at work or suspended, between wg.Add and the spawn of its
  // successor, past its last statement with the deferred Done pending, or gone.
  datatype Pc = Working | Successor | Leaving | Gone
  datatype Inst = Inst(job: nat, pc: Pc, dones: nat)

  datatype MainPc = Starting | Waiting | Passed

  // `next` is the job main handles next; `added` says it has called wg.Add for it already.
  datatype World = World(jobs: nat, next: nat, added: bool, main: MainPc, counter: int, insts: seq<Inst>)

  datatype Step =
    | MainAdd | MainSpawn | MainWait | MainPass
    | RestartAdd(i: nat) | RestartSpawn(i: nat) | Leave(i: nat) | Done(i: nat)

  function Init(jobs: nat): World {
    World(jobs, 0, false, Starting, 0, [])
  }

  predicate At(w: World, i: nat, pc: Pc) { i < |w.insts| && w.insts[i].pc == pc }

  predicate Enabled(w: World, st: Step) {
    match st
    case MainAdd => w.main == Starting && w.next < w.jobs && !w.added
    case MainSpawn => w.main == Starting && w.added
    case MainWait => w.main == Starting && w.next == w.jobs && !w.added
    case MainPass => w.main == Waiting && w.counter == 0
    case RestartAdd(i) => At(w, i, Working)
    case RestartSpawn(i) => At(w, i, Successor)
    case Leave(i) => At(w, i, Working)
    case Done(i) => At(w, i, Leaving)
  }

  function Move(insts: seq<Inst>, i: nat, pc: Pc): seq<Inst>
    requires i < |insts|
  {
    insts[i := insts[i].(pc := pc)]
  }

  // Work and suspension leave the world alone, a return and a panic both lead to the
  // deferred Done; a step that is not enabled does nothing.
  function Next(w: World, st: Step): World {
    if !Enabled(w, st) then w
    else
      match st
      case MainAdd => w.(counter := w.counter + 1, added := true)
      case MainSpawn => w.(insts := w.insts + [Inst(w.next, Working, 0)], next := w.next + 1, added := false)
      case MainWait => w.(main := Waiting)
      case MainPass => w.(main := Passed)
      case RestartAdd(i) => w.(counter := w.counter + 1, insts := Move(w.insts, i, Successor))
      case RestartSpawn(i) => w.(insts := Move(w.insts, i, Leaving) + [Inst(w.insts[i].job, Working, 0)])
      case Leave(i) => w.(insts := Move(w.insts, i, Leaving))
      case Done(i) =>
        w.(counter := w.counter - 1,
           insts := w.insts[i := w.insts[i].(pc := Gone, dones := w.insts[i].dones + 1)])
  }

  function Exec(w: World, steps: seq<Step>): World
    decreases steps
  {
    if steps == [] then w else Exec(Next(w, steps[0]), steps[1..])
  }

  // --- The counter ---

  // What an instance is counted for: itself until it is gone, and the successor it has added.
  function Weight(p: Pc): nat {
    match p case Working => 1 case Successor => 2 case Leaving => 1 case Gone => 0
  }

  function Load(insts: seq<Inst>): nat {
    if insts == [] then 0 else Weight(insts[0].pc) + Load(insts[1..])
  }

  lemma {:induction false} LoadUpdate(insts: seq<Inst>, i: nat, x: Inst)
    requires i < |insts|
    ensures Load(insts[i := x]) == Load(insts) - Weight(insts[i].pc) + Weight(x.pc)
  {
    if i == 0 {
      assert insts[i := x][1..] == insts[1..];
    } else {
      LoadUpdate(insts[1..], i - 1, x);
      assert insts[i := x][1..] == insts[1..][i - 1 := x];
    }
  }

  lemma {:induction false} LoadAppend(insts: seq<Inst>, x: Inst)
    ensures Load(insts + [x]) == Load(insts) + Weight(x.pc)
  {
    if insts == [] {
    } else {
      LoadAppend(insts[1..], x);
      assert (insts + [x])[1..] == insts[1..] + [x];
    }
  }

  // An instance that is not gone shows in the load, and only such instances do.
  lemma {:induction false} LoadZero(insts: seq<Inst>)
    ensures Load(insts) == 0 <==> forall i :: 0 <= i < |insts| ==> insts[i].pc == Gone
  {
    if insts == [] {
    } else {
      LoadZero(insts[1..]);
      assert forall i :: 0 < i < |insts| ==> insts[i] == insts[1..][i - 1];
    }
  }

  // --- The invariant ---

  predicate Active(x: Inst) { x.pc == Working || x.pc == Successor }

  predicate Exact(w: World) { w.counter == Load(w.insts) + if w.added then 1 else 0 }

  predicate OneWorkerPerJob(w: World) {
    forall i, k :: 0 <= i < k < |w.insts| && w.insts[i].job == w.insts[k].job ==> !Active(w.insts[i]) || !Active(w.insts[k])
  }

  predicate DoneOnce(w: World) {
    forall i :: 0 <= i < |w.insts| ==> w.insts[i].dones == if w.insts[i].pc == Gone then 1 else 0
  }

  predicate MainInOrder(w: World) {
    && w.next <= w.jobs
    && (w.added ==> w.main == Starting && w.next < w.jobs)
    && (w.main != Starting ==> w.next == w.jobs)
    && (forall i :: 0 <= i < |w.insts| ==> w.insts[i].job < w.next)
    && (forall j :: 0 <= j < w.next ==> HasInstance(w, j))
  }

  predicate HasInstance(w: World, job: nat) {
    exists i :: 0 <= i < |w.insts| && w.insts[i].job == job
  }

  predicate AllGone(w: World) { forall i :: 0 <= i < |w.insts| ==> w.insts[i].pc == Gone }

  predicate Invariant(w: World) {
    && Exact(w) && OneWorkerPerJob(w) && DoneOnce(w) && MainInOrder(w)
    && (w.main == Passed ==> AllGone(w))
  }

  lemma StepExact(w: World, st: Step)
    requires Exact(w)
    ensures Exact(Next(w, st))
  {
    if Enabled(w, st) {
      match st
      case MainAdd =>
      case MainSpawn => LoadAppend(w.insts, Inst(w.next, Working, 0));
      case MainWait =>
      case MainPass =>
      case RestartAdd(i) => LoadUpdate(w.insts, i, w.insts[i].(pc := Successor));
      case RestartSpawn(i) =>
        LoadUpdate(w.insts, i, w.insts[i].(pc := Leaving));
        LoadAppend(Move(w.insts, i, Leaving), Inst(w.insts[i].job, Working, 0));
      case Leave(i) => LoadUpdate(w.insts, i, w.insts[i].(pc := Leaving));
      case Done(i) => LoadUpdate(w.insts, i, w.insts[i].(pc := Gone, dones := w.insts[i].dones + 1));
    }
  }

  lemma StepMainInOrder(w: World, st: Step)
    requires MainInOrder(w)
    ensures MainInOrder(Next(w, st))
  {
    var v := Next(w, st);
    assert forall i :: 0 <= i < |w.insts| ==> v.insts[i].job == w.insts[i].job;
    forall j | 0 <= j < v.next ensures HasInstance(v, j) {
      if j < w.next {
        assert HasInstance(w, j);
        var i :| 0 <= i < |w.insts| && w.insts[i].job == j;
        assert v.insts[i].job == j;
      } else {
        assert v.insts[|w.insts|].job == j;
      }
    }
  }

  lemma StepInvariant(w: World, st: Step)
    requires Invariant(w)
    ensures Invariant(Next(w, st))
  {
    hide Load, MainInOrder, Exact;
    StepExact(w, st);
    StepMainInOrder(w, st);
    StepOneWorker(w, st);
    if st.MainPass? && Enabled(w, st) {
      PassesOnlyWhenGone(w);
    }
  }

  lemma StepOneWorker(w: World, st: Step)
    requires OneWorkerPerJob(w) && MainInOrder(w)
    ensures OneWorkerPerJob(Next(w, st))
  {
  }

  // With nothing added and unspawned, the counter is zero exactly when every instance is gone.
  lemma PassesOnlyWhenGone(w: World)
    requires Exact(w) && !w.added
    ensures w.counter == 0 <==> AllGone(w)
  {
    LoadZero(w.insts);
  }

  lemma {:induction false} ExecInvariant(w: World, steps: seq<Step>)
    requires Invariant(w)
    ensures Invariant(Exec(w, steps))
    decreases steps
  {
    hide Invariant, Next;
    if steps == [] {
    } else {
      StepInvariant(w, steps[0]);
      ExecInvariant(Next(w, steps[0]), steps[1..]);
    }
  }

  // --- The theorems, for any number of jobs and any interleaving ---

  // The counter is the number of live instances plus the added but unspawned ones. It is
  // never negative; an Add by a restarting instance and every Done find it positive; each
  // instance calls Done once, on leaving; and no job has two instances at work.
  lemma CounterIsExact(jobs: nat, steps: seq<Step>)
    ensures var w := Exec(Init(jobs), steps);
      && w.counter == Load(w.insts) + (if w.added then 1 else 0)
      && w.counter >= 0
      && (forall i :: Enabled(w, RestartAdd(i)) || Enabled(w, Done(i)) ==> w.counter > 0)
      && DoneOnce(w) && OneWorkerPerJob(w)
  {
    ExecInvariant(Init(jobs), steps);
    LoadZero(Exec(Init(jobs), steps).insts);
  }

  // Wait passes exactly when every job has been spawned and its whole chain of restarts has
  // ended, and after that nothing happens any more.
  lemma WaitPassesExactlyAtTheEnd(jobs: nat, steps: seq<Step>)
    ensures var w := Exec(Init(jobs), steps);
      && (w.main == Waiting ==> (Enabled(w, MainPass) <==> AllGone(w)))
      && (w.main != Starting ==> forall j :: 0 <= j < jobs ==> HasInstance(w, j))
      && (w.main == Passed ==> AllGone(w) && w.counter == 0 && forall st :: !Enabled(w, st))
  {
    ExecInvariant(Init(jobs), steps);
    ExecKeepsJobs(Init(jobs), steps);
    if !Exec(Init(jobs), steps).added {
      PassesOnlyWhenGone(Exec(Init(jobs), steps));
    }
  }

  lemma {:induction false} ExecKeepsJobs(w: World, steps: seq<Step>)
    ensures Exec(w, steps).jobs == w.jobs
    decreases steps
  {
    if steps == [] {
    } else {
      ExecKeepsJobs(Next(w, steps[0]), steps[1..]);
    }
  }

  // Until Wait passes, some goroutine can move: the program does not deadlock.
  lemma NeverStuck(jobs: nat, steps: seq<Step>)
    ensures var w := Exec(Init(jobs), steps);
      w.main != Passed ==> exists st :: Enabled(w, st)
  {
    var w := Exec(Init(jobs), steps);
    ExecInvariant(Init(jobs), steps);
    if w.main == Starting {
      assert Enabled(w, MainAdd) || Enabled(w, MainSpawn) || Enabled(w, MainWait);
    } else if w.main == Waiting {
      PassesOnlyWhenGone(w);
      if AllGone(w) {
        assert Enabled(w, MainPass);
      } else {
        var i :| 0 <= i < |w.insts| && w.insts[i].pc != Gone;
        assert Enabled(w, Leave(i)) || Enabled(w, RestartSpawn(i)) || Enabled(w, Done(i));
      }
    }
  }

  // --- The number of steps ---

  predicate AllEnabled(w: World, steps: seq<Step>)
    decreases steps
  {
    steps != [] ==> Enabled(w, steps[0]) && AllEnabled(Next(w, steps[0]), steps[1..])
  }

  function Restarts(steps: seq<Step>): nat {
    if steps == [] then 0 else (if steps[0].RestartAdd? then 1 else 0) + Restarts(steps[1..])
  }

  // The steps an instance still has to take if it does not decide to restart.
  function StepsLeft(p: Pc): nat {
    match p case Working => 2 case Successor => 4 case Leaving => 1 case Gone => 0
  }

  function AllStepsLeft(insts: seq<Inst>): nat {
    if insts == [] then 0 else StepsLeft(insts[0].pc) + AllStepsLeft(insts[1..])
  }

  function Remaining(w: World): int {
    4 * (w.jobs - w.next) - (if w.added then 1 else 0)
      + (match w.main case Starting => 2 case Waiting => 1 case Passed => 0) + AllStepsLeft(w.insts)
  }

  lemma {:induction false} LeftUpdate(insts: seq<Inst>, i: nat, x: Inst)
    requires i < |insts|
    ensures AllStepsLeft(insts[i := x]) == AllStepsLeft(insts) - StepsLeft(insts[i].pc) + StepsLeft(x.pc)
  {
    if i == 0 {
      assert insts[i := x][1..] == insts[1..];
    } else {
      LeftUpdate(insts[1..], i - 1, x);
      assert insts[i := x][1..] == insts[1..][i - 1 := x];
    }
  }

  lemma {:induction false} LeftAppend(insts: seq<Inst>, x: Inst)
    ensures AllStepsLeft(insts + [x]) == AllStepsLeft(insts) + StepsLeft(x.pc)
  {
    if insts == [] {
    } else {
      LeftAppend(insts[1..], x);
      assert (insts + [x])[1..] == insts[1..] + [x];
    }
  }

  // Every step takes one off what remains; only the decision to restart adds to it.
  lemma StepTakesOne(w: World, st: Step)
    requires Enabled(w, st)
    ensures Remaining(Next(w, st)) == Remaining(w) - 1 + if st.RestartAdd? then 3 else 0
  {
    match st
    case MainAdd =>
    case MainSpawn => LeftAppend(w.insts, Inst(w.next, Working, 0));
    case MainWait =>
    case MainPass =>
    case RestartAdd(i) => LeftUpdate(w.insts, i, w.insts[i].(pc := Successor));
    case RestartSpawn(i) =>
      LeftUpdate(w.insts, i, w.insts[i].(pc := Leaving));
      LeftAppend(Move(w.insts, i, Leaving), Inst(w.insts[i].job, Working, 0));
    case Leave(i) => LeftUpdate(w.insts, i, w.insts[i].(pc := Leaving));
    case Done(i) => LeftUpdate(w.insts, i, w.insts[i].(pc := Gone, dones := w.insts[i].dones + 1));
  }

  lemma {:induction false} StepsAreCounted(w: World, steps: seq<Step>)
    requires AllEnabled(w, steps)
    ensures Remaining(Exec(w, steps)) == Remaining(w) - |steps| + 3 * Restarts(steps)
    decreases steps
  {
    hide Remaining, Next, Enabled;
    if steps == [] {
    } else {
      StepTakesOne(w, steps[0]);
      StepsAreCounted(Next(w, steps[0]), steps[1..]);
    }
  }

  lemma {:induction false} NoneLeft(insts: seq<Inst>)
    requires forall i :: 0 <= i < |insts| ==> insts[i].pc == Gone
    ensures AllStepsLeft(insts) == 0
  {
    if insts == [] {
    } else {
      NoneLeft(insts[1..]);
    }
  }

  // Whatever the interleaving, a run with r restarts takes at most 4 steps a job, 3 a
  // restart and 2 of main, and exactly that many once Wait has passed. So the program ends
  // as soon as its jobs stop restarting.
  lemma RunLengthIsFixed(jobs: nat, steps: seq<Step>)
    requires AllEnabled(Init(jobs), steps)
    ensures |steps| <= 4 * jobs + 3 * Restarts(steps) + 2
    ensures Exec(Init(jobs), steps).main == Passed ==> |steps| == 4 * jobs + 3 * Restarts(steps) + 2
  {
    StepsAreCounted(Init(jobs), steps);
    ExecInvariant(Init(jobs), steps);
    ExecKeepsJobs(Init(jobs), steps);
    var w := Exec(Init(jobs), steps);
    if w.main == Passed {
      NoneLeft(w.insts);
    }
  }

  // --- Restart ---

  // A working instance can always leave, and can always restart: in three steps it is gone,
  // with one Done, a new instance works on its job, and the counter is what it was.
  lemma RestartHandsOver(w: World, i: nat)
    requires At(w, i, Working)
    ensures Enabled(w, Leave(i))
    ensures var steps := [RestartAdd(i), RestartSpawn(i), Done(i)];
      && AllEnabled(w, steps)
      && Exec(w, steps) == w.(insts := w.insts[i := Inst(w.insts[i].job, Gone, w.insts[i].dones + 1)]
                                      + [Inst(w.insts[i].job, Working, 0)])
  {
    var steps := [RestartAdd(i), RestartSpawn(i), Done(i)];
    var w1 := Next(w, steps[0]);
    var w2 := Next(w1, steps[1]);
    var w3 := Next(w2, steps[2]);
    assert steps[1..] == [RestartSpawn(i), Done(i)] && steps[1..][1..] == [Done(i)] && [Done(i)][1..] == [];
    assert Exec(w3, []) == w3 && AllEnabled(w3, []);
    assert Exec(w2, [Done(i)]) == w3 && AllEnabled(w2, [Done(i)]);
    assert Exec(w1, steps[1..]) == w3 && AllEnabled(w1, steps[1..]);
    assert w3.insts == w.insts[i := Inst(w.insts[i].job, Gone, w.insts[i].dones + 1)] + [Inst(w.insts[i].job, Working, 0)];
  }
}
