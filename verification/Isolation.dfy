/** What tasks can expect of each other, over every run of the substrate's operations. */
module Isolation {
  import opened Machine
  import opened Kernels
  import opened Tasks

  // The kernel between the operations of a run; `touched[i]` are the objects that the `i`-th
  // operation may have changed inside, as its contract says.
  ghost predicate IsRun(run: seq<KernelState>, touched: seq<set<nat>>) {
    && |run| == |touched| + 1
    && (forall i :: 0 <= i < |run| ==> run[i].Consistent())
    && (forall i :: 0 < i < |run| ==> LeavesAlone(touched[i - 1], run[i - 1], run[i]))
  }

  // Whatever runs, constructions that fail in any way and operations of the task itself
  // included: a task that was once configured still is.
  lemma {:induction false} EveryRunKeepsTask(p: Platform, config: TaskConfig, run: seq<KernelState>,
                                             touched: seq<set<nat>>, task: Task, base: nat, built: nat, late: nat)
    requires IsRun(run, touched) && built <= late < |run| && IsConfigured(p, config, run[built], task, base)
    ensures IsConfigured(p, config, run[late], task, base)
    ensures ObjectsOf(run[late], task) == ObjectsOf(run[built], task)
    decreases late
  {
    if built < late {
      EveryRunKeepsTask(p, config, run, touched, task, base, built, late - 1);
      ConfiguredTaskStays(p, config, run[late - 1], run[late], touched[late - 1], task, base);
    }
  }

  // While nothing acts on a task's own three objects, they hold exactly what they held.
  lemma {:induction false} EveryRunLeavesTask(p: Platform, config: TaskConfig, run: seq<KernelState>,
                                              touched: seq<set<nat>>, task: Task, base: nat, early: nat, late: nat)
    requires IsRun(run, touched) && early <= late < |run| && IsConfigured(p, config, run[early], task, base)
    requires forall i :: early <= i < late ==> touched[i] !! ObjectsOf(run[early], task)
    ensures SameTask(run[early], run[late], task)
    decreases late
  {
    if early < late {
      EveryRunLeavesTask(p, config, run, touched, task, base, early, late - 1);
      UntouchedTaskIsSame(run[late - 1], run[late], touched[late - 1], task);
    }
  }

  // So a task that was just built stays exactly as built.
  lemma EveryRunLeavesBuiltTask(p: Platform, config: TaskConfig, run: seq<KernelState>, touched: seq<set<nat>>,
                                task: Task, base: nat, built: nat, late: nat)
    requires IsRun(run, touched) && built <= late < |run| && IsBuilt(p, config, run[built], task, base)
    requires forall i :: built <= i < late ==> touched[i] !! ObjectsOf(run[built], task)
    ensures IsBuilt(p, config, run[late], task, base)
  {
    BuiltIsConfigured(p, config, run[built], task, base);
    EveryRunKeepsTask(p, config, run, touched, task, base, built, late);
    EveryRunLeavesTask(p, config, run, touched, task, base, built, late);
    SameTaskIsBuilt(p, config, run[built], run[late], task, base);
  }

  // A task that was built from objects made after another was complete shares none with it.
  lemma TasksShareNothing(p: Platform, s1: KernelState, c1: TaskConfig, t1: Task, base1: nat,
                          s2: KernelState, c2: TaskConfig, t2: Task, base2: nat)
    requires s1.Consistent() && IsConfigured(p, c1, s1, t1, base1) && IsConfigured(p, c2, s2, t2, base2)
    requires s1.nextId <= base2
    ensures ObjectsOf(s1, t1) !! ObjectsOf(s2, t2)
  {
  }

  // So whatever one of the two did before: from then on, whatever happens to the other, its own
  // recovery mappings and received capabilities included, changes nothing in the first.
  lemma TasksAreIsolated(p: Platform, run: seq<KernelState>, touched: seq<set<nat>>, c1: TaskConfig, t1: Task,
                         base1: nat, built1: nat, c2: TaskConfig, t2: Task, base2: nat, built2: nat,
                         early: nat, late: nat)
    requires IsRun(run, touched) && built1 <= early <= late < |run| && built2 <= late
    requires IsConfigured(p, c1, run[built1], t1, base1) && IsConfigured(p, c2, run[built2], t2, base2)
    requires run[built1].nextId <= base2 || run[built2].nextId <= base1
    requires forall i :: early <= i < late ==> touched[i] <= ObjectsOf(run[built2], t2)
    ensures IsConfigured(p, c1, run[early], t1, base1) && SameTask(run[early], run[late], t1)
    ensures IsConfigured(p, c1, run[late], t1, base1) && IsConfigured(p, c2, run[late], t2, base2)
  {
    if run[built1].nextId <= base2 {
      TasksShareNothing(p, run[built1], c1, t1, base1, run[built2], c2, t2, base2);
    } else {
      TasksShareNothing(p, run[built2], c2, t2, base2, run[built1], c1, t1, base1);
    }
    EveryRunKeepsTask(p, c1, run, touched, t1, base1, built1, early);
    EveryRunKeepsTask(p, c1, run, touched, t1, base1, early, late);
    EveryRunKeepsTask(p, c2, run, touched, t2, base2, built2, late);
    EveryRunLeavesTask(p, c1, run, touched, t1, base1, early, late);
  }
}
