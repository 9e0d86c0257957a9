/** ThreadedPool: the threads as interleaved steps over one shared queue. */
module ThreadPool {

  type Task = nat

  /** Where a worker stands in ThreadedWorker.run. */
  datatype Worker = Unstarted | Ready | Running(task: Task) | Ran(task: Task) | Stopped

  /** Where the owner of the pool stands: calling add_task, calling start, in
      tasks.join, joining worker i, or returned from wait_completion. */
  datatype Main = Adding(k: nat) | Starting(i: nat) | JoinQueue | JoinWorker(i: nat) | Returned

  datatype Pool = Pool(queue: seq<Task>, unfinished: int, workers: seq<Worker>, main: Main, log: seq<Task>)

  /** What is fixed: the tasks, the number of workers, and the queue's maxsize (none if not positive). */
  datatype Config = Config(tasks: seq<Task>, numWorkers: nat, maxsize: int)

  datatype Step =
    | Put | Start | JoinedQueue | JoinedWorker
    | Get(w: nat) | Execute(w: nat) | TaskDone(w: nat) | GetEmpty(w: nat)

  function Initial(c: Config): Pool {
    Pool([], 0, seq(c.numWorkers, _ => Unstarted), Adding(0), [])
  }

  /** One atomic step of one thread; a step that blocks is not enabled. */
  predicate Enabled(c: Config, s: Pool, step: Step) {
    match step
    case Put => s.main.Adding? && s.main.k <= |c.tasks|
      && (s.main.k == |c.tasks| || c.maxsize <= 0 || |s.queue| < c.maxsize)
    case Start => s.main.Starting? && s.main.i <= |s.workers|
    case JoinedQueue => s.main == JoinQueue && s.unfinished == 0
    case JoinedWorker => s.main.JoinWorker?
      && (s.main.i == |s.workers| || (s.main.i < |s.workers| && s.workers[s.main.i] == Stopped))
    case Get(w) => w < |s.workers| && s.workers[w] == Ready && s.queue != []
    case Execute(w) => w < |s.workers| && s.workers[w].Running?
    case TaskDone(w) => w < |s.workers| && s.workers[w].Ran?
    case GetEmpty(w) => w < |s.workers| && s.workers[w] == Ready && s.queue == []
  }

  function Apply(c: Config, s: Pool, step: Step): Pool
    requires Enabled(c, s, step)
  {
    match step
    case Put =>
      var k := s.main.k;
      if k == |c.tasks| then s.(main := Starting(0))
      else s.(queue := s.queue + [c.tasks[k]], unfinished := s.unfinished + 1, main := Adding(k + 1))
    case Start =>
      var i := s.main.i;
      if i == |s.workers| then s.(main := JoinQueue) else s.(workers := s.workers[i := Ready], main := Starting(i + 1))
    case JoinedQueue => s.(main := JoinWorker(0))
    case JoinedWorker => s.(main := if s.main.i == |s.workers| then Returned else JoinWorker(s.main.i + 1))
    case Get(w) => s.(queue := s.queue[1..], workers := s.workers[w := Running(s.queue[0])])
    case Execute(w) => s.(workers := s.workers[w := Ran(s.workers[w].task)], log := s.log + [s.workers[w].task])
    case TaskDone(w) => s.(workers := s.workers[w := Ready], unfinished := s.unfinished - 1)
    case GetEmpty(w) => s.(workers := s.workers[w := Stopped])
  }

  /** A run: the steps of any interleaving, each enabled when it is taken. */
  predicate IsRun(c: Config, s: Pool, steps: seq<Step>)
    decreases |steps|
  {
    steps == [] || (Enabled(c, s, steps[0]) && IsRun(c, Apply(c, s, steps[0]), steps[1..]))
  }

  function Final(c: Config, s: Pool, steps: seq<Step>): Pool
    requires IsRun(c, s, steps)
    decreases |steps|
  {
    if steps == [] then s else Final(c, Apply(c, s, steps[0]), steps[1..])
  }

  // ---------------------------------------------------------------------
  // The invariant

  function InHand(w: Worker): multiset<Task> {
    if w.Running? then multiset{w.task} else multiset{}
  }

  /** Tasks taken from the queue and not executed yet. */
  function Taken(ws: seq<Worker>): multiset<Task> {
    if ws == [] then multiset{} else InHand(ws[0]) + Taken(ws[1..])
  }

  function Engaged(w: Worker): nat {
    if w.Running? || w.Ran? then 1 else 0
  }

  /** Workers between get and task_done. */
  function Busy(ws: seq<Worker>): nat {
    if ws == [] then 0 else Engaged(ws[0]) + Busy(ws[1..])
  }

  lemma {:induction false} WorkerChanges(ws: seq<Worker>, w: nat, x: Worker)
    requires w < |ws|
    ensures Taken(ws[w := x]) + InHand(ws[w]) == Taken(ws) + InHand(x)
    ensures Busy(ws[w := x]) + Engaged(ws[w]) == Busy(ws) + Engaged(x)
    decreases |ws|
  {
    hide InHand, Engaged;
    var vs := ws[w := x];
    assert vs[0] == (if w == 0 then x else ws[0]);
    if w > 0 {
      assert vs[1..] == ws[1..][w - 1 := x];
      WorkerChanges(ws[1..], w - 1, x);
      Exchange(InHand(ws[0]), Taken(vs[1..]), InHand(ws[w]), Taken(ws[1..]), InHand(x));
    } else {
      assert vs[1..] == ws[1..];
      Exchange(Taken(ws[1..]), InHand(x), InHand(ws[0]), InHand(ws[0]), InHand(x));
    }
  }

  lemma Exchange(base: multiset<Task>, a: multiset<Task>, h: multiset<Task>, b: multiset<Task>, x: multiset<Task>)
    requires a + h == b + x
    ensures (base + a) + h == (base + b) + x && (a + base) + h == (b + base) + x
  {
    assert base + (a + h) == base + (b + x);
    assert (base + a) + h == base + (a + h) && (base + b) + x == base + (b + x);
    assert a + base == base + a && b + base == base + b;
  }

  /** What leaves one place arrives at another. */
  lemma Balance(l: multiset<Task>, a: multiset<Task>, q: multiset<Task>, l': multiset<Task>, a': multiset<Task>,
                q': multiset<Task>, h: multiset<Task>, x: multiset<Task>)
    requires a' + h == a + x && l' + x + q' == l + h + q
    ensures l' + a' + q' == l + a + q
  {
    forall t: Task ensures (l' + a' + q')[t] == (l + a + q)[t] {
      assert (a' + h)[t] == (a + x)[t] && (l' + x + q')[t] == (l + h + q)[t];
    }
  }

  lemma {:induction false} NoneTaken(ws: seq<Worker>)
    ensures Busy(ws) == 0 ==> Taken(ws) == multiset{}
    ensures Busy(ws) == 0 <==> forall i | 0 <= i < |ws| :: !ws[i].Running? && !ws[i].Ran?
  {
    if ws != [] {
      NoneTaken(ws[1..]);
      assert forall i | 0 < i < |ws| :: ws[i] == ws[1..][i - 1];
      assert forall i | 0 <= i < |ws[1..]| :: ws[1..][i] == ws[i + 1];
    }
  }

  /** How many tasks have been added. */
  function Added(c: Config, s: Pool): nat {
    if s.main.Adding? && s.main.k <= |c.tasks| then s.main.k else |c.tasks|
  }

  predicate StartedUpTo(s: Pool, i: nat) {
    forall j | 0 <= j < |s.workers| :: s.workers[j] == Unstarted <==> j >= i
  }

  predicate AllStopped(s: Pool, i: nat) {
    forall j | 0 <= j < |s.workers| && j < i :: s.workers[j] == Stopped
  }

  /** What the position of the main thread says about the rest. */
  predicate Phase(c: Config, s: Pool) {
    match s.main
    case Adding(k) => k <= |c.tasks| && |s.queue| == k && StartedUpTo(s, 0)
    case Starting(i) => i <= |s.workers| && StartedUpTo(s, i)
    case JoinQueue => StartedUpTo(s, |s.workers|)
    case JoinWorker(i) => i <= |s.workers| && StartedUpTo(s, |s.workers|) && s.unfinished == 0 && AllStopped(s, i)
    case Returned => s.unfinished == 0 && StartedUpTo(s, |s.workers|) && AllStopped(s, |s.workers|)
  }

  /** Every added task is queued, in hand, or executed, and just once. */
  predicate Conserved(c: Config, s: Pool) {
    multiset(s.log) + Taken(s.workers) + multiset(s.queue) == multiset(c.tasks[..Added(c, s)])
  }

  predicate Inv(c: Config, s: Pool) {
    && |s.workers| == c.numWorkers
    && Conserved(c, s)
    && s.unfinished == |s.queue| + Busy(s.workers)
    && (forall j | 0 <= j < |s.workers| && s.workers[j] == Stopped :: s.queue == [])
    && Phase(c, s)
  }

  lemma {:induction false} NobodyBusy(n: nat)
    ensures Busy(seq(n, _ => Unstarted)) == 0 && Taken(seq(n, _ => Unstarted)) == multiset{}
  {
    NoneTaken(seq(n, _ => Unstarted));
  }

  lemma InitialInv(c: Config)
    ensures Inv(c, Initial(c))
  {
    NobodyBusy(c.numWorkers);
    assert c.tasks[..0] == [];
  }

  lemma PutInv(c: Config, s: Pool)
    requires Inv(c, s) && Enabled(c, s, Put)
    ensures Inv(c, Apply(c, s, Put))
  {
    hide Taken, Busy;
    var k := s.main.k;
    if k < |c.tasks| {
      var t := c.tasks[k];
      assert c.tasks[..k + 1] == c.tasks[..k] + [t];
      OneMore(multiset(s.log) + Taken(s.workers), s.queue, c.tasks[..k], t);
    }
  }

  lemma OneMore(rest: multiset<Task>, queue: seq<Task>, tasks: seq<Task>, t: Task)
    requires rest + multiset(queue) == multiset(tasks)
    ensures rest + multiset(queue + [t]) == multiset(tasks + [t])
  {
    assert multiset(queue + [t]) == multiset(queue) + multiset{t};
    assert multiset(tasks + [t]) == multiset(tasks) + multiset{t};
    assert rest + (multiset(queue) + multiset{t}) == (rest + multiset(queue)) + multiset{t};
  }

  lemma StartInv(c: Config, s: Pool)
    requires Inv(c, s) && Enabled(c, s, Start)
    ensures Inv(c, Apply(c, s, Start))
  {
    hide Taken, Busy;
    if s.main.i < |s.workers| {
      WorkerChanges(s.workers, s.main.i, Ready);
      ConservedMove(c, s, s.main.i, Ready, s.queue, s.log);
    }
  }

  lemma JoinInv(c: Config, s: Pool, step: Step)
    requires Inv(c, s) && Enabled(c, s, step) && (step.JoinedQueue? || step.JoinedWorker?)
    ensures Inv(c, Apply(c, s, step))
  {
    hide Taken, Busy;
  }

  /** A worker moves from one place of its loop to another, and the queue and the log with it. */
  lemma ConservedMove(c: Config, s: Pool, w: nat, x: Worker, queue: seq<Task>, log: seq<Task>)
    requires Conserved(c, s) && w < |s.workers|
    requires multiset(log) + InHand(x) + multiset(queue) == multiset(s.log) + InHand(s.workers[w]) + multiset(s.queue)
    ensures multiset(log) + Taken(s.workers[w := x]) + multiset(queue) == multiset(c.tasks[..Added(c, s)])
  {
    hide InHand, Taken;
    WorkerChanges(s.workers, w, x);
    Balance(multiset(s.log), Taken(s.workers), multiset(s.queue),
            multiset(log), Taken(s.workers[w := x]), multiset(queue), InHand(s.workers[w]), InHand(x));
  }

  lemma GetInv(c: Config, s: Pool, w: nat)
    requires Inv(c, s) && Enabled(c, s, Get(w))
    ensures Inv(c, Apply(c, s, Get(w)))
  {
    hide Taken, Busy;
    var t := s.queue[0];
    assert s.queue == [t] + s.queue[1..];
    WorkerChanges(s.workers, w, Running(t));
    ConservedMove(c, s, w, Running(t), s.queue[1..], s.log);
  }

  lemma ExecuteInv(c: Config, s: Pool, w: nat)
    requires Inv(c, s) && Enabled(c, s, Execute(w))
    ensures Inv(c, Apply(c, s, Execute(w)))
  {
    hide Taken, Busy;
    var t := s.workers[w].task;
    assert multiset(s.log + [t]) == multiset(s.log) + multiset{t};
    WorkerChanges(s.workers, w, Ran(t));
    ConservedMove(c, s, w, Ran(t), s.queue, s.log + [t]);
    NoneTaken(s.workers);
  }

  lemma TaskDoneInv(c: Config, s: Pool, w: nat)
    requires Inv(c, s) && Enabled(c, s, TaskDone(w))
    ensures Inv(c, Apply(c, s, TaskDone(w)))
  {
    hide Taken, Busy;
    WorkerChanges(s.workers, w, Ready);
    ConservedMove(c, s, w, Ready, s.queue, s.log);
    NoneTaken(s.workers);
  }

  lemma GetEmptyInv(c: Config, s: Pool, w: nat)
    requires Inv(c, s) && Enabled(c, s, GetEmpty(w))
    ensures Inv(c, Apply(c, s, GetEmpty(w)))
  {
    hide Taken, Busy;
    WorkerChanges(s.workers, w, Stopped);
    ConservedMove(c, s, w, Stopped, s.queue, s.log);
  }

  /** Every step of every thread keeps the invariant. */
  lemma StepInv(c: Config, s: Pool, step: Step)
    requires Inv(c, s) && Enabled(c, s, step)
    ensures Inv(c, Apply(c, s, step))
  {
    hide Inv, Apply;
    match step
    case Put => PutInv(c, s);
    case Start => StartInv(c, s);
    case Get(w) => GetInv(c, s, w);
    case Execute(w) => ExecuteInv(c, s, w);
    case TaskDone(w) => TaskDoneInv(c, s, w);
    case GetEmpty(w) => GetEmptyInv(c, s, w);
    case JoinedQueue | JoinedWorker => JoinInv(c, s, step);
  }

  lemma {:induction false} RunInv(c: Config, s: Pool, steps: seq<Step>)
    requires Inv(c, s) && IsRun(c, s, steps)
    ensures Inv(c, Final(c, s, steps))
    decreases |steps|
  {
    if steps != [] {
      StepInv(c, s, steps[0]);
      RunInv(c, Apply(c, s, steps[0]), steps[1..]);
    }
  }

  // ---------------------------------------------------------------------
  // Results

  /** In every reachable state no task has been executed more often than it was
      added, and the unfinished count is that of the queued and in-flight tasks. */
  lemma NeverTwice(c: Config, steps: seq<Step>)
    requires IsRun(c, Initial(c), steps)
    ensures var s := Final(c, Initial(c), steps);
            multiset(s.log) <= multiset(c.tasks) && s.unfinished == |s.queue| + Busy(s.workers)
  {
    InitialInv(c);
    RunInv(c, Initial(c), steps);
    var s := Final(c, Initial(c), steps);
    assert c.tasks == c.tasks[..Added(c, s)] + c.tasks[Added(c, s)..];
  }

  /** When wait_completion returns, every task has been executed exactly once and every worker has stopped. */
  lemma ReturnsWhenDone(c: Config, steps: seq<Step>)
    requires IsRun(c, Initial(c), steps) && Final(c, Initial(c), steps).main == Returned
    ensures var s := Final(c, Initial(c), steps);
            multiset(s.log) == multiset(c.tasks) && AllStopped(s, c.numWorkers) && s.queue == [] && s.unfinished == 0
  {
    InitialInv(c);
    RunInv(c, Initial(c), steps);
    var s := Final(c, Initial(c), steps);
    NoneTaken(s.workers);
    assert c.tasks[..|c.tasks|] == c.tasks;
  }

  /** The steps still to come, at most. */
  function Weight(w: Worker): nat {
    match w
    case Unstarted => 2
    case Ready => 1
    case Running(_) => 3
    case Ran(_) => 2
    case Stopped => 0
  }

  function Weights(ws: seq<Worker>): nat {
    if ws == [] then 0 else Weight(ws[0]) + Weights(ws[1..])
  }

  function Measure(c: Config, s: Pool): int {
    var n := |s.workers|;
    Weights(s.workers) + 3 * |s.queue| +
    match s.main
    case Adding(k) => 4 * (|c.tasks| - k) + 2 * n + 4
    case Starting(i) => (n - i) + n + 3
    case JoinQueue => n + 2
    case JoinWorker(i) => n - i + 1
    case Returned => 0
  }

  lemma {:induction false} WeightChanges(ws: seq<Worker>, w: nat, x: Worker)
    requires w < |ws|
    ensures Weights(ws[w := x]) + Weight(ws[w]) == Weights(ws) + Weight(x)
    decreases |ws|
  {
    if w > 0 {
      assert ws[w := x][1..] == ws[1..][w - 1 := x];
      WeightChanges(ws[1..], w - 1, x);
    } else {
      assert ws[0 := x][1..] == ws[1..];
    }
  }

  lemma NoneNegative(ws: seq<Worker>)
    ensures Weights(ws) >= 0
  {
  }

  lemma StepShrinks(c: Config, s: Pool, step: Step)
    requires Inv(c, s) && Enabled(c, s, step)
    ensures 0 <= Measure(c, Apply(c, s, step)) < Measure(c, s)
  {
    hide Taken, Busy, Conserved, Weights;
    NoneNegative(Apply(c, s, step).workers);
    match step
    case Start => if s.main.i < |s.workers| { WeightChanges(s.workers, s.main.i, Ready); }
    case Get(w) => WeightChanges(s.workers, w, Running(s.queue[0]));
    case Execute(w) => WeightChanges(s.workers, w, Ran(s.workers[w].task));
    case TaskDone(w) => WeightChanges(s.workers, w, Ready);
    case GetEmpty(w) => WeightChanges(s.workers, w, Stopped);
    case _ =>
  }

  lemma {:induction false} RunBounded(c: Config, s: Pool, steps: seq<Step>)
    requires Inv(c, s) && IsRun(c, s, steps)
    ensures |steps| <= Measure(c, s)
    decreases |steps|
  {
    if steps != [] {
      StepInv(c, s, steps[0]);
      StepShrinks(c, s, steps[0]);
      RunBounded(c, Apply(c, s, steps[0]), steps[1..]);
    }
  }

  lemma {:induction false} InitialWeights(n: nat)
    ensures Weights(seq(n, _ => Unstarted)) == 2 * n
  {
    if n > 0 {
      assert seq(n, _ => Unstarted)[1..] == seq(n - 1, _ => Unstarted);
      InitialWeights(n - 1);
    }
  }

  /** No interleaving goes on for ever. */
  lemma EveryRunEnds(c: Config, steps: seq<Step>)
    requires IsRun(c, Initial(c), steps)
    ensures |steps| <= 4 * |c.tasks| + 4 * c.numWorkers + 4
  {
    InitialInv(c);
    InitialWeights(c.numWorkers);
    RunBounded(c, Initial(c), steps);
  }

  /** Nothing can happen any more although wait_completion has not returned. */
  ghost predicate Stuck(c: Config, s: Pool) {
    s.main != Returned && forall step :: !Enabled(c, s, step)
  }

  /** The tasks fit into the queue, and there is a worker if there is a task. */
  predicate Feasible(c: Config) {
    && (c.maxsize <= 0 || |c.tasks| <= c.maxsize)
    && (c.numWorkers > 0 || c.tasks == [])
  }

  lemma FeasibleMoves(c: Config, s: Pool)
    requires Inv(c, s) && Feasible(c) && s.main != Returned
    ensures !Stuck(c, s)
  {
    match s.main
    case Adding(k) => assert Enabled(c, s, Put);
    case Starting(i) => assert Enabled(c, s, Start);
    case JoinQueue =>
      if s.unfinished == 0 {
        assert Enabled(c, s, JoinedQueue);
      } else {
        SomeWorkerMoves(c, s);
      }
    case JoinWorker(i) =>
      if i == |s.workers| || s.workers[i] == Stopped {
        assert Enabled(c, s, JoinedWorker);
      } else {
        WorkerMoves(c, s, i);
      }
  }

  lemma WorkerMoves(c: Config, s: Pool, w: nat)
    requires w < |s.workers| && s.workers[w] != Unstarted && s.workers[w] != Stopped && s.main != Returned
    ensures !Stuck(c, s)
  {
    match s.workers[w]
    case Ready => if s.queue == [] { assert Enabled(c, s, GetEmpty(w)); } else { assert Enabled(c, s, Get(w)); }
    case Running(_) => assert Enabled(c, s, Execute(w));
    case Ran(_) => assert Enabled(c, s, TaskDone(w));
  }

  lemma WorkersForTasks(c: Config, s: Pool)
    requires Inv(c, s) && Feasible(c) && s.queue != []
    ensures s.workers != []
  {
    hide Taken, Busy;
    var t := s.queue[0];
    assert t in multiset(s.queue);
    assert t in multiset(c.tasks[..Added(c, s)]);
    assert c.tasks != [];
  }

  lemma SomeWorkerMoves(c: Config, s: Pool)
    requires Inv(c, s) && Feasible(c) && s.main == JoinQueue && s.unfinished != 0
    ensures !Stuck(c, s)
  {
    NoneTaken(s.workers);
    if Busy(s.workers) != 0 {
      var w :| 0 <= w < |s.workers| && (s.workers[w].Running? || s.workers[w].Ran?);
      WorkerMoves(c, s, w);
    } else {
      WorkersForTasks(c, s);
      WorkerMoves(c, s, 0);
    }
  }

  ghost predicate NeverStuck(c: Config) {
    forall steps :: IsRun(c, Initial(c), steps) ==> !Stuck(c, Final(c, Initial(c), steps))
  }

  lemma FeasibleNeverStuck(c: Config, steps: seq<Step>)
    requires Feasible(c) && IsRun(c, Initial(c), steps)
    ensures !Stuck(c, Final(c, Initial(c), steps))
  {
    InitialInv(c);
    RunInv(c, Initial(c), steps);
    if Final(c, Initial(c), steps).main != Returned {
      FeasibleMoves(c, Final(c, Initial(c), steps));
    }
  }

  /** Until wait_completion returns some thread can always move, exactly if the
      tasks fit into the queue and there is a worker if there is a task. */
  lemma NeverStuckIffFeasible(c: Config)
    ensures NeverStuck(c) <==> Feasible(c)
  {
    if Feasible(c) {
      forall steps | IsRun(c, Initial(c), steps) ensures !Stuck(c, Final(c, Initial(c), steps)) {
        FeasibleNeverStuck(c, steps);
      }
    } else {
      var steps := InfeasibleSticks(c);
    }
  }

  /** Adding the first k tasks. */
  lemma {:induction false} AddTasks(c: Config, k: nat) returns (steps: seq<Step>)
    requires k <= |c.tasks| && (c.maxsize <= 0 || k <= c.maxsize)
    ensures IsRun(c, Initial(c), steps)
    ensures Final(c, Initial(c), steps) == Initial(c).(queue := c.tasks[..k], unfinished := k, main := Adding(k))
  {
    if k == 0 {
      steps := [];
    } else {
      var before := AddTasks(c, k - 1);
      assert c.tasks[..k] == c.tasks[..k - 1] + [c.tasks[k - 1]];
      RunThen(c, Initial(c), before, Put);
      steps := before + [Put];
    }
  }

  lemma {:induction false} RunThen(c: Config, s: Pool, steps: seq<Step>, step: Step)
    requires IsRun(c, s, steps) && Enabled(c, Final(c, s, steps), step)
    ensures IsRun(c, s, steps + [step]) && Final(c, s, steps + [step]) == Apply(c, Final(c, s, steps), step)
    decreases |steps|
  {
    if steps == [] {
      assert [] + [step] == [step];
      assert [step][1..] == [];
    } else {
      assert (steps + [step])[1..] == steps[1..] + [step];
      RunThen(c, Apply(c, s, steps[0]), steps[1..], step);
    }
  }

  lemma InfeasibleSticks(c: Config) returns (steps: seq<Step>)
    requires !Feasible(c)
    ensures IsRun(c, Initial(c), steps) && Stuck(c, Final(c, Initial(c), steps))
  {
    if c.maxsize > 0 && |c.tasks| > c.maxsize {
      steps := AddTasks(c, c.maxsize);
      var end := Final(c, Initial(c), steps);
      assert |end.queue| == c.maxsize && forall w | 0 <= w < |end.workers| :: end.workers[w] == Unstarted;
      assert forall step :: !Enabled(c, end, step);
    } else {
      steps := AddTasks(c, |c.tasks|);
      var s := Final(c, Initial(c), steps);
      assert c.tasks[..|c.tasks|] == c.tasks;
      RunThen(c, Initial(c), steps, Put);
      steps := steps + [Put];
      RunThen(c, Initial(c), steps, Start);
      steps := steps + [Start];
      var end := Final(c, Initial(c), steps);
      assert end == Pool(c.tasks, |c.tasks|, [], JoinQueue, []);
      assert forall step :: !Enabled(c, end, step);
    }
  }
}
