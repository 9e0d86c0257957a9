/** The order in which the threads of the pool take and execute the tasks. */
module PoolOrder {
  import opened Text
  import opened ThreadPool

  /** What a step takes from the queue. */
  function Got(c: Config, s: Pool, step: Step): seq<Task>
    requires Enabled(c, s, step)
  {
    if step.Get? then [s.queue[0]] else []
  }

  /** The tasks that the get steps of a run take from the queue. */
  function Gotten(c: Config, s: Pool, steps: seq<Step>): seq<Task>
    requires IsRun(c, s, steps)
    decreases |steps|
  {
    if steps == [] then []
    else Got(c, s, steps[0]) + Gotten(c, Apply(c, s, steps[0]), steps[1..])
  }

  /** The tasks taken so far and those in the queue are the ones added so far, in that order. */
  predicate InOrder(c: Config, s: Pool, gotten: seq<Task>) {
    gotten + s.queue == c.tasks[..Added(c, s)]
  }

  lemma Longer(gotten: seq<Task>, queue: seq<Task>, tasks: seq<Task>, k: nat)
    requires k < |tasks| && gotten + queue == tasks[..k]
    ensures gotten + (queue + [tasks[k]]) == tasks[..k + 1]
  {
    Assoc(gotten, queue, [tasks[k]]);
    assert tasks[..k + 1] == tasks[..k] + [tasks[k]];
  }

  lemma Moved(gotten: seq<Task>, queue: seq<Task>)
    requires queue != []
    ensures gotten + [queue[0]] + queue[1..] == gotten + queue
  {
    HeadTail(queue);
    Assoc(gotten, [queue[0]], queue[1..]);
  }

  lemma StepInOrder(c: Config, s: Pool, step: Step, gotten: seq<Task>)
    requires Inv(c, s) && Enabled(c, s, step) && InOrder(c, s, gotten)
    ensures InOrder(c, Apply(c, s, step), gotten + Got(c, s, step))
  {
    hide Taken, Busy, Conserved;
    PlusEmpty(gotten);
    if step.Put? && s.main.k < |c.tasks| {
      Longer(gotten, s.queue, c.tasks, s.main.k);
    }
    if step.Get? {
      Moved(gotten, s.queue);
    }
  }

  lemma {:induction false} RunInOrder(c: Config, s: Pool, steps: seq<Step>, gotten: seq<Task>)
    requires Inv(c, s) && IsRun(c, s, steps) && InOrder(c, s, gotten)
    ensures InOrder(c, Final(c, s, steps), gotten + Gotten(c, s, steps))
    decreases |steps|
  {
    hide Inv, InOrder, Apply, Enabled, Got;
    if steps == [] {
      PlusEmpty(gotten);
    } else {
      var first := Got(c, s, steps[0]);
      StepInv(c, s, steps[0]);
      StepInOrder(c, s, steps[0], gotten);
      RunInOrder(c, Apply(c, s, steps[0]), steps[1..], gotten + first);
      Assoc(gotten, first, Gotten(c, Apply(c, s, steps[0]), steps[1..]));
    }
  }

  /** However many workers there are and however they interleave, the tasks are
      taken in the order in which they were added, each by one worker. */
  lemma TakenInOrder(c: Config, steps: seq<Step>)
    requires IsRun(c, Initial(c), steps)
    ensures var s := Final(c, Initial(c), steps);
            Gotten(c, Initial(c), steps) + s.queue == c.tasks[..Added(c, s)]
  {
    hide IsRun, Final, Gotten;
    InitialInv(c);
    assert c.tasks[..0] == [];
    RunInOrder(c, Initial(c), steps, []);
    PlusEmpty(Gotten(c, Initial(c), steps));
  }

  /** With a single worker: what it has executed, then what it has in hand. */
  predicate OneByOne(s: Pool, gotten: seq<Task>) {
    |s.workers| == 1 && gotten == s.log + if s.workers[0].Running? then [s.workers[0].task] else []
  }

  lemma StepOneByOne(c: Config, s: Pool, step: Step, gotten: seq<Task>)
    requires Inv(c, s) && Enabled(c, s, step) && OneByOne(s, gotten)
    ensures OneByOne(Apply(c, s, step), gotten + Got(c, s, step))
  {
    hide Taken, Busy, Conserved;
    PlusEmpty(gotten);
    PlusEmpty(s.log);
    if step.Execute? {
      PlusEmpty(s.log + [s.workers[0].task]);
    }
  }

  lemma {:induction false} RunOneByOne(c: Config, s: Pool, steps: seq<Step>, gotten: seq<Task>)
    requires Inv(c, s) && IsRun(c, s, steps) && OneByOne(s, gotten)
    ensures OneByOne(Final(c, s, steps), gotten + Gotten(c, s, steps))
    decreases |steps|
  {
    hide Inv, OneByOne, Apply, Enabled, Got;
    if steps == [] {
      PlusEmpty(gotten);
    } else {
      var first := Got(c, s, steps[0]);
      StepInv(c, s, steps[0]);
      StepOneByOne(c, s, steps[0], gotten);
      RunOneByOne(c, Apply(c, s, steps[0]), steps[1..], gotten + first);
      Assoc(gotten, first, Gotten(c, Apply(c, s, steps[0]), steps[1..]));
    }
  }

  /** A single worker executes the tasks in the order in which they were added:
      at any time those executed are the first ones, and all when
      wait_completion returns. */
  lemma OneWorkerInOrder(c: Config, steps: seq<Step>)
    requires IsRun(c, Initial(c), steps) && c.numWorkers == 1
    ensures var s := Final(c, Initial(c), steps);
            s.log <= c.tasks && (s.main == Returned ==> s.log == c.tasks)
  {
    hide IsRun, Final, Gotten;
    var s := Final(c, Initial(c), steps);
    InitialInv(c);
    RunOneByOne(c, Initial(c), steps, []);
    PlusEmpty(Gotten(c, Initial(c), steps));
    TakenInOrder(c, steps);
    assert s.log <= Gotten(c, Initial(c), steps) <= c.tasks;
    if s.main == Returned {
      ReturnsWhenDone(c, steps);
      assert |multiset(s.log)| == |s.log| && |multiset(c.tasks)| == |c.tasks|;
    }
  }
}
