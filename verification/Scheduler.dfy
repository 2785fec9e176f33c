/** kernel/scheduler/task.c: the task ring as linked objects. */
module Scheduler {
  import opened TaskRing

  class Task {
    var pid: nat
    var state: TaskState
    var next: Task?
    var rsp: nat
    const stackBase: nat

    constructor (pid: nat, state: TaskState, base: nat, rsp: nat)
      ensures this.pid == pid && this.state == state && stackBase == base && this.rsp == rsp && next == null
    {
      this.pid, this.state, next, this.rsp, stackBase := pid, state, null, rsp, base;
    }
  }

  class TaskList {
    var currentTask: Task?
    var taskList: Task?
    var nextPid: nat
    ghost var ring: seq<Task>
    ghost var cur: nat

    /** The links make one cycle through all tasks, starting at task_list. */
    ghost predicate Linked()
      reads this, ring
    {
      && 0 < |ring| && taskList == ring[0]
      && (forall i :: 0 <= i < |ring| ==> LinkOk(i))
      && (forall i, j :: 0 <= i < j < |ring| ==> ring[i] != ring[j])
    }

    ghost predicate LinkOk(i: nat)
      requires i < |ring|
      reads this, ring
    {
      ring[i].next == ring[if i + 1 < |ring| then i + 1 else 0]
    }

    ghost predicate Valid()
      reads this, ring
    {
      Linked() && cur < |ring| && currentTask == ring[cur] && TaskRing.Inv(State())
    }

    ghost function State(): Ring
      reads this, ring
    {
      Ring(seq(|ring|, i requires 0 <= i < |ring| reads this, ring => ring[i].state), cur)
    }

    /** scheduler_init */
    constructor ()
      ensures Valid() && State() == Ring([Running], 0) && nextPid == 1 && ring[0].pid == 0 && fresh(ring)
    {
      var main := new Task(0, Running, 0, 0);
      main.next := main;
      currentTask, taskList, nextPid := main, main, 1;
      ring, cur := [main], 0;
    }

    /** The loop of task_create: from task_list to the task that links back to it. */
    method FindLast() returns (last: Task)
      requires Linked()
      ensures last == ring[|ring| - 1]
    {
      last := taskList;
      ghost var k := 0;
      while last.next != taskList
        invariant k < |ring| && last == ring[k]
        decreases |ring| - k
      {
        assert LinkOk(k);
        last := last.next;
        k := k + 1;
      }
      assert LinkOk(k);
    }

    /** task_create, given the stack kmalloc returned and the stack pointer below the initial frame. */
    method TaskCreate(stackBase: nat, rsp: nat) returns (t: Task)
      requires Valid()
      modifies this, ring[|ring| - 1]
      ensures Valid() && State() == Step(old(State()), CreateOp)
      ensures ring == old(ring) + [t] && fresh(t) && t.pid == old(nextPid) && nextPid == old(nextPid) + 1
      ensures t.stackBase == stackBase && t.rsp == rsp && cur == old(cur)
      ensures forall i :: 0 <= i < |old(ring)| ==> ring[i].rsp == old(ring[i].rsp) && ring[i].pid == old(ring[i].pid)
    {
      ghost var before := State();
      StepKeepsInv(before, CreateOp);
      t := new Task(nextPid, Ready, stackBase, rsp);
      nextPid := nextPid + 1;
      LinksKept();
      var last := FindLast();
      last.next := t;
      t.next := taskList;
      ring := ring + [t];
      forall i | 0 <= i < |ring| ensures LinkOk(i) {
        if i < |old(ring)| - 1 { assert old(LinkOk(i)); }
      }
      assert State().states == before.states + [Ready];
    }

    /** Changing states leaves the links alone. */
    twostate lemma LinksKept()
      requires old(Linked()) && ring == old(ring) && taskList == old(taskList)
      requires forall i :: 0 <= i < |ring| ==> ring[i].next == old(ring[i].next)
      ensures Linked()
    {
      forall i | 0 <= i < |ring| ensures LinkOk(i) {
        assert old(LinkOk(i));
      }
    }

    ghost predicate OthersIdle()
      requires cur < |ring|
      reads this, ring
    {
      forall i :: 0 <= i < |ring| && i != cur ==> ring[i].state != Running
    }

    lemma OnlyCurrentRuns()
      requires Valid()
      ensures OthersIdle()
    {
      forall i | 0 <= i < |ring| && i != cur ensures ring[i].state != Running {
        assert State().states[i] == ring[i].state;
      }
    }

    lemma NextAfter(k: nat)
      requires Linked() && cur < |ring| && k < |ring|
      ensures ring[After(State(), k)].next == ring[After(State(), k + 1)]
    {
      AfterNext(State(), k);
      hide After;
      assert LinkOk(After(State(), k));
    }

    /** The search loop of yield. */
    method FindNext() returns (next: Task)
      requires Linked() && cur < |ring| && currentTask == ring[cur] && OthersIdle()
      ensures next == ring[Target(State())]
    {
      hide After, Linked;
      ghost var r, k := State(), 1;
      FullCircle(r);
      NextAfter(0);
      next := currentTask.next;
      while next.state != Ready && next != currentTask
        invariant 1 <= k <= |ring| && next == ring[After(r, k)]
        invariant Search(r, 1) == Search(r, k)
        decreases |ring| - k
      {
        // only the current task can be Running, so the break of the source is never taken
        assert next.state != Running;
        NextAfter(k);
        next := next.next;
        k := k + 1;
      }
      if k < |ring| && next == currentTask { Met(k); }
    }

    lemma Met(k: nat)
      requires Linked() && cur < |ring| && 0 < k < |ring|
      ensures ring[After(State(), k)] != ring[cur]
    {
      AfterElsewhere(State(), k);
      hide After;
    }

    /** yield.  Returns the tasks to switch between, equal if there is no switch. */
    method Yield() returns (previous: Task, next: Task)
      requires Linked() && cur < |ring| && currentTask == ring[cur] && OthersIdle()
      modifies this`currentTask, this`cur, ring
      ensures Linked() && cur < |ring| && currentTask == ring[cur]
      ensures State() == TaskRing.Yield(old(State()))
      ensures previous == ring[old(cur)] && next == ring[cur]
      ensures forall i :: 0 <= i < |ring| ==> ring[i].rsp == old(ring[i].rsp) && ring[i].pid == old(ring[i].pid)
    {
      previous := currentTask;
      next := FindNext();
      ghost var r := State();
      if next != currentTask {
        if previous.state == Running { previous.state := Ready; }
        next.state := Running;
        currentTask := next;
        cur := Target(r);
      }
      LinksKept();
      assert State().states == TaskRing.Yield(r).states;
    }

    /** task_exit up to its idle loop. */
    method TaskExit() returns (previous: Task, next: Task)
      requires Valid()
      modifies this`currentTask, this`cur, ring
      ensures Valid() && State() == Step(old(State()), ExitOp)
      ensures previous == ring[old(cur)] && next == ring[cur]
    {
      StepKeepsInv(State(), ExitOp);
      OnlyCurrentRuns();
      ghost var r := State();
      currentTask.state := Dead;
      LinksKept();
      assert State().states == Kill(r).states;
      previous, next := Yield();
    }
  }
}
