/** The client's tasks: each is invoked when it is due and none of its earlier
    publishes is unfinished. */
module TaskManager {
  import opened Bytes

  /** One entry of the task list; the last entry only ends it. */
  datatype Task = Task(interval: nat, prevTime: nat, count: Byte)

  function Suspend(counts: seq<Byte>, index: nat): seq<Byte>
    requires index < |counts|
  {
    counts[index := (counts[index] as int + 1) % 256]
  }

  function Done(counts: seq<Byte>, index: nat): seq<Byte>
    requires index < |counts|
  {
    if counts[index] > 0 then counts[index := counts[index] - 1] else counts
  }

  predicate Due(t: Task, now: nat) {
    t.prevTime + t.interval < now && t.count == 0
  }

  class TaskManager {
    var task: seq<Task>
    var index: nat

    constructor (tasks: seq<Task>)
      ensures task == tasks && index == 0
    {
      task, index := tasks, 0;
    }

    ghost function Counts(): (c: seq<Byte>)
      reads this
      ensures |c| == |task|
    {
      CountsOf(task)
    }

    method SuspendTask(i: nat)
      requires i < |task|
      modifies this`task
      ensures |task| == |old(task)| && Counts() == Suspend(old(Counts()), i)
    {
      task := task[i := task[i].(count := (task[i].count as int + 1) % 256)];
    }

    method DoneTask(i: nat)
      requires i < |task|
      modifies this`task
      ensures |task| == |old(task)| && Counts() == Done(old(Counts()), i)
    {
      if task[i].count > 0 {
        task := task[i := task[i].(count := task[i].count - 1)];
      }
    }

    /** One round of run(): `added` says how many unfinished publishes the callback of
        each task leaves behind when it is invoked. */
    method Round(now: nat, added: seq<Byte>) returns (invoked: set<nat>)
      requires |task| > 0 && |added| == |task|
      modifies this
      ensures |task| == |old(task)| && index == |task| - 1
      ensures invoked == set i | 0 <= i < |task| - 1 && Due(old(task)[i], now)
      ensures forall i :: 0 <= i < |task| - 1 ==>
                (i in invoked <==> now > old(task)[i].prevTime + old(task)[i].interval && old(task)[i].count == 0)
      ensures forall i :: 0 <= i < |task| ==>
                task[i] == if i in invoked then old(task)[i].(prevTime := now, count := added[i]) else old(task)[i]
    {
      invoked := {};
      index := 0;
      while index < |task| - 1
        invariant 0 <= index <= |task| - 1 && |task| == |old(task)|
        invariant invoked == set i | 0 <= i < index && Due(old(task)[i], now)
        invariant forall i :: 0 <= i < |task| ==>
                    task[i] == if i in invoked then old(task)[i].(prevTime := now, count := added[i]) else old(task)[i]
      {
        assert task[index] == old(task)[index];
        if task[index].prevTime + task[index].interval < now && task[index].count == 0 {
          task := task[index := task[index].(prevTime := now, count := added[index])];
          invoked := invoked + {index};
        }
        index := index + 1;
      }
    }
  }

  function CountsOf(tasks: seq<Task>): (c: seq<Byte>)
    ensures |c| == |tasks| && forall i :: 0 <= i < |c| ==> c[i] == tasks[i].count
  {
    seq(|tasks|, i requires 0 <= i < |tasks| => tasks[i].count)
  }
}
