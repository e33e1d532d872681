/** One machine and its rows in the tasks table.  Tasks are never deleted: a queued task becomes
    running, finished or canceled, and the queue is whatever is still queued, in id order. */
module VmService {
  import opened Util
  import opened VmLifecycle
  import VmQuota

  datatype Status = Queued | InProgress | Finished | Canceled

  datatype Task = Task(action: Action, status: Status)

  /** `tasks.queued`. */
  function QueuedActions(tasks: seq<Task>): seq<Action> {
    if tasks == [] then []
    else
      var before, last := QueuedActions(tasks[..|tasks| - 1]), tasks[|tasks| - 1];
      if last.status.Queued? then before + [last.action] else before
  }

  lemma {:induction false} QueuedOfConcat(xs: seq<Task>, ys: seq<Task>)
    ensures QueuedActions(xs + ys) == QueuedActions(xs) + QueuedActions(ys)
  {
    if ys == [] {
      assert xs + ys == xs;
    } else {
      var n := |ys| - 1;
      assert (xs + ys)[..|xs + ys| - 1] == xs + ys[..n];
      QueuedOfConcat(xs, ys[..n]);
    }
  }

  lemma {:induction false} NoneQueued(tasks: seq<Task>)
    requires forall k :: 0 <= k < |tasks| ==> !tasks[k].status.Queued?
    ensures QueuedActions(tasks) == []
  {
    if tasks != [] {
      NoneQueued(tasks[..|tasks| - 1]);
    }
  }

  /** Taking the first queued task out of the queue leaves the rest of it. */
  lemma FirstQueuedLeaves(tasks: seq<Task>, i: nat, status: Status)
    requires i < |tasks| && tasks[i].status.Queued? && !status.Queued?
    requires forall k :: 0 <= k < i ==> !tasks[k].status.Queued?
    ensures QueuedActions(tasks) == [tasks[i].action] + QueuedActions(tasks[i := tasks[i].(status := status)])
  {
    var head, tail := tasks[i], tasks[i + 1..];
    var gone := head.(status := status);
    assert tasks == tasks[..i] + ([head] + tail);
    assert tasks[i := gone] == tasks[..i] + ([gone] + tail);
    QueuedOfConcat(tasks[..i], [head] + tail);
    QueuedOfConcat([head], tail);
    QueuedOfConcat(tasks[..i], [gone] + tail);
    QueuedOfConcat([gone], tail);
    NoneQueued(tasks[..i]);
    assert [head][..0] == [] && [gone][..0] == [];
  }

  /** The first queued row, if there is one, has the new status; no other row changes. */
  ghost predicate HeadTaken(was: seq<Task>, now: seq<Task>, status: Status) {
    (QueuedActions(was) == [] ==> now == was) &&
    (QueuedActions(was) != [] ==>
       exists i :: 0 <= i < |was| && was[i].status.Queued? && (forall k :: 0 <= k < i ==> !was[k].status.Queued?) &&
         now == was[i := was[i].(status := status)])
  }

  class VmRecord {
    const id: nat
    const cpus: nat
    const memory: nat
    var state: State
    var tasks: seq<Task>

    function AsVm(): Vm
      reads this
    {
      Vm(id, state, QueuedActions(tasks), cpus, memory)
    }

    /** `svc_create` up to the start option. */
    constructor (id: nat, cpus: nat, memory: nat)
      ensures AsVm() == NewVm(id, cpus, memory)
    {
      this.id, this.cpus, this.memory := id, cpus, memory;
      state := Pending;
      tasks := [Task(CreateVm, Queued)];
      new;
      assert tasks[..0] == [];
    }

    method AddTask(a: Action)
      modifies this`tasks
      ensures tasks == old(tasks) + [Task(a, Queued)]
      ensures AsVm() == Enqueue(old(AsVm()), a)
    {
      tasks := tasks + [Task(a, Queued)];
      assert tasks[..|tasks| - 1] == old(tasks);
    }

    /** `queue_action`, with the action list filtered by what the machine's pool has left. */
    method QueueAction(a: Action, pool: VmQuota.Pool) returns (ok: bool)
      modifies this`tasks
      ensures ok == VmQuota.InActionList(pool, old(AsVm()), a)
      ensures ok <==> VmQuota.MayQueue(pool, old(AsVm()), a)
      ensures ok ==> tasks == old(tasks) + [Task(a, Queued)]
      ensures AsVm() == if ok then Happen(old(AsVm()), Event.Queue(a)) else old(AsVm())
      ensures !ok ==> tasks == old(tasks)
    {
      var pending := GetPendingState(AsVm());
      var actions := ValidActions(pending, None);
      VmQuota.ActionListIff(pool, AsVm(), a);
      var fits := VmQuota.ResourcesForStart(pool.vms, pool.quota, pool.hosts, AsVm(), true);
      ok := a in actions && (fits || a !in {StartVm, RestoreVm});
      if ok {
        AddTask(a);
      }
    }

    /** The restart option of `svc_update`. */
    method QueueRestart() returns (ok: bool)
      modifies this`tasks
      ensures ok == (PendingState(old(AsVm())) == Running)
      ensures AsVm() == Happen(old(AsVm()), Restart)
      ensures tasks == old(tasks) + if ok then [Task(ShutdownVm, Queued), Task(StartVm, Queued)] else []
    {
      var pending := GetPendingState(AsVm());
      var actions := ValidActions(pending, None);
      ok := ShutdownVm in actions;
      if ok {
        AddTask(ShutdownVm);
        AddTask(StartVm);
      }
    }

    /** `svc_cancel_queued_tasks`: every queued row turns canceled, no other row changes. */
    method CancelQueuedTasks()
      modifies this`tasks
      ensures AsVm() == Happen(old(AsVm()), CancelAll)
      ensures |tasks| == |old(tasks)|
      ensures forall k :: 0 <= k < |tasks| ==>
                tasks[k] == if old(tasks[k]).status.Queued? then old(tasks[k]).(status := Canceled) else old(tasks[k])
    {
      ghost var was := tasks;
      var i := 0;
      while i < |tasks|
        invariant 0 <= i <= |tasks| == |was|
        invariant forall k :: 0 <= k < i ==>
          tasks[k] == if was[k].status.Queued? then was[k].(status := Canceled) else was[k]
        invariant forall k :: i <= k < |was| ==> tasks[k] == was[k]
      {
        if tasks[i].status.Queued? {
          tasks := tasks[i := tasks[i].(status := Canceled)];
        }
        i := i + 1;
      }
      NoneQueued(tasks);
    }

    method FirstQueued() returns (i: nat)
      ensures i <= |tasks| && (i == |tasks| <==> QueuedActions(tasks) == [])
      ensures i < |tasks| ==> tasks[i].status.Queued?
      ensures forall k :: 0 <= k < i ==> !tasks[k].status.Queued?
    {
      i := 0;
      while i < |tasks| && !tasks[i].status.Queued?
        invariant i <= |tasks|
        invariant forall k :: 0 <= k < i ==> !tasks[k].status.Queued?
      {
        i := i + 1;
      }
      if i == |tasks| {
        NoneQueued(tasks);
      } else {
        FirstQueuedLeaves(tasks, i, Finished);
      }
    }

    /** The daemon finishes the first queued task.  A shutdown or a resume may do so without saving
        the machine, whose new state the bus then reports later. */
    method CompleteHead(saved: bool)
      modifies this
      ensures AsVm() == Happen(old(AsVm()), if saved then Complete else Unsaved)
      ensures HeadTaken(old(tasks), tasks, Finished)
      ensures state == if saved && QueuedActions(old(tasks)) != [] then Actions(QueuedActions(old(tasks))[0]).success
                       else old(state)
    {
      var i := FirstQueued();
      if i < |tasks| {
        FirstQueuedLeaves(tasks, i, Finished);
        if saved {
          state := Actions(tasks[i].action).success;
        }
        tasks := tasks[i := tasks[i].(status := Finished)];
      }
    }

    /** The first queued task is taken up and the machine turns transitional. */
    method BeginHead()
      modifies this
      ensures AsVm() == Happen(old(AsVm()), Begin)
      ensures HeadTaken(old(tasks), tasks, InProgress)
      ensures state == if QueuedActions(old(tasks)) != [] then Actions(QueuedActions(old(tasks))[0]).running
                       else old(state)
    {
      var i := FirstQueued();
      if i < |tasks| {
        FirstQueuedLeaves(tasks, i, InProgress);
        state := Actions(tasks[i].action).running;
        tasks := tasks[i := tasks[i].(status := InProgress)];
      }
    }
  }
}
