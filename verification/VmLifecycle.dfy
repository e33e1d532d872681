/** The life of a virtual machine: its recorded state, the queue of tasks waiting for it, and
    the state it will be in once the queue has run. */
module VmLifecycle {
  import opened Util

  datatype State =
    | Pending | Creating | Running | Unreachable
    | PoweringOff | Stopping | Stopped | Starting
    | Suspending | Suspended | Resuming
    | Saving | Saved | Restoring | Migrating
    | CreateFailed | Invalid

  datatype Action =
    | CreateVm | StartVm | ShutdownVm | PoweroffVm
    | SuspendVm | ResumeVm | SaveVm | RestoreVm | MigrateVm

  datatype Transition = Transition(start: State, running: State, success: State, failure: State)

  /** EFFECTIVE_STATE: a transitional state counts as the state it leads to. */
  function Effective(s: State): State {
    match s
    case Creating => Stopped
    case Stopping => Stopped
    case PoweringOff => Stopped
    case Starting => Running
    case Suspending => Suspended
    case Resuming => Running
    case Saving => Saved
    case Restoring => Running
    case Migrating => Running
    case _ => s
  }

  /** RUNNING_STATES: the states in which a machine uses up its pool's quota. */
  predicate ConsumesResources(s: State) {
    s.Running? || s.Suspended? || s.PoweringOff? || s.Stopping? || s.Starting? || s.Suspending? || s.Resuming? ||
    s.Saving? || s.Restoring? || s.Migrating?
  }

  /** The ACTIONS table. */
  function Actions(a: Action): Transition {
    match a
    case CreateVm => Transition(Pending, Creating, Stopped, CreateFailed)
    case StartVm => Transition(Stopped, Starting, Running, Stopped)
    case ShutdownVm => Transition(Running, Stopping, Stopped, Running)
    case PoweroffVm => Transition(Running, PoweringOff, Stopped, Running)
    case SuspendVm => Transition(Running, Suspending, Suspended, Running)
    case ResumeVm => Transition(Suspended, Resuming, Running, Suspended)
    case SaveVm => Transition(Running, Saving, Saved, Running)
    case RestoreVm => Transition(Saved, Restoring, Running, Saved)
    case MigrateVm => Transition(Running, Migrating, Running, Running)
  }

  const ALL_ACTIONS: seq<Action> :=
    [CreateVm, StartVm, ShutdownVm, PoweroffVm, SuspendVm, ResumeVm, SaveVm, RestoreVm, MigrateVm]

  datatype Vm = Vm(id: nat, state: State, queue: seq<Action>, cpus: nat, memory: nat)

  /** Where the queue leads from state `s`; `Invalid` as soon as a task does not fit. */
  function After(s: State, queue: seq<Action>): State
    decreases |queue|
  {
    if queue == [] then s
    else if Actions(queue[0]).start != s then Invalid
    else After(Actions(queue[0]).success, queue[1..])
  }

  function PendingState(vm: Vm): State {
    After(Effective(vm.state), vm.queue)
  }

  /** `get_pending_state`, with its early return. */
  method GetPendingState(vm: Vm) returns (pending: State)
    ensures pending == PendingState(vm)
  {
    pending := Effective(vm.state);
    var i := 0;
    while i < |vm.queue|
      invariant 0 <= i <= |vm.queue|
      invariant After(pending, vm.queue[i..]) == PendingState(vm)
    {
      if Actions(vm.queue[i]).start != pending {
        return Invalid;
      }
      pending := Actions(vm.queue[i]).success;
      i := i + 1;
    }
  }

  /** `valid_actions_for_vm_state`: with a user, an action is also subject to a privilege,
      here the set of actions the user's privileges cover. */
  method ValidActions(s: State, granted: Option<set<Action>>) returns (actions: seq<Action>)
    ensures forall a :: a in actions <==> Actions(a).start == s && (granted.Some? ==> a in granted.value)
    ensures forall j, k :: 0 <= j < k < |actions| ==> actions[j] != actions[k]
  {
    actions := [];
    var i := 0;
    while i < |ALL_ACTIONS|
      invariant 0 <= i <= |ALL_ACTIONS|
      invariant forall a :: a in actions <==>
        a in ALL_ACTIONS[..i] && Actions(a).start == s && (granted.Some? ==> a in granted.value)
      invariant forall j, k :: 0 <= j < k < |actions| ==> actions[j] != actions[k]
    {
      var a := ALL_ACTIONS[i];
      assert ALL_ACTIONS[..i + 1] == ALL_ACTIONS[..i] + [a];
      if Actions(a).start == s && (granted.Some? ==> a in granted.value) {
        assert a !in ALL_ACTIONS[..i];
        actions := actions + [a];
      }
      i := i + 1;
    }
    assert ALL_ACTIONS[..i] == ALL_ACTIONS;
    forall a: Action
      ensures a in ALL_ACTIONS
    {
      AllActionsListed(a);
    }
  }

  lemma AllActionsListed(a: Action)
    ensures a in ALL_ACTIONS
  {}

  // ---------- what happens to one machine ----------

  datatype Event =
    | Queue(action: Action)  // queue_action, or the start queued at creation or update
    | Restart                // shutdown and start queued together by an update
    | CancelAll
    | Begin                  // the head task leaves the queue, the machine turns transitional
    | Complete               // the head task succeeds and leaves the queue
    | Unsaved                // the head task leaves the queue, finished or failed, and the machine is not saved
    | Settle                 // a transitional machine reaches the success state

  function Enqueue(vm: Vm, a: Action): Vm {
    vm.(queue := vm.queue + [a])
  }

  /** An event that its guard rejects changes nothing.  A start or restore may also be refused
      for want of quota, which is modelled with the pool. */
  function Happen(vm: Vm, e: Event): Vm {
    match e
    case Queue(a) => if Actions(a).start == PendingState(vm) then Enqueue(vm, a) else vm
    case Restart =>
      if Actions(ShutdownVm).start == PendingState(vm) then Enqueue(Enqueue(vm, ShutdownVm), StartVm) else vm
    case CancelAll => vm.(queue := [])
    case Begin => if vm.queue == [] then vm else vm.(state := Actions(vm.queue[0]).running, queue := vm.queue[1..])
    case Complete => if vm.queue == [] then vm else vm.(state := Actions(vm.queue[0]).success, queue := vm.queue[1..])
    case Unsaved => if vm.queue == [] then vm else vm.(queue := vm.queue[1..])
    case Settle => vm.(state := Effective(vm.state))
  }

  function Life(vm: Vm, events: seq<Event>): Vm {
    if events == [] then vm else Happen(Life(vm, events[..|events| - 1]), events[|events| - 1])
  }

  /** What `svc_create` saves before it looks at the start option. */
  function NewVm(id: nat, cpus: nat, memory: nat): Vm {
    Vm(id, Pending, [CreateVm], cpus, memory)
  }

  // ---------- results ----------

  lemma {:induction false} AfterAppend(s: State, queue: seq<Action>, a: Action)
    requires After(s, queue) == Actions(a).start
    ensures After(s, queue + [a]) == Actions(a).success
    decreases |queue|
  {
    if queue == [] {
      assert [a] == [a] + [];
    } else {
      assert (queue + [a])[1..] == queue[1..] + [a];
      AfterAppend(Actions(queue[0]).success, queue[1..], a);
    }
  }

  /** The state a transitional state stands for is the success state of its action. */
  lemma EffectiveRunningIsSuccess(a: Action)
    ensures Effective(Actions(a).running) == Actions(a).success
    ensures Effective(Actions(a).success) == Actions(a).success
  {}

  /** Executing the head task, or just beginning it, does not change where the queue leads. */
  lemma ExecutionKeepsPendingState(vm: Vm)
    requires PendingState(vm) != Invalid
    ensures PendingState(Happen(vm, Begin)) == PendingState(vm)
    ensures PendingState(Happen(vm, Complete)) == PendingState(vm)
    ensures PendingState(Happen(vm, Settle)) == PendingState(vm)
  {
    if vm.queue != [] {
      EffectiveRunningIsSuccess(vm.queue[0]);
    }
  }

  /** What each event does to the state and the queue. */
  lemma EventOutcome(vm: Vm, e: Event)
    ensures Happen(vm, e) == vm.(state := Happen(vm, e).state, queue := Happen(vm, e).queue)
    ensures Happen(vm, e).queue ==
            match e
            case Queue(a) => if Actions(a).start == PendingState(vm) then vm.queue + [a] else vm.queue
            case Restart => if PendingState(vm) == Running then vm.queue + [ShutdownVm, StartVm] else vm.queue
            case CancelAll => []
            case Settle => vm.queue
            case _ => if vm.queue == [] then [] else vm.queue[1..]
    ensures Happen(vm, e).state ==
            match e
            case Begin => if vm.queue == [] then vm.state else Actions(vm.queue[0]).running
            case Complete => if vm.queue == [] then vm.state else Actions(vm.queue[0]).success
            case Settle => Effective(vm.state)
            case _ => vm.state
  {
    if e.Restart? {
      assert vm.queue + [ShutdownVm] + [StartVm] == vm.queue + [ShutdownVm, StartVm];
    }
  }

  /** Taking the head up and then reaching its end is completing it. */
  lemma BeginThenSettleCompletes(vm: Vm)
    requires vm.queue != []
    ensures Happen(Happen(vm, Begin), Settle) == Happen(vm, Complete)
  {
    EffectiveRunningIsSuccess(vm.queue[0]);
  }

  function Completions(n: nat): (events: seq<Event>)
    ensures |events| == n
  {
    if n == 0 then [] else Completions(n - 1) + [Complete]
  }

  /** The pending state is not only a promise: completing the whole queue brings the machine there. */
  lemma {:induction false} QueueDrainsToPendingState(vm: Vm, n: nat)
    requires PendingState(vm) != Invalid && n <= |vm.queue|
    ensures var after := Life(vm, Completions(n));
            after.queue == vm.queue[n..] && PendingState(after) == PendingState(vm) &&
            (n > 0 ==> Effective(after.state) == after.state) &&
            (0 < n == |vm.queue| ==> after.state == PendingState(vm))
  {
    if n > 0 {
      QueueDrainsToPendingState(vm, n - 1);
      var before := Life(vm, Completions(n - 1));
      assert Completions(n)[..n - 1] == Completions(n - 1);
      EventOutcome(before, Complete);
      ExecutionKeepsPendingState(before);
      EffectiveRunningIsSuccess(before.queue[0]);
      assert before.queue[1..] == vm.queue[n..];
    }
  }

  lemma QueueLeadsToSuccess(vm: Vm, a: Action)
    requires Actions(a).start == PendingState(vm)
    ensures PendingState(Happen(vm, Queue(a))) == Actions(a).success
  {
    AfterAppend(Effective(vm.state), vm.queue, a);
  }

  lemma RestartLeadsBackToRunning(vm: Vm)
    requires PendingState(vm) == Running
    ensures PendingState(Happen(vm, Restart)) == Running
  {
    AfterAppend(Effective(vm.state), vm.queue, ShutdownVm);
    AfterAppend(Effective(vm.state), vm.queue + [ShutdownVm], StartVm);
  }

  /** Task `i` of the queue starts in the state the earlier ones lead to. */
  predicate Fits(s: State, queue: seq<Action>, i: nat)
    requires i < |queue|
  {
    Actions(queue[i]).start == if i == 0 then s else Actions(queue[i - 1]).success
  }

  ghost predicate Chained(s: State, queue: seq<Action>) {
    forall i :: 0 <= i < |queue| ==> Fits(s, queue, i)
  }

  /** The fold with its early return finds a valid state exactly when every task fits. */
  lemma {:induction false} ValidIffChained(s: State, queue: seq<Action>)
    requires s != Invalid
    ensures After(s, queue) != Invalid <==> Chained(s, queue)
    decreases |queue|
  {
    if queue != [] {
      var next, rest := Actions(queue[0]).success, queue[1..];
      ValidIffChained(next, rest);
      assert Fits(s, queue, 0) <==> Actions(queue[0]).start == s;
      assert forall i :: 0 <= i < |rest| ==> Fits(next, rest, i) == Fits(s, queue, i + 1);
      if Chained(s, queue) {
        assert Chained(next, rest);
      } else if Actions(queue[0]).start == s {
        var i :| 0 <= i < |queue| && !Fits(s, queue, i);
        assert !Fits(next, rest, i - 1);
      }
    }
  }

  /** When the head leaves the queue and the machine stays as it was, because the work failed or its
      outcome is only reported later, what is queued behind it is still a chain exactly when there
      is nothing, or when the head was a migration. */
  lemma FailedHeadKeepsChainIff(vm: Vm)
    requires vm.queue != [] && PendingState(vm) != Invalid
    ensures PendingState(Happen(vm, Unsaved)) != Invalid <==> |vm.queue| == 1 || vm.queue[0] == MigrateVm
    ensures vm.queue[0] != CreateVm ==> Actions(vm.queue[0]).failure == Effective(vm.state)
    ensures PendingState(Happen(vm, Unsaved)) ==
            if |vm.queue| == 1 then Effective(vm.state)
            else if vm.queue[0] == MigrateVm then PendingState(vm)
            else Invalid
  {
    var head, rest := vm.queue[0], vm.queue[1..];
    assert After(Actions(head).success, rest) != Invalid;
    if rest != [] {
      assert Actions(rest[0]).start == Actions(head).success;
    }
  }

  predicate KeepsChain(vm: Vm, e: Event) {
    e.Unsaved? ==> |vm.queue| <= 1 || vm.queue[0] == MigrateVm
  }

  lemma EventKeepsChainIff(vm: Vm, e: Event)
    requires vm.state != Invalid && PendingState(vm) != Invalid
    ensures Happen(vm, e).state != Invalid
    ensures PendingState(Happen(vm, e)) != Invalid <==> KeepsChain(vm, e)
  {
    match e
    case Queue(a) =>
      if Actions(a).start == PendingState(vm) {
        QueueLeadsToSuccess(vm, a);
      }
    case Restart =>
      if PendingState(vm) == Running {
        RestartLeadsBackToRunning(vm);
      }
    case CancelAll =>
    case Begin => ExecutionKeepsPendingState(vm);
    case Complete => ExecutionKeepsPendingState(vm);
    case Unsaved =>
      if vm.queue != [] {
        FailedHeadKeepsChainIff(vm);
      }
    case Settle => ExecutionKeepsPendingState(vm);
  }

  predicate AllKeepChain(vm: Vm, events: seq<Event>) {
    events == [] ||
    var init, last := events[..|events| - 1], events[|events| - 1];
    AllKeepChain(vm, init) && KeepsChain(Life(vm, init), last)
  }

  predicate ValidThroughout(vm: Vm, events: seq<Event>) {
    PendingState(Life(vm, events)) != Invalid &&
    (events != [] ==> ValidThroughout(vm, events[..|events| - 1]))
  }

  /** However a created machine is used, its queue stays a chain exactly as long as no head leaves
      it unsaved in front of others, unless it is a migration. */
  lemma {:induction false} QueueStaysChainedIff(id: nat, cpus: nat, memory: nat, events: seq<Event>)
    ensures var vm := NewVm(id, cpus, memory);
            Life(vm, events).state != Invalid && (ValidThroughout(vm, events) <==> AllKeepChain(vm, events))
  {
    var vm := NewVm(id, cpus, memory);
    if events == [] {
      assert PendingState(vm) == Stopped;
    } else {
      var init, last := events[..|events| - 1], events[|events| - 1];
      QueueStaysChainedIff(id, cpus, memory, init);
      if ValidThroughout(vm, init) {
        EventKeepsChainIff(Life(vm, init), last);
      } else {
        NeverInvalidState(Life(vm, init), last);
      }
    }
  }

  lemma NeverInvalidState(vm: Vm, e: Event)
    requires vm.state != Invalid
    ensures Happen(vm, e).state != Invalid
  {
    if vm.queue != [] {
      EffectiveRunningIsSuccess(vm.queue[0]);
    }
  }

  /** So over runs in which every head is saved, the queue is always a chain. */
  lemma QueueIsAlwaysChained(id: nat, cpus: nat, memory: nat, events: seq<Event>)
    requires AllKeepChain(NewVm(id, cpus, memory), events)
    ensures var vm := Life(NewVm(id, cpus, memory), events);
            PendingState(vm) != Invalid && Chained(Effective(vm.state), vm.queue)
  {
    var vm := Life(NewVm(id, cpus, memory), events);
    QueueStaysChainedIff(id, cpus, memory, events);
    ValidIffChained(Effective(vm.state), vm.queue);
  }

  /** The daemon saves the machine's new state before it marks its task finished.  Between the
      two saves the queue still holds what was just done; it is then a chain exactly when that
      ends where it starts, which only a migration does. */
  lemma BetweenTheTwoSaves(vm: Vm)
    requires vm.queue != [] && PendingState(vm) != Invalid
    ensures PendingState(vm.(state := Actions(vm.queue[0]).success)) != Invalid <==> vm.queue[0] == MigrateVm
  {}

  /** Both, on a machine just created: its creation saved but not yet finished, and its creation
      failed with a start queued behind it. */
  lemma NewMachineInvalid(id: nat, cpus: nat, memory: nat)
    ensures var vm := NewVm(id, cpus, memory);
            PendingState(vm.(state := Actions(vm.queue[0]).success)) == Invalid &&
            PendingState(Life(vm, [Queue(StartVm), Unsaved])) == Invalid
  {
    var vm := NewVm(id, cpus, memory);
    var started := Life(vm, [Queue(StartVm)]);
    assert [Queue(StartVm)][..0] == [] && [Queue(StartVm), Unsaved][..1] == [Queue(StartVm)];
    assert Life(vm, []) == vm && vm.queue[1..] == [];
    assert PendingState(vm) == After(Stopped, []) == Stopped;
    assert started == Happen(vm, Queue(StartVm)) == Enqueue(vm, StartVm);
    QueueLeadsToSuccess(vm, StartVm);
    FailedHeadKeepsChainIff(started);
  }

  /** On the way from one state to another a machine uses resources if it does on either side. */
  lemma TransitionsHoldResources(a: Action)
    ensures ConsumesResources(Actions(a).running) <==>
            ConsumesResources(Actions(a).start) || ConsumesResources(Actions(a).success)
  {}

  /** Start and restore are the only actions that turn a machine into a consumer of quota. */
  lemma OnlyStartAndRestoreConsume(a: Action)
    ensures !ConsumesResources(Actions(a).start) && ConsumesResources(Actions(a).success) <==>
            a == StartVm || a == RestoreVm
  {}
}
