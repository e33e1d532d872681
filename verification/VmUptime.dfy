/** Uptime accounting: the observer keeps a running total, a timestamp and an event log as a
    machine changes state; the reference is a plain sum over the periods of its history. */
module VmUptime {
  import opened Util
  import opened VmLifecycle

  /** AUDIT_RUNNING_STATES: suspended machines consume quota but not uptime. */
  predicate Up(s: State) {
    s.Running? || s.PoweringOff? || s.Stopping? || s.Starting? || s.Resuming? || s.Saving? || s.Restoring? ||
    s.Migrating?
  }

  /** AUDIT_NON_RUNNING_STATES: unreachable is neither. */
  predicate Down(s: State) {
    !Up(s) && s != Unreachable
  }

  /** Uptime and quota disagree about suspended machines only. */
  lemma UpIffConsumingAndNotSuspended(s: State)
    ensures Up(s) <==> ConsumesResources(s) && s != Suspended && s != Suspending
  {}

  datatype StateEvent = StateEvent(from: Option<State>, to: State)

  datatype Row = Row(state: State, total: int, stamp: Option<int>, events: seq<StateEvent>)

  // ---------- what the observer does ----------

  /** The latest event into the given state. */
  function LatestInto(events: seq<StateEvent>, s: State): Option<StateEvent> {
    if events == [] then None
    else if events[|events| - 1].to == s then Some(events[|events| - 1])
    else LatestInto(events[..|events| - 1], s)
  }

  predicate EnteredFromUp(events: seq<StateEvent>, s: State) {
    var e := LatestInto(events, s);
    e.Some? && e.value.from.Some? && Up(e.value.from.value)
  }

  /** The cases in which time since the timestamp is added to the total. */
  predicate AddsTime(r: Row, to: State) {
    (Up(r.state) && !Up(to)) || (r.state == Unreachable && Up(to) && EnteredFromUp(r.events, Unreachable))
  }

  /** Saving a machine in state `to`; subtracting a missing timestamp raises. */
  function Save(r: Row, to: State, now: int): Option<Row> {
    if to == r.state then Some(r)
    else
      var events := r.events + [StateEvent(Some(r.state), to)];
      if AddsTime(r, to) then
        if r.stamp.None? then None else Some(Row(to, r.total + (now - r.stamp.value), Some(now), events))
      else if Down(r.state) && Up(to) then Some(Row(to, r.total, Some(now), events))
      else Some(Row(to, r.total, r.stamp, events))
  }

  /** The change leaves a running state, or comes back to one from an unreachable period entered
      from one: the observer subtracts the timestamp. */
  predicate NeedsStamp(r: Row, to: State) {
    (Up(r.state) && !Up(to)) || (r.state == Unreachable && Up(to) && EnteredFromUp(r.events, Unreachable))
  }

  /** What saving a machine in state `to` leaves. */
  predicate AfterSave(r: Row, to: State, now: int, ok: bool, t: Row) {
    if !ok || to == r.state then t == r
    else
      t.state == to && t.events == r.events + [StateEvent(Some(r.state), to)] &&
      (NeedsStamp(r, to) ==> r.stamp.Some? && t.total == r.total + (now - r.stamp.value) && t.stamp == Some(now)) &&
      (!NeedsStamp(r, to) ==> t.total == r.total && t.stamp == if Down(r.state) && Up(to) then Some(now) else r.stamp)
  }

  /** A save raises exactly when it needs a timestamp and there is none. */
  lemma SaveOutcome(r: Row, to: State, now: int)
    ensures Save(r, to, now).None? <==> r.stamp.None? && NeedsStamp(r, to)
    ensures AfterSave(r, to, now, Save(r, to, now).Some?, if Save(r, to, now).Some? then Save(r, to, now).value else r)
  {}

  function Calculated(r: Row, now: int): int {
    if Up(r.state) then (if r.stamp.Some? then r.total + (now - r.stamp.value) else 0)
    else r.total
  }

  class VmRow {
    var state: State
    var totalUptime: int
    var totalUptimeTimestamp: Option<int>
    var events: seq<StateEvent>

    function AsRow(): Row
      reads this
    {
      Row(state, totalUptime, totalUptimeTimestamp, events)
    }

    constructor ()
      ensures AsRow() == NewRow()
    {
      state, totalUptime, totalUptimeTimestamp := Pending, 0, None;
      events := [StateEvent(None, Pending)];
    }

    /** `before_save`, the save itself and `after_save`. */
    method SaveState(to: State, now: int) returns (ok: bool)
      modifies this
      ensures ok == Save(old(AsRow()), to, now).Some?
      ensures AsRow() == if ok then Save(old(AsRow()), to, now).value else old(AsRow())
      ensures !ok <==> old(totalUptimeTimestamp).None? && NeedsStamp(old(AsRow()), to)
      ensures AfterSave(old(AsRow()), to, now, ok, AsRow())
    {
      SaveOutcome(AsRow(), to, now);
      ghost var adds := AddsTime(AsRow(), to);
      var from := state;
      if from == to {
        return true;
      }
      if Down(from) && Up(to) {
        totalUptimeTimestamp := Some(now);
      }
      if Up(from) && !Up(to) {
        if totalUptimeTimestamp.None? {
          return false;
        }
        totalUptime := totalUptime + (now - totalUptimeTimestamp.value);
        totalUptimeTimestamp := Some(now);
      }
      if from == Unreachable && Up(to) {
        var prev := LatestInto(events, Unreachable);
        if prev.Some? && prev.value.from.Some? && Up(prev.value.from.value) {
          if totalUptimeTimestamp.None? {
            return false;
          }
          totalUptime := totalUptime + (now - totalUptimeTimestamp.value);
          totalUptimeTimestamp := Some(now);
        }
      }
      assert adds ==> totalUptimeTimestamp == Some(now);
      state := to;
      events := events + [StateEvent(Some(from), to)];
      ok := true;
    }
  }

  function NewRow(): Row {
    Row(Pending, 0, None, [StateEvent(None, Pending)])
  }

  // ---------- the reference ----------

  /** The machine is in state `to` from time `at` until the next change. */
  datatype Change = Change(at: int, to: State)

  /** Does period `i`, which has ended, count?  Running does; so does an unreachable period
      both entered from and left to a running state. */
  predicate Counts(h: seq<Change>, i: nat)
    requires i + 1 < |h|
  {
    Up(h[i].to) || (h[i].to == Unreachable && i > 0 && Up(h[i - 1].to) && Up(h[i + 1].to))
  }

  function Past(h: seq<Change>): int {
    var n := |h|;
    if n < 2 then 0
    else Past(h[..n - 1]) + if Counts(h, n - 2) then h[n - 1].at - h[n - 2].at else 0
  }

  function Uptime(h: seq<Change>, now: int): int
    requires h != []
  {
    var last := h[|h| - 1];
    Past(h) + if Up(last.to) then now - last.at else 0
  }

  // ---------- both together ----------

  datatype AuditedVm = AuditedVm(row: Row, history: seq<Change>)

  function Created(at: int): AuditedVm {
    AuditedVm(NewRow(), [Change(at, Pending)])
  }

  /** A save that raises leaves the machine where it was. */
  function Step(vm: AuditedVm, c: Change): (next: AuditedVm)
    ensures vm.history != [] ==> next.history != []
  {
    match Save(vm.row, c.to, c.at)
    case None => vm
    case Some(row) => AuditedVm(row, if c.to == vm.row.state then vm.history else vm.history + [c])
  }

  function Run(at: int, changes: seq<Change>): (vm: AuditedVm)
    ensures vm.history != []
  {
    if changes == [] then Created(at) else Step(Run(at, changes[..|changes| - 1]), changes[|changes| - 1])
  }

  function Clock(at: int, changes: seq<Change>): int {
    if changes == [] then at else changes[|changes| - 1].at
  }

  predicate Ordered(at: int, changes: seq<Change>) {
    changes == [] ||
    var n := |changes| - 1;
    Ordered(at, changes[..n]) && Clock(at, changes[..n]) <= changes[n].at
  }

  /** The machine comes back to a running state from an unreachable period it did not enter
      running, while its timestamp is older than the return: no branch of the observer renews it. */
  predicate StaleReturn(vm: AuditedVm, c: Change) {
    vm.row.state == Unreachable && Up(c.to) && !EnteredFromUp(vm.row.events, Unreachable) &&
    vm.row.stamp != Some(c.at)
  }

  ghost predicate Exact(vm: AuditedVm) {
    vm.history != [] &&
    forall now :: now >= vm.history[|vm.history| - 1].at ==> Calculated(vm.row, now) == Uptime(vm.history, now)
  }

  /** How far the stored total runs ahead of the reference; `Lost` when the machine is running
      without a timestamp, which it can then never leave. */
  datatype Debt = Lost | Ahead(seconds: int)

  /** The row, its event log and the history agree on where the machine is and came from. */
  ghost predicate Tied(vm: AuditedVm, clock: int) {
    var r, h := vm.row, vm.history;
    h != [] && r.events != [] && h[|h| - 1].to == r.state && h[|h| - 1].at <= clock &&
    (r.stamp.Some? ==> r.stamp.value <= h[|h| - 1].at) &&
    (EnteredFromUp(r.events, r.state) <==> |h| >= 2 && Up(h[|h| - 2].to))
  }

  /** The total and the timestamp account for the history, up to the debt. */
  ghost predicate Accounted(vm: AuditedVm, d: Debt, clock: int) {
    var r, h := vm.row, vm.history;
    Tied(vm, clock) &&
    (d.Lost? <==> Up(r.state) && r.stamp.None?) &&
    (d.Lost? ==> Past(h) + (clock - h[|h| - 1].at) >= 0) &&
    (d.Ahead? ==>
      d.seconds >= 0 &&
      (r.stamp.None? ==> Past(h) == 0 && r.total == 0) &&
      (Up(r.state) ==> r.total - r.stamp.value == Past(h) - h[|h| - 1].at + d.seconds) &&
      (!Up(r.state) ==> r.total == Past(h) + d.seconds) &&
      (r.state == Unreachable && EnteredFromUp(r.events, Unreachable) ==> r.stamp == Some(h[|h| - 1].at)))
  }

  function DebtAfter(vm: AuditedVm, d: Debt, c: Change): Debt {
    if d.Ahead? && StaleReturn(vm, c) then
      if vm.row.stamp.None? then Lost else Ahead(d.seconds + (c.at - vm.row.stamp.value))
    else d
  }

  function RunDebt(at: int, changes: seq<Change>): Debt {
    if changes == [] then Ahead(0)
    else
      var n := |changes| - 1;
      DebtAfter(Run(at, changes[..n]), RunDebt(at, changes[..n]), changes[n])
  }

  lemma PastGrows(h: seq<Change>, c: Change)
    requires h != []
    ensures Past(h + [c]) == Past(h) + if Counts(h + [c], |h| - 1) then c.at - h[|h| - 1].at else 0
  {}

  lemma NewEventIsLatest(events: seq<StateEvent>, from: State, to: State)
    ensures EnteredFromUp(events + [StateEvent(Some(from), to)], to) <==> Up(from)
  {}

  lemma StepTied(vm: AuditedVm, clock: int, c: Change)
    requires Tied(vm, clock) && clock <= c.at
    ensures Tied(Step(vm, c), c.at)
  {
    hide EnteredFromUp;
    NewEventIsLatest(vm.row.events, vm.row.state, c.to);
  }

  /** One change keeps the books, up to the debt a stale return adds. */
  lemma StepAccounted(vm: AuditedVm, d: Debt, clock: int, c: Change)
    requires Accounted(vm, d, clock) && clock <= c.at
    ensures Accounted(Step(vm, c), DebtAfter(vm, d, c), c.at)
  {
    hide Past, EnteredFromUp;
    StepTied(vm, clock, c);
    var r, h := vm.row, vm.history;
    if c.to != r.state && Save(r, c.to, c.at).Some? {
      PastGrows(h, c);
      NewEventIsLatest(r.events, r.state, c.to);
      var n := |h| - 1;
      assert Counts(h + [c], n) <==>
             Up(r.state) || (r.state == Unreachable && EnteredFromUp(r.events, r.state) && Up(c.to));
    }
  }

  lemma {:induction false} RunAccounted(at: int, changes: seq<Change>)
    requires Ordered(at, changes)
    ensures Accounted(Run(at, changes), RunDebt(at, changes), Clock(at, changes))
  {
    if changes != [] {
      var init, last := changes[..|changes| - 1], changes[|changes| - 1];
      RunAccounted(at, init);
      StepAccounted(Run(at, init), RunDebt(at, init), Clock(at, init), last);
    }
  }

  lemma ExactIffNoDebt(vm: AuditedVm, d: Debt, clock: int)
    requires Accounted(vm, d, clock)
    ensures Exact(vm) <==> d == Ahead(0)
  {
    var last := vm.history[|vm.history| - 1].at;
    if d.Lost? {
      var now := clock + 1;
      assert Uptime(vm.history, now) > 0 && Calculated(vm.row, now) == 0;
    } else {
      assert Calculated(vm.row, last) == Uptime(vm.history, last) + d.seconds;
    }
  }

  predicate NoStaleReturn(at: int, changes: seq<Change>) {
    changes == [] ||
    var init, last := changes[..|changes| - 1], changes[|changes| - 1];
    NoStaleReturn(at, init) && !StaleReturn(Run(at, init), last)
  }

  lemma {:induction false} DebtFreeIffNoStaleReturn(at: int, changes: seq<Change>)
    requires Ordered(at, changes)
    ensures RunDebt(at, changes) == Ahead(0) <==> NoStaleReturn(at, changes)
  {
    hide Past, EnteredFromUp, Save, LatestInto;
    if changes != [] {
      var init := changes[..|changes| - 1];
      DebtFreeIffNoStaleReturn(at, init);
      RunAccounted(at, init);
    }
  }

  /** The displayed uptime is right, now and as time passes, exactly when no change in the
      machine's whole history was a stale return. */
  lemma UptimeIsExactIff(at: int, changes: seq<Change>)
    requires Ordered(at, changes)
    ensures Exact(Run(at, changes)) <==> NoStaleReturn(at, changes)
  {
    RunAccounted(at, changes);
    ExactIffNoDebt(Run(at, changes), RunDebt(at, changes), Clock(at, changes));
    DebtFreeIffNoStaleReturn(at, changes);
  }

  /** In the terms of the history: no unreachable period entered from a state that is not
      running is left directly for a running one. */
  predicate ReturnsOnlyIfLeftUp(at: int, changes: seq<Change>) {
    changes == [] ||
    var init, last := changes[..|changes| - 1], changes[|changes| - 1];
    var h := Run(at, init).history;
    ReturnsOnlyIfLeftUp(at, init) &&
    (h[|h| - 1].to == Unreachable && Up(last.to) ==> |h| >= 2 && Up(h[|h| - 2].to))
  }

  lemma {:induction false} NoStaleReturnIf(at: int, changes: seq<Change>)
    requires Ordered(at, changes) && ReturnsOnlyIfLeftUp(at, changes)
    ensures NoStaleReturn(at, changes)
  {
    if changes != [] {
      NoStaleReturnIf(at, changes[..|changes| - 1]);
      RunAccounted(at, changes[..|changes| - 1]);
    }
  }

  lemma UptimeIsExact(at: int, changes: seq<Change>)
    requires Ordered(at, changes) && ReturnsOnlyIfLeftUp(at, changes)
    ensures Exact(Run(at, changes))
  {
    NoStaleReturnIf(at, changes);
    UptimeIsExactIff(at, changes);
  }

  // ---------- no change is refused ----------

  /** The history without refusals: the creation and every change that differs from the state before. */
  function AllChanges(at: int, changes: seq<Change>): (h: seq<Change>)
    ensures h != []
  {
    if changes == [] then [Change(at, Pending)]
    else
      var h, last := AllChanges(at, changes[..|changes| - 1]), changes[|changes| - 1];
      if last.to == h[|h| - 1].to then h else h + [last]
  }

  /** A change is refused exactly when the machine runs without a timestamp and is to stop running;
      it can then never stop. */
  lemma RefusedIff(at: int, changes: seq<Change>, c: Change)
    requires Ordered(at, changes)
    ensures Save(Run(at, changes).row, c.to, c.at).None? <==> RunDebt(at, changes).Lost? && !Up(c.to)
  {
    RunAccounted(at, changes);
    SaveOutcome(Run(at, changes).row, c.to, c.at);
  }

  /** Where no unreachable period entered while not running is left directly for a running state, no
      change is refused: the history is all changes, and the machine is in the state last asked for. */
  lemma {:induction false} NothingRefused(at: int, changes: seq<Change>)
    requires Ordered(at, changes) && ReturnsOnlyIfLeftUp(at, changes)
    ensures Run(at, changes).history == AllChanges(at, changes)
    ensures Run(at, changes).row.state == if changes == [] then Pending else changes[|changes| - 1].to
  {
    if changes != [] {
      var init, last := changes[..|changes| - 1], changes[|changes| - 1];
      NothingRefused(at, init);
      NoStaleReturnIf(at, init);
      DebtFreeIffNoStaleReturn(at, init);
      RefusedIff(at, init, last);
      RunAccounted(at, init);
      SaveOutcome(Run(at, init).row, last.to, last.at);
      SavedInHistory(Run(at, init), last);
    }
  }

  lemma SavedInHistory(vm: AuditedVm, c: Change)
    requires Save(vm.row, c.to, c.at).Some?
    ensures Step(vm, c).row.state == c.to
    ensures Step(vm, c).history == if c.to == vm.row.state then vm.history else vm.history + [c]
  {}

  /** A new machine that goes unreachable at 10 and comes back running at 20 shows no uptime, then or
      later; one that ran from 0 to 10 and was stopped before shows the time in between as well. */
  lemma StaleReturns()
    ensures var vm := Run(0, [Change(10, Unreachable), Change(20, Running)]);
            Calculated(vm.row, 30) == 0 && Uptime(vm.history, 30) == 10
    ensures var vm := Run(0, [Change(0, Running), Change(10, Stopped), Change(15, Unreachable), Change(20, Running)]);
            Calculated(vm.row, 30) == 30 && Uptime(vm.history, 30) == 20
  {
    hide Step, Calculated, Uptime;
    var a := [Change(10, Unreachable), Change(20, Running)];
    var b := [Change(0, Running), Change(10, Stopped), Change(15, Unreachable), Change(20, Running)];
    RunSteps(0, a, 1);
    RunSteps(0, a, 2);
    RunSteps(0, b, 1);
    RunSteps(0, b, 2);
    RunSteps(0, b, 3);
    RunSteps(0, b, 4);
    assert a[..2] == a && b[..4] == b && a[..0] == [] && b[..0] == [];
    NewReturns();
    StoppedReturns();
  }

  lemma RunSteps(at: int, changes: seq<Change>, n: nat)
    requires 0 < n <= |changes|
    ensures Run(at, changes[..n]) == Step(Run(at, changes[..n - 1]), changes[n - 1])
  {
    assert changes[..n][..n - 1] == changes[..n - 1];
  }

  /** From a state that is down to unreachable: only the log and the history grow. */
  lemma GoesUnreachable(vm: AuditedVm, at: int)
    requires vm.history != [] && Down(vm.row.state) && vm.history[|vm.history| - 1].to == vm.row.state
    ensures var next := Step(vm, Change(at, Unreachable));
            next.row.(events := []) == Row(Unreachable, vm.row.total, vm.row.stamp, []) &&
            !EnteredFromUp(next.row.events, Unreachable) &&
            next.history == vm.history + [Change(at, Unreachable)] && Past(next.history) == Past(vm.history)
  {
    hide Past, EnteredFromUp;
    NewEventIsLatest(vm.row.events, vm.row.state, Unreachable);
    PastGrows(vm.history, Change(at, Unreachable));
  }

  /** And back to running: the timestamp stays as it was. */
  lemma ReturnsStale(vm: AuditedVm, at: int)
    requires vm.row.state == Unreachable && !EnteredFromUp(vm.row.events, Unreachable)
    requires |vm.history| >= 2 && vm.history[|vm.history| - 1].to == Unreachable
    requires !Up(vm.history[|vm.history| - 2].to)
    ensures var next := Step(vm, Change(at, Running));
            next.row.(events := []) == Row(Running, vm.row.total, vm.row.stamp, []) &&
            next.history == vm.history + [Change(at, Running)] && Past(next.history) == Past(vm.history)
  {
    hide Past, EnteredFromUp;
    PastGrows(vm.history, Change(at, Running));
  }

  lemma NewReturns()
    ensures var vm := Step(Step(Created(0), Change(10, Unreachable)), Change(20, Running));
            Calculated(vm.row, 30) == 0 && Uptime(vm.history, 30) == 10
  {
    hide Step, EnteredFromUp;
    GoesUnreachable(Created(0), 10);
    ReturnsStale(Step(Created(0), Change(10, Unreachable)), 20);
  }

  /** Stopped at 10 after running from 0. */
  function StoppedVm(): AuditedVm {
    AuditedVm(Row(Stopped, 10, Some(10), [StateEvent(None, Pending), StateEvent(Some(Pending), Running),
                                          StateEvent(Some(Running), Stopped)]),
              [Change(0, Pending), Change(0, Running), Change(10, Stopped)])
  }

  lemma StopsAtTen()
    ensures Step(Step(Created(0), Change(0, Running)), Change(10, Stopped)) == StoppedVm()
    ensures Past(StoppedVm().history) == 10
  {
    var v0 := Created(0);
    var v1 := Step(v0, Change(0, Running));
    PastGrows(v0.history, Change(0, Running));
    PastGrows(v1.history, Change(10, Stopped));
  }

  lemma StoppedReturns()
    ensures var vm := Step(Step(Step(Step(Created(0), Change(0, Running)), Change(10, Stopped)),
                                Change(15, Unreachable)), Change(20, Running));
            Calculated(vm.row, 30) == 30 && Uptime(vm.history, 30) == 20
  {
    hide Step, EnteredFromUp, Past;
    StopsAtTen();
    GoesUnreachable(StoppedVm(), 15);
    ReturnsStale(Step(StoppedVm(), Change(15, Unreachable)), 20);
  }
}
