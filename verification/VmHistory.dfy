/** Host history of one machine: a record is opened when the machine is reported running and
    closed when it is reported down, unless closing its console forward raises first. */
module VmHistory {
  import opened Util
  import opened VmLifecycle

  /** One state update of the machine's domain.  `forwardOk` and `closeOk` tell whether opening
      or closing the console forward goes through or raises. */
  datatype Report = Report(at: int, state: State, forwardOk: bool, closeOk: bool)

  datatype Record = Record(started: int, ended: Option<int>, state: State)

  function OpenRecord(records: seq<Record>): (i: nat)
    ensures i <= |records|
    ensures i < |records| ==> records[i].ended.None?
    ensures forall k :: 0 <= k < i ==> records[k].ended.Some?
  {
    if records == [] || records[0].ended.None? then 0 else 1 + OpenRecord(records[1..])
  }

  /** The records after one update.  An error is only logged, and what was saved before it stays. */
  function Update(records: seq<Record>, r: Report): seq<Record> {
    var i := OpenRecord(records);
    if r.state == Running then
      if i == |records| then records + [Record(r.at, None, r.state)] else records
    else if r.state != Pending then
      if r.closeOk && i < |records| then records[i := records[i].(ended := Some(r.at), state := r.state)] else records
    else records
  }

  function RecordsAfter(reports: seq<Report>): seq<Record> {
    if reports == [] then [] else Update(RecordsAfter(reports[..|reports| - 1]), reports[|reports| - 1])
  }

  class HistoryTable {
    var records: seq<Record>

    constructor ()
      ensures records == []
    {
      records := [];
    }

    /** The history part of `update_domain_state`. */
    method UpdateDomainState(r: Report)
      modifies this
      ensures records == Update(old(records), r)
    {
      var history := OpenRecord(records);
      if r.state == Running {
        if history == |records| {
          records := records + [Record(r.at, None, r.state)];
        }
        if !r.forwardOk {
          return;
        }
      } else if r.state != Pending {
        if !r.closeOk {
          return;
        }
        if history < |records| {
          records := records[history := records[history].(ended := Some(r.at), state := r.state)];
        }
      }
    }
  }

  // ---------- the reference ----------

  /** Updates that settle whether the machine runs: a running report, or a report that it is
      down whose forward could be closed. */
  predicate Settles(r: Report) {
    r.state == Running || (r.state != Pending && r.closeOk)
  }

  /** At time `x` the latest settling update said running. */
  predicate RunningAt(reports: seq<Report>, x: int) {
    reports != [] &&
    var r := reports[|reports| - 1];
    if Settles(r) && r.at <= x then r.state == Running else RunningAt(reports[..|reports| - 1], x)
  }

  predicate Ordered(reports: seq<Report>) {
    forall i, j :: 0 <= i < j < |reports| ==> reports[i].at <= reports[j].at
  }

  ghost predicate During(rec: Record, x: int) {
    rec.started <= x && (rec.ended.Some? ==> x < rec.ended.value)
  }

  ghost predicate Recorded(records: seq<Record>, x: int) {
    exists k :: 0 <= k < |records| && During(records[k], x)
  }

  /** Closed records in order without overlap; only the last may be open. */
  predicate Consecutive(records: seq<Record>, clock: int) {
    (forall k :: 0 <= k < |records| ==>
       records[k].started <= clock &&
       (k < |records| - 1 ==> records[k].ended.Some?) &&
       (records[k].ended.Some? ==> records[k].started <= records[k].ended.value <= clock)) &&
    (forall j, k :: 0 <= j < k < |records| ==>
       records[j].ended.Some? ==> records[j].ended.value <= records[k].started)
  }

  lemma UpdateKeepsOrder(records: seq<Record>, clock: int, r: Report)
    requires Consecutive(records, clock) && clock <= r.at
    ensures Consecutive(Update(records, r), r.at)
  {}

  lemma UpdateRecords(records: seq<Record>, clock: int, r: Report, x: int)
    requires Consecutive(records, clock) && clock <= r.at
    ensures Recorded(Update(records, r), x) <==>
            if Settles(r) && r.at <= x then r.state == Running else Recorded(records, x)
  {
    var i := OpenRecord(records);
    var after := Update(records, r);
    if i < |records| {
      assert i == |records| - 1;
    }
    if r.state == Running && i == |records| {
      assert forall k :: 0 <= k < |records| ==> after[k] == records[k];
      assert During(after[|records|], x) <==> r.at <= x;
    } else if r.state == Running {
      assert r.at <= x ==> During(records[i], x);
    } else {
      assert forall k :: 0 <= k < |records| && k != i ==> after[k] == records[k];
      if i < |records| && Settles(r) {
        assert During(after[i], x) <==> During(records[i], x) && x < r.at;
      }
    }
  }

  /** A running report opens one record when none is open; a report that the machine is down, whose
      forward could be closed, closes the open record with its time and state; nothing else changes. */
  lemma UpdateOutcome(records: seq<Record>, r: Report)
    ensures r.state == Running && (forall k :: 0 <= k < |records| ==> records[k].ended.Some?) ==>
              Update(records, r) == records + [Record(r.at, None, Running)]
    ensures forall i :: 0 <= i < |records| && records[i].ended.None? && (forall k :: 0 <= k < i ==> records[k].ended.Some?) ==>
              Update(records, r) ==
              if r.state != Running && r.state != Pending && r.closeOk
              then records[i := Record(records[i].started, Some(r.at), r.state)] else records
    ensures r.state != Running && (forall k :: 0 <= k < |records| ==> records[k].ended.Some?) ==>
              Update(records, r) == records
  {}

  /** Over any sequence of updates with a non-decreasing clock, whichever forwards raise: at most
      one record is open, the recorded intervals follow one another, and together they cover
      exactly the times at which the latest settling update said running. */
  lemma {:induction false} HistoryIsExact(reports: seq<Report>, x: int)
    requires Ordered(reports)
    ensures reports != [] ==> Consecutive(RecordsAfter(reports), reports[|reports| - 1].at)
    ensures Recorded(RecordsAfter(reports), x) <==> RunningAt(reports, x)
  {
    if reports != [] {
      var n := |reports| - 1;
      HistoryIsExact(reports[..n], x);
      var clock := if n == 0 then reports[0].at else reports[n - 1].at;
      UpdateKeepsOrder(RecordsAfter(reports[..n]), clock, reports[n]);
      UpdateRecords(RecordsAfter(reports[..n]), clock, reports[n], x);
    }
  }
}
