/** Bringing the stored network cards of a host up to date with the reported ones. */
module HostNics {
  datatype Nic = Nic(id: nat, mac: string, bandwidth: int, interfaceName: string)

  /** A reported card; the bus object it is read from tells reports of the same content apart. */
  datatype Detail = Detail(source: nat, macaddr: string, bandwidth: int, interfaceName: string)

  function Upcase(s: string): string {
    if s == "" then ""
    else
      var c := s[|s| - 1];
      Upcase(s[..|s| - 1]) + [if 'a' <= c <= 'z' then (c as int - 32) as char else c]
  }

  function Mac(d: Detail): string {
    Upcase(d.macaddr)
  }

  function Refresh(nic: Nic, d: Detail): Nic {
    nic.(bandwidth := d.bandwidth, interfaceName := d.interfaceName)
  }

  /** `Array#delete`: every equal element goes. */
  function Delete(info: seq<Detail>, d: Detail): (r: seq<Detail>)
    ensures |r| <= |info| && (d in info ==> |r| < |info|)
    ensures forall x :: x in r <==> x in info && x != d
  {
    if info == [] then []
    else
      var init, last := info[..|info| - 1], info[|info| - 1];
      assert info == init + [last];
      if last == d then Delete(init, d) else Delete(init, d) + [last]
  }

  // ---------- the spec of the loops ----------

  datatype Scan = Scan(info: seq<Detail>, nic: Nic, found: bool)

  /** The inner loop from index `i`.  Deleting from the list under iteration moves the next
      element into the place just visited, so it is skipped. */
  function ScanFrom(info: seq<Detail>, i: nat, nic: Nic, found: bool): Scan
    decreases |info| - i
  {
    if i >= |info| then Scan(info, nic, found)
    else if Mac(info[i]) == nic.mac then ScanFrom(Delete(info, info[i]), i + 1, Refresh(nic, info[i]), true)
    else ScanFrom(info, i + 1, nic, found)
  }

  datatype Pass = Pass(kept: seq<Nic>, rest: seq<Detail>)

  /** The outer loop: the stored cards that were found, and the details nobody matched. */
  function PassOver(nics: seq<Nic>, info: seq<Detail>): Pass {
    if nics == [] then Pass([], info)
    else
      var before := PassOver(nics[..|nics| - 1], info);
      var scan := ScanFrom(before.rest, 0, nics[|nics| - 1], false);
      Pass(if scan.found then before.kept + [scan.nic] else before.kept, scan.info)
  }

  function NewNics(rest: seq<Detail>, nextId: nat): seq<Nic> {
    if rest == [] then []
    else
      var d := rest[|rest| - 1];
      NewNics(rest[..|rest| - 1], nextId) + [Nic(nextId + |rest| - 1, Mac(d), d.bandwidth, d.interfaceName)]
  }

  function Updated(nics: seq<Nic>, info: seq<Detail>, nextId: nat): seq<Nic> {
    var pass := PassOver(nics, info);
    pass.kept + NewNics(pass.rest, nextId)
  }

  function Without(nics: seq<Nic>, ids: seq<nat>): seq<Nic> {
    if nics == [] then []
    else
      var before, last := Without(nics[..|nics| - 1], ids), nics[|nics| - 1];
      if last.id in ids then before else before + [last]
  }

  ghost predicate DistinctNicIds(nics: seq<Nic>) {
    forall j, k :: 0 <= j < k < |nics| ==> nics[j].id != nics[k].id
  }

  // ---------- the code ----------

  class HostRow {
    var nics: seq<Nic>
    var nextId: nat

    ghost predicate Valid()
      reads this
    {
      DistinctNicIds(nics) && forall k :: 0 <= k < |nics| ==> nics[k].id < nextId
    }

    method MatchNic(nic: Nic, info: seq<Detail>) returns (newInfo: seq<Detail>, newNic: Nic, found: bool)
      ensures Scan(newInfo, newNic, found) == ScanFrom(info, 0, nic, false)
      ensures newNic.id == nic.id && newNic.mac == nic.mac
    {
      newInfo, newNic, found := info, nic, false;
      var i: nat := 0;
      while i < |newInfo|
        invariant newNic.id == nic.id && newNic.mac == nic.mac
        invariant ScanFrom(newInfo, i, newNic, found) == ScanFrom(info, 0, nic, false)
        decreases |newInfo| - i
      {
        var detail := newInfo[i];
        if Mac(detail) == newNic.mac {
          newNic := newNic.(bandwidth := detail.bandwidth);
          newNic := newNic.(interfaceName := detail.interfaceName);
          found := true;
          newInfo := Delete(newInfo, detail);
        }
        i := i + 1;
      }
    }

    /** The first loop: cards that are reported are refreshed, the others marked for deletion. */
    method MatchNics(info: seq<Detail>) returns (nicInfo: seq<Detail>, nicsToDelete: seq<nat>)
      requires Valid()
      modifies this`nics
      ensures Valid()
      ensures Pass(Without(nics, nicsToDelete), nicInfo) == PassOver(old(nics), info)
    {
      nicInfo, nicsToDelete := info, [];
      ghost var was := nics;
      var k := 0;
      while k < |nics|
        invariant 0 <= k <= |nics| == |was|
        invariant SameIds(nics, was)
        invariant nics[k..] == was[k..]
        invariant NoneMarked(nics[k..], nicsToDelete)
        invariant Pass(Without(nics[..k], nicsToDelete), nicInfo) == PassOver(was[..k], info)
      {
        PassStep(was, k, info);
        assert nics[k..][0] == was[k..][0] && nics[k..][1..] == nics[k + 1..] && was[k..][1..] == was[k + 1..];
        var rest, nic, found := MatchNic(nics[k], nicInfo);
        MarkedStep(nics, k, nic, nicsToDelete, found);
        nics := nics[k := nic];
        nicInfo := rest;
        if !found {
          nicsToDelete := nicsToDelete + [nic.id];
        }
        k := k + 1;
      }
      assert nics[..k] == nics && was[..k] == was;
    }

    method AddNics(info: seq<Detail>)
      requires Valid()
      modifies this
      ensures Valid()
      ensures nics == old(nics) + NewNics(info, old(nextId))
    {
      var i := 0;
      ghost var kept, first := nics, nextId;
      while i < |info|
        invariant 0 <= i <= |info|
        invariant nics == kept + NewNics(info[..i], first) && nextId == first + i
        invariant Valid()
      {
        var d := info[i];
        assert info[..i + 1][..i] == info[..i];
        nics := nics + [Nic(nextId, Mac(d), d.bandwidth, d.interfaceName)];
        nextId := nextId + 1;
        i := i + 1;
      }
      assert info[..i] == info;
    }

    /** `update_nics`. */
    method UpdateNics(info: seq<Detail>)
      requires Valid()
      modifies this
      ensures Valid()
      ensures nics == Updated(old(nics), info, old(nextId))
    {
      var nicInfo, nicsToDelete := MatchNics(info);
      DeleteNics(nicsToDelete);
      AddNics(nicInfo);
    }

    method DeleteNics(ids: seq<nat>)
      requires Valid()
      modifies this`nics
      ensures Valid()
      ensures nics == Without(old(nics), ids)
    {
      ghost var was := nics;
      WithoutNone(was);
      var i := 0;
      while i < |ids|
        invariant 0 <= i <= |ids|
        invariant nics == Without(was, ids[..i])
      {
        assert ids[..i + 1] == ids[..i] + [ids[i]];
        WithoutTwice(was, ids[..i], ids[i]);
        nics := Without(nics, [ids[i]]);
        i := i + 1;
      }
      assert ids[..i] == ids;
      WithoutKeepsIds(was, ids, nextId);
    }
  }

  lemma {:induction false} ScanKeepsId(info: seq<Detail>, i: nat, nic: Nic, found: bool)
    ensures ScanFrom(info, i, nic, found).nic.id == nic.id && ScanFrom(info, i, nic, found).nic.mac == nic.mac
    decreases |info| - i
  {
    if i < |info| {
      if Mac(info[i]) == nic.mac {
        ScanKeepsId(Delete(info, info[i]), i + 1, Refresh(nic, info[i]), true);
      } else {
        ScanKeepsId(info, i + 1, nic, found);
      }
    }
  }

  lemma PassStep(nics: seq<Nic>, k: nat, info: seq<Detail>)
    requires k < |nics|
    ensures var before := PassOver(nics[..k], info);
            var scan := ScanFrom(before.rest, 0, nics[k], false);
            PassOver(nics[..k + 1], info) ==
            Pass(if scan.found then before.kept + [scan.nic] else before.kept, scan.info)
  {
    assert nics[..k + 1][..k] == nics[..k];
  }

  ghost predicate SameIds(nics: seq<Nic>, was: seq<Nic>) {
    |nics| == |was| && forall j :: 0 <= j < |was| ==> nics[j].id == was[j].id
  }

  ghost predicate NoneMarked(nics: seq<Nic>, marked: seq<nat>) {
    forall j :: 0 <= j < |nics| ==> nics[j].id !in marked
  }

  /** Marking a card for deletion concerns only that card. */
  lemma MarkedStep(nics: seq<Nic>, k: nat, nic: Nic, marked: seq<nat>, found: bool)
    requires k < |nics| && nic.id == nics[k].id && DistinctNicIds(nics) && NoneMarked(nics[k..], marked)
    ensures var after, ids := nics[k := nic], if found then marked else marked + [nic.id];
            Without(after[..k + 1], ids) ==
            (if found then Without(nics[..k], marked) + [nic] else Without(nics[..k], marked)) &&
            after[k + 1..] == nics[k + 1..] && NoneMarked(after[k + 1..], ids) && SameIds(after, nics)
  {
    var before, ids := nics[..k], if found then marked else marked + [nic.id];
    assert nics[k := nic][..k + 1] == before + [nic];
    var tail, rest := nics[k..], nics[k + 1..];
    assert tail[0] == nics[k] && rest == tail[1..];
    assert forall j :: 0 <= j < |rest| ==> rest[j] == tail[j + 1];
    WithoutSnoc(before, nic, ids);
    if !found {
      WithoutOther(before, marked, nic.id);
    }
  }

  lemma WithoutSnoc(nics: seq<Nic>, nic: Nic, ids: seq<nat>)
    ensures Without(nics + [nic], ids) == if nic.id in ids then Without(nics, ids) else Without(nics, ids) + [nic]
  {}

  lemma {:induction false} WithoutOther(nics: seq<Nic>, ids: seq<nat>, id: nat)
    requires forall k :: 0 <= k < |nics| ==> nics[k].id != id
    ensures Without(nics, ids + [id]) == Without(nics, ids)
  {
    if nics != [] {
      WithoutOther(nics[..|nics| - 1], ids, id);
    }
  }

  lemma {:induction false} WithoutNone(nics: seq<Nic>)
    ensures Without(nics, []) == nics
  {
    if nics != [] {
      WithoutNone(nics[..|nics| - 1]);
      assert nics == nics[..|nics| - 1] + [nics[|nics| - 1]];
    }
  }

  lemma {:induction false} WithoutTwice(nics: seq<Nic>, ids: seq<nat>, id: nat)
    ensures Without(Without(nics, ids), [id]) == Without(nics, ids + [id])
  {
    if nics != [] {
      var init, last := nics[..|nics| - 1], nics[|nics| - 1];
      WithoutTwice(init, ids, id);
      WithoutSnoc(Without(init, ids), last, [id]);
    }
  }

  lemma {:induction false} WithoutKeepsIds(nics: seq<Nic>, ids: seq<nat>, bound: nat)
    requires DistinctNicIds(nics) && forall k :: 0 <= k < |nics| ==> nics[k].id < bound
    ensures DistinctNicIds(Without(nics, ids))
    ensures forall n :: n in Without(nics, ids) ==> n in nics && n.id < bound
  {
    if nics != [] {
      var init, last := nics[..|nics| - 1], nics[|nics| - 1];
      WithoutKeepsIds(init, ids, bound);
      forall k | 0 <= k < |Without(init, ids)|
        ensures Without(init, ids)[k].id != last.id
      {
        var j :| 0 <= j < |init| && init[j] == Without(init, ids)[k];
      }
    }
  }

  // ---------- whatever is reported ----------

  ghost predicate Reported(info: seq<Detail>, mac: string) {
    exists d :: d in info && Mac(d) == mac
  }

  ghost predicate Has(nics: seq<Nic>, mac: string) {
    exists n :: n in nics && n.mac == mac
  }

  lemma {:induction false} ScanMatches(info: seq<Detail>, i: nat, nic: Nic, found: bool)
    ensures var r := ScanFrom(info, i, nic, found);
            (forall d :: d in r.info ==> d in info) &&
            (forall d :: d in info && d !in r.info ==> Mac(d) == nic.mac) &&
            (r.found <==> found || exists k :: i <= k < |info| && Mac(info[k]) == nic.mac)
    decreases |info| - i
  {
    if i < |info| {
      if Mac(info[i]) == nic.mac {
        ScanMatches(Delete(info, info[i]), i + 1, Refresh(nic, info[i]), true);
      } else {
        ScanMatches(info, i + 1, nic, found);
      }
    }
  }

  lemma {:induction false} PassCovers(nics: seq<Nic>, info: seq<Detail>)
    ensures var pass := PassOver(nics, info);
            (forall d :: d in pass.rest ==> d in info) &&
            (forall n :: n in pass.kept ==> Reported(info, n.mac)) &&
            (forall d :: d in info && d !in pass.rest ==> Has(pass.kept, Mac(d)))
  {
    if nics != [] {
      var init, nic := nics[..|nics| - 1], nics[|nics| - 1];
      PassCovers(init, info);
      var before, pass := PassOver(init, info), PassOver(nics, info);
      var scan := ScanFrom(before.rest, 0, nic, false);
      ScanMatches(before.rest, 0, nic, false);
      ScanKeepsId(before.rest, 0, nic, false);
      forall d | d in info && d !in pass.rest
        ensures Has(pass.kept, Mac(d))
      {
        if d in before.rest {
          var k :| 0 <= k < |before.rest| && before.rest[k] == d;
          assert scan.nic in pass.kept;
        } else {
          var n :| n in before.kept && n.mac == Mac(d);
          assert n in pass.kept;
        }
      }
      forall n | n in pass.kept
        ensures Reported(info, n.mac)
      {
        if n !in before.kept {
          var k :| 0 <= k < |before.rest| && Mac(before.rest[k]) == nic.mac;
          assert before.rest[k] in info;
        }
      }
    }
  }

  lemma {:induction false} NewNicsCover(rest: seq<Detail>, nextId: nat, mac: string)
    ensures Has(NewNics(rest, nextId), mac) <==> Reported(rest, mac)
  {
    if rest != [] {
      var init, d := rest[..|rest| - 1], rest[|rest| - 1];
      NewNicsCover(init, nextId, mac);
      assert rest == init + [d];
      var nic := Nic(nextId + |rest| - 1, Mac(d), d.bandwidth, d.interfaceName);
      assert forall n :: n in NewNics(rest, nextId) <==> n in NewNics(init, nextId) || n == nic;
      assert forall x :: x in rest <==> x in init || x == d;
    }
  }

  /** The host ends up with exactly the reported MAC addresses, upper-cased.  This needs no
      assumption: not even duplicate reports or skipped elements can break it. */
  lemma MacsAreTheReported(nics: seq<Nic>, info: seq<Detail>, nextId: nat, mac: string)
    ensures Has(Updated(nics, info, nextId), mac) <==> Reported(info, mac)
  {
    var pass := PassOver(nics, info);
    PassCovers(nics, info);
    NewNicsCover(pass.rest, nextId, mac);
    var all := Updated(nics, info, nextId);
    assert forall n :: n in all <==> n in pass.kept || n in NewNics(pass.rest, nextId);
    if Reported(info, mac) {
      var d :| d in info && Mac(d) == mac;
      if d in pass.rest {
        assert Reported(pass.rest, mac);
      }
    }
  }

  // ---------- distinct addresses ----------

  ghost predicate DistinctReports(info: seq<Detail>) {
    forall j, k :: 0 <= j < k < |info| ==> Mac(info[j]) != Mac(info[k])
  }

  ghost predicate DistinctMacs(nics: seq<Nic>) {
    forall j, k :: 0 <= j < k < |nics| ==> nics[j].mac != nics[k].mac
  }

  /** The details whose address is not among `macs`. */
  function NotAmong(info: seq<Detail>, macs: set<string>): seq<Detail> {
    if info == [] then []
    else
      var before, last := NotAmong(info[..|info| - 1], macs), info[|info| - 1];
      if Mac(last) in macs then before else before + [last]
  }

  function MacsOf(nics: seq<Nic>): set<string> {
    if nics == [] then {} else MacsOf(nics[..|nics| - 1]) + {nics[|nics| - 1].mac}
  }

  /** The index of the detail with the given address, or the length of the list. */
  function Find(info: seq<Detail>, mac: string): (i: nat)
    ensures i <= |info|
    ensures i < |info| ==> Mac(info[i]) == mac
    ensures forall k :: 0 <= k < i ==> Mac(info[k]) != mac
  {
    if info == [] || Mac(info[0]) == mac then 0 else 1 + Find(info[1..], mac)
  }

  /** Stored cards that are still reported, in place, with the reported bandwidth and name. */
  function Survivors(nics: seq<Nic>, info: seq<Detail>): seq<Nic> {
    if nics == [] then []
    else
      var before, nic := Survivors(nics[..|nics| - 1], info), nics[|nics| - 1];
      var i := Find(info, nic.mac);
      if i < |info| then before + [Refresh(nic, info[i])] else before
  }

  lemma {:induction false} ScanPastMatch(info: seq<Detail>, i: nat, nic: Nic, found: bool)
    requires forall k :: i <= k < |info| ==> Mac(info[k]) != nic.mac
    ensures ScanFrom(info, i, nic, found) == Scan(info, nic, found)
    decreases |info| - i
  {
    if i < |info| {
      ScanPastMatch(info, i + 1, nic, found);
    }
  }

  lemma {:induction false} DeleteIsNotAmong(info: seq<Detail>, d: Detail)
    requires DistinctReports(info) && (forall x :: x in info && Mac(x) == Mac(d) ==> x == d)
    ensures Delete(info, d) == NotAmong(info, {Mac(d)})
  {
    if info != [] {
      assert info == info[..|info| - 1] + [info[|info| - 1]];
      DeleteIsNotAmong(info[..|info| - 1], d);
    }
  }

  lemma {:induction false} NotAmongAbsent(info: seq<Detail>, mac: string)
    requires forall k :: 0 <= k < |info| ==> Mac(info[k]) != mac
    ensures NotAmong(info, {mac}) == info
  {
    if info != [] {
      NotAmongAbsent(info[..|info| - 1], mac);
      assert info == info[..|info| - 1] + [info[|info| - 1]];
    }
  }

  lemma ScanAtMatch(info: seq<Detail>, j: nat, nic: Nic)
    requires DistinctReports(info) && j < |info| && Mac(info[j]) == nic.mac
    ensures ScanFrom(info, j, nic, false) == Scan(NotAmong(info, {nic.mac}), Refresh(nic, info[j]), true)
  {
    assert forall x :: x in info && Mac(x) == Mac(info[j]) ==> x == info[j];
    DeleteIsNotAmong(info, info[j]);
    var less := Delete(info, info[j]);
    forall k | 0 <= k < |less|
      ensures Mac(less[k]) != nic.mac
    {
      assert less[k] in less;
    }
    ScanPastMatch(less, j + 1, Refresh(nic, info[j]), true);
  }

  /** With distinct addresses the skipped element is never a second match. */
  lemma {:induction false} ScanDistinct(info: seq<Detail>, i: nat, nic: Nic)
    requires DistinctReports(info) && i <= Find(info, nic.mac)
    ensures var j := Find(info, nic.mac);
            ScanFrom(info, i, nic, false) ==
            if j < |info| then Scan(NotAmong(info, {nic.mac}), Refresh(nic, info[j]), true)
            else Scan(info, nic, false)
    decreases |info| - i
  {
    var j := Find(info, nic.mac);
    if i < j {
      ScanDistinct(info, i + 1, nic);
    } else if j < |info| {
      ScanAtMatch(info, j, nic);
    }
  }

  lemma {:induction false} NotAmongMore(info: seq<Detail>, macs: set<string>, mac: string)
    ensures NotAmong(NotAmong(info, macs), {mac}) == NotAmong(info, macs + {mac})
  {
    if info != [] {
      var init, last := info[..|info| - 1], info[|info| - 1];
      NotAmongMore(init, macs, mac);
      if Mac(last) !in macs {
        var before := NotAmong(init, macs);
        assert (before + [last])[..|before|] == before;
      }
    }
  }

  lemma {:induction false} NotAmongDistinct(info: seq<Detail>, macs: set<string>)
    requires DistinctReports(info)
    ensures DistinctReports(NotAmong(info, macs))
    ensures forall d :: d in NotAmong(info, macs) <==> d in info && Mac(d) !in macs
  {
    if info != [] {
      var init, last := info[..|info| - 1], info[|info| - 1];
      assert info == init + [last];
      NotAmongDistinct(init, macs);
      var before := NotAmong(init, macs);
      forall k | 0 <= k < |before|
        ensures Mac(before[k]) != Mac(last)
      {
        assert before[k] in before;
      }
    }
  }

  lemma FindMember(info: seq<Detail>, mac: string, d: Detail)
    requires DistinctReports(info) && d in info && Mac(d) == mac
    ensures Find(info, mac) < |info| && info[Find(info, mac)] == d
  {}

  /** Taking out other addresses does not change which detail a card finds. */
  lemma FindAmongRest(info: seq<Detail>, macs: set<string>, mac: string)
    requires DistinctReports(info) && mac !in macs
    ensures var rest := NotAmong(info, macs);
            (Find(rest, mac) < |rest| <==> Find(info, mac) < |info|) &&
            (Find(info, mac) < |info| ==> rest[Find(rest, mac)] == info[Find(info, mac)])
  {
    NotAmongDistinct(info, macs);
    var rest := NotAmong(info, macs);
    var i, j := Find(info, mac), Find(rest, mac);
    if i < |info| {
      FindMember(rest, mac, info[i]);
    } else if j < |rest| {
      FindMember(info, mac, rest[j]);
    }
  }

  lemma {:induction false} MacsOfHas(nics: seq<Nic>, mac: string)
    ensures mac in MacsOf(nics) <==> exists k :: 0 <= k < |nics| && nics[k].mac == mac
  {
    if nics != [] {
      MacsOfHas(nics[..|nics| - 1], mac);
    }
  }

  lemma {:induction false} PassDistinct(nics: seq<Nic>, info: seq<Detail>)
    requires DistinctReports(info) && DistinctMacs(nics)
    ensures PassOver(nics, info) == Pass(Survivors(nics, info), NotAmong(info, MacsOf(nics)))
  {
    if nics == [] {
      NoneTaken(info);
    } else {
      var init, nic := nics[..|nics| - 1], nics[|nics| - 1];
      PassDistinct(init, info);
      var rest := NotAmong(info, MacsOf(init));
      MacsOfHas(init, nic.mac);
      NotAmongDistinct(info, MacsOf(init));
      FindAmongRest(info, MacsOf(init), nic.mac);
      ScanDistinct(rest, 0, nic);
      NotAmongMore(info, MacsOf(init), nic.mac);
      if Find(rest, nic.mac) == |rest| {
        NotAmongAbsent(rest, nic.mac);
      }
    }
  }

  lemma {:induction false} NoneTaken(info: seq<Detail>)
    ensures NotAmong(info, {}) == info
  {
    if info != [] {
      NoneTaken(info[..|info| - 1]);
      assert info == info[..|info| - 1] + [info[|info| - 1]];
    }
  }

  /** With distinct addresses on both sides: reported cards stay in place with their new
      bandwidth and name, unreported ones are gone, and new records follow for the rest. */
  lemma UpdateIsExact(nics: seq<Nic>, info: seq<Detail>, nextId: nat)
    requires DistinctReports(info) && DistinctMacs(nics)
    ensures Updated(nics, info, nextId) == Survivors(nics, info) + NewNics(NotAmong(info, MacsOf(nics)), nextId)
  {
    PassDistinct(nics, info);
  }

  // ---------- repeated addresses ----------

  /** A query to the bus names each object once. */
  ghost predicate EachOnce(info: seq<Detail>) {
    forall j, k :: 0 <= j < k < |info| ==> info[j] != info[k]
  }

  /** No two neighbours from position `i` on carry the address. */
  predicate Apart(info: seq<Detail>, mac: string, i: nat) {
    forall j :: i <= j < |info| - 1 ==> !(Mac(info[j]) == mac && Mac(info[j + 1]) == mac)
  }

  lemma {:induction false} DeleteAt(info: seq<Detail>, i: nat)
    requires EachOnce(info) && i < |info|
    ensures Delete(info, info[i]) == info[..i] + info[i + 1..]
  {
    var n := |info| - 1;
    if i == n {
      DeleteNone(info[..n], info[n]);
      assert info[n + 1..] == [];
    } else {
      DeleteAt(info[..n], i);
      assert info[i + 1..] == info[..n][i + 1..] + [info[n]];
    }
  }

  lemma {:induction false} DeleteNone(info: seq<Detail>, d: Detail)
    requires d !in info
    ensures Delete(info, d) == info
  {
    if info != [] {
      assert info == info[..|info| - 1] + [info[|info| - 1]];
      DeleteNone(info[..|info| - 1], d);
    }
  }

  lemma EachOnceWithout(info: seq<Detail>, i: nat)
    requires EachOnce(info) && i < |info|
    ensures EachOnce(info[..i] + info[i + 1..])
  {
    var less := info[..i] + info[i + 1..];
    assert forall k :: 0 <= k < |less| ==> less[k] == info[if k < i then k else k + 1];
  }

  function LeaveOut(info: seq<Detail>, i: nat): seq<Detail>
    requires i < |info|
  {
    info[..i] + info[i + 1..]
  }

  lemma {:induction false} NotAmongWithout(info: seq<Detail>, i: nat)
    requires i < |info|
    ensures NotAmong(LeaveOut(info, i), {Mac(info[i])}) == NotAmong(info, {Mac(info[i])})
  {
    var n, less := |info| - 1, LeaveOut(info, i);
    if i == n {
      assert less == info[..n];
    } else {
      NotAmongWithout(info[..n], i);
      assert less[..|less| - 1] == LeaveOut(info[..n], i) && less[|less| - 1] == info[n];
    }
  }

  lemma LeftOutElements(info: seq<Detail>, i: nat)
    requires i < |info|
    ensures |LeaveOut(info, i)| == |info| - 1
    ensures forall k :: 0 <= k < i ==> LeaveOut(info, i)[k] == info[k]
    ensures forall k :: i <= k < |info| - 1 ==> LeaveOut(info, i)[k] == info[k + 1]
  {}

  /** A match is taken out and the element after it passed over. */
  lemma ScanStep(info: seq<Detail>, i: nat, nic: Nic, found: bool)
    requires EachOnce(info) && i < |info| && Mac(info[i]) == nic.mac
    ensures EachOnce(LeaveOut(info, i))
    ensures ScanFrom(info, i, nic, found) == ScanFrom(LeaveOut(info, i), i + 1, Refresh(nic, info[i]), true)
  {
    DeleteAt(info, i);
    EachOnceWithout(info, i);
  }

  lemma ScanMiss(info: seq<Detail>, i: nat, nic: Nic, found: bool)
    requires i < |info| && Mac(info[i]) != nic.mac
    ensures ScanFrom(info, i, nic, found) == ScanFrom(info, i + 1, nic, found)
  {}

  lemma ApartStep(info: seq<Detail>, i: nat, mac: string)
    requires i < |info| && Mac(info[i]) == mac && Apart(info, mac, i)
    requires forall k :: 0 <= k < i ==> Mac(info[k]) != mac
    ensures Apart(LeaveOut(info, i), mac, i + 1)
    ensures forall k :: 0 <= k < i + 1 && k < |info| - 1 ==> Mac(LeaveOut(info, i)[k]) != mac
  {
    LeftOutElements(info, i);
  }

  /** Where reports of the address keep apart, the element skipped is never one of them. */
  lemma {:induction false} ScanApart(info: seq<Detail>, i: nat, nic: Nic, found: bool)
    requires EachOnce(info) && Apart(info, nic.mac, i)
    requires forall k :: 0 <= k < i && k < |info| ==> Mac(info[k]) != nic.mac
    ensures ScanFrom(info, i, nic, found).info == NotAmong(info, {nic.mac})
    decreases |info| - i
  {
    if i >= |info| {
      NotAmongAbsent(info, nic.mac);
    } else if Mac(info[i]) != nic.mac {
      ScanApart(info, i + 1, nic, found);
    } else {
      ScanStep(info, i, nic, found);
      ApartStep(info, i, nic.mac);
      ScanApart(LeaveOut(info, i), i + 1, Refresh(nic, info[i]), true);
      NotAmongWithout(info, i);
    }
  }

  /** An element passed over stays. */
  lemma {:induction false} PassedStays(info: seq<Detail>, i: nat, nic: Nic, found: bool, k: nat)
    requires EachOnce(info) && k < i && k < |info|
    ensures info[k] in ScanFrom(info, i, nic, found).info
    decreases |info| - i
  {
    if i < |info| {
      if Mac(info[i]) != nic.mac {
        PassedStays(info, i + 1, nic, found, k);
      } else {
        ScanStep(info, i, nic, found);
        PassedStays(LeaveOut(info, i), i + 1, Refresh(nic, info[i]), true, k);
      }
    }
  }

  /** Of the first two neighbours with the address, the second is passed over and stays. */
  lemma {:induction false} ScanNeighbours(info: seq<Detail>, i: nat, nic: Nic, found: bool)
    requires EachOnce(info) && !Apart(info, nic.mac, i)
    ensures Reported(ScanFrom(info, i, nic, found).info, nic.mac)
    decreases |info| - i
  {
    hide ScanFrom;
    var j :| i <= j < |info| - 1 && Mac(info[j]) == nic.mac && Mac(info[j + 1]) == nic.mac;
    if Mac(info[i]) != nic.mac {
      assert !Apart(info, nic.mac, i + 1);
      ScanMiss(info, i, nic, found);
      ScanNeighbours(info, i + 1, nic, found);
    } else {
      var less := LeaveOut(info, i);
      ScanStep(info, i, nic, found);
      LeftOutElements(info, i);
      if Mac(info[i + 1]) == nic.mac {
        PassedStays(less, i + 1, Refresh(nic, info[i]), true, i);
      } else {
        assert Mac(less[j - 1]) == nic.mac && Mac(less[j]) == nic.mac;
        ScanNeighbours(less, i + 1, Refresh(nic, info[i]), true);
      }
    }
  }

  /** The reports of every stored card keep apart, once those of the cards before it are taken out. */
  ghost predicate AllApart(nics: seq<Nic>, info: seq<Detail>) {
    forall k :: 0 <= k < |nics| ==> ApartFor(nics, info, k)
  }

  predicate ApartFor(nics: seq<Nic>, info: seq<Detail>, k: nat)
    requires k < |nics|
  {
    Apart(NotAmong(info, MacsOf(nics[..k])), nics[k].mac, 0)
  }

  lemma {:induction false} NotAmongOnce(info: seq<Detail>, macs: set<string>)
    requires EachOnce(info)
    ensures EachOnce(NotAmong(info, macs))
    ensures forall d :: d in NotAmong(info, macs) <==> d in info && Mac(d) !in macs
  {
    if info != [] {
      var init, last := info[..|info| - 1], info[|info| - 1];
      assert info == init + [last];
      NotAmongOnce(init, macs);
      assert last !in init;
    }
  }

  lemma AllApartBefore(nics: seq<Nic>, info: seq<Detail>)
    requires nics != []
    ensures AllApart(nics, info) <==> AllApart(nics[..|nics| - 1], info) && ApartFor(nics, info, |nics| - 1)
  {
    var init := nics[..|nics| - 1];
    assert forall k :: 0 <= k < |init| ==> init[..k] == nics[..k] && init[k] == nics[k];
    assert forall k :: 0 <= k < |init| ==> ApartFor(init, info, k) == ApartFor(nics, info, k);
  }

  lemma {:induction false} PassApart(nics: seq<Nic>, info: seq<Detail>)
    requires EachOnce(info) && AllApart(nics, info)
    ensures PassOver(nics, info).rest == NotAmong(info, MacsOf(nics))
  {
    if nics == [] {
      NoneTaken(info);
    } else {
      var init, nic := nics[..|nics| - 1], nics[|nics| - 1];
      AllApartBefore(nics, info);
      PassApart(init, info);
      NotAmongOnce(info, MacsOf(init));
      ScanApart(NotAmong(info, MacsOf(init)), 0, nic, false);
      NotAmongMore(info, MacsOf(init), nic.mac);
    }
  }

  /** A detail left over for a kept card is still there in the end. */
  lemma {:induction false} PassNeighbours(nics: seq<Nic>, info: seq<Detail>)
    requires EachOnce(info) && DistinctMacs(nics) && !AllApart(nics, info)
    ensures exists n :: n in PassOver(nics, info).kept && Reported(PassOver(nics, info).rest, n.mac)
  {
    var init, nic := nics[..|nics| - 1], nics[|nics| - 1];
    AllApartBefore(nics, info);
    var before, pass := PassOver(init, info), PassOver(nics, info);
    ScanMatches(before.rest, 0, nic, false);
    ScanKeepsId(before.rest, 0, nic, false);
    if AllApart(init, info) {
      PassApart(init, info);
      NotAmongOnce(info, MacsOf(init));
      ScanNeighbours(before.rest, 0, nic, false);
      assert ScanFrom(before.rest, 0, nic, false).nic in pass.kept;
    } else {
      PassNeighbours(init, info);
      KeptAreStored(init, info);
      var n :| n in before.kept && Reported(before.rest, n.mac);
      var d :| d in before.rest && Mac(d) == n.mac;
      MacsOfHas(init, n.mac);
      assert n.mac != nic.mac;
      assert n in pass.kept && d in pass.rest;
    }
  }

  lemma {:induction false} KeptAreStored(nics: seq<Nic>, info: seq<Detail>)
    ensures forall n :: n in PassOver(nics, info).kept ==> n.mac in MacsOf(nics)
    ensures DistinctMacs(nics) ==> DistinctMacs(PassOver(nics, info).kept)
  {
    if nics != [] {
      var init, nic := nics[..|nics| - 1], nics[|nics| - 1];
      KeptAreStored(init, info);
      var before := PassOver(init, info);
      ScanKeepsId(before.rest, 0, nic, false);
      if DistinctMacs(nics) {
        MacsOfHas(init, nic.mac);
        assert forall n :: n in before.kept ==> n.mac != nic.mac;
      }
    }
  }

  lemma {:induction false} NewNicAt(rest: seq<Detail>, nextId: nat, k: nat)
    requires k < |rest|
    ensures |NewNics(rest, nextId)| == |rest| && NewNics(rest, nextId)[k].mac == Mac(rest[k])
  {
    if k < |rest| - 1 {
      NewNicAt(rest[..|rest| - 1], nextId, k);
    } else if |rest| > 1 {
      NewNicAt(rest[..|rest| - 1], nextId, 0);
    }
  }

  lemma NewNicsDistinctIff(rest: seq<Detail>, nextId: nat)
    ensures DistinctMacs(NewNics(rest, nextId)) <==> DistinctReports(rest)
  {
    forall k | 0 <= k < |rest|
      ensures |NewNics(rest, nextId)| == |rest| && NewNics(rest, nextId)[k].mac == Mac(rest[k])
    {
      NewNicAt(rest, nextId, k);
    }
  }

  lemma DistinctConcat(a: seq<Nic>, b: seq<Nic>)
    ensures DistinctMacs(a + b) <==>
            DistinctMacs(a) && DistinctMacs(b) && forall n :: n in a ==> !Has(b, n.mac)
  {
    var all := a + b;
    assert forall k :: 0 <= k < |a| ==> all[k] == a[k];
    assert forall k :: 0 <= k < |b| ==> all[|a| + k] == b[k];
    if DistinctMacs(all) {
      forall n | n in a
        ensures !Has(b, n.mac)
      {
        var j :| 0 <= j < |a| && a[j] == n;
        forall m | m in b
          ensures m.mac != n.mac
        {
          var k :| 0 <= k < |b| && b[k] == m;
          assert all[j].mac != all[|a| + k].mac;
        }
      }
    }
  }

  /** With distinct stored addresses, the host ends with distinct addresses exactly when no address
      it does not have is reported twice, and the reports of each card it has keep apart: a report
      next to one just matched is skipped by the deletion and comes back as a second record. */
  lemma MacsStayDistinctIff(nics: seq<Nic>, info: seq<Detail>, nextId: nat)
    requires DistinctMacs(nics) && EachOnce(info)
    ensures DistinctMacs(Updated(nics, info, nextId)) <==>
            DistinctReports(NotAmong(info, MacsOf(nics))) && AllApart(nics, info)
  {
    var pass := PassOver(nics, info);
    KeptAreStored(nics, info);
    DistinctConcat(pass.kept, NewNics(pass.rest, nextId));
    if AllApart(nics, info) {
      PassApart(nics, info);
      NewNicsDistinctIff(pass.rest, nextId);
      NotAmongOnce(info, MacsOf(nics));
      forall n | n in pass.kept
        ensures !Has(NewNics(pass.rest, nextId), n.mac)
      {
        NewNicsCover(pass.rest, nextId, n.mac);
      }
    } else {
      PassNeighbours(nics, info);
      var n :| n in pass.kept && Reported(pass.rest, n.mac);
      NewNicsCover(pass.rest, nextId, n.mac);
    }
  }

  lemma PassOne(n: Nic, info: seq<Detail>)
    ensures var scan := ScanFrom(info, 0, n, false);
            PassOver([n], info) == Pass(if scan.found then [scan.nic] else [], scan.info)
  {
    assert [n][..0] == [];
  }

  /** A stored card and two reports of it side by side leave two records. */
  lemma NeighboursDuplicate(n: Nic, d1: Detail, d2: Detail)
    requires Mac(d1) == n.mac && Mac(d2) == n.mac && d1 != d2
    ensures PassOver([n], [d1, d2]) == Pass([Refresh(n, d1)], [d2])
  {
    PassOne(n, [d1, d2]);
    ScanStep([d1, d2], 0, n, false);
    assert LeaveOut([d1, d2], 0) == [d2];
  }

  /** With another report between them they leave one. */
  lemma SeparatedMerge(n: Nic, d1: Detail, x: Detail, d2: Detail)
    requires Mac(d1) == n.mac && Mac(d2) == n.mac && d1 != d2 && Mac(x) != n.mac
    ensures PassOver([n], [d1, x, d2]) == Pass([Refresh(Refresh(n, d1), d2)], [x])
  {
    PassOne(n, [d1, x, d2]);
    ScanStep([d1, x, d2], 0, n, false);
    assert LeaveOut([d1, x, d2], 0) == [x, d2];
    ScanStep([x, d2], 1, Refresh(n, d1), true);
    assert LeaveOut([x, d2], 1) == [x];
  }

  /** A card the host does not have and that is reported twice is stored twice. */
  lemma DuplicateReportsDuplicate(d1: Detail, d2: Detail, nextId: nat)
    requires Mac(d1) == Mac(d2)
    ensures |Updated([], [d1, d2], nextId)| == 2 && !DistinctMacs(Updated([], [d1, d2], nextId))
  {
    NewNicAt([d1, d2], nextId, 0);
    NewNicAt([d1, d2], nextId, 1);
    assert Updated([], [d1, d2], nextId) == NewNics([d1, d2], nextId);
  }
}
