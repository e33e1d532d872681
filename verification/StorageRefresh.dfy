/** Refreshing a storage pool: the volumes a scan reports are added to the database once, LVM
    pools found on them are created, and each physical volume is linked to the LVM pool it
    carries. */
module StorageRefresh {
  import opened Util

  /** A row of the volume table; rows are numbered in the order they were saved. */
  datatype Volume = Volume(pool: nat, key: string, path: string, lvmPool: Option<nat>)

  /** `lvmPools` leads from a volume group name, unique by validation, to its pool. */
  datatype Db = Db(volumes: seq<Volume>, lvmPools: map<string, nat>, nextPool: nat)

  datatype LvmVolume = LvmVolume(key: string, path: string)

  /** A physical volume as scanned; `lvmName` is empty when it carries no LVM pool. */
  datatype Scanned = Scanned(key: string, path: string, lvmName: string, lvmVolumes: seq<LvmVolume>)

  datatype Outcome = Outcome(db: Db, raised: bool)

  // ---------- queries ----------

  function FindByKey(vols: seq<Volume>, pool: nat, key: string): (i: nat)
    ensures i <= |vols|
    ensures i < |vols| ==> vols[i].pool == pool && vols[i].key == key
    ensures forall k :: 0 <= k < i ==> !(vols[k].pool == pool && vols[k].key == key)
  {
    if vols == [] || (vols[0].pool == pool && vols[0].key == key) then 0 else 1 + FindByKey(vols[1..], pool, key)
  }

  function FindByPath(vols: seq<Volume>, path: string): (i: nat)
    ensures i <= |vols|
    ensures i < |vols| ==> vols[i].path == path
    ensures forall k :: 0 <= k < i ==> vols[k].path != path
  {
    if vols == [] || vols[0].path == path then 0 else 1 + FindByPath(vols[1..], path)
  }

  // ---------- the steps ----------

  /** Only add the volume if its key is not there yet. */
  function EnsureVolume(db: Db, pool: nat, key: string, path: string): Db {
    if FindByKey(db.volumes, pool, key) < |db.volumes| then db
    else db.(volumes := db.volumes + [Volume(pool, key, path, None)])
  }

  function EnsureVolumes(db: Db, pool: nat, list: seq<LvmVolume>): Db {
    if list == [] then db
    else
      var last := list[|list| - 1];
      EnsureVolume(EnsureVolumes(db, pool, list[..|list| - 1]), pool, last.key, last.path)
  }

  function EnsureLvmPool(db: Db, name: string): (r: Db)
    ensures name in r.lvmPools
  {
    if name in db.lvmPools then db
    else db.(lvmPools := db.lvmPools[name := db.nextPool], nextPool := db.nextPool + 1)
  }

  function Link(db: Db, i: nat, lvm: nat): Db
    requires i < |db.volumes|
  {
    db.(volumes := db.volumes[i := db.volumes[i].(lvmPool := Some(lvm))])
  }

  /** One scanned volume.  The row to link is looked up by path, in any pool; when there is none
      the refresh raises and what was saved stays. */
  function RefreshOne(db: Db, pool: nat, v: Scanned): Outcome {
    var added := EnsureVolume(db, pool, v.key, v.path);
    if v.lvmName == "" then Outcome(added, false)
    else
      var withPool := EnsureLvmPool(added, v.lvmName);
      var i := FindByPath(withPool.volumes, v.path);
      if i == |withPool.volumes| then Outcome(withPool, true)
      else
        var lvm := withPool.lvmPools[v.lvmName];
        Outcome(EnsureVolumes(Link(withPool, i, lvm), lvm, v.lvmVolumes), false)
  }

  function Refresh(db: Db, pool: nat, scan: seq<Scanned>): Outcome {
    if scan == [] then Outcome(db, false)
    else
      var before := Refresh(db, pool, scan[..|scan| - 1]);
      if before.raised then before else RefreshOne(before.db, pool, scan[|scan| - 1])
  }

  // ---------- the code ----------

  class StorageTables {
    var volumes: seq<Volume>
    var lvmPools: map<string, nat>
    var nextPool: nat

    function State(): Db
      reads this
    {
      Db(volumes, lvmPools, nextPool)
    }

    /** The lookup and `add_volume_to_db`. */
    method AddIfMissing(pool: nat, key: string, path: string)
      modifies this`volumes
      ensures State() == EnsureVolume(old(State()), pool, key, path)
    {
      var existing := FindByKey(volumes, pool, key);
      if existing == |volumes| {
        volumes := volumes + [Volume(pool, key, path, None)];
      }
    }

    method AddLvmVolumes(pool: nat, list: seq<LvmVolume>)
      modifies this`volumes
      ensures State() == EnsureVolumes(old(State()), pool, list)
    {
      var i := 0;
      while i < |list|
        invariant 0 <= i <= |list|
        invariant State() == EnsureVolumes(old(State()), pool, list[..i])
      {
        assert list[..i + 1][..i] == list[..i];
        AddIfMissing(pool, list[i].key, list[i].path);
        i := i + 1;
      }
      assert list[..i] == list;
    }

    method RefreshVolume(pool: nat, v: Scanned) returns (raised: bool)
      modifies this
      ensures Outcome(State(), raised) == RefreshOne(old(State()), pool, v)
    {
      AddIfMissing(pool, v.key, v.path);
      if v.lvmName == "" {
        return false;
      }
      if v.lvmName !in lvmPools {
        lvmPools := lvmPools[v.lvmName := nextPool];
        nextPool := nextPool + 1;
      }
      var i := FindByPath(volumes, v.path);
      if i == |volumes| {
        return true;
      }
      var lvm := lvmPools[v.lvmName];
      volumes := volumes[i := volumes[i].(lvmPool := Some(lvm))];
      AddLvmVolumes(lvm, v.lvmVolumes);
      raised := false;
    }

    /** The loop of `task_refresh_pool`. */
    method RefreshPool(pool: nat, scan: seq<Scanned>) returns (raised: bool)
      modifies this
      ensures Outcome(State(), raised) == Refresh(old(State()), pool, scan)
    {
      raised := false;
      var i := 0;
      while i < |scan|
        invariant 0 <= i <= |scan|
        invariant Outcome(State(), false) == Refresh(old(State()), pool, scan[..i])
      {
        assert scan[..i + 1][..i] == scan[..i];
        raised := RefreshVolume(pool, scan[i]);
        if raised {
          RaisedStops(old(State()), pool, scan, i + 1);
          return;
        }
        i := i + 1;
      }
      assert scan[..i] == scan;
    }
  }

  lemma {:induction false} RaisedStops(db: Db, pool: nat, scan: seq<Scanned>, n: nat)
    requires n <= |scan| && Refresh(db, pool, scan[..n]).raised
    ensures Refresh(db, pool, scan) == Refresh(db, pool, scan[..n])
    decreases |scan|
  {
    if n == |scan| {
      assert scan[..n] == scan;
    } else {
      assert scan[..|scan| - 1][..n] == scan[..n];
      RaisedStops(db, pool, scan[..|scan| - 1], n);
    }
  }

  // ---------- nothing is lost, nothing is doubled ----------

  /** Every old row is still there, unchanged but for its link; every LVM pool keeps its id. */
  ghost predicate Extends(a: Db, b: Db) {
    |a.volumes| <= |b.volumes| &&
    (forall i :: 0 <= i < |a.volumes| ==> b.volumes[i].(lvmPool := a.volumes[i].lvmPool) == a.volumes[i]) &&
    (forall n :: n in a.lvmPools ==> n in b.lvmPools && b.lvmPools[n] == a.lvmPools[n])
  }

  ghost predicate UniqueKeys(vols: seq<Volume>) {
    forall i, j :: 0 <= i < j < |vols| ==> vols[i].pool != vols[j].pool || vols[i].key != vols[j].key
  }

  ghost predicate Grows(a: Db, b: Db) {
    Extends(a, b) && (UniqueKeys(a.volumes) ==> UniqueKeys(b.volumes))
  }

  lemma GrowsTwice(a: Db, b: Db, c: Db)
    requires Grows(a, b) && Grows(b, c)
    ensures Grows(a, c)
  {}

  lemma EnsureVolumeGrows(db: Db, pool: nat, key: string, path: string)
    ensures Grows(db, EnsureVolume(db, pool, key, path))
    ensures HasKey(EnsureVolume(db, pool, key, path).volumes, pool, key)
  {
    var added := EnsureVolume(db, pool, key, path);
    if FindByKey(db.volumes, pool, key) == |db.volumes| {
      assert added.volumes[|db.volumes|].key == key;
    }
  }

  lemma {:induction false} EnsureVolumesGrow(db: Db, pool: nat, list: seq<LvmVolume>)
    ensures Grows(db, EnsureVolumes(db, pool, list))
    ensures EnsureVolumes(db, pool, list).lvmPools == db.lvmPools
    ensures forall l :: l in list ==> HasKey(EnsureVolumes(db, pool, list).volumes, pool, l.key)
  {
    if list != [] {
      var init, last := list[..|list| - 1], list[|list| - 1];
      assert list == init + [last];
      EnsureVolumesGrow(db, pool, init);
      var mid := EnsureVolumes(db, pool, init);
      EnsureVolumeGrows(mid, pool, last.key, last.path);
      GrowsTwice(db, mid, EnsureVolumes(db, pool, list));
      forall l | l in init
        ensures HasKey(EnsureVolumes(db, pool, list).volumes, pool, l.key)
      {
        HasKeyKept(mid, EnsureVolumes(db, pool, list), pool, l.key);
      }
    }
  }

  ghost predicate HasKey(vols: seq<Volume>, pool: nat, key: string) {
    exists i :: 0 <= i < |vols| && vols[i].pool == pool && vols[i].key == key
  }

  lemma HasKeyKept(a: Db, b: Db, pool: nat, key: string)
    requires Extends(a, b) && HasKey(a.volumes, pool, key)
    ensures HasKey(b.volumes, pool, key)
  {}

  /** The states one scanned volume with an LVM pool passes through. */
  function WithLvmPool(db: Db, pool: nat, v: Scanned): (r: Db)
    ensures v.lvmName in r.lvmPools
  {
    EnsureLvmPool(EnsureVolume(db, pool, v.key, v.path), v.lvmName)
  }

  lemma WithLvmPoolGrows(db: Db, pool: nat, v: Scanned)
    ensures Grows(db, WithLvmPool(db, pool, v)) && HasKey(WithLvmPool(db, pool, v).volumes, pool, v.key)
  {
    var added := EnsureVolume(db, pool, v.key, v.path);
    EnsureVolumeGrows(db, pool, v.key, v.path);
    assert Grows(added, WithLvmPool(db, pool, v));
    GrowsTwice(db, added, WithLvmPool(db, pool, v));
  }

  /** The scanned key is in its pool, and with an LVM pool so are that pool's scanned keys. */
  ghost predicate Present(db: Db, pool: nat, v: Scanned) {
    HasKey(db.volumes, pool, v.key) &&
    (v.lvmName != "" ==>
      v.lvmName in db.lvmPools && forall l :: l in v.lvmVolumes ==> HasKey(db.volumes, db.lvmPools[v.lvmName], l.key))
  }

  lemma PresentKept(a: Db, b: Db, pool: nat, v: Scanned)
    requires Extends(a, b) && Present(a, pool, v)
    ensures Present(b, pool, v)
  {
    HasKeyKept(a, b, pool, v.key);
    if v.lvmName != "" {
      forall l | l in v.lvmVolumes
        ensures HasKey(b.volumes, b.lvmPools[v.lvmName], l.key)
      {
        HasKeyKept(a, b, a.lvmPools[v.lvmName], l.key);
      }
    }
  }

  /** From finding the row to the end of one volume's turn. */
  function LinkAndFill(db: Db, i: nat, lvm: nat, list: seq<LvmVolume>): Db
    requires i < |db.volumes|
  {
    EnsureVolumes(Link(db, i, lvm), lvm, list)
  }

  lemma LinkAndFillGrows(db: Db, i: nat, lvm: nat, list: seq<LvmVolume>)
    requires i < |db.volumes|
    ensures Grows(db, LinkAndFill(db, i, lvm, list)) && LinkAndFill(db, i, lvm, list).lvmPools == db.lvmPools
    ensures forall l :: l in list ==> HasKey(LinkAndFill(db, i, lvm, list).volumes, lvm, l.key)
  {
    var linked := Link(db, i, lvm);
    assert Grows(db, linked);
    EnsureVolumesGrow(linked, lvm, list);
    GrowsTwice(db, linked, LinkAndFill(db, i, lvm, list));
  }

  lemma RefreshOneGrows(db: Db, pool: nat, v: Scanned)
    ensures Grows(db, RefreshOne(db, pool, v).db)
    ensures !RefreshOne(db, pool, v).raised ==> Present(RefreshOne(db, pool, v).db, pool, v)
  {
    if v.lvmName == "" {
      EnsureVolumeGrows(db, pool, v.key, v.path);
    } else {
      WithLvmPoolGrows(db, pool, v);
      var mid := WithLvmPool(db, pool, v);
      var i := FindByPath(mid.volumes, v.path);
      if i < |mid.volumes| {
        var last := LinkAndFill(mid, i, mid.lvmPools[v.lvmName], v.lvmVolumes);
        LinkAndFillGrows(mid, i, mid.lvmPools[v.lvmName], v.lvmVolumes);
        GrowsTwice(db, mid, last);
        HasKeyKept(mid, last, pool, v.key);
      }
    }
  }

  /** Even a refresh that raises deletes no row and doubles no (pool, key); one that completes
      leaves every scanned key, physical or LVM, in its pool. */
  lemma {:induction false} RefreshIsSafe(db: Db, pool: nat, scan: seq<Scanned>)
    ensures Extends(db, Refresh(db, pool, scan).db)
    ensures UniqueKeys(db.volumes) ==> UniqueKeys(Refresh(db, pool, scan).db.volumes)
    ensures !Refresh(db, pool, scan).raised ==> forall v :: v in scan ==> Present(Refresh(db, pool, scan).db, pool, v)
  {
    if scan != [] {
      var init, last := scan[..|scan| - 1], scan[|scan| - 1];
      assert scan == init + [last];
      RefreshIsSafe(db, pool, init);
      var before := Refresh(db, pool, init);
      if !before.raised {
        var after := RefreshOne(before.db, pool, last);
        RefreshOneGrows(before.db, pool, last);
        GrowsTwice(db, before.db, after.db);
        if !after.raised {
          forall v | v in init
            ensures Present(after.db, pool, v)
          {
            PresentKept(before.db, after.db, pool, v);
          }
        }
      }
    }
  }

  /** LVM pools have ids of their own, below the next one. */
  ghost predicate Numbered(db: Db) {
    (forall m :: m in db.lvmPools ==> db.lvmPools[m] < db.nextPool) &&
    (forall m, n :: m in db.lvmPools && n in db.lvmPools && db.lvmPools[m] == db.lvmPools[n] ==> m == n)
  }

  function LvmNames(scan: seq<Scanned>): set<string> {
    set v | v in scan && v.lvmName != "" :: v.lvmName
  }

  lemma WithLvmPoolNumbered(db: Db, pool: nat, v: Scanned)
    ensures Numbered(db) ==> Numbered(WithLvmPool(db, pool, v))
    ensures WithLvmPool(db, pool, v).lvmPools.Keys == db.lvmPools.Keys + {v.lvmName}
  {}

  lemma RefreshOneLvmPools(db: Db, pool: nat, v: Scanned)
    ensures var after := RefreshOne(db, pool, v).db;
            (Numbered(db) ==> Numbered(after)) &&
            after.lvmPools.Keys == db.lvmPools.Keys + if v.lvmName == "" then {} else {v.lvmName}
  {
    if v.lvmName != "" {
      WithLvmPoolNumbered(db, pool, v);
      var mid := WithLvmPool(db, pool, v);
      var i, lvm := FindByPath(mid.volumes, v.path), mid.lvmPools[v.lvmName];
      if i < |mid.volumes| {
        LinkAndFillGrows(mid, i, lvm, v.lvmVolumes);
        EnsureVolumesPools(Link(mid, i, lvm), lvm, v.lvmVolumes);
        assert Numbered(mid) ==> Numbered(LinkAndFill(mid, i, lvm, v.lvmVolumes));
      }
    }
  }

  lemma {:induction false} EnsureVolumesPools(db: Db, pool: nat, list: seq<LvmVolume>)
    ensures EnsureVolumes(db, pool, list).nextPool == db.nextPool
  {
    if list != [] {
      EnsureVolumesPools(db, pool, list[..|list| - 1]);
    }
  }

  lemma LvmNamesOfLast(init: seq<Scanned>, last: Scanned)
    ensures LvmNames(init + [last]) == LvmNames(init) + if last.lvmName == "" then {} else {last.lvmName}
  {
    forall v
      ensures v in init + [last] <==> v in init || v == last
    {}
  }

  /** A completed refresh knows the LVM pools it knew and those it found on the scanned volumes, no
      other, and no two of them share an id. */
  lemma {:induction false} LvmPoolsFound(db: Db, pool: nat, scan: seq<Scanned>)
    ensures Numbered(db) ==> Numbered(Refresh(db, pool, scan).db)
    ensures !Refresh(db, pool, scan).raised ==>
              Refresh(db, pool, scan).db.lvmPools.Keys == db.lvmPools.Keys + LvmNames(scan)
  {
    if scan != [] {
      var init, last := scan[..|scan| - 1], scan[|scan| - 1];
      assert scan == init + [last];
      LvmPoolsFound(db, pool, init);
      LvmNamesOfLast(init, last);
      RefreshOneLvmPools(Refresh(db, pool, init).db, pool, last);
    }
  }

  function RowsOf(vols: seq<Volume>, pool: nat, key: string): set<nat> {
    set i | 0 <= i < |vols| && vols[i].pool == pool && vols[i].key == key
  }

  lemma ExactlyOneRow(vols: seq<Volume>, pool: nat, key: string)
    requires UniqueKeys(vols) && HasKey(vols, pool, key)
    ensures |RowsOf(vols, pool, key)| == 1
  {
    var i :| 0 <= i < |vols| && vols[i].pool == pool && vols[i].key == key;
    assert RowsOf(vols, pool, key) == {i};
  }

  /** Where no key was doubled before, a completed refresh leaves exactly one row for every scanned
      key in its pool, physical or LVM. */
  lemma OneRowPerScannedKey(db: Db, pool: nat, scan: seq<Scanned>, v: Scanned)
    requires UniqueKeys(db.volumes) && v in scan && !Refresh(db, pool, scan).raised
    ensures var after := Refresh(db, pool, scan).db;
            |RowsOf(after.volumes, pool, v.key)| == 1 &&
            (v.lvmName != "" ==>
               v.lvmName in after.lvmPools &&
               forall l :: l in v.lvmVolumes ==> |RowsOf(after.volumes, after.lvmPools[v.lvmName], l.key)| == 1)
  {
    var after := Refresh(db, pool, scan).db;
    RefreshIsSafe(db, pool, scan);
    assert Present(after, pool, v);
    ExactlyOneRow(after.volumes, pool, v.key);
    if v.lvmName != "" {
      forall l | l in v.lvmVolumes
        ensures |RowsOf(after.volumes, after.lvmPools[v.lvmName], l.key)| == 1
      {
        ExactlyOneRow(after.volumes, after.lvmPools[v.lvmName], l.key);
      }
    }
  }

  /** The row holds something the scan reports: a physical volume in the scanned pool, or a volume of
      an LVM pool it names. */
  ghost predicate ReportedRow(row: Volume, db: Db, pool: nat, scan: seq<Scanned>) {
    exists v :: v in scan && ReportedBy(row, db, pool, v)
  }

  ghost predicate ReportedBy(row: Volume, db: Db, pool: nat, v: Scanned) {
    (row.pool == pool && row.key == v.key && row.path == v.path) ||
    (v.lvmName != "" && v.lvmName in db.lvmPools && row.pool == db.lvmPools[v.lvmName] &&
     LvmVolume(row.key, row.path) in v.lvmVolumes)
  }

  lemma AddedVolume(db: Db, pool: nat, key: string, path: string, i: nat)
    requires i < |EnsureVolume(db, pool, key, path).volumes|
    ensures EnsureVolume(db, pool, key, path).volumes[i] ==
            if i < |db.volumes| then db.volumes[i] else Volume(pool, key, path, None)
  {}

  lemma {:induction false} AddedVolumes(db: Db, pool: nat, list: seq<LvmVolume>, i: nat)
    requires |db.volumes| <= i < |EnsureVolumes(db, pool, list).volumes|
    ensures var row := EnsureVolumes(db, pool, list).volumes[i];
            row.pool == pool && LvmVolume(row.key, row.path) in list
  {
    if list != [] {
      var init, last := list[..|list| - 1], list[|list| - 1];
      assert list == init + [last];
      hide EnsureVolume;
      AddedVolume(EnsureVolumes(db, pool, init), pool, last.key, last.path, i);
      if i < |EnsureVolumes(db, pool, init).volumes| {
        AddedVolumes(db, pool, init, i);
      } else {
        assert LvmVolume(last.key, last.path) == last;
      }
    }
  }

  lemma RefreshOneAdds(db: Db, pool: nat, v: Scanned, i: nat)
    requires |db.volumes| <= i < |RefreshOne(db, pool, v).db.volumes|
    ensures ReportedBy(RefreshOne(db, pool, v).db.volumes[i], RefreshOne(db, pool, v).db, pool, v)
  {
    if v.lvmName != "" {
      var mid := WithLvmPool(db, pool, v);
      var j := FindByPath(mid.volumes, v.path);
      if j < |mid.volumes| {
        var lvm := mid.lvmPools[v.lvmName];
        LinkAndFillGrows(mid, j, lvm, v.lvmVolumes);
        if i >= |mid.volumes| {
          AddedVolumes(Link(mid, j, lvm), lvm, v.lvmVolumes, i);
        } else {
          var last := LinkAndFill(mid, j, lvm, v.lvmVolumes);
          assert last.volumes[i].(lvmPool := mid.volumes[i].lvmPool) == mid.volumes[i];
        }
      }
    }
  }

  /** A refresh, even one that raises, adds nothing but what the scan reports, under the reported path. */
  lemma {:induction false} OnlyReportedAdded(db: Db, pool: nat, scan: seq<Scanned>, i: nat)
    requires |db.volumes| <= i < |Refresh(db, pool, scan).db.volumes|
    ensures ReportedRow(Refresh(db, pool, scan).db.volumes[i], Refresh(db, pool, scan).db, pool, scan)
  {
    if scan != [] {
      var init, last := scan[..|scan| - 1], scan[|scan| - 1];
      assert scan == init + [last];
      var before, after := Refresh(db, pool, init), Refresh(db, pool, scan);
      if before.raised {
        OnlyReportedAdded(db, pool, init, i);
      } else {
        RefreshOneGrows(before.db, pool, last);
        if i < |before.db.volumes| {
          OnlyReportedAdded(db, pool, init, i);
          var v :| v in init && ReportedBy(before.db.volumes[i], before.db, pool, v);
          StillReported(before.db, after.db, pool, v, i);
        } else {
          RefreshOneAdds(before.db, pool, last, i);
        }
      }
    }
  }

  lemma StillReported(a: Db, b: Db, pool: nat, v: Scanned, i: nat)
    requires Extends(a, b) && i < |a.volumes| && ReportedBy(a.volumes[i], a, pool, v)
    ensures ReportedBy(b.volumes[i], b, pool, v)
  {
    assert b.volumes[i].(lvmPool := a.volumes[i].lvmPool) == a.volumes[i];
  }

  // ---------- the links ----------

  /** The LVM pool that the scan assigns last to row `r`, if any: rows are found by path. */
  function LastLink(db: Db, scan: seq<Scanned>, r: nat): Option<nat> {
    if scan == [] then None
    else
      var v := scan[|scan| - 1];
      if v.lvmName != "" && v.lvmName in db.lvmPools && FindByPath(db.volumes, v.path) == r
      then Some(db.lvmPools[v.lvmName])
      else LastLink(db, scan[..|scan| - 1], r)
  }

  function LinkIn(vols: seq<Volume>, r: nat): Option<nat> {
    if r < |vols| then vols[r].lvmPool else None
  }

  /** A row found by path stays the first with its path. */
  lemma FoundPathKept(a: Db, b: Db, path: string)
    requires Extends(a, b) && FindByPath(a.volumes, path) < |a.volumes|
    ensures FindByPath(b.volumes, path) == FindByPath(a.volumes, path)
  {}

  /** What makes a finished refresh's links readable from its final table. */
  ghost predicate Resolved(db: Db, scan: seq<Scanned>) {
    forall v :: v in scan && v.lvmName != "" ==>
      v.lvmName in db.lvmPools && FindByPath(db.volumes, v.path) < |db.volumes|
  }

  lemma {:induction false} LastLinkKept(a: Db, b: Db, scan: seq<Scanned>, r: nat)
    requires Extends(a, b) && Resolved(a, scan)
    ensures Resolved(b, scan) && LastLink(b, scan, r) == LastLink(a, scan, r)
  {
    if scan != [] {
      var init, v := scan[..|scan| - 1], scan[|scan| - 1];
      assert scan == init + [v];
      LastLinkKept(a, b, init, r);
      if v.lvmName != "" {
        FoundPathKept(a, b, v.path);
      }
    }
  }

  lemma {:induction false} EnsureVolumesLinks(db: Db, pool: nat, list: seq<LvmVolume>, r: nat)
    ensures LinkIn(EnsureVolumes(db, pool, list).volumes, r) == LinkIn(db.volumes, r)
  {
    if list != [] {
      EnsureVolumesLinks(db, pool, list[..|list| - 1], r);
    }
  }

  /** The row looked up by path can be told from the table as it was: a row added under a missing
      key comes last, where the search for a missing path stops. */
  lemma PathBeforehand(db: Db, pool: nat, v: Scanned)
    ensures FindByPath(WithLvmPool(db, pool, v).volumes, v.path) == FindByPath(db.volumes, v.path)
    ensures forall r :: LinkIn(WithLvmPool(db, pool, v).volumes, r) == LinkIn(db.volumes, r)
  {
    if FindByKey(db.volumes, pool, v.key) == |db.volumes| {
      var mid := WithLvmPool(db, pool, v);
      assert mid.volumes == db.volumes + [Volume(pool, v.key, v.path, None)];
      assert mid.volumes[|db.volumes|].path == v.path;
      assert forall k :: 0 <= k < |db.volumes| ==> mid.volumes[k] == db.volumes[k];
    }
  }

  /** One volume's turn sets the link of the row found by path, and no other. */
  lemma RefreshOneLinks(db: Db, pool: nat, v: Scanned, r: nat)
    requires !RefreshOne(db, pool, v).raised
    ensures var after := RefreshOne(db, pool, v).db;
            Resolved(after, [v]) &&
            LinkIn(after.volumes, r) ==
            if v.lvmName != "" && FindByPath(after.volumes, v.path) == r then Some(after.lvmPools[v.lvmName])
            else LinkIn(db.volumes, r)
    ensures v.lvmName != "" ==>
              FindByPath(RefreshOne(db, pool, v).db.volumes, v.path) == FindByPath(db.volumes, v.path) &&
              RefreshOne(db, pool, v).db.lvmPools == WithLvmPool(db, pool, v).lvmPools
  {
    if v.lvmName != "" {
      PathBeforehand(db, pool, v);
      var mid := WithLvmPool(db, pool, v);
      var i := FindByPath(mid.volumes, v.path);
      var lvm := mid.lvmPools[v.lvmName];
      LinkAndFillGrows(mid, i, lvm, v.lvmVolumes);
      EnsureVolumesLinks(Link(mid, i, lvm), lvm, v.lvmVolumes, r);
      FoundPathKept(mid, LinkAndFill(mid, i, lvm, v.lvmVolumes), v.path);
    }
  }

  /** After a completed refresh every row's link is the last one the scan assigned to it by path,
      or else the one it had. */
  lemma {:induction false} LinksAreTheLast(db: Db, pool: nat, scan: seq<Scanned>, r: nat)
    requires !Refresh(db, pool, scan).raised
    ensures var after := Refresh(db, pool, scan).db;
            Resolved(after, scan) &&
            LinkIn(after.volumes, r) ==
            if LastLink(after, scan, r).Some? then LastLink(after, scan, r) else LinkIn(db.volumes, r)
  {
    if scan != [] {
      var init, v := scan[..|scan| - 1], scan[|scan| - 1];
      assert scan == init + [v];
      LinksAreTheLast(db, pool, init, r);
      var before, after := Refresh(db, pool, init).db, Refresh(db, pool, scan).db;
      RefreshOneGrows(before, pool, v);
      RefreshOneLinks(before, pool, v, r);
      assert v in [v];
      LastLinkKept(before, after, init, r);
    }
  }

  // ---------- a second refresh ----------

  lemma {:induction false} EnsureVolumesAgain(db: Db, pool: nat, list: seq<LvmVolume>)
    requires forall l :: l in list ==> HasKey(db.volumes, pool, l.key)
    ensures EnsureVolumes(db, pool, list) == db
  {
    if list != [] {
      var init, last := list[..|list| - 1], list[|list| - 1];
      assert list == init + [last];
      EnsureVolumesAgain(db, pool, init);
    }
  }

  /** Refreshing a volume that is all there only sets its link. */
  lemma RefreshOneAgain(db: Db, pool: nat, v: Scanned)
    requires Present(db, pool, v) && Resolved(db, [v])
    ensures RefreshOne(db, pool, v) ==
            if v.lvmName == "" then Outcome(db, false)
            else Outcome(Link(db, FindByPath(db.volumes, v.path), db.lvmPools[v.lvmName]), false)
  {
    assert v in [v];
    assert EnsureVolume(db, pool, v.key, v.path) == db;
    if v.lvmName != "" {
      var linked := Link(db, FindByPath(db.volumes, v.path), db.lvmPools[v.lvmName]);
      PresentKept(db, linked, pool, v);
      EnsureVolumesAgain(linked, db.lvmPools[v.lvmName], v.lvmVolumes);
    }
  }

  lemma {:induction false} RefreshAllPresent(db: Db, pool: nat, scan: seq<Scanned>)
    requires Resolved(db, scan) && forall v :: v in scan ==> Present(db, pool, v)
    ensures var again := Refresh(db, pool, scan);
            !again.raised && Extends(db, again.db) && |again.db.volumes| == |db.volumes| &&
            again.db.lvmPools == db.lvmPools && again.db.nextPool == db.nextPool
  {
    if scan != [] {
      var init, v := scan[..|scan| - 1], scan[|scan| - 1];
      assert scan == init + [v];
      RefreshAllPresent(db, pool, init);
      var before := Refresh(db, pool, init).db;
      PresentKept(db, before, pool, v);
      assert Resolved(before, [v]) by {
        if v.lvmName != "" {
          FoundPathKept(db, before, v.path);
        }
      }
      RefreshOneAgain(before, pool, v);
      RefreshOneGrows(before, pool, v);
      RefreshIsSafe(db, pool, scan);
    }
  }

  /** A second refresh on the same scan changes nothing. */
  lemma RefreshTwice(db: Db, pool: nat, scan: seq<Scanned>)
    requires !Refresh(db, pool, scan).raised
    ensures Refresh(Refresh(db, pool, scan).db, pool, scan) == Refresh(db, pool, scan)
  {
    var first := Refresh(db, pool, scan).db;
    RefreshIsSafe(db, pool, scan);
    LinksAreTheLast(db, pool, scan, 0);
    RefreshAllPresent(first, pool, scan);
    var second := Refresh(first, pool, scan).db;
    forall r | 0 <= r < |first.volumes|
      ensures second.volumes[r] == first.volumes[r]
    {
      LinksAreTheLast(db, pool, scan, r);
      LinksAreTheLast(first, pool, scan, r);
      LastLinkKept(first, second, scan, r);
      assert LinkIn(second.volumes, r) == LinkIn(first.volumes, r);
      assert second.volumes[r].(lvmPool := first.volumes[r].lvmPool) == first.volumes[r];
    }
    assert second.volumes == first.volumes;
  }

  // ---------- when the right row is linked ----------

  /** Paths tell the scanned physical volumes apart: from each other, from every stored row that
      is not their own, and from the scanned LVM volumes; and the pool is not itself one of the
      LVM pools. */
  ghost predicate PathsIdentify(db: Db, pool: nat, scan: seq<Scanned>) {
    pool < db.nextPool && (forall n :: n in db.lvmPools ==> db.lvmPools[n] < db.nextPool && db.lvmPools[n] != pool) &&
    (forall v, i :: v in scan && 0 <= i < |db.volumes| ==>
       (db.volumes[i].path == v.path <==> db.volumes[i].pool == pool && db.volumes[i].key == v.key)) &&
    (forall v, w :: v in scan && w in scan ==>
       (v.path == w.path <==> v.key == w.key) && (v.key == w.key ==> v.lvmName == w.lvmName) &&
       forall l :: l in w.lvmVolumes ==> l.path != v.path)
  }

  lemma EnsureVolumeIdentifies(db: Db, pool: nat, scan: seq<Scanned>, p: nat, key: string, path: string)
    requires PathsIdentify(db, pool, scan)
    requires forall v :: v in scan ==> (path == v.path <==> p == pool && key == v.key)
    ensures PathsIdentify(EnsureVolume(db, p, key, path), pool, scan)
  {}

  lemma {:induction false} EnsureVolumesIdentify(db: Db, pool: nat, scan: seq<Scanned>, p: nat, list: seq<LvmVolume>)
    requires PathsIdentify(db, pool, scan) && p != pool
    requires forall v, l :: v in scan && l in list ==> l.path != v.path
    ensures PathsIdentify(EnsureVolumes(db, p, list), pool, scan)
  {
    if list != [] {
      var init, last := list[..|list| - 1], list[|list| - 1];
      assert list == init + [last];
      EnsureVolumesIdentify(db, pool, scan, p, init);
      EnsureVolumeIdentifies(EnsureVolumes(db, p, init), pool, scan, p, last.key, last.path);
    }
  }

  lemma LinkIdentifies(db: Db, pool: nat, scan: seq<Scanned>, i: nat, lvm: nat)
    requires PathsIdentify(db, pool, scan) && i < |db.volumes|
    ensures PathsIdentify(Link(db, i, lvm), pool, scan)
  {}

  lemma WithLvmPoolIdentifies(db: Db, pool: nat, scan: seq<Scanned>, v: Scanned)
    requires PathsIdentify(db, pool, scan) && v in scan
    ensures PathsIdentify(WithLvmPool(db, pool, v), pool, scan)
  {
    EnsureVolumeIdentifies(db, pool, scan, pool, v.key, v.path);
  }

  /** Then the lookup by path finds the volume's own row. */
  lemma OwnRowFound(db: Db, pool: nat, scan: seq<Scanned>, v: Scanned)
    requires PathsIdentify(db, pool, scan) && v in scan && HasKey(db.volumes, pool, v.key)
    ensures FindByPath(db.volumes, v.path) == FindByKey(db.volumes, pool, v.key) < |db.volumes|
  {}

  lemma RefreshOneIdentifies(db: Db, pool: nat, scan: seq<Scanned>, v: Scanned)
    requires PathsIdentify(db, pool, scan) && v in scan
    ensures !RefreshOne(db, pool, v).raised && PathsIdentify(RefreshOne(db, pool, v).db, pool, scan)
  {
    if v.lvmName == "" {
      EnsureVolumeIdentifies(db, pool, scan, pool, v.key, v.path);
    } else {
      WithLvmPoolIdentifies(db, pool, scan, v);
      WithLvmPoolGrows(db, pool, v);
      var mid := WithLvmPool(db, pool, v);
      OwnRowFound(mid, pool, scan, v);
      var i, lvm := FindByPath(mid.volumes, v.path), mid.lvmPools[v.lvmName];
      LinkIdentifies(mid, pool, scan, i, lvm);
      EnsureVolumesIdentify(Link(mid, i, lvm), pool, scan, lvm, v.lvmVolumes);
    }
  }

  lemma {:induction false} RefreshIdentifies(db: Db, pool: nat, scan: seq<Scanned>, part: seq<Scanned>)
    requires PathsIdentify(db, pool, scan) && forall v :: v in part ==> v in scan
    ensures !Refresh(db, pool, part).raised && PathsIdentify(Refresh(db, pool, part).db, pool, scan)
  {
    if part != [] {
      RefreshIdentifies(db, pool, scan, part[..|part| - 1]);
      RefreshOneIdentifies(Refresh(db, pool, part[..|part| - 1]).db, pool, scan, part[|part| - 1]);
    }
  }

  /** For one scanned volume the condition is exact, and can be read off the tables beforehand:
      the refresh completes with the volume's own row linked just when looking it up by path and
      by key finds the same row (or neither finds one), or the row has that link already. */
  lemma OwnRowLinkedIff(db: Db, pool: nat, v: Scanned)
    requires v.lvmName != ""
    ensures var after := RefreshOne(db, pool, v);
            var byKey, byPath := FindByKey(db.volumes, pool, v.key), FindByPath(db.volumes, v.path);
            var lvm := if v.lvmName in db.lvmPools then db.lvmPools[v.lvmName] else db.nextPool;
            !after.raised && LinkIn(after.db.volumes, byKey) == Some(lvm) <==>
            byPath == byKey || (byPath < |db.volumes| && LinkIn(db.volumes, byKey) == Some(lvm))
  {
    PathBeforehand(db, pool, v);
    if !RefreshOne(db, pool, v).raised {
      RefreshOneLinks(db, pool, v, FindByKey(db.volumes, pool, v.key));
      assert v in [v];
    }
  }

  // ---------- what a refresh will do, told beforehand ----------

  /** The tables with everything the scan reports added and no link set. */
  function Plan(db: Db, pool: nat, scan: seq<Scanned>): Db {
    if scan == [] then db
    else
      var before, v := Plan(db, pool, scan[..|scan| - 1]), scan[|scan| - 1];
      if v.lvmName == "" then EnsureVolume(before, pool, v.key, v.path)
      else
        var withPool := WithLvmPool(before, pool, v);
        EnsureVolumes(withPool, withPool.lvmPools[v.lvmName], v.lvmVolumes)
  }

  /** The LVM pool named last by a scanned volume whose path leads to row `r`. */
  function LastName(vols: seq<Volume>, scan: seq<Scanned>, r: nat): Option<string> {
    if scan == [] then None
    else
      var v := scan[|scan| - 1];
      if v.lvmName != "" && FindByPath(vols, v.path) == r then Some(v.lvmName)
      else LastName(vols, scan[..|scan| - 1], r)
  }

  /** The same tables but for the links. */
  ghost predicate SameButLinks(a: Db, b: Db) {
    |a.volumes| == |b.volumes| && a.lvmPools == b.lvmPools && a.nextPool == b.nextPool &&
    forall i :: 0 <= i < |a.volumes| ==> a.volumes[i].(lvmPool := None) == b.volumes[i].(lvmPool := None)
  }

  lemma {:induction false} SameFinds(a: seq<Volume>, b: seq<Volume>, pool: nat, key: string, path: string)
    requires |a| == |b| && forall i :: 0 <= i < |a| ==> a[i].(lvmPool := None) == b[i].(lvmPool := None)
    ensures FindByKey(a, pool, key) == FindByKey(b, pool, key) && FindByPath(a, path) == FindByPath(b, path)
  {
    if a != [] {
      assert a[0].(lvmPool := None) == b[0].(lvmPool := None);
      forall i | 0 <= i < |a[1..]|
        ensures a[1..][i].(lvmPool := None) == b[1..][i].(lvmPool := None)
      {
        assert a[i + 1].(lvmPool := None) == b[i + 1].(lvmPool := None);
      }
      SameFinds(a[1..], b[1..], pool, key, path);
    }
  }

  lemma SameLookups(a: Db, b: Db)
    requires SameButLinks(a, b)
    ensures forall pool, key :: FindByKey(a.volumes, pool, key) == FindByKey(b.volumes, pool, key)
    ensures forall path :: FindByPath(a.volumes, path) == FindByPath(b.volumes, path)
  {
    forall pool, key, path
      ensures FindByKey(a.volumes, pool, key) == FindByKey(b.volumes, pool, key)
      ensures FindByPath(a.volumes, path) == FindByPath(b.volumes, path)
    {
      SameFinds(a.volumes, b.volumes, pool, key, path);
    }
  }

  lemma SameAfterVolume(a: Db, b: Db, pool: nat, key: string, path: string)
    requires SameButLinks(a, b)
    ensures SameButLinks(EnsureVolume(a, pool, key, path), EnsureVolume(b, pool, key, path))
  {
    SameLookups(a, b);
  }

  lemma {:induction false} SameAfterVolumes(a: Db, b: Db, pool: nat, list: seq<LvmVolume>)
    requires SameButLinks(a, b)
    ensures SameButLinks(EnsureVolumes(a, pool, list), EnsureVolumes(b, pool, list))
  {
    if list != [] {
      var init, last := list[..|list| - 1], list[|list| - 1];
      SameAfterVolumes(a, b, pool, init);
      SameAfterVolume(EnsureVolumes(a, pool, init), EnsureVolumes(b, pool, init), pool, last.key, last.path);
    }
  }

  lemma SameAfterOne(a: Db, b: Db, pool: nat, v: Scanned)
    requires SameButLinks(a, b) && !RefreshOne(a, pool, v).raised
    ensures SameButLinks(RefreshOne(a, pool, v).db,
                         if v.lvmName == "" then EnsureVolume(b, pool, v.key, v.path)
                         else EnsureVolumes(WithLvmPool(b, pool, v), WithLvmPool(b, pool, v).lvmPools[v.lvmName],
                                            v.lvmVolumes))
  {
    SameAfterVolume(a, b, pool, v.key, v.path);
    if v.lvmName != "" {
      var mid := WithLvmPool(a, pool, v);
      var i, lvm := FindByPath(mid.volumes, v.path), mid.lvmPools[v.lvmName];
      assert SameButLinks(mid, WithLvmPool(b, pool, v));
      assert SameButLinks(Link(mid, i, lvm), WithLvmPool(b, pool, v));
      SameAfterVolumes(Link(mid, i, lvm), WithLvmPool(b, pool, v), lvm, v.lvmVolumes);
    }
  }

  /** A refresh that completes leaves the planned tables, links aside. */
  lemma {:induction false} RefreshFollowsPlan(db: Db, pool: nat, scan: seq<Scanned>)
    requires !Refresh(db, pool, scan).raised
    ensures SameButLinks(Refresh(db, pool, scan).db, Plan(db, pool, scan))
  {
    if scan != [] {
      var init := scan[..|scan| - 1];
      RefreshFollowsPlan(db, pool, init);
      SameAfterOne(Refresh(db, pool, init).db, Plan(db, pool, init), pool, scan[|scan| - 1]);
    }
  }

  /** Volume `n` of the scan has its row already, but neither that nor any other planned row before
      it has the path it is reported under. */
  predicate LosesPath(db: Db, pool: nat, scan: seq<Scanned>, n: nat)
    requires n < |scan|
  {
    var before := Plan(db, pool, scan[..n]).volumes;
    scan[n].lvmName != "" && FindByKey(before, pool, scan[n].key) < |before| &&
    FindByPath(before, scan[n].path) == |before|
  }

  lemma RaisesHereIff(db: Db, pool: nat, v: Scanned)
    ensures RefreshOne(db, pool, v).raised <==>
            v.lvmName != "" && FindByKey(db.volumes, pool, v.key) < |db.volumes| &&
            FindByPath(db.volumes, v.path) == |db.volumes|
  {
    if v.lvmName != "" {
      PathBeforehand(db, pool, v);
    }
  }

  lemma LastRaisesIff(db: Db, pool: nat, scan: seq<Scanned>)
    requires scan != [] && !Refresh(db, pool, scan[..|scan| - 1]).raised
    ensures Refresh(db, pool, scan).raised <==> LosesPath(db, pool, scan, |scan| - 1)
  {
    var init, before := scan[..|scan| - 1], Refresh(db, pool, scan[..|scan| - 1]).db;
    RefreshFollowsPlan(db, pool, init);
    SameLookups(before, Plan(db, pool, init));
    RaisesHereIff(before, pool, scan[|scan| - 1]);
  }

  lemma LosesPathBefore(db: Db, pool: nat, scan: seq<Scanned>, n: nat)
    requires n < |scan| - 1
    ensures LosesPath(db, pool, scan[..|scan| - 1], n) <==> LosesPath(db, pool, scan, n)
  {
    assert scan[..|scan| - 1][..n] == scan[..n];
  }

  /** A refresh raises exactly when some scanned volume that carries an LVM pool has lost its path. */
  lemma {:induction false} RaisesIff(db: Db, pool: nat, scan: seq<Scanned>)
    ensures Refresh(db, pool, scan).raised <==> exists n :: 0 <= n < |scan| && LosesPath(db, pool, scan, n)
  {
    if scan != [] {
      var init := scan[..|scan| - 1];
      RaisesIff(db, pool, init);
      forall n | 0 <= n < |init| {
        LosesPathBefore(db, pool, scan, n);
      }
      if Refresh(db, pool, init).raised {
        var n :| 0 <= n < |init| && LosesPath(db, pool, init, n);
        assert LosesPath(db, pool, scan, n);
      } else {
        LastRaisesIff(db, pool, scan);
      }
    }
  }

  /** A refresh that raises keeps what it has done: the volumes before the first that lost its path
      are refreshed, and the LVM pool that one names is there. */
  lemma {:induction false} RaisedKeepsEarlier(db: Db, pool: nat, scan: seq<Scanned>) returns (n: nat)
    requires Refresh(db, pool, scan).raised
    ensures n < |scan| && LosesPath(db, pool, scan, n) && !Refresh(db, pool, scan[..n]).raised
    ensures Refresh(db, pool, scan).db.volumes == Refresh(db, pool, scan[..n]).db.volumes
    ensures Refresh(db, pool, scan).db.lvmPools.Keys == Refresh(db, pool, scan[..n]).db.lvmPools.Keys + {scan[n].lvmName}
    ensures forall v :: v in scan[..n] ==> Present(Refresh(db, pool, scan).db, pool, v)
  {
    var init, last := scan[..|scan| - 1], |scan| - 1;
    if Refresh(db, pool, init).raised {
      n := RaisedKeepsEarlier(db, pool, init);
      LosesPathBefore(db, pool, scan, n);
      assert init[..n] == scan[..n];
    } else {
      n := last;
      LastRaisesIff(db, pool, scan);
      var before := Refresh(db, pool, init).db;
      RaisesHereIff(before, pool, scan[n]);
      WithLvmPoolNumbered(before, pool, scan[n]);
      RefreshIsSafe(db, pool, init);
      RefreshOneGrows(before, pool, scan[n]);
      forall v | v in init
        ensures Present(Refresh(db, pool, scan).db, pool, v)
      {
        PresentKept(before, Refresh(db, pool, scan).db, pool, v);
      }
    }
  }

  lemma {:induction false} LastLinkIsLastName(db: Db, scan: seq<Scanned>, r: nat)
    requires Resolved(db, scan)
    ensures LastLink(db, scan, r) == match LastName(db.volumes, scan, r)
                                     case None => None
                                     case Some(name) => if name in db.lvmPools then Some(db.lvmPools[name]) else None
    ensures LastName(db.volumes, scan, r).Some? ==> LastName(db.volumes, scan, r).value in db.lvmPools
  {
    if scan != [] {
      var init, v := scan[..|scan| - 1], scan[|scan| - 1];
      assert scan == init + [v];
      LastLinkIsLastName(db, init, r);
    }
  }

  lemma {:induction false} SameLastName(a: Db, b: Db, scan: seq<Scanned>, r: nat)
    requires SameButLinks(a, b)
    ensures LastName(a.volumes, scan, r) == LastName(b.volumes, scan, r)
  {
    SameLookups(a, b);
    if scan != [] {
      SameLastName(a, b, scan[..|scan| - 1], r);
    }
  }

  /** A completed refresh leaves a scanned volume's own row linked to the LVM pool it carries exactly
      when, in the planned tables, the last scanned volume whose path leads to that row names the
      same LVM pool; or, when no path leads there, when the row had that link before. */
  lemma LinkedIff(db: Db, pool: nat, scan: seq<Scanned>, v: Scanned)
    requires v in scan && v.lvmName != "" && !Refresh(db, pool, scan).raised
    ensures var after, plan := Refresh(db, pool, scan).db, Plan(db, pool, scan);
            var own := FindByKey(plan.volumes, pool, v.key);
            FindByKey(after.volumes, pool, v.key) == own < |after.volumes| == |plan.volumes| &&
            v.lvmName in after.lvmPools && after.lvmPools == plan.lvmPools &&
            (after.volumes[own].lvmPool == Some(after.lvmPools[v.lvmName]) <==>
             match LastName(plan.volumes, scan, own)
             case Some(name) => name in plan.lvmPools && plan.lvmPools[name] == plan.lvmPools[v.lvmName]
             case None => LinkIn(db.volumes, own) == Some(plan.lvmPools[v.lvmName]))
  {
    var after, plan := Refresh(db, pool, scan).db, Plan(db, pool, scan);
    RefreshFollowsPlan(db, pool, scan);
    SameLookups(after, plan);
    RefreshIsSafe(db, pool, scan);
    assert Present(after, pool, v);
    var own := FindByKey(plan.volumes, pool, v.key);
    LinksAreTheLast(db, pool, scan, own);
    LastLinkIsLastName(after, scan, own);
    SameLastName(after, plan, scan, own);
  }

  lemma {:induction false} LastNameIs(vols: seq<Volume>, scan: seq<Scanned>, r: nat, v: Scanned)
    requires v in scan && v.lvmName != "" && FindByPath(vols, v.path) == r
    requires forall w :: w in scan && FindByPath(vols, w.path) == r ==> w.lvmName == v.lvmName
    ensures LastName(vols, scan, r) == Some(v.lvmName)
  {
    var init, last := scan[..|scan| - 1], scan[|scan| - 1];
    assert scan == init + [last];
    if FindByPath(vols, last.path) != r {
      LastNameIs(vols, init, r, v);
    }
  }

  /** So where paths identify volumes, the refresh completes, and every scanned volume that carries
      an LVM pool has its own row linked to that pool. */
  lemma ScannedVolumesLinked(db: Db, pool: nat, scan: seq<Scanned>, v: Scanned)
    requires PathsIdentify(db, pool, scan) && v in scan && v.lvmName != ""
    ensures !Refresh(db, pool, scan).raised
    ensures var after := Refresh(db, pool, scan).db;
            var own := FindByKey(after.volumes, pool, v.key);
            own < |after.volumes| && v.lvmName in after.lvmPools &&
            after.volumes[own].lvmPool == Some(after.lvmPools[v.lvmName])
  {
    RefreshIdentifies(db, pool, scan, scan);
    RefreshIsSafe(db, pool, scan);
    var after := Refresh(db, pool, scan).db;
    assert Present(after, pool, v);
    OwnRowFound(after, pool, scan, v);
    var own := FindByKey(after.volumes, pool, v.key);
    forall w | w in scan && FindByPath(after.volumes, w.path) == own
      ensures w.lvmName == v.lvmName
    {
      assert after.volumes[own].path == w.path;
    }
    LastNameIs(after.volumes, scan, own, v);
    RefreshFollowsPlan(db, pool, scan);
    SameLastName(after, Plan(db, pool, scan), scan, own);
    LinkedIff(db, pool, scan, v);
  }

  /** A later volume under the same path takes the link over. */
  lemma LaterVolumeRelinks(db: Db, a: Scanned, b: Scanned)
    requires db == Db([], map[], 8) && a == Scanned("a", "/p", "A", []) && b == Scanned("b", "/p", "B", [])
    ensures var after := Refresh(db, 1, [a, b]);
            !after.raised && after.db.lvmPools == map["A" := 8, "B" := 9] &&
            after.db.volumes == [Volume(1, "a", "/p", Some(9)), Volume(1, "b", "/p", None)]
  {
    var first := RefreshOne(db, 1, a).db;
    assert first == Db([Volume(1, "a", "/p", Some(8))], map["A" := 8], 9);
    assert [a][..0] == [] && [a, b][..1] == [a];
    assert Refresh(db, 1, [a]) == RefreshOne(db, 1, a);
    assert first.volumes[1..] == [];
    assert EnsureVolume(first, 1, "b", "/p").volumes == [Volume(1, "a", "/p", Some(8)), Volume(1, "b", "/p", None)];
  }

  /** Another pool's volume with the same path gets the link instead. */
  lemma SharedPathMislinks(db: Db, v: Scanned)
    requires db == Db([Volume(7, "a", "/p", None)], map[], 8) && v == Scanned("b", "/p", "vg", [])
    ensures var after := Refresh(db, 1, [v]).db;
            after.volumes == [Volume(7, "a", "/p", Some(8)), Volume(1, "b", "/p", None)]
  {}
}
