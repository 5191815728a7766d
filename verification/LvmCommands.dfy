// The guarded LVM operations of the repository, each a few commands on the host's LVM.
module LvmCommands {
  import opened Lvm

  method GetVolumeGroups(host: Host) returns (ok: bool, vgs: set<string>)
    modifies host`tally
    ensures Grows(old(host.tally), host.tally) && host.tally.mutations == old(host.tally.mutations)
    ensures host.tally.halfDone == old(host.tally.halfDone)
    ensures ok ==> forall v :: v in vgs <==> VgExists(host.machine, v)
    ensures host.tally.faults == old(host.tally.faults) ==> ok
  {
    var rows;
    ok, rows := host.ReportVgs();
    vgs := Collect(rows, "vg_name");
    forall v ensures v in VgNames(host.machine) <==> VgExists(host.machine, v) { VgNamesExist(host.machine, v); }
  }

  /** Gathers a column into a map keyed by itself; the map is its key set. */
  method Collect(rows: seq<Row>, field: string) returns (values: set<string>)
    ensures values == Column(rows, field)
  {
    values := {};
    for i := 0 to |rows|
      invariant values == set j | 0 <= j < i && field in rows[j] :: rows[j][field]
    {
      if field in rows[i] { values := values + {rows[i][field]}; }
    }
  }

  method GetPhysicalVolume(host: Host, vg: string) returns (ok: bool, pvs: set<string>)
    modifies host`tally
    ensures Grows(old(host.tally), host.tally) && host.tally.mutations == old(host.tally.mutations)
    ensures host.tally.halfDone == old(host.tally.halfDone)
    ensures ok ==> VgExists(host.machine, vg) && pvs == PvsOf(host.machine, vg) && host.tally == old(host.tally)
    ensures !ok && VgExists(host.machine, vg) ==> host.tally.queryFaults > old(host.tally.queryFaults)
                                                  && host.tally.faults > old(host.tally.faults)
  {
    var rows;
    ok, rows := host.ReportPvs(vg);
    pvs := Collect(rows, "pv_name");
  }

  /** Whether some row names a logical volume. */
  method SomeLvName(rows: seq<Row>) returns (found: bool)
    ensures found <==> Column(rows, "lv_name") - {""} != {}
  {
    for i := 0 to |rows|
      invariant forall j :: 0 <= j < i && "lv_name" in rows[j] ==> rows[j]["lv_name"] == ""
    {
      if "lv_name" in rows[i] && rows[i]["lv_name"] != "" {
        assert rows[i]["lv_name"] in Column(rows, "lv_name") - {""};
        return true;
      }
    }
    found := false;
  }

  lemma NamedLvs(m: Machine, vg: string, pv: string)
    requires Valid(m)
    ensures LvNamesOfVg(m, vg) - {""} != {} <==> VgHasLv(m, vg)
    ensures LvNamesOnPv(m, pv) - {""} != {} <==> PvHasLv(m, pv)
  {
    if VgHasLv(m, vg) {
      var l :| l in m.lvs && m.lvs[l].vg == vg;
      assert m.lvs[l].name in LvNamesOfVg(m, vg) - {""};
    }
    if PvHasLv(m, pv) {
      var l :| l in m.lvs && pv in m.lvs[l].on;
      assert m.lvs[l].name in LvNamesOnPv(m, pv) - {""};
    }
    if LvNamesOfVg(m, vg) - {""} != {} {
      var n :| n in LvNamesOfVg(m, vg);
    }
    if LvNamesOnPv(m, pv) - {""} != {} {
      var n :| n in LvNamesOnPv(m, pv);
    }
  }

  method CheckPvHasLogicalVolume(host: Host, pv: string) returns (ok: bool, has: bool)
    requires Valid(host.machine)
    modifies host`tally
    ensures Grows(old(host.tally), host.tally) && host.tally.mutations == old(host.tally.mutations)
    ensures host.tally.halfDone == old(host.tally.halfDone)
    ensures ok ==> pv in host.machine.pvs && has == PvHasLv(host.machine, pv)
    ensures pv in host.machine.pvs && host.tally.queryFaults == old(host.tally.queryFaults) ==> ok
  {
    var rows;
    ok, rows := host.ReportLvsOnPv(pv);
    has := SomeLvName(rows);
    NamedLvs(host.machine, "", pv);
  }

  method CheckVgHasLogicalVolume(host: Host, vg: string) returns (ok: bool, has: bool)
    requires Valid(host.machine)
    modifies host`tally
    ensures Grows(old(host.tally), host.tally) && host.tally.mutations == old(host.tally.mutations)
    ensures host.tally.halfDone == old(host.tally.halfDone)
    ensures ok ==> VgExists(host.machine, vg) && has == VgHasLv(host.machine, vg)
    ensures VgExists(host.machine, vg) && host.tally.queryFaults == old(host.tally.queryFaults) ==> ok
  {
    var rows;
    ok, rows := host.ReportLvsOfVg(vg);
    has := SomeLvName(rows);
    NamedLvs(host.machine, vg, "");
  }

  /** pvremove, one device at a time, stopping at the first failure. */
  method RemoveEach(host: Host, pvs: set<string>) returns (ok: bool, ghost done: set<string>)
    requires Valid(host.machine) && forall p :: p in pvs ==> !PvHasLv(host.machine, p)
    modifies host
    ensures Valid(host.machine) && done <= pvs
            && host.machine == old(host.machine).(pvs := old(host.machine).pvs - done)
    ensures Grows(old(host.tally), host.tally) && host.tally.queryFaults == old(host.tally.queryFaults)
    ensures ok ==> done == pvs && host.tally.halfDone == old(host.tally.halfDone)
    ensures !ok ==> host.tally.halfDone > old(host.tally.halfDone)
  {
    ghost var m := host.machine;
    var todo := pvs;
    ok, done := true, {};
    while todo != {}
      invariant ok && todo <= pvs && done == pvs - todo
      invariant Valid(host.machine) && host.machine == m.(pvs := m.pvs - done)
      invariant Grows(old(host.tally), host.tally) && host.tally.halfDone == old(host.tally.halfDone)
      invariant host.tally.queryFaults == old(host.tally.queryFaults)
      decreases todo
    {
      var key :| key in todo;
      todo := todo - {key};
      ghost var some;
      ghost var before := host.machine;
      assert Elems([key]) == {key};
      ok, some := host.PvRemove([key]);
      assert forall p :: p in some ==> p == key;
      assert forall p :: p in pvs ==> (PvHasLv(before, p) <==> PvHasLv(m, p));
      GuardedRemove(before, some);
      done := done + some;
      assert host.machine.pvs == m.pvs - done;
      if !ok { return; }
    }
  }

  /** Removes the group and its physical volumes unless it holds a logical volume. */
  method RemoveVolumeGroup(host: Host, vg: string) returns (ok: bool)
    requires Valid(host.machine)
    modifies host
    ensures Valid(host.machine) && Grows(old(host.tally), host.tally)
    ensures OnlyFreed(old(host.machine), host.machine, PvsOf(old(host.machine), vg))
    ensures ok ==>
              VgExists(old(host.machine), vg)
              && host.machine.pvs == old(host.machine).pvs - PvsOf(old(host.machine), vg)
    ensures !ok && host.tally.halfDone == old(host.tally.halfDone) ==> host.machine == old(host.machine)
    ensures VgHasLv(old(host.machine), vg) || !VgExists(old(host.machine), vg) ==>
        !ok && host.machine == old(host.machine) && host.tally.mutations == old(host.tally.mutations)
    ensures VgExists(old(host.machine), vg) && !VgHasLv(old(host.machine), vg) ==>
        && (host.tally.faults == old(host.tally.faults) ==> ok)
        && (host.tally.queryFaults == old(host.tally.queryFaults) ==> host.tally.mutations > old(host.tally.mutations))
    ensures host.tally.mutations == old(host.tally.mutations) ==> host.machine == old(host.machine)
  {
    ghost var m := host.machine;
    var checked, has := CheckVgHasLogicalVolume(host, vg);
    if !checked || has { return false; }
    EmptyVgHoldsNothing(m, vg);
    var listed, pvs := GetPhysicalVolume(host, vg);
    if !listed { return false; }
    ok := host.VgRemove(vg);
    if !ok { return; }
    GuardedReduce(m, vg, pvs);
    assert pvs * PvsOf(m, vg) == pvs;
    ghost var unused := host.machine;
    assert forall p :: p in pvs ==> (PvHasLv(unused, p) <==> PvHasLv(m, p));
    ghost var done;
    ok, done := RemoveEach(host, pvs);
    if ok { assert unused.pvs - pvs == m.pvs - pvs; }
  }

  /** Takes physical volumes out of the group unless one of them holds a logical volume. */
  method ShrinkVolumeGroup(host: Host, vg: string, pvs: seq<string>) returns (ok: bool)
    requires Valid(host.machine)
    modifies host
    ensures Valid(host.machine) && Grows(old(host.tally), host.tally)
    ensures OnlyFreed(old(host.machine), host.machine, Elems(pvs) * PvsOf(old(host.machine), vg))
    ensures ok ==> Elems(pvs) <= PvsOf(old(host.machine), vg) && host.machine.pvs == old(host.machine).pvs - Elems(pvs)
    ensures !ok && host.tally.halfDone == old(host.tally.halfDone) ==> host.machine == old(host.machine)
    ensures (exists p :: p in pvs && PvHasLv(old(host.machine), p)) ==>
        !ok && host.machine == old(host.machine) && host.tally.mutations == old(host.tally.mutations)
    ensures (forall p :: p in pvs ==> p in old(host.machine).pvs && !PvHasLv(old(host.machine), p)) ==>
        && (host.tally.faults == old(host.tally.faults) ==> ok)
        && (host.tally.queryFaults == old(host.tally.queryFaults) ==> host.tally.mutations > old(host.tally.mutations))
    ensures host.tally.mutations == old(host.tally.mutations) ==> host.machine == old(host.machine)
  {
    ghost var m := host.machine;
    for i := 0 to |pvs|
      invariant host.machine == m && Grows(old(host.tally), host.tally)
      invariant host.tally.mutations == old(host.tally.mutations) && host.tally.halfDone == old(host.tally.halfDone)
      invariant forall j :: 0 <= j < i ==> !PvHasLv(m, pvs[j])
    {
      var checked, has := CheckPvHasLogicalVolume(host, pvs[i]);
      if !checked || has { return false; }
    }
    ghost var done, after;
    ok, done := host.VgReduce(vg, pvs);
    GuardedReduce(m, vg, done);
    if !ok { return; }
    assert done * PvsOf(m, vg) == done;
    ghost var reduced := host.machine;
    assert forall p :: p in pvs ==> (PvHasLv(reduced, p) <==> PvHasLv(m, p));
    ok, after := host.PvRemove(pvs);
    GuardedRemove(reduced, after);
    if ok { assert reduced.pvs - Elems(pvs) == m.pvs - Elems(pvs); }
  }

  /** Initialises the devices and forms a new group of them. */
  method CreateVolumeGroup(host: Host, disks: seq<string>, vg: string) returns (ok: bool)
    requires Valid(host.machine)
    modifies host
    ensures Valid(host.machine) && host.machine.lvs == old(host.machine.lvs) && Grows(old(host.tally), host.tally)
    ensures host.tally.halfDone == old(host.tally.halfDone)
    ensures ok ==>
              vg != "" && disks != [] && !VgExists(old(host.machine), vg) && PvsOf(host.machine, vg) == Elems(disks)
    ensures !ok ==> host.tally.faults > old(host.tally.faults)
    ensures !ok && vg != "" ==> PvsOf(host.machine, vg) == PvsOf(old(host.machine), vg)
    ensures host.tally.mutations > old(host.tally.mutations)
    ensures OthersKept(old(host.machine), host.machine, vg)
  {
    ghost var m := host.machine;
    for i := 0 to |disks|
      invariant Valid(host.machine) && host.machine.lvs == m.lvs && Grows(old(host.tally), host.tally)
      invariant host.tally.halfDone == old(host.tally.halfDone)
      invariant i > 0 ==> host.tally.mutations > old(host.tally.mutations)
      invariant forall v :: v != "" ==> PvsOf(host.machine, v) == PvsOf(m, v)
      invariant forall j :: 0 <= j < i ==> disks[j] in host.machine.pvs && host.machine.pvs[disks[j]] == ""
    {
      var message;
      ok, message := host.PvCreate(disks[i]);
      if !ok { return; }
    }
    ghost var ready := host.machine;
    ok := host.Join(vg, disks, true);
    if ok { JoinedPvs(ready, vg, Elems(disks)); }
  }

  method ExpandVolumeGroup(host: Host, vg: string, pvs: seq<string>) returns (ok: bool)
    requires Valid(host.machine)
    modifies host
    ensures Valid(host.machine) && host.machine.lvs == old(host.machine.lvs) && Grows(old(host.tally), host.tally)
    ensures host.tally.halfDone == old(host.tally.halfDone)
    ensures ok ==> vg != "" && PvsOf(host.machine, vg) == PvsOf(old(host.machine), vg) + Elems(pvs)
    ensures !ok ==> host.tally.faults > old(host.tally.faults) && host.machine == old(host.machine)
    ensures host.tally.mutations > old(host.tally.mutations)
    ensures OthersKept(old(host.machine), host.machine, vg)
  {
    ghost var m := host.machine;
    ok := host.Join(vg, pvs, false);
    if ok { JoinedPvs(m, vg, Elems(pvs)); }
  }
}
