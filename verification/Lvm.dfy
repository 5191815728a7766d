// LVM as an abstract machine. Its remove and reduce commands are destructive: they take the
// logical volumes on the physical volumes they touch with them.
module Lvm {
  /** A logical volume: its name, its volume group and the physical volumes it occupies. */
  datatype Lv = Lv(name: string, vg: string, on: set<string>)

  /** `pvs` gives each physical volume its group, "" for none; a group exists while it has one. */
  datatype Machine = Machine(pvs: map<string, string>, lvs: map<string, Lv>)

  function Elems(list: seq<string>): set<string> { set p | p in list }

  function PvsOf(m: Machine, vg: string): set<string> { set p | p in m.pvs && m.pvs[p] == vg }

  predicate VgExists(m: Machine, vg: string) { vg != "" && PvsOf(m, vg) != {} }

  predicate VgHasLv(m: Machine, vg: string) { exists l :: l in m.lvs && m.lvs[l].vg == vg }

  predicate PvHasLv(m: Machine, pv: string) { exists l :: l in m.lvs && pv in m.lvs[l].on }

  ghost predicate Valid(m: Machine) {
    forall l :: l in m.lvs ==>
      var lv := m.lvs[l]; lv.name != "" && lv.vg != "" && lv.on != {} && lv.on <= PvsOf(m, lv.vg)
  }

  function Survivors(lvs: map<string, Lv>, gone: set<string>): map<string, Lv> {
    map l | l in lvs && lvs[l].on !! gone :: lvs[l]
  }

  function PvCreated(m: Machine, pv: string): Machine { m.(pvs := m.pvs[pv := ""]) }

  function Joined(m: Machine, vg: string, ps: set<string>): Machine {
    m.(pvs := map p | p in m.pvs :: if p in ps then vg else m.pvs[p])
  }

  function Reduced(m: Machine, vg: string, ps: set<string>): Machine {
    Machine(map p | p in m.pvs :: if p in ps && m.pvs[p] == vg then "" else m.pvs[p],
            Survivors(m.lvs, ps * PvsOf(m, vg)))
  }

  function Removed(m: Machine, ps: set<string>): Machine {
    Machine(m.pvs - ps, Survivors(m.lvs, ps))
  }

  /** Taking physical volumes away loses no logical volume exactly when none sits on them. */
  lemma NothingLostIff(m: Machine, gone: set<string>)
    ensures Survivors(m.lvs, gone) == m.lvs <==> forall p :: p in gone ==> !PvHasLv(m, p)
  {
  }

  lemma HeldGroupExists(m: Machine, vg: string)
    requires Valid(m) && VgHasLv(m, vg)
    ensures VgExists(m, vg)
  {
    var l :| l in m.lvs && m.lvs[l].vg == vg;
    var p :| p in m.lvs[l].on;
    assert p in PvsOf(m, vg);
  }

  lemma EmptyVgHoldsNothing(m: Machine, vg: string)
    requires Valid(m) && !VgHasLv(m, vg)
    ensures forall p :: p in PvsOf(m, vg) ==> !PvHasLv(m, p)
  {
  }

  lemma VgHasLvIff(m: Machine, vg: string)
    requires Valid(m) && vg != ""
    ensures VgHasLv(m, vg) <==> exists p :: p in PvsOf(m, vg) && PvHasLv(m, p)
  {
  }

  lemma CommandsKeepValid(m: Machine, vg: string, ps: set<string>)
    requires Valid(m)
    ensures Valid(Reduced(m, vg, ps)) && Valid(Removed(m, ps))
    ensures (forall p :: p in ps ==> p in m.pvs && m.pvs[p] == "") ==> Valid(Joined(m, vg, ps))
  {
  }

  /** Only physical volumes of `ps` may differ, and those end up unused or gone. */
  ghost predicate OnlyFreed(m: Machine, m': Machine, ps: set<string>) {
    && m'.lvs == m.lvs
    && m'.pvs.Keys <= m.pvs.Keys
    && (forall p :: p in m.pvs && p !in ps ==> p in m'.pvs && m'.pvs[p] == m.pvs[p])
    && (forall p :: p in m'.pvs && p in ps ==> m'.pvs[p] == m.pvs[p] || m'.pvs[p] == "")
  }

  /** The groups other than `vg` keep their physical volumes. */
  ghost predicate OthersKept(m: Machine, m': Machine, vg: string) {
    forall v :: v != "" && v != vg ==> PvsOf(m', v) == PvsOf(m, v)
  }

  lemma FreedKeepsOthers(m: Machine, m': Machine, vg: string, ps: set<string>)
    requires OnlyFreed(m, m', ps) && ps <= PvsOf(m, vg)
    ensures OthersKept(m, m', vg)
    ensures vg != "" ==> PvsOf(m, vg) - ps <= PvsOf(m', vg) <= PvsOf(m, vg)
  {
  }

  /** Guarded by the absence of logical volumes, the destructive commands only free. */
  lemma GuardedReduce(m: Machine, vg: string, ps: set<string>)
    requires Valid(m) && forall p :: p in ps ==> !PvHasLv(m, p)
    ensures OnlyFreed(m, Reduced(m, vg, ps), ps * PvsOf(m, vg)) && Valid(Reduced(m, vg, ps))
    ensures Reduced(m, vg, ps).pvs.Keys == m.pvs.Keys
  {
  }

  lemma GuardedRemove(m: Machine, ps: set<string>)
    requires Valid(m) && forall p :: p in ps ==> !PvHasLv(m, p)
    ensures Removed(m, ps) == m.(pvs := m.pvs - ps) && Valid(Removed(m, ps))
  {
  }

  lemma JoinedPvs(m: Machine, vg: string, ps: set<string>)
    requires Valid(m) && vg != "" && forall p :: p in ps ==> p in m.pvs && m.pvs[p] == ""
    ensures PvsOf(Joined(m, vg, ps), vg) == PvsOf(m, vg) + ps
    ensures OthersKept(m, Joined(m, vg, ps), vg) && Valid(Joined(m, vg, ps))
  {
  }

  /** What happened to the commands so far: how many failed, how many of those were queries on
      something that exists, how many left their work half done, how many could change LVM. */
  datatype Tally = Tally(faults: nat, queryFaults: nat, halfDone: nat, mutations: nat)

  predicate Grows(a: Tally, b: Tally) {
    a.faults <= b.faults && a.queryFaults <= b.queryFaults && a.halfDone <= b.halfDone && a.mutations <= b.mutations
    && a.halfDone - b.halfDone >= a.faults - b.faults && a.queryFaults - b.queryFaults >= a.faults - b.faults
  }

  /** One line of a report: its fields by name. */
  type Row = map<string, string>

  /** The values a report shows in one column. */
  function Column(rows: seq<Row>, field: string): set<string> {
    set i | 0 <= i < |rows| && field in rows[i] :: rows[i][field]
  }

  lemma ColumnSnoc(rows: seq<Row>, field: string, v: string)
    ensures Column(rows + [map[field := v]], field) == Column(rows, field) + {v}
  {
    var more := rows + [map[field := v]];
    assert more[|rows|][field] == v;
    forall x | x in Column(rows, field) ensures x in Column(more, field) {
      var i :| 0 <= i < |rows| && field in rows[i] && rows[i][field] == x;
      assert more[i] == rows[i];
    }
  }

  function VgNames(m: Machine): set<string> { set p | p in m.pvs && m.pvs[p] != "" :: m.pvs[p] }

  lemma VgNamesExist(m: Machine, vg: string)
    ensures vg in VgNames(m) <==> VgExists(m, vg)
  {
    if vg in VgNames(m) {
      var p :| p in m.pvs && m.pvs[p] == vg;
      assert p in PvsOf(m, vg);
    }
    if VgExists(m, vg) {
      var p :| p in PvsOf(m, vg);
      assert m.pvs[p] in VgNames(m);
    }
  }

  function LvNamesOfVg(m: Machine, vg: string): set<string> {
    set l | l in m.lvs && m.lvs[l].vg == vg :: m.lvs[l].name
  }

  function LvNamesOnPv(m: Machine, pv: string): set<string> {
    set l | l in m.lvs && pv in m.lvs[l].on :: m.lvs[l].name
  }

  /** The LVM of one host. Any command may fail; each contract says what then holds. */
  class Host {
    var machine: Machine
    ghost var tally: Tally

    constructor (machine: Machine)
      ensures this.machine == machine && tally == Tally(0, 0, 0, 0)
    {
      this.machine := machine;
      tally := Tally(0, 0, 0, 0);
    }

    method Query(exists_: bool) returns (ok: bool)
      modifies this`tally
      ensures ok ==> exists_ && tally == old(tally)
      ensures !ok && !exists_ ==> tally == old(tally)
      ensures !ok && exists_ ==>
          tally == old(tally).(faults := old(tally.faults) + 1, queryFaults := old(tally.queryFaults) + 1)
    {
      var answer: bool := *;
      ok := answer && exists_;
      if exists_ && !ok { tally := tally.(faults := tally.faults + 1, queryFaults := tally.queryFaults + 1); }
    }

    /** One row for each value, in some order. */
    method RowsOf(field: string, values: set<string>) returns (rows: seq<Row>)
      ensures Column(rows, field) == values
    {
      rows := [];
      var todo := values;
      while todo != {}
        invariant todo <= values && Column(rows, field) == values - todo
        decreases todo
      {
        var v :| v in todo;
        ColumnSnoc(rows, field, v);
        todo, rows := todo - {v}, rows + [map[field := v]];
      }
    }

    /** vgs -o vg_name */
    method ReportVgs() returns (ok: bool, rows: seq<Row>)
      modifies this`tally
      ensures Grows(old(tally), tally) && tally.mutations == old(tally.mutations)
              && tally.halfDone == old(tally.halfDone)
      ensures ok ==> tally == old(tally) && Column(rows, "vg_name") == VgNames(machine)
      ensures !ok ==> tally.faults > old(tally.faults)
    {
      ok := Query(true);
      rows := RowsOf("vg_name", VgNames(machine));
    }

    /** vgs -o pv_name vg */
    method ReportPvs(vg: string) returns (ok: bool, rows: seq<Row>)
      modifies this`tally
      ensures Grows(old(tally), tally) && tally.mutations == old(tally.mutations)
              && tally.halfDone == old(tally.halfDone)
      ensures ok ==> VgExists(machine, vg) && tally == old(tally) && Column(rows, "pv_name") == PvsOf(machine, vg)
      ensures !ok && VgExists(machine, vg) ==>
                tally.faults > old(tally.faults) && tally.queryFaults > old(tally.queryFaults)
    {
      ok := Query(VgExists(machine, vg));
      rows := RowsOf("pv_name", PvsOf(machine, vg));
    }

    /** vgs -o lv_name vg: the group's logical volumes, or one row without a name. */
    method ReportLvsOfVg(vg: string) returns (ok: bool, rows: seq<Row>)
      modifies this`tally
      ensures Grows(old(tally), tally) && tally.mutations == old(tally.mutations)
              && tally.halfDone == old(tally.halfDone)
      ensures ok ==> VgExists(machine, vg) && tally == old(tally)
      ensures ok ==> Column(rows, "lv_name") - {""} == LvNamesOfVg(machine, vg) - {""}
      ensures !ok && VgExists(machine, vg) ==>
                tally.faults > old(tally.faults) && tally.queryFaults > old(tally.queryFaults)
    {
      ok := Query(VgExists(machine, vg));
      var names := LvNamesOfVg(machine, vg);
      rows := RowsOf("lv_name", if names == {} then {""} else names);
    }

    /** pvs -o +lv_name pv --segments: a row for each segment, free ones without a name. */
    method ReportLvsOnPv(pv: string) returns (ok: bool, rows: seq<Row>)
      modifies this`tally
      ensures Grows(old(tally), tally) && tally.mutations == old(tally.mutations)
              && tally.halfDone == old(tally.halfDone)
      ensures ok ==> pv in machine.pvs && tally == old(tally)
      ensures ok ==> Column(rows, "lv_name") - {""} == LvNamesOnPv(machine, pv) - {""}
      ensures !ok && pv in machine.pvs ==>
                tally.faults > old(tally.faults) && tally.queryFaults > old(tally.queryFaults)
    {
      ok := Query(pv in machine.pvs);
      rows := RowsOf("lv_name", {""} + LvNamesOnPv(machine, pv));
    }

    ghost method Count(ok: bool, halfDone: bool)
      modifies this`tally
      ensures tally == Tally(old(tally.faults) + (if ok then 0 else 1), old(tally.queryFaults),
                             old(tally.halfDone) + (if !ok && halfDone then 1 else 0), old(tally.mutations) + 1)
    {
      tally := Tally(tally.faults + (if ok then 0 else 1), tally.queryFaults,
                     tally.halfDone + (if !ok && halfDone then 1 else 0), tally.mutations + 1);
    }

    /** LVM refuses to initialise a device that belongs to a group. */
    method PvCreate(pv: string) returns (ok: bool, message: string)
      modifies this
      ensures ok ==> (pv in old(machine.pvs) ==> old(machine.pvs)[pv] == "") && machine == PvCreated(old(machine), pv)
      ensures !ok ==> machine == old(machine)
      ensures tally == Tally(old(tally.faults) + (if ok then 0 else 1), old(tally.queryFaults),
                             old(tally.halfDone), old(tally.mutations) + 1)
    {
      var answer: bool := *;
      message := *;
      ok := answer && (pv in machine.pvs ==> machine.pvs[pv] == "");
      if ok { machine := PvCreated(machine, pv); }
      Count(ok, false);
    }

    predicate Orphans(pvs: seq<string>)
      reads this`machine
    {
      forall i :: 0 <= i < |pvs| ==> pvs[i] in machine.pvs && machine.pvs[pvs[i]] == ""
    }

    /** vgcreate and vgextend: only unused physical volumes can join a group. */
    method Join(vg: string, pvs: seq<string>, create: bool) returns (ok: bool)
      modifies this
      ensures ok ==> vg != "" && old(Orphans(pvs)) && (create ==> !VgExists(old(machine), vg) && pvs != [])
      ensures ok ==> machine == Joined(old(machine), vg, Elems(pvs))
      ensures !ok ==> machine == old(machine)
      ensures tally == Tally(old(tally.faults) + (if ok then 0 else 1), old(tally.queryFaults),
                             old(tally.halfDone), old(tally.mutations) + 1)
    {
      var answer: bool := *;
      ok := answer && vg != "" && Orphans(pvs) && (create ==> !VgExists(machine, vg) && pvs != []);
      if ok { machine := Joined(machine, vg, Elems(pvs)); }
      Count(ok, false);
    }

    /** vgremove: destroys the group's logical volumes and leaves unused physical volumes. */
    method VgRemove(vg: string) returns (ok: bool)
      modifies this
      ensures ok ==> VgExists(old(machine), vg) && machine == Reduced(old(machine), vg, PvsOf(old(machine), vg))
      ensures !ok ==> machine == old(machine)
      ensures tally == Tally(old(tally.faults) + (if ok then 0 else 1), old(tally.queryFaults),
                             old(tally.halfDone), old(tally.mutations) + 1)
    {
      var answer: bool := *;
      ok := answer && VgExists(machine, vg);
      if ok { machine := Reduced(machine, vg, PvsOf(machine, vg)); }
      Count(ok, false);
    }

    /** vgreduce works through its list, so that a failure may leave a part done. */
    method VgReduce(vg: string, pvs: seq<string>) returns (ok: bool, ghost done: set<string>)
      modifies this
      ensures done <= Elems(pvs)
      ensures machine == Reduced(old(machine), vg, done)
      ensures ok ==> done == Elems(pvs) <= PvsOf(old(machine), vg)
      ensures tally == Tally(old(tally.faults) + (if ok then 0 else 1), old(tally.queryFaults),
                             old(tally.halfDone) + (if !ok && machine != old(machine) then 1 else 0),
                             old(tally.mutations) + 1)
    {
      ghost var before := machine;
      ok := forall i :: 0 <= i < |pvs| ==> pvs[i] in machine.pvs && machine.pvs[pvs[i]] == vg;
      var k: nat :| k <= |pvs|;
      ok := ok && k == |pvs|;
      machine := Reduced(machine, vg, set i | 0 <= i < k :: pvs[i]);
      done := set i | 0 <= i < k :: pvs[i];
      Count(ok, machine != before);
    }

    /** pvremove works through its list too, and destroys whatever is on the devices. */
    method PvRemove(pvs: seq<string>) returns (ok: bool, ghost done: set<string>)
      modifies this
      ensures done <= Elems(pvs)
      ensures machine == Removed(old(machine), done)
      ensures ok ==> done == Elems(pvs)
      ensures tally == Tally(old(tally.faults) + (if ok then 0 else 1), old(tally.queryFaults),
                             old(tally.halfDone) + (if ok then 0 else 1), old(tally.mutations) + 1)
    {
      var k: nat :| k <= |pvs|;
      ok := *;
      if ok { k := |pvs|; }
      machine := Removed(machine, set i | 0 <= i < k :: pvs[i]);
      done := set i | 0 <= i < k :: pvs[i];
      Count(ok, true);
    }
  }
}
