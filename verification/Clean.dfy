// The clean-up job of a node: it removes the groups of the spec, then wipes the devices of the
// spec that belonged to none of them.
module Clean {
  import opened Lvm
  import opened LvmCommands
  import opened VgStatus
  import opened Passes

  datatype NodeSpec = NodeSpec(node: string, classes: seq<DeviceClass>)

  datatype ClusterSpec = ClusterSpec(volumeGroupName: string, nodes: seq<NodeSpec>)

  /** A node may be listed more than once. */
  function ClassesOf(nodes: seq<NodeSpec>, node: string): seq<DeviceClass> {
    if nodes == [] then []
    else
      var last := nodes[|nodes| - 1];
      ClassesOf(nodes[..|nodes| - 1], node) + (if last.node == node then last.classes else [])
  }

  function VgsIn(classes: seq<DeviceClass>): set<string> { set c | c in classes :: c.vgName }

  function PvsIn(classes: seq<DeviceClass>): set<string> { set c, d | c in classes && d in c.devices :: d }

  function SpecVgs(spec: ClusterSpec, node: string): set<string> {
    (if spec.volumeGroupName != "" then {spec.volumeGroupName} else {}) + VgsIn(ClassesOf(spec.nodes, node))
  }

  function SpecPvs(spec: ClusterSpec, node: string): set<string> { PvsIn(ClassesOf(spec.nodes, node)) }

  lemma ClassesSnoc(done: seq<DeviceClass>, c: DeviceClass)
    ensures VgsIn(done + [c]) == VgsIn(done) + {c.vgName}
    ensures PvsIn(done + [c]) == PvsIn(done) + Elems(c.devices)
  {
  }

  /** Some entry for the node has a class that lists the device. */
  ghost predicate ListsPv(spec: ClusterSpec, node: string, p: string) {
    exists i, c :: 0 <= i < |spec.nodes| && spec.nodes[i].node == node && c in spec.nodes[i].classes && p in c.devices
  }

  /** The group is that of the cluster, or of a class of some entry for the node. */
  ghost predicate ListsVg(spec: ClusterSpec, node: string, v: string) {
    (v != "" && v == spec.volumeGroupName)
    || exists i, c :: 0 <= i < |spec.nodes| && spec.nodes[i].node == node && c in spec.nodes[i].classes && c.vgName == v
  }

  lemma {:induction false} ClassesOfIff(nodes: seq<NodeSpec>, node: string, c: DeviceClass)
    ensures c in ClassesOf(nodes, node) <==>
              exists i :: 0 <= i < |nodes| && nodes[i].node == node && c in nodes[i].classes
  {
    if nodes != [] {
      var n := |nodes| - 1;
      ClassesOfIff(nodes[..n], node, c);
      assert forall i :: 0 <= i < n ==> nodes[..n][i] == nodes[i];
    }
  }

  lemma SpecIsListed(spec: ClusterSpec, node: string)
    ensures forall p :: p in SpecPvs(spec, node) <==> ListsPv(spec, node, p)
    ensures forall v :: v in SpecVgs(spec, node) <==> ListsVg(spec, node, v)
  {
    forall c
      ensures c in ClassesOf(spec.nodes, node)
              <==> exists i :: 0 <= i < |spec.nodes| && spec.nodes[i].node == node && c in spec.nodes[i].classes
    {
      ClassesOfIff(spec.nodes, node, c);
    }
  }

  /** The groups and the devices that the spec lists for the node. */
  method GetVgInfo(spec: ClusterSpec, node: string) returns (vgs: set<string>, pvs: set<string>)
    ensures vgs == SpecVgs(spec, node) && pvs == SpecPvs(spec, node)
    ensures forall p :: p in pvs <==> ListsPv(spec, node, p)
    ensures forall v :: v in vgs <==> ListsVg(spec, node, v)
  {
    SpecIsListed(spec, node);
    vgs, pvs := if spec.volumeGroupName != "" then {spec.volumeGroupName} else {}, {};
    ghost var base := vgs;
    for i := 0 to |spec.nodes|
      invariant vgs == base + VgsIn(ClassesOf(spec.nodes[..i], node)) && pvs == PvsIn(ClassesOf(spec.nodes[..i], node))
    {
      assert spec.nodes[..i + 1][..i] == spec.nodes[..i];
      if spec.nodes[i].node == node {
        vgs, pvs := AddClasses(vgs, pvs, base, ClassesOf(spec.nodes[..i], node), spec.nodes[i].classes);
      } else {
        assert ClassesOf(spec.nodes[..i], node) + [] == ClassesOf(spec.nodes[..i], node);
      }
    }
    assert spec.nodes[..|spec.nodes|] == spec.nodes;
  }

  /** The groups and devices of one node's classes, on top of those of `before`. */
  method AddClasses(vgs0: set<string>, pvs0: set<string>, ghost base: set<string>, ghost before: seq<DeviceClass>,
                    classes: seq<DeviceClass>) returns (vgs: set<string>, pvs: set<string>)
    requires vgs0 == base + VgsIn(before) && pvs0 == PvsIn(before)
    ensures vgs == base + VgsIn(before + classes) && pvs == PvsIn(before + classes)
  {
    vgs, pvs := vgs0, pvs0;
    assert before + classes[..0] == before;
    for k := 0 to |classes|
      invariant vgs == base + VgsIn(before + classes[..k]) && pvs == PvsIn(before + classes[..k])
    {
      vgs, pvs := vgs + {classes[k].vgName}, pvs + Elems(classes[k].devices);
      ClassesSnoc(before + classes[..k], classes[k]);
      assert before + classes[..k + 1] == before + classes[..k] + [classes[k]];
    }
    assert classes[..|classes|] == classes;
  }

  /** A device that belongs to one of the groups. */
  predicate Owned(m: Machine, vgs: set<string>, p: string) { p in m.pvs && m.pvs[p] != "" && m.pvs[p] in vgs }

  function Unowned(m: Machine, vgs: set<string>, pvs: set<string>): set<string>
  {
    set p | p in pvs && !Owned(m, vgs, p)
  }

  /** Every device that holds a logical volume belongs to a group of the spec. */
  ghost predicate Covered(m: Machine, vgs: set<string>, pvs: set<string>) {
    forall p :: p in pvs && PvHasLv(m, p) ==> Owned(m, vgs, p)
  }

  lemma {:induction false} SurvivorsTwice(lvs: map<string, Lv>, a: set<string>, b: set<string>)
    ensures Survivors(Survivors(lvs, a), b) == Survivors(lvs, a + b)
  {
    forall l | l in lvs ensures l in Survivors(Survivors(lvs, a), b) <==> l in Survivors(lvs, a + b) {
      assert (lvs[l].on !! a && lvs[l].on !! b) <==> lvs[l].on !! a + b;
    }
  }

  /** Removes what it can of the groups, and leaves only devices that no listed group had. */
  method CleanGroups(host: Host, vgs: set<string>, pvs: set<string>) returns (left: set<string>)
    requires Valid(host.machine)
    modifies host
    ensures Valid(host.machine) && Grows(old(host.tally), host.tally) && host.machine.lvs == old(host.machine.lvs)
    ensures forall v :: v != "" && v !in vgs ==> PvsOf(host.machine, v) == PvsOf(old(host.machine), v)
    ensures forall v :: v != "" && v in vgs ==>
              Forgotten(old(host.machine), host.machine, v, host.tally.faults == old(host.tally.faults))
    ensures Unowned(old(host.machine), vgs, pvs) <= left <= pvs
    ensures host.tally.queryFaults == old(host.tally.queryFaults) ==> left == Unowned(old(host.machine), vgs, pvs)
  {
    ghost var m := host.machine;
    var todo := vgs;
    left := pvs;
    while todo != {}
      invariant todo <= vgs && Valid(host.machine) && host.machine.lvs == m.lvs && Grows(old(host.tally), host.tally)
      invariant forall v :: v != "" && v !in vgs - todo ==> PvsOf(host.machine, v) == PvsOf(m, v)
      invariant forall v :: v != "" && v in vgs - todo ==>
                  Forgotten(m, host.machine, v, host.tally.faults == old(host.tally.faults))
      invariant Unowned(m, vgs - todo, pvs) <= left <= pvs
      invariant host.tally.queryFaults == old(host.tally.queryFaults) ==> left == Unowned(m, vgs - todo, pvs)
      decreases todo
    {
      var vg :| vg in todo;
      ghost var before, done := host.machine, vgs - todo;
      var listed, res := GetPhysicalVolume(host, vg);
      ghost var was := left;
      if listed { left := left - res; }
      UnownedStep(m, before, done, pvs, vg);
      var _ := RemoveVolumeGroup(host, vg);
      FreedKeepsOthers(before, host.machine, vg, PvsOf(before, vg));
      assert VgHasLv(before, vg) <==> VgHasLv(m, vg);
      todo := todo - {vg};
      assert vgs - todo == done + {vg};
    }
    assert vgs - todo == vgs;
  }

  lemma UnownedStep(m: Machine, b: Machine, done: set<string>, pvs: set<string>, vg: string)
    requires vg != "" ==> PvsOf(b, vg) == PvsOf(m, vg)
    ensures Unowned(m, done + {vg}, pvs) == Unowned(m, done, pvs) - (if vg == "" then {} else PvsOf(b, vg))
  {
  }

  /** Wipes the devices one by one, going on after a failure. */
  method CleanPvs(host: Host, pvs: set<string>) returns (ghost done: set<string>)
    requires Valid(host.machine)
    modifies host
    ensures Valid(host.machine) && Grows(old(host.tally), host.tally)
    ensures done <= pvs && host.machine == Removed(old(host.machine), done)
    ensures host.tally.faults == old(host.tally.faults) ==> done == pvs
    ensures host.tally.queryFaults == old(host.tally.queryFaults)
  {
    ghost var m := host.machine;
    var todo := pvs;
    done := {};
    while todo != {}
      invariant todo <= pvs && done <= pvs - todo && Grows(old(host.tally), host.tally)
      invariant Valid(host.machine) && host.machine == Removed(m, done)
      invariant host.tally.faults == old(host.tally.faults) ==> done == pvs - todo
      invariant host.tally.queryFaults == old(host.tally.queryFaults)
      decreases todo
    {
      var pv :| pv in todo;
      todo := todo - {pv};
      ghost var some;
      ghost var before := host.machine;
      var ok;
      ok, some := host.PvRemove([pv]);
      assert Elems([pv]) == {pv};
      CommandsKeepValid(before, "", some);
      SurvivorsTwice(m.lvs, done, some);
      assert m.pvs - done - some == m.pvs - (done + some);
      done := done + some;
    }
  }

  /** Only the wiped devices can take logical volumes along. None is lost, unless a listing
      failed, when every device that holds one belongs to a group of the spec; and when nothing
      fails, that is also necessary. */
  method CleanVgs(host: Host, vgs: set<string>, pvs: set<string>) returns (ghost wiped: set<string>)
    requires Valid(host.machine)
    modifies host
    ensures Valid(host.machine) && Grows(old(host.tally), host.tally)
    ensures wiped <= pvs && host.machine.lvs == Survivors(old(host.machine.lvs), wiped)
    ensures host.tally.queryFaults == old(host.tally.queryFaults) ==> wiped <= Unowned(old(host.machine), vgs, pvs)
    ensures host.tally.faults == old(host.tally.faults) ==> wiped == Unowned(old(host.machine), vgs, pvs)
    ensures host.tally.queryFaults == old(host.tally.queryFaults) && Covered(old(host.machine), vgs, pvs) ==>
        host.machine.lvs == old(host.machine.lvs)
    ensures host.tally.faults == old(host.tally.faults) ==>
        (host.machine.lvs == old(host.machine.lvs) <==> Covered(old(host.machine), vgs, pvs))
    ensures host.tally.queryFaults == old(host.tally.queryFaults) ==>
        forall v :: v != "" && v in vgs ==>
                 Forgotten(old(host.machine), host.machine, v, host.tally.faults == old(host.tally.faults))
  {
    ghost var m := host.machine;
    var left := CleanGroups(host, vgs, pvs);
    ghost var mid := host.machine;
    wiped := CleanPvs(host, left);
    NothingLostIff(m, wiped);
    CoveredIff(m, vgs, pvs);
  }

  lemma CoveredIff(m: Machine, vgs: set<string>, pvs: set<string>)
    ensures Covered(m, vgs, pvs) <==> forall p :: p in Unowned(m, vgs, pvs) ==> !PvHasLv(m, p)
  {
  }

  /** A logical volume whose group is listed for the node, or none of whose devices is. */
  ghost predicate Safe(spec: ClusterSpec, node: string, lv: Lv) {
    ListsVg(spec, node, lv.vg) || forall p :: p in lv.on ==> !ListsPv(spec, node, p)
  }

  lemma SafeIsSpared(m: Machine, spec: ClusterSpec, node: string, l: string)
    requires Valid(m) && l in m.lvs
    ensures Safe(spec, node, m.lvs[l]) <==> m.lvs[l].on !! Unowned(m, SpecVgs(spec, node), SpecPvs(spec, node))
    ensures (forall p :: p in m.lvs[l].on ==> !ListsPv(spec, node, p)) <==> m.lvs[l].on !! SpecPvs(spec, node)
  {
    SpecIsListed(spec, node);
    var lv, vgs, pvs := m.lvs[l], SpecVgs(spec, node), SpecPvs(spec, node);
    forall p | p in lv.on ensures p in Unowned(m, vgs, pvs) <==> ListsPv(spec, node, p) && !ListsVg(spec, node, lv.vg) {
      assert p in PvsOf(m, lv.vg);
    }
  }

  /** The job of one node. It never takes a logical volume along none of whose devices is listed for
      the node, nor, while the listings work, one whose group is; without failures it takes the
      others. */
  method Start(host: Host, spec: ClusterSpec, node: string) returns (ghost wiped: set<string>)
    requires Valid(host.machine)
    modifies host
    ensures Valid(host.machine) && Grows(old(host.tally), host.tally)
    ensures host.machine.lvs == Survivors(old(host.machine.lvs), wiped)
    ensures forall l :: l in old(host.machine.lvs)
                        && (forall p :: p in old(host.machine.lvs)[l].on ==> !ListsPv(spec, node, p)) ==>
              l in host.machine.lvs
    ensures host.tally.queryFaults == old(host.tally.queryFaults) ==>
        forall l :: l in old(host.machine.lvs) && Safe(spec, node, old(host.machine.lvs)[l]) ==> l in host.machine.lvs
    ensures host.tally.faults == old(host.tally.faults) ==>
        forall l :: l in host.machine.lvs <==>
                      l in old(host.machine.lvs) && Safe(spec, node, old(host.machine.lvs)[l])
    ensures host.tally.queryFaults == old(host.tally.queryFaults) && SpecCovered(old(host.machine), spec, node) ==>
        host.machine.lvs == old(host.machine.lvs)
    ensures host.tally.faults == old(host.tally.faults) ==>
        && wiped == Unowned(old(host.machine), SpecVgs(spec, node), SpecPvs(spec, node))
        && (host.machine.lvs == old(host.machine.lvs) <==> SpecCovered(old(host.machine), spec, node))
    ensures host.tally.queryFaults == old(host.tally.queryFaults) ==>
        forall v :: v != "" && ListsVg(spec, node, v) ==>
                 Forgotten(old(host.machine), host.machine, v, host.tally.faults == old(host.tally.faults))
  {
    var vgs, pvs := GetVgInfo(spec, node);
    ghost var m := host.machine;
    wiped := CleanVgs(host, vgs, pvs);
    forall l | l in m.lvs
      ensures Safe(spec, node, m.lvs[l]) <==> m.lvs[l].on !! Unowned(m, vgs, pvs)
      ensures (forall p :: p in m.lvs[l].on ==> !ListsPv(spec, node, p)) <==> m.lvs[l].on !! pvs
    {
      SafeIsSpared(m, spec, node, l);
    }
  }

  ghost predicate SpecCovered(m: Machine, spec: ClusterSpec, node: string) {
    Covered(m, SpecVgs(spec, node), SpecPvs(spec, node))
  }

  /** A device that still belongs to a group the spec no longer names is not covered, and its
      logical volume does not survive. */
  lemma OldGroupIsNotCovered(p: string, old_: string, new_: string, lv: Lv)
    requires old_ != "" && new_ != old_ && lv.name != "" && lv.vg == old_ && lv.on == {p}
    ensures var m := Machine(map[p := old_], map["id" := lv]);
            && Valid(m) && !Covered(m, {new_}, {p}) && Survivors(m.lvs, Unowned(m, {new_}, {p})) == map[]
  {
    var m := Machine(map[p := old_], map["id" := lv]);
    assert p in m.lvs["id"].on;
    assert p in PvsOf(m, old_);
    assert p in Unowned(m, {new_}, {p});
  }
}
