// One node over time: provisioning jobs with changing specs, resets of the ConfigMap, clean-up
// jobs, the daemon's probes, and users who create and remove logical volumes in between.
module Node {
  import opened Lvm
  import opened LvmCommands
  import opened VgStatus
  import opened Passes
  import opened PrepareVg
  import opened Records
  import opened LvmdConfig
  import opened ConfigHistory
  import Clean

  datatype Event =
    | Provision(classes: seq<DeviceClass>, disks: set<string>)
    | Reset
    | CleanUp(spec: Clean.ClusterSpec)
    | Probe
    | UserCreates(id: string, lv: Lv)
    | UserRemoves(id: string)

  /** No spec of the run lists a group twice. */
  ghost predicate AllDistinct(events: seq<Event>) {
    forall i :: 0 <= i < |events| && events[i].Provision? ==> DistinctVgs(events[i].classes)
  }

  /** In every spec of the run the classes have the groups that go with their names. */
  ghost predicate AllObey(naming: map<string, string>, events: seq<Event>) {
    forall i :: 0 <= i < |events| && events[i].Provision? ==> Obeys(naming, events[i].classes)
  }

  /** What an event of that kind can write. */
  ghost predicate WrittenBy(w: Written, e: Event) {
    && (w.Emptied? <==> e.Reset?)
    && (w.FirstJob? ==> e.Provision? && w.spec == e.classes)
    && (w.LaterJob? ==> e.Provision? && w.spec == e.classes && w.disks == e.disks)
  }

  /** The log of the first events. */
  ghost predicate LogOf(log: seq<Written>, events: seq<Event>, k: Keys, k': Keys) {
    && |log| <= |events| && (forall i :: 0 <= i < |log| ==> WrittenBy(log[i], events[i]))
    && PossibleLog(k, log) && k' == Replay(k, log)
  }

  lemma LogGrows(log: seq<Written>, events: seq<Event>, k: Keys, k': Keys, w: Written)
    requires LogOf(log, events, k, k') && |log| < |events| && WrittenBy(w, events[|log|]) && Possible(k'.names, w)
    ensures LogOf(log + [w], events, k, Next(k', w))
    ensures NoneCrosses(log + [w]) <==> NoneCrosses(log) && !Crosses(w)
  {
    ReplaySnoc(k, log, w);
  }

  /** The daemon's verdict on one class, given the group's physical volumes. */
  function Checked(c: ClassState, pvs: set<string>): (r: ClassState)
    ensures r.name == c.name && r.vgName == c.vgName && r.message == c.message && |r.devices| == |c.devices|
    ensures r.state == Ready <==> forall d :: d in c.devices ==> d.name in pvs
    ensures r.state != Ready ==> r.state == UnReady
    ensures forall d :: d in r.devices && d.state == Online ==> d.name in pvs
    ensures forall i :: 0 <= i < |r.devices| ==>
              if c.devices[i].name in pvs then r.devices[i] == c.devices[i]
              else r.devices[i] == DeviceState(c.devices[i].name, Offline, c.devices[i].message)
  {
    var marked := seq(|c.devices|, i requires 0 <= i < |c.devices| =>
      if c.devices[i].name in pvs then c.devices[i] else c.devices[i].(state := Offline));
    c.(devices := marked, state := if forall d :: d in c.devices ==> d.name in pvs then Ready else UnReady)
  }

  function CheckedAll(m: Machine, list: seq<ClassState>): seq<ClassState> {
    seq(|list|, i requires 0 <= i < |list| => Checked(list[i], PvsOf(m, list[i].vgName)))
  }

  /** The checked classes by group. */
  function CheckedMap(m: Machine, suc: Classes): Classes { map v | v in suc :: Checked(suc[v], PvsOf(m, v)) }

  lemma {:induction false} ChecksKeepFiling(m: Machine, list: seq<ClassState>)
    ensures NameMap(CheckedAll(m, list)) == CheckedMap(m, NameMap(list))
  {
    if list != [] {
      var front, last := list[..|list| - 1], list[|list| - 1];
      ChecksKeepFiling(m, front);
      assert CheckedAll(m, list)[..|list| - 1] == CheckedAll(m, front);
      assert CheckedAll(m, list)[|list| - 1] == Checked(last, PvsOf(m, last.vgName));
      var more := NameMap(front)[last.vgName := last];
      assert CheckedMap(m, more) == CheckedMap(m, NameMap(front))[last.vgName := Checked(last, PvsOf(m, last.vgName))];
    }
  }

  /** The ConfigMap with the daemon's verdicts on its success classes. */
  function Verdicts(cd: ConfigData, list: seq<ClassState>): ConfigData
    requires cd.status.Some?
  {
    cd.(status := Some(cd.status.value.(successes := list)))
  }

  lemma ChecksKeepInvariants(m: Machine, cd: ConfigData, list: seq<ClassState>)
    requires cd.status.Some? && list == CheckedAll(m, cd.status.value.successes)
    ensures SucOf(Verdicts(cd, list)) == CheckedMap(m, SucOf(cd)) && FailOf(Verdicts(cd, list)) == FailOf(cd)
    ensures Filed(SucOf(cd)) ==> Filed(SucOf(Verdicts(cd, list))) && AllOnline(m, SucOf(Verdicts(cd, list)))
    ensures KeysOf(Verdicts(cd, list)) == KeysOf(cd)
  {
    ChecksKeepFiling(m, cd.status.value.successes);
    assert NamesOf(CheckedMap(m, SucOf(cd))) == NamesOf(SucOf(cd));
  }

  /** A pass is a job that can be written. */
  lemma PassIsPossible(a: Snap, b: Snap, classes: seq<DeviceClass>, disks: set<string>, made: seq<DeviceClass>)
    requires Ran(a, b, classes, disks, made) && (DistinctVgs(classes) ==> Passed(a, b, classes, made))
    requires NoFault(a, b) ==> Outlook(a, classes, disks) == Plan(NamesOf(b.suc), made)
    ensures Possible(NamesOf(a.suc), LaterJob(a, classes, disks, made, NamesOf(b.suc), NoFault(a, b)))
  {
    assert forall v :: v in b.suc ==> NamesOf(b.suc)[v] == b.suc[v].name;
    assert forall v :: v in a.suc ==> NamesOf(a.suc)[v] == a.suc[v].name;
  }

  /** The groups outside `vgs` that hold a logical volume keep their physical volumes. */
  ghost predicate HeldStay(m: Machine, m': Machine, vgs: set<string>) {
    forall v :: v !in vgs && VgHasLv(m, v) ==> PvsOf(m', v) == PvsOf(m, v)
  }

  lemma HeldGroupsStay(a: Snap, b: Snap, classes: seq<DeviceClass>, disks: set<string>, sucVgs: seq<DeviceClass>)
    requires Valid(a.machine) && Ran(a, b, classes, disks, sucVgs)
    ensures HeldStay(a.machine, b.machine, Groups(classes))
  {
    forall v | v !in Groups(classes) && VgHasLv(a.machine, v) ensures PvsOf(b.machine, v) == PvsOf(a.machine, v) {
      HeldGroupExists(a.machine, v);
    }
  }

  lemma CrossesIff(classes: seq<DeviceClass>, made: seq<DeviceClass>, suc: Classes)
    requires suc.Keys == Groups(made)
    ensures Crosses(FirstJob(classes, made)) <==> !MadeOnce(classes, suc)
  {
  }

  lemma MadeNamesAre(suc: Classes, made: seq<DeviceClass>)
    requires Became(map[], suc, made, made)
    ensures suc.Keys == Groups(made) && GroupNames(made) == NamesOf(suc)
  {
    GroupNamesKeys(made);
    forall v | v in suc ensures v in Groups(made) && GroupNames(made)[v] == suc[v].name {
      assert Bears(made, v, suc[v].name);
      var d :| d in made && d.vgName == v && d.className == suc[v].name;
      GroupNamesAre(made, d);
    }
  }

  /** A first pass is a job that can be written, and leaves just the classes it made. */
  lemma FirstPassIsPossible(a: Snap, b: Snap, classes: seq<DeviceClass>, disks: set<string>, made: seq<DeviceClass>)
    requires a.suc == map[] && FirstRan(a, b, classes, disks, made)
    ensures Possible(map[], FirstJob(classes, made)) && GroupNames(made) == NamesOf(b.suc)
    ensures b.suc.Keys !! b.fail.Keys <==> !Crosses(FirstJob(classes, made))
  {
    MadeNamesAre(b.suc, made);
    CrossesIff(classes, made, b.suc);
  }

  /** What a history makes of the lvmd configuration. It goes on naming every success class, and
      names exactly those if and only if the last event that wrote set the names right; no name is
      listed twice if and only if that event kept each once; entries and successes have the groups
      that go with their names if in all specs the classes have. If no spec lists a group twice
      the names stay right, and with the groups of the names there are no duplicates. */
  ghost predicate Consequences(naming: map<string, string>, k: Keys, k': Keys, log: seq<Written>,
                               events: seq<Event>) {
    && (Included(k) ==> Included(k') && (NamesAgree(k') <==> EndsRight(k, log)))
    && (NoDuplicates(k'.lvmd) <==> EndsOnce(k, log))
    && (AllObey(naming, events) && Matched(naming, k) ==> Matched(naming, k'))
    && (AllDistinct(events) && NamesAgree(k) ==>
          && NamesAgree(k')
          && (NoDuplicates(k.lvmd) && AllObey(naming, events) && Matched(naming, k) ==> NoDuplicates(k'.lvmd)))
  }

  lemma LogFollowsSpecs(naming: map<string, string>, log: seq<Written>, events: seq<Event>)
    requires |log| == |events| && forall i :: 0 <= i < |log| ==> WrittenBy(log[i], events[i])
    ensures AllObey(naming, events) ==> forall w :: w in log ==> ObeysSpec(naming, w)
    ensures AllDistinct(events) ==> forall w :: w in log ==> DistinctSpec(w)
  {
    forall w | w in log
      ensures (AllObey(naming, events) ==> ObeysSpec(naming, w)) && (AllDistinct(events) ==> DistinctSpec(w))
    {
      var i :| 0 <= i < |log| && log[i] == w;
      assert WrittenBy(log[i], events[i]);
    }
  }

  lemma LogHasConsequences(naming: map<string, string>, k: Keys, k': Keys, log: seq<Written>, events: seq<Event>)
    requires LogOf(log, events, k, k') && |log| == |events|
    ensures Consequences(naming, k, k', log, events)
    ensures AllDistinct(events) ==> NoneCrosses(log)
  {
    LogFollowsSpecs(naming, log, events);
    if Included(k) { NamesAgreeIff(k, log); }
    NoDuplicatesIff(k, log);
    if AllObey(naming, events) && Matched(naming, k) { HistoryMatches(naming, k, log); }
    if AllDistinct(events) { DistinctNeverCrosses(log); }
    if AllDistinct(events) && NamesAgree(k) {
      DistinctKeepsNames(k, log);
      if NoDuplicates(k.lvmd) && AllObey(naming, events) && Matched(naming, k) { DistinctKeepsOnce(naming, k, log); }
    }
  }

  /** Without failures a first pass makes every group it can. */
  ghost predicate MadeAll(m: Machine, m': Machine, classes: seq<DeviceClass>, disks: set<string>) {
    forall k :: 0 <= k < |classes| && !VgExists(m, classes[k].vgName) && Elems(classes[k].devices) <= disks ==>
      PvsOf(m', classes[k].vgName) == Elems(classes[k].devices)
  }

  lemma FirstPassMakes(a: Snap, b: Snap, classes: seq<DeviceClass>, disks: set<string>, vgs: set<string>)
    requires DistinctVgs(classes) ==> Made(a, b, classes, disks, vgs, |classes|)
    requires forall v :: v in vgs <==> VgExists(a.machine, v)
    ensures DistinctVgs(classes) && NoFault(a, b) ==> MadeAll(a.machine, b.machine, classes, disks)
  {
    forall k | 0 <= k < |classes| && DistinctVgs(classes) && NoFault(a, b)
               && !VgExists(a.machine, classes[k].vgName) && Elems(classes[k].devices) <= disks
      ensures PvsOf(b.machine, classes[k].vgName) == Elems(classes[k].devices)
    {
      assert MadeOne(a, b, classes[k], disks, vgs);
    }
  }

  /** A logical volume that LVM would create. */
  predicate Fits(lv: Lv, m: Machine) { lv.name != "" && lv.vg != "" && lv.on != {} && lv.on <= PvsOf(m, lv.vg) }

  class NodeState {
    const host: Host
    const name: string
    var cm: ConfigData
    /** The logical volumes that users created and have not removed. */
    ghost var granted: map<string, Lv>
    /** How many jobs changed LVM and could not write their outcome. */
    ghost var lost: nat
    /** How many clean-ups ran while a device in use belonged to no group of their spec, or could
        not list a group. */
    ghost var exposed: nat

    constructor (host: Host, name: string)
      ensures this.host == host && this.name == name && cm == NoConfig
      ensures granted == host.machine.lvs && lost == 0 && exposed == 0
    {
      this.host, this.name, cm, granted, lost, exposed := host, name, NoConfig, host.machine.lvs, 0, 0;
    }

    /** Every device recorded as online is a physical volume of its class's group. */
    ghost predicate Honest()
      reads this, host
    {
      AllOnline(host.machine, SucOf(cm))
    }

    /** The node as a job finds it. */
    ghost function Before(): Snap
      reads this, host
    {
      Snap(host.machine, SucOf(cm), FailOf(cm), host.tally)
    }

    ghost predicate Inv()
      reads this, host
    {
      Valid(host.machine) && host.machine.lvs == granted && Filed(SucOf(cm))
    }

    /** The status and the lvmd key as a pass writes them; a failing patch writes nothing. */
    method Write(lvmd: Option<seq<LvmdClass>>, suc: Classes, fail: Classes)
      requires Filed(suc) && FailsNamed(fail)
      modifies this`cm, this`lost
      ensures lost == old(lost) ==>
          && cm.lvmd == lvmd && cm.status.Some? && cm.status.value.node == name
          && Listed(cm.status.value.successes, suc) && Listed(cm.status.value.failures, fail)
          && SucOf(cm) == suc && (suc.Keys !! fail.Keys ==> Apart(cm))
      ensures lost != old(lost) ==> lost == old(lost) + 1 && cm == old(cm)
    {
      var successes := ListOf(suc);
      var failures := ListOf(fail);
      ClassesRoundTrip(successes, suc);
      FailuresReadBack(failures, fail);
      var patched: bool := *;
      if patched {
        cm := ConfigData(lvmd, Some(NodeStatus(name, successes, failures)));
      } else {
        lost := lost + 1;
      }
    }

    /** The pass of a job on a node with a recorded status, and the lvmd key it asks for. */
    method RunPass(classes: seq<DeviceClass>, disks: set<string>)
      returns (lvmd: Option<seq<LvmdClass>>, suc: Classes, fail: Classes, ghost w: Written)
      requires Inv() && cm.status.Some?
      modifies host
      ensures Valid(host.machine) && host.machine.lvs == old(host.machine.lvs) && Grows(old(host.tally), host.tally)
      ensures Filed(suc) && FailsNamed(fail) && (Apart(cm) ==> suc.Keys !! fail.Keys)
      ensures w.LaterJob? && w == LaterJob(old(Before()), classes, disks, w.made, NamesOf(suc),
                                           host.tally.faults == old(host.tally.faults))
      ensures Possible(KeysOf(cm).names, w) && Next(KeysOf(cm), w) == Keys(lvmd, NamesOf(suc))
      ensures MadeReady(suc, w.made)
      ensures old(Honest()) && host.tally.halfDone == old(host.tally.halfDone) ==> AllOnline(host.machine, suc)
      ensures HeldStay(old(host.machine), host.machine, Groups(classes))
    {
      var sucMap, failMap := NameMap(cm.status.value.successes), NameMap(cm.status.value.failures);
      NameMapKeys(cm.status.value.failures);
      var sucVgs;
      suc, fail, sucVgs, w := ReconcileFrom(sucMap, failMap, classes, disks);
      lvmd := UpdateLvmdConf(cm.lvmd, classes, sucVgs, suc);
      NamesAreValues(suc);
    }

    /** The pass itself, from the recorded maps. */
    method ReconcileFrom(sucMap: Classes, failMap: Classes, classes: seq<DeviceClass>, disks: set<string>)
      returns (suc: Classes, fail: Classes, sucVgs: seq<DeviceClass>, ghost w: Written)
      requires Valid(host.machine) && Filed(sucMap) && Keyed(failMap)
      modifies host
      ensures Valid(host.machine) && host.machine.lvs == old(host.machine.lvs) && Grows(old(host.tally), host.tally)
      ensures Filed(suc) && FailsNamed(fail) && (sucMap.Keys !! failMap.Keys ==> suc.Keys !! fail.Keys)
      ensures w == LaterJob(Snap(old(host.machine), sucMap, failMap, old(host.tally)), classes, disks, sucVgs,
                            NamesOf(suc), host.tally.faults == old(host.tally.faults))
      ensures Possible(NamesOf(sucMap), w) && MadeReady(suc, sucVgs)
      ensures AllOnline(old(host.machine), sucMap) && host.tally.halfDone == old(host.tally.halfDone) ==>
          AllOnline(host.machine, suc)
      ensures HeldStay(old(host.machine), host.machine, Groups(classes))
    {
      var job := new Reconciler(host, classes, sucMap, failMap);
      ghost var start := job.Now();
      ghost var t;
      sucVgs, t := job.Reconcile(disks);
      suc, fail := job.suc, job.fail;
      w := LaterJob(start, classes, disks, sucVgs, NamesOf(suc), NoFault(start, job.Now()));
      assert Possible(NamesOf(sucMap), w) by {
        if NoFault(start, job.Now()) { PassAsForeseen(t, job.Now(), classes, disks); }
        PassIsPossible(start, job.Now(), classes, disks, sucVgs);
      }
      HeldGroupsStay(start, job.Now(), classes, disks, sucVgs);
    }

    /** A job on a node with a recorded status, with any spec. If it finds the lvmd key it sets the
        names right, whatever was wrong before; without failures it is known before it starts
        whether the names end right, and whether one is listed twice. */
    method ProvisionWithNodeStatus(classes: seq<DeviceClass>, disks: set<string>) returns (ghost w: Written)
      requires Inv() && cm.status.Some?
      modifies this`cm, this`lost, host
      ensures Inv() && Grows(old(host.tally), host.tally) && lost >= old(lost)
      ensures Possible(old(KeysOf(cm)).names, w) && KeysOf(cm) == Next(old(KeysOf(cm)), w)
      ensures if lost == old(lost) then w.LaterJob? && cm.status.Some? else w.Nothing? && cm == old(cm)
      ensures w.LaterJob? ==>
          && w.start == old(Before()) && w.spec == classes && w.disks == disks
          && (w.clean <==> host.tally.faults == old(host.tally.faults))
      ensures Included(old(KeysOf(cm))) ==> Included(KeysOf(cm))
      ensures Included(old(KeysOf(cm))) && old(cm).lvmd.Some? && lost == old(lost) ==> NamesAgree(KeysOf(cm))
      ensures host.tally.faults == old(host.tally.faults) && lost == old(lost) ==>
          var p := Outlook(old(Before()), classes, disks);
          && (Included(old(KeysOf(cm))) ==> (NamesAgree(KeysOf(cm)) <==> old(cm).lvmd.Some? || KeepsNames(p)))
          && (NoDuplicates(cm.lvmd) <==> KeptOnce(old(cm).lvmd, p.made, p.names.Values))
      ensures Apart(old(cm)) ==> Apart(cm)
      ensures w.LaterJob? ==> MadeReady(SucOf(cm), w.made)
      ensures old(Honest()) && host.tally.halfDone == old(host.tally.halfDone) && lost == old(lost) ==> Honest()
      ensures HeldStay(old(host.machine), host.machine, Groups(classes))
    {
      ghost var k := KeysOf(cm);
      var lvmd, suc, fail, job := RunPass(classes, disks);
      Write(lvmd, suc, fail);
      assert Inv();
      w := if lost == old(lost) then job else Nothing;
      if Included(k) { StepNamesIff(k, w); }
      if w.LaterJob? && w.clean { CleanJobIff(k, w); }
    }

    /** The first pass of a job on a node without one; `found` says whether it could list the
        groups. */
    method RunFirstPass(classes: seq<DeviceClass>, disks: set<string>)
      returns (found: bool, lvmd: Option<seq<LvmdClass>>, suc: Classes, fail: Classes, ghost w: Written)
      requires Inv() && cm.status.None?
      modifies host
      ensures Valid(host.machine) && host.machine.lvs == old(host.machine.lvs) && Grows(old(host.tally), host.tally)
      ensures !found ==> host.machine == old(host.machine) && host.tally.faults > old(host.tally.faults)
      ensures found ==> Filed(suc) && FailsNamed(fail) && AllOnline(host.machine, suc)
      ensures found ==> w.FirstJob? && w.spec == classes && forall d :: d in w.made ==> Elems(d.devices) <= disks
      ensures found ==> Possible(KeysOf(cm).names, w) && Next(KeysOf(cm), w) == Keys(lvmd, NamesOf(suc))
      ensures found ==> (suc.Keys !! fail.Keys <==> !Crosses(w))
      ensures found ==> forall v :: v in suc ==> suc[v].state == Ready
      ensures found ==> forall v :: v in fail ==> fail[v].state != Ready
      ensures found ==> forall v :: v in suc && v in fail ==> fail[v].vgName == v
      ensures forall v :: VgExists(old(host.machine), v) ==> PvsOf(host.machine, v) == PvsOf(old(host.machine), v)
      ensures found && DistinctVgs(classes) && host.tally.faults == old(host.tally.faults) ==>
          MadeAll(old(host.machine), host.machine, classes, disks)
    {
      var vgs;
      found, vgs := GetVolumeGroups(host);
      if !found { return false, None, map[], map[], Nothing; }
      var sucVgs;
      suc, fail, sucVgs, w := CreateFrom(vgs, classes, disks);
      lvmd := CreateLvmdConf(cm.lvmd, sucVgs);
      assert KeysOf(cm).names == map[];
    }

    /** The first pass itself; `vgs` are the groups found before. */
    method CreateFrom(vgs: set<string>, classes: seq<DeviceClass>, disks: set<string>)
      returns (suc: Classes, fail: Classes, sucVgs: seq<DeviceClass>, ghost w: Written)
      requires Valid(host.machine) && forall v :: v in vgs <==> VgExists(host.machine, v)
      modifies host
      ensures Valid(host.machine) && host.machine.lvs == old(host.machine.lvs) && Grows(old(host.tally), host.tally)
      ensures Filed(suc) && FailsNamed(fail) && AllOnline(host.machine, suc)
      ensures w == FirstJob(classes, sucVgs) && forall d :: d in sucVgs ==> Elems(d.devices) <= disks
      ensures Possible(map[], w) && GroupNames(sucVgs) == NamesOf(suc)
      ensures suc.Keys !! fail.Keys <==> !Crosses(w)
      ensures forall v :: v in suc ==> suc[v].state == Ready
      ensures forall v :: v in fail ==> fail[v].state != Ready
      ensures forall v :: v in suc && v in fail ==> fail[v].vgName == v
      ensures forall v :: VgExists(old(host.machine), v) ==> PvsOf(host.machine, v) == PvsOf(old(host.machine), v)
      ensures DistinctVgs(classes) && host.tally.faults == old(host.tally.faults) ==>
          MadeAll(old(host.machine), host.machine, classes, disks)
    {
      var job := new Reconciler(host, classes, map[], map[]);
      ghost var start := job.Now();
      ghost var t;
      sucVgs, t := job.FirstPass(disks, vgs);
      suc, fail := job.suc, job.fail;
      w := FirstJob(classes, sucVgs);
      FirstPassIsPossible(start, job.Now(), classes, disks, sucVgs);
      FirstPassMakes(start, job.Now(), classes, disks, vgs);
    }

    /** A job on a node without one: it leaves existing groups alone, and creates what it can. */
    method ProvisionFirst(classes: seq<DeviceClass>, disks: set<string>) returns (ghost w: Written)
      requires Inv() && cm.status.None?
      modifies this`cm, this`lost, host
      ensures Inv() && Grows(old(host.tally), host.tally) && lost >= old(lost)
      ensures Possible(old(KeysOf(cm)).names, w) && KeysOf(cm) == Next(old(KeysOf(cm)), w)
      ensures w.Nothing? || w.FirstJob?
      ensures w.Nothing? ==> cm == old(cm) && (lost > old(lost) || host.tally.faults > old(host.tally.faults))
      ensures w.FirstJob? ==> lost == old(lost) && cm.status.Some? && (Apart(cm) <==> !Crosses(w))
      ensures w.FirstJob? ==> w.spec == classes && forall d :: d in w.made ==> Elems(d.devices) <= disks
      ensures w.FirstJob? ==> forall v :: v in SucOf(cm) ==> SucOf(cm)[v].state == Ready
      ensures forall v :: VgExists(old(host.machine), v) ==> PvsOf(host.machine, v) == PvsOf(old(host.machine), v)
      ensures old(Honest()) && lost == old(lost) ==> Honest()
      ensures DistinctVgs(classes) && host.tally.faults == old(host.tally.faults) ==>
          MadeAll(old(host.machine), host.machine, classes, disks)
    {
      ghost var k := KeysOf(cm);
      var found, lvmd, suc, fail, job := RunFirstPass(classes, disks);
      if !found { return Nothing; }
      Write(lvmd, suc, fail);
      assert Inv();
      w := Nothing;
      if lost == old(lost) {
        w := job;
        assert Filed(SucOf(cm)) && KeysOf(cm) == Next(k, w);
        ApartReadsBack(cm.status.value.failures, suc, fail);
      }
    }

    /** A provisioning job: with a recorded status it reconciles, else it creates. */
    method ProvisionNode(classes: seq<DeviceClass>, disks: set<string>) returns (ghost w: Written)
      requires Inv()
      modifies this`cm, this`lost, host
      ensures Inv() && Grows(old(host.tally), host.tally) && lost >= old(lost)
      ensures Possible(old(KeysOf(cm)).names, w) && KeysOf(cm) == Next(old(KeysOf(cm)), w) && !w.Emptied?
      ensures w.Nothing? <==> lost > old(lost) || (old(cm).status.None? && cm.status.None?)
      ensures w.Nothing? ==> cm == old(cm) && (lost > old(lost) || host.tally.faults > old(host.tally.faults))
      ensures w.FirstJob? ==> old(cm).status.None? && w.spec == classes && (Apart(cm) <==> !Crosses(w))
      ensures w.FirstJob? ==> forall d :: d in w.made ==> Elems(d.devices) <= disks
      ensures w.LaterJob? ==>
          && old(cm).status.Some? && w.start == old(Before()) && w.spec == classes && w.disks == disks
          && (w.clean <==> host.tally.faults == old(host.tally.faults))
      ensures !w.Nothing? ==> cm.status.Some? && MadeReady(SucOf(cm), w.made)
      ensures Apart(old(cm)) && !Crosses(w) ==> Apart(cm)
      ensures old(Honest()) && host.tally.halfDone == old(host.tally.halfDone) && lost == old(lost) ==> Honest()
      ensures HeldStay(old(host.machine), host.machine, Groups(classes))
    {
      if cm.status.Some? {
        w := ProvisionWithNodeStatus(classes, disks);
      } else {
        ghost var m := host.machine;
        forall v | VgHasLv(m, v) ensures VgExists(m, v) { HeldGroupExists(m, v); }
        w := ProvisionFirst(classes, disks);
      }
    }

    /** The daemon looks at every success class; a failing query leaves the record alone. */
    method CheckDeviceClass()
      requires Inv()
      modifies this`cm, host`tally
      ensures Inv() && Grows(old(host.tally), host.tally) && host.tally.mutations == old(host.tally.mutations)
      ensures host.tally.halfDone == old(host.tally.halfDone)
      ensures cm == old(cm) ||
              (old(cm).status.Some?
                && cm == Verdicts(old(cm), CheckedAll(host.machine, old(cm).status.value.successes)))
      ensures KeysOf(cm) == old(KeysOf(cm)) && (Apart(old(cm)) <==> Apart(cm))
      ensures cm == old(cm) || Honest()
    {
      if cm.status.None? { return; }
      var list := cm.status.value.successes;
      ghost var was := list;
      for index := 0 to |list|
        invariant |list| == |was| && host.tally == old(host.tally)
        invariant forall i :: 0 <= i < |list| ==>
            list[i] == if i < index then Checked(was[i], PvsOf(host.machine, was[i].vgName)) else was[i]
        modifies host`tally
      {
        var ok, pvs := GetPhysicalVolume(host, list[index].vgName);
        if !ok { return; }
        var c := CheckOne(list[index], pvs);
        list := list[index := c];
      }
      assert list == CheckedAll(host.machine, was);
      ChecksKeepInvariants(host.machine, cm, list);
      var patched: bool := *;
      if patched { cm := Verdicts(cm, list); }
    }

    method CheckOne(c: ClassState, pvs: set<string>) returns (r: ClassState)
      ensures r == Checked(c, pvs)
    {
      r := c;
      var ready := true;
      for k := 0 to |c.devices|
        invariant |r.devices| == |c.devices|
        invariant r == c.(devices := r.devices, state := if ready then c.state else UnReady)
        invariant ready <==> forall i :: 0 <= i < k ==> c.devices[i].name in pvs
        invariant forall i :: 0 <= i < |c.devices| ==>
            r.devices[i] == if i < k && c.devices[i].name !in pvs then c.devices[i].(state := Offline) else c.devices[i]
      {
        if r.devices[k].name in pvs { continue; }
        ready := false;
        r := r.(devices := r.devices[k := r.devices[k].(state := Offline)], state := UnReady);
      }
      assert ready <==> forall d :: d in c.devices ==> d.name in pvs;
      if ready { r := r.(state := Ready); }
      assert r.devices == Checked(c, pvs).devices;
    }

    /** Deleting the cluster drops both keys. */
    method CleanLvmdConfigmap()
      requires Inv()
      modifies this`cm
      ensures Inv() && cm == NoConfig && Honest() && Apart(cm)
    {
      cm := NoConfig;
    }

    /** The clean-up job of this node; it records nothing in the ConfigMap. */
    method CleanNode(spec: Clean.ClusterSpec)
      requires Inv()
      modifies this`granted, this`lost, this`exposed, host
      ensures Inv() && Grows(old(host.tally), host.tally) && lost >= old(lost) && exposed >= old(exposed)
      ensures exposed == old(exposed) ==> granted == old(granted)
      ensures Clean.SpecCovered(old(host.machine), spec, name) && host.tally.queryFaults == old(host.tally.queryFaults)
              ==> exposed == old(exposed)
      ensures lost == old(lost) ==> Honest()
      ensures forall l :: l in old(granted)
                          && (forall p :: p in old(granted)[l].on ==> !Clean.ListsPv(spec, name, p)) ==>
                l in granted && granted[l] == old(granted)[l]
      ensures host.tally.faults == old(host.tally.faults) ==>
          forall l :: l in granted <==> l in old(granted) && Clean.Safe(spec, name, old(granted)[l])
      ensures host.tally.faults == old(host.tally.faults) ==>
          granted == Survivors(old(granted),
                                Clean.Unowned(old(host.machine), Clean.SpecVgs(spec, name), Clean.SpecPvs(spec, name)))
    {
      ghost var covered, queries := Clean.SpecCovered(host.machine, spec, name), host.tally.queryFaults;
      ghost var _ := Clean.Start(host, spec, name);
      if !(covered && host.tally.queryFaults == queries) {
        granted, exposed := host.machine.lvs, exposed + 1;
      }
      if SucOf(cm) != map[] { lost := lost + 1; }
    }

    /** Users create logical volumes on groups that exist, and remove them. */
    method UserCreate(id: string, lv: Lv)
      requires Inv()
      modifies this`granted, host`machine
      ensures Inv() && host.machine.pvs == old(host.machine.pvs)
      ensures granted ==
              if id !in old(granted) && Fits(lv, old(host.machine)) then old(granted)[id := lv] else old(granted)
    {
      if id !in host.machine.lvs && Fits(lv, host.machine) {
        host.machine := host.machine.(lvs := host.machine.lvs[id := lv]);
        granted := granted[id := lv];
      }
    }

    method UserRemove(id: string)
      requires Inv()
      modifies this`granted, host`machine
      ensures Inv() && host.machine.pvs == old(host.machine.pvs) && granted == old(granted) - {id}
    {
      host.machine := host.machine.(lvs := host.machine.lvs - {id});
      granted := granted - {id};
    }

    /** One event in the life of the node, whatever the spec it brings, and what it writes. */
    method Happen(e: Event) returns (ghost w: Written)
      requires Inv()
      modifies this`cm, this`lost, this`exposed, this`granted, host
      ensures Inv() && Grows(old(host.tally), host.tally) && lost >= old(lost) && exposed >= old(exposed)
      ensures exposed == old(exposed) ==>
          forall l :: l in old(granted) && e != UserRemoves(l) ==> l in granted && granted[l] == old(granted)[l]
      ensures e.CleanUp? && Clean.SpecCovered(old(host.machine), e.spec, name)
              && host.tally.queryFaults == old(host.tally.queryFaults)
              ==> exposed == old(exposed)
      ensures !e.CleanUp? ==> exposed == old(exposed)
      ensures old(Honest()) && host.tally.halfDone == old(host.tally.halfDone) && lost == old(lost) ==> Honest()
      ensures WrittenBy(w, e) && Possible(old(KeysOf(cm)).names, w) && KeysOf(cm) == Next(old(KeysOf(cm)), w)
      ensures e.Provision? && lost == old(lost) && (old(cm).status.Some? || cm.status.Some?) ==> !w.Nothing?
      ensures w.LaterJob? ==> w.start == old(Before()) && (w.clean <==> host.tally.faults == old(host.tally.faults))
      ensures Included(old(KeysOf(cm))) ==> Included(KeysOf(cm))
      ensures Apart(old(cm)) && !Crosses(w) ==> Apart(cm)
      ensures w.FirstJob? && Crosses(w) ==> !Apart(cm)
    {
      ghost var k := KeysOf(cm);
      w := Nothing;
      match e {
        case Provision(classes, disks) => w := ProvisionNode(classes, disks);
        case Reset =>
          CleanLvmdConfigmap();
          w := Emptied;
        case CleanUp(spec) => CleanNode(spec);
        case Probe => CheckDeviceClass();
        case UserCreates(id, lv) => UserCreate(id, lv);
        case UserRemoves(id) => UserRemove(id);
      }
      if Included(k) { StepNamesIff(k, w); }
    }

    /** Any history of the node, with any specs; `log` is what its events wrote. No logical volume
        is lost that its user did not remove, unless a clean-up was exposed. Unless a command was
        left half done or an outcome was not written, every device recorded as online stays a
        physical volume of its group. No group becomes a success and a failure, unless a first job
        made one that its spec lists twice. The lvmd key and the names of the success classes are
        the replay of the log; Consequences says what follows for them. */
    method Run(events: seq<Event>, ghost naming: map<string, string>) returns (ghost log: seq<Written>)
      requires Inv()
      modifies this`cm, this`lost, this`exposed, this`granted, host
      ensures Inv() && Grows(old(host.tally), host.tally) && lost >= old(lost) && exposed >= old(exposed)
      ensures exposed == old(exposed) ==>
          forall l :: l in old(granted) && UserRemoves(l) !in events ==> l in granted && granted[l] == old(granted)[l]
      ensures (forall i :: 0 <= i < |events| ==> !events[i].CleanUp?) ==> exposed == old(exposed)
      ensures old(Honest()) && host.tally.halfDone == old(host.tally.halfDone) && lost == old(lost) ==> Honest()
      ensures Apart(old(cm)) && NoneCrosses(log) ==> Apart(cm)
      ensures AllDistinct(events) && Apart(old(cm)) ==> Apart(cm)
      ensures |log| == |events| && LogOf(log, events, old(KeysOf(cm)), KeysOf(cm))
      ensures Consequences(naming, old(KeysOf(cm)), KeysOf(cm), log, events)
    {
      log := [];
      for i := 0 to |events|
        invariant Inv() && Grows(old(host.tally), host.tally) && lost >= old(lost) && exposed >= old(exposed)
        invariant exposed == old(exposed) ==>
            forall l :: l in old(granted) && UserRemoves(l) !in events ==> l in granted && granted[l] == old(granted)[l]
        invariant (forall j :: 0 <= j < i ==> !events[j].CleanUp?) ==> exposed == old(exposed)
        invariant old(Honest()) && host.tally.halfDone == old(host.tally.halfDone) && lost == old(lost) ==> Honest()
        invariant Apart(old(cm)) && NoneCrosses(log) ==> Apart(cm)
        invariant |log| == i && LogOf(log, events, old(KeysOf(cm)), KeysOf(cm))
      {
        ghost var k := KeysOf(cm);
        ghost var w := Happen(events[i]);
        assert Inv();
        LogGrows(log, events, old(KeysOf(cm)), k, w);
        log := log + [w];
      }
      LogHasConsequences(naming, old(KeysOf(cm)), KeysOf(cm), log, events);
    }
  }

  /** A node without a ConfigMap and a job that cannot use its class's disks: it leaves a record of
      the failure, but no lvmd key. */
  method FailFirst(node: NodeState, c: DeviceClass, disks: set<string>)
    requires node.Inv() && node.cm == NoConfig && !(Elems(c.devices) <= disks)
    modifies node, node.host
    ensures node.Inv() && node.lost >= old(node.lost) && Grows(old(node.host.tally), node.host.tally)
    ensures node.host.tally.faults == old(node.host.tally.faults) && node.lost == old(node.lost) ==>
              node.cm.status.Some? && KeysOf(node.cm) == Keys(None, map[])
  {
    assert KeysOf(NoConfig) == Keys(None, map[]);
    ghost var w := node.ProvisionNode([c], disks);
    if w.FirstJob? { assert forall d :: d in w.made ==> d == c; }
  }

  /** If the next spec lists the group a second time without devices, and nothing fails, the group
      is made and removed again: the key names the class, though none is a success. */
  method LeavesName(node: NodeState, c: DeviceClass, disks: set<string>, disks': set<string>)
    requires node.Inv() && node.cm == NoConfig && !(Elems(c.devices) <= disks) && Elems(c.devices) <= disks'
    modifies node, node.host
    ensures node.host.tally.faults == old(node.host.tally.faults) && node.lost == old(node.lost) ==>
              KeysOf(node.cm) == Keys(Some([ConvertConfig(c)]), map[]) && !NamesAgree(KeysOf(node.cm))
  {
    FailFirst(node, c, disks);
    ghost var start := node.Before();
    ghost var w := node.ProvisionNode(OnOffOn(c)[..2], disks');
    if node.host.tally.faults == old(node.host.tally.faults) && node.lost == old(node.lost) {
      OnOffOutlook(start, c, disks');
      OnOffKeys(c);
    }
  }

  /** If it also lists the class once more, the group is made twice, and so is its lvmd entry. */
  method WritesTwice(node: NodeState, c: DeviceClass, disks: set<string>, disks': set<string>)
    requires node.Inv() && node.cm == NoConfig && !(Elems(c.devices) <= disks) && Elems(c.devices) <= disks'
    modifies node, node.host
    ensures node.host.tally.faults == old(node.host.tally.faults) && node.lost == old(node.lost) ==>
              node.cm.lvmd == Some([ConvertConfig(c), ConvertConfig(c)]) && !NoDuplicates(node.cm.lvmd)
  {
    FailFirst(node, c, disks);
    ghost var start := node.Before();
    ghost var w := node.ProvisionNode(OnOffOn(c), disks');
    if node.host.tally.faults == old(node.host.tally.faults) && node.lost == old(node.lost) {
      OnOffOutlook(start, c, disks');
      OnOffKeys(c);
    }
  }

  /** A class that is renamed to another group while its old group holds a logical volume: the job
      forgets the old group and leaves its device alone, and the clean-up then wipes the device,
      the user's logical volume with it, without any command failing. */
  method RenamedGroupIsWiped(node: NodeState, c: DeviceClass, newVg: string, disks: set<string>, disks': set<string>,
                             id: string, lv: Lv)
    requires node.Inv() && node.cm.status.None? && id !in node.granted
    requires !VgExists(node.host.machine, c.vgName) && c.vgName != newVg && Elems(c.devices) <= disks
    requires lv.name != "" && lv.vg == c.vgName != "" && lv.on != {} && lv.on <= Elems(c.devices)
    modifies node, node.host
    ensures node.host.tally.faults == old(node.host.tally.faults) ==> id !in node.host.machine.lvs
  {
    var renamed := c.(vgName := newVg);
    var spec := Clean.ClusterSpec("", [Clean.NodeSpec(node.name, [renamed])]);
    ghost var _ := node.ProvisionFirst([c], disks);
    node.UserCreate(id, lv);
    ghost var m := node.host.machine;
    if node.host.tally.faults == old(node.host.tally.faults) {
      assert [c][0] == c;
      assert Fits(lv, m) && m.lvs[id] == lv;
      assert VgHasLv(m, c.vgName);
    }
    ghost var _ := node.ProvisionNode([renamed], disks');
    ghost var m' := node.host.machine;
    node.CleanNode(spec);
    if node.host.tally.faults == old(node.host.tally.faults) {
      assert PvsOf(m', c.vgName) == PvsOf(m, c.vgName);
      RenamedIsUnowned(m', node.name, renamed, lv, c.vgName);
    }
  }

  lemma RenamedIsUnowned(m: Machine, name: string, renamed: DeviceClass, lv: Lv, vg: string)
    requires vg != renamed.vgName && lv.on != {} && lv.on <= Elems(renamed.devices) && lv.on <= PvsOf(m, vg)
    ensures var spec := Clean.ClusterSpec("", [Clean.NodeSpec(name, [renamed])]);
            !(lv.on !! Clean.Unowned(m, Clean.SpecVgs(spec, name), Clean.SpecPvs(spec, name)))
  {
    var nodes := [Clean.NodeSpec(name, [renamed])];
    var spec := Clean.ClusterSpec("", nodes);
    assert nodes[..0] == [];
    assert Clean.ClassesOf(nodes, name) == [] + [renamed] == [renamed];
    assert renamed in [renamed];
    var p :| p in lv.on;
    assert p in Clean.SpecPvs(spec, name);
    assert m.pvs[p] == vg && vg !in Clean.SpecVgs(spec, name);
  }
}
