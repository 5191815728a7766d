// A pass of the reconciler seen from outside: the states it goes through, one class at a time,
// and what a whole pass makes of the node.
module Passes {
  import opened Lvm
  import opened VgStatus

  /** What an expand pass made of a group and of its class state. */
  ghost predicate Expanded(m: Machine, m': Machine, class_: DeviceClass, c: ClassState, c': ClassState) {
    var was, now := PvsOf(m, class_.vgName), PvsOf(m', class_.vgName);
    && was <= now <= was + Elems(class_.devices)
    && c' == c.(message := c'.message, devices := c'.devices)
    && c'.message in {c.message, EXPAND_WARNING, EXPAND_ERROR}
    && c.devices <= c'.devices
    && (forall i :: |c.devices| <= i < |c'.devices| ==>
          var d := c'.devices[i];
          d.name in class_.devices && d.name !in was && (d.state == Error || (d.state == Online && d.name in now)))
    && (forall p :: p in now - was ==> DeviceState(p, Online, "") in c'.devices)
  }

  /** The states recorded for a batch of devices while a class is being worked on. */
  ghost predicate Recorded(c: seq<DeviceState>, c': seq<DeviceState>, allowed: set<string>, state: Condition) {
    && c <= c'
    && (forall i :: |c| <= i < |c'| ==> c'[i].name in allowed && c'[i].state == state)
  }

  ghost predicate Distinct(list: seq<string>) { forall i, j :: 0 <= i < j < |list| ==> list[i] != list[j] }

  lemma {:induction false} DistinctSize(list: seq<string>)
    requires Distinct(list)
    ensures |Elems(list)| == |list|
  {
    if list != [] {
      var last := |list| - 1;
      DistinctSize(list[..last]);
      assert Elems(list) == Elems(list[..last]) + {list[last]};
    }
  }

  lemma SubsetOfSameSize(a: set<string>, b: set<string>)
    requires a <= b && |a| == |b|
    ensures a == b
  {
    assert |b - a| == |b| - |a|;
  }

  /** What a shrink pass may make of a class. If no command was left half done, it keeps every
      online device a physical volume of the group. */
  ghost predicate Shrunk(m: Machine, m': Machine, class_: DeviceClass, suc: Classes, suc': Classes, clean: bool)
    requires class_.vgName in suc
  {
    var vg := class_.vgName;
    var c, extra := suc[vg], PvsOf(m, vg) - Elems(class_.devices);
    && (vg !in suc' ==> extra == PvsOf(m, vg) != {} && PvsOf(m', vg) == {})
    && (vg in suc' ==>
          && suc'[vg] == c.(message := suc'[vg].message, devices := suc'[vg].devices)
          && suc'[vg].message in {c.message, SHRINK_ERROR, DELETE_ERROR}
          && (suc'[vg].devices == c.devices || suc'[vg].devices == Without(c.devices, extra))
          && (clean && OnlineIn(m, vg, c) ==> OnlineIn(m', vg, suc'[vg])))
  }

  /** What it makes of it when every command succeeds. */
  ghost predicate ShrunkFully(m: Machine, m': Machine, class_: DeviceClass, suc: Classes, suc': Classes)
    requires class_.vgName in suc
  {
    var vg := class_.vgName;
    var c, was, extra := suc[vg], PvsOf(m, vg), PvsOf(m, vg) - Elems(class_.devices);
    if exists p :: p in extra && PvHasLv(m, p) then
      && m' == m
      && vg in suc' && suc'[vg] == c.(message := if extra == was then DELETE_ERROR else SHRINK_ERROR)
    else if extra == was then
      vg !in suc' && m'.pvs == m.pvs - was
    else
      && vg in suc' && suc'[vg] == c.(devices := Without(c.devices, extra))
      && m'.pvs == m.pvs - extra && PvsOf(m', vg) == was * Elems(class_.devices)
  }

  lemma OnlineStatesCover(states: seq<DeviceState>, names: seq<string>)
    ensures var more := states + States(names, Online, "");
            && (forall p :: p in Elems(names) ==> DeviceState(p, Online, "") in more)
            && (forall i :: |states| <= i < |more| ==> more[i].state == Online && more[i].name in Elems(names))
  {
  }

  lemma ExpandedStaysOnline(m: Machine, m': Machine, class_: DeviceClass, c: ClassState, c': ClassState)
    requires Expanded(m, m', class_, c, c')
    ensures OnlineIn(m, class_.vgName, c) ==> OnlineIn(m', class_.vgName, c')
  {
  }

  /** The group exists, nothing it is to give up holds a logical volume, and no command fails. */
  ghost predicate Converged(m: Machine, class_: DeviceClass, noFault: bool) {
    && noFault && VgExists(m, class_.vgName)
    && (forall p :: p in PvsOf(m, class_.vgName) - Elems(class_.devices) ==> !PvHasLv(m, p))
  }

  /** A forgotten group stays as it was if it holds a logical volume; otherwise it is removed,
      unless a command fails. */
  ghost predicate Forgotten(m: Machine, m': Machine, vg: string, noFault: bool) {
    && (VgHasLv(m, vg) ==> PvsOf(m', vg) == PvsOf(m, vg))
    && (!VgHasLv(m, vg) && noFault ==> PvsOf(m', vg) == {})
  }

  lemma MissingNone(names: seq<string>, disks: set<string>)
    ensures Missing(names, disks) == [] <==> Elems(names) <= disks
  {
  }

  function Created(class_: DeviceClass): ClassState {
    ClassState(class_.className, class_.vgName, Ready, CREATE_SUCCESSFUL, States(class_.devices, Online, ""))
  }

  /** The record of a class that could not be created: the unusable devices, or a failed command. */
  function NotCreated(class_: DeviceClass, disks: set<string>): ClassState {
    if Elems(class_.devices) <= disks then ClassState(class_.className, class_.vgName, UnReady, CREATE_FAIL, [])
    else ClassState(class_.className, class_.vgName, NotSaid, "",
                    States(Missing(class_.devices, disks), Offline, NOT_RAW))
  }

  /** The record of a failed class after another failed attempt. */
  function Noted(c: ClassState, class_: DeviceClass, disks: set<string>): ClassState {
    c.(devices := Marked(c.devices, Missing(class_.devices, disks)))
  }

  /** The groups that a spec lists. */
  function Groups(classes: seq<DeviceClass>): set<string> { set c | c in classes :: c.vgName }

  lemma GroupsSnoc(classes: seq<DeviceClass>, k: nat)
    requires k < |classes|
    ensures Groups(classes[..k + 1]) == Groups(classes[..k]) + {classes[k].vgName}
    ensures DistinctVgs(classes) ==> classes[k].vgName !in Groups(classes[..k])
  {
    assert classes[..k + 1] == classes[..k] + [classes[k]];
    assert classes[k] in classes[..k + 1];
  }

  predicate DistinctVgs(classes: seq<DeviceClass>) {
    forall i, j :: 0 <= i < j < |classes| ==> classes[i].vgName != classes[j].vgName
  }

  ghost predicate SameBut(m: Classes, m': Classes, vg: string) {
    forall v :: v != vg ==> (v in m <==> v in m') && (v in m ==> m[v] == m'[v])
  }

  lemma CreatedIsOnline(m: Machine, class_: DeviceClass)
    ensures PvsOf(m, class_.vgName) == Elems(class_.devices) ==> OnlineIn(m, class_.vgName, Created(class_))
  {
  }

  /******* One class's turn *******/

  /** Everything a pass can change, and what happened to the commands so far. */
  datatype Snap = Snap(machine: Machine, suc: Classes, fail: Classes, tally: Tally)

  ghost predicate Same(a: Snap, b: Snap) { b.machine == a.machine && b.suc == a.suc && b.fail == a.fail }

  /** Between `a` and `b` no command failed, none was left half done, no query failed on
      something that exists, no command was issued that could change LVM. */
  predicate NoFault(a: Snap, b: Snap) { b.tally.faults == a.tally.faults }

  predicate Whole(a: Snap, b: Snap) { b.tally.halfDone == a.tally.halfDone }

  predicate Answered(a: Snap, b: Snap) { b.tally.queryFaults == a.tally.queryFaults }

  predicate Idle(a: Snap, b: Snap) { b.tally.mutations == a.tally.mutations }

  predicate Added(a: Snap, b: Snap, c: DeviceClass) { c.vgName !in a.suc && c.vgName in b.suc }

  ghost predicate InPlace(a: Snap, c: DeviceClass) {
    c.vgName in a.suc && PvsOf(a.machine, c.vgName) == Elems(c.devices)
  }

  /** A group can give nothing up: it no longer exists, has nothing but wanted devices, or has a
      logical volume on one of the others. */
  ghost predicate Stuck(m: Machine, c: DeviceClass) {
    var extra := PvsOf(m, c.vgName) - Elems(c.devices);
    !VgExists(m, c.vgName) || extra == {} || exists p :: p in extra && PvHasLv(m, p)
  }

  /** Nothing can be done about a class: its group no longer exists, or holds all its devices and
      can give none up; or there is no group and a device that is no available disk. */
  ghost predicate Quiet(a: Snap, c: DeviceClass, disks: set<string>) {
    if c.vgName in a.suc then
      !VgExists(a.machine, c.vgName) || (Elems(c.devices) <= PvsOf(a.machine, c.vgName) && Stuck(a.machine, c))
    else
      !(Elems(c.devices) <= disks)
  }

  /** What a turn may do to the two maps at its group. */
  ghost predicate Outcome(a: Snap, b: Snap, c: DeviceClass) {
    var v := c.vgName;
    if v in a.suc then
      && (v in b.fail <==> v in a.fail)
      && (if v in b.suc then b.suc[v].name == a.suc[v].name else PvsOf(b.machine, v) == {} && !Idle(a, b))
    else if v in b.suc then
      && v != "" && !VgExists(a.machine, v) && c.devices != []
      && v !in b.fail && b.suc[v].name == c.className
    else
      v in b.fail
  }

  /** A turn touches only its own group. */
  ghost predicate Framed(a: Snap, b: Snap, c: DeviceClass) {
    && Grows(a.tally, b.tally) && b.machine.lvs == a.machine.lvs && OthersKept(a.machine, b.machine, c.vgName)
    && SameBut(a.suc, b.suc, c.vgName) && SameBut(a.fail, b.fail, c.vgName)
    && (Keyed(a.fail) ==> Keyed(b.fail)) && (Filed(a.suc) ==> Filed(b.suc))
  }

  /** Online devices stay in the group. */
  ghost predicate StaysOnline(a: Snap, b: Snap, c: DeviceClass) {
    var v := c.vgName;
    v in b.suc && Whole(a, b) && (v in a.suc ==> OnlineIn(a.machine, v, a.suc[v])) ==> OnlineIn(b.machine, v, b.suc[v])
  }

  /** What can converge does: a success ends with just its devices, or without its group when it
      lists none; a class of available disks becomes a success. */
  ghost predicate Converges(a: Snap, b: Snap, c: DeviceClass, disks: set<string>) {
    var v := c.vgName;
    && (v in b.suc && (v in a.suc ==> Converged(a.machine, c, NoFault(a, b))) ==>
          PvsOf(b.machine, v) == Elems(c.devices))
    && (v in a.suc && Converged(a.machine, c, NoFault(a, b)) ==> (v in b.suc <==> c.devices != []))
    && (v !in a.suc && NoFault(a, b) && Elems(c.devices) <= disks ==> v in b.suc)
  }

  /** Commands that could change LVM are issued exactly when something can be done. */
  ghost predicate ActsIfUseful(a: Snap, b: Snap, c: DeviceClass, disks: set<string>) {
    && (Idle(a, b) ==> b.machine == a.machine)
    && (Answered(a, b) ==> (Idle(a, b) <==> Quiet(a, c, disks)))
    && (InPlace(a, c) ==> Same(a, b) && Idle(a, b))
  }

  ghost predicate Turn(a: Snap, b: Snap, c: DeviceClass, disks: set<string>) {
    && Framed(a, b, c) && Outcome(a, b, c) && StaysOnline(a, b, c)
    && Converges(a, b, c, disks) && ActsIfUseful(a, b, c, disks)
  }

  /** What an expand pass makes of a class; see Expanded. */
  ghost predicate ExpandDone(a: Snap, b: Snap, c: DeviceClass)
    requires c.vgName in a.suc
  {
    var v, was := c.vgName, PvsOf(a.machine, c.vgName);
    && Grows(a.tally, b.tally) && Whole(a, b) && b.machine.lvs == a.machine.lvs && OthersKept(a.machine, b.machine, v)
    && b.fail == a.fail && v in b.suc && b.suc == a.suc[v := b.suc[v]]
    && Expanded(a.machine, b.machine, c, a.suc[v], b.suc[v])
    && (NoFault(a, b) && VgExists(a.machine, v) ==>
          PvsOf(b.machine, v) == was + Elems(c.devices) && b.suc[v].message == a.suc[v].message)
    && (Idle(a, b) ==> Same(a, b))
    && (Elems(c.devices) <= was || !VgExists(a.machine, v) ==> Idle(a, b))
    && (Answered(a, b) && Idle(a, b) ==> Elems(c.devices) <= was || !VgExists(a.machine, v))
  }

  /** A group gives devices up, all or none unless a command is left half done: never while one of
      them holds a logical volume, and always otherwise unless a command fails. */
  ghost predicate GivenUp(a: Snap, b: Snap, gone: set<string>, ok: bool) {
    && Grows(a.tally, b.tally) && OnlyFreed(a.machine, b.machine, gone)
    && (ok ==> b.machine.pvs == a.machine.pvs - gone)
    && (!ok && Whole(a, b) ==> b.machine == a.machine)
    && (Idle(a, b) ==> b.machine == a.machine)
    && if exists p :: p in gone && PvHasLv(a.machine, p) then !ok && b.machine == a.machine && Idle(a, b)
       else (NoFault(a, b) ==> ok) && (Answered(a, b) ==> !Idle(a, b))
  }

  /** What a shrink pass makes of a class; see Shrunk, ShrunkFully and Stuck. */
  ghost predicate ShrinkDone(a: Snap, b: Snap, c: DeviceClass)
    requires c.vgName in a.suc
  {
    var v := c.vgName;
    && Grows(a.tally, b.tally) && OnlyFreed(a.machine, b.machine, PvsOf(a.machine, v) - Elems(c.devices))
    && b.fail == a.fail && b.suc == (if v in b.suc then a.suc[v := b.suc[v]] else a.suc - {v})
    && Shrunk(a.machine, b.machine, c, a.suc, b.suc, Whole(a, b))
    && (NoFault(a, b) && VgExists(a.machine, v) ==> ShrunkFully(a.machine, b.machine, c, a.suc, b.suc))
    && (PvsOf(a.machine, v) <= Elems(c.devices) ==> Same(a, b) && Idle(a, b))
    && (Idle(a, b) ==> b.machine == a.machine)
    && (Stuck(a.machine, c) ==> Idle(a, b)) && (Answered(a, b) && Idle(a, b) ==> Stuck(a.machine, c))
  }

  lemma NothingExtra(a: Snap, b: Snap, c: DeviceClass)
    requires c.vgName in a.suc && Same(a, b) && Grows(a.tally, b.tally) && Idle(a, b)
    requires PvsOf(a.machine, c.vgName) <= Elems(c.devices)
             || (b.tally.queryFaults > a.tally.queryFaults && b.tally.faults > a.tally.faults)
    ensures ShrinkDone(a, b, c)
  {
    assert PvsOf(a.machine, c.vgName) <= Elems(c.devices) ==> PvsOf(a.machine, c.vgName) - Elems(c.devices) == {};
    assert a.suc[c.vgName := a.suc[c.vgName]] == a.suc;
    WithoutMembers(a.suc[c.vgName].devices, {});
  }

  lemma WholeGivenUp(a: Snap, b: Snap, c: DeviceClass, ok: bool)
    requires c.vgName in a.suc && VgExists(a.machine, c.vgName) && PvsOf(a.machine, c.vgName) !! Elems(c.devices)
    requires GivenUp(a, b, PvsOf(a.machine, c.vgName), ok) && b.fail == a.fail
    requires b.suc == if ok then a.suc - {c.vgName}
                      else a.suc[c.vgName := a.suc[c.vgName].(message := DELETE_ERROR)]
    ensures ShrinkDone(a, b, c)
  {
    assert PvsOf(a.machine, c.vgName) - Elems(c.devices) == PvsOf(a.machine, c.vgName);
  }

  lemma PartGivenUp(a: Snap, b: Snap, c: DeviceClass, ok: bool)
    requires var extra := PvsOf(a.machine, c.vgName) - Elems(c.devices);
             && c.vgName in a.suc && c.vgName != "" && extra != {} && extra != PvsOf(a.machine, c.vgName)
             && GivenUp(a, b, extra, ok) && b.fail == a.fail
             && var s := a.suc[c.vgName];
             b.suc == a.suc[c.vgName := if ok then s.(devices := Without(s.devices, extra))
                                        else s.(message := SHRINK_ERROR)]
    ensures ShrinkDone(a, b, c)
  {
    var extra := PvsOf(a.machine, c.vgName) - Elems(c.devices);
    WithoutMembers(a.suc[c.vgName].devices, extra);
    FreedKeepsOthers(a.machine, b.machine, c.vgName, extra);
    if ok { assert PvsOf(b.machine, c.vgName) == PvsOf(a.machine, c.vgName) * Elems(c.devices); }
  }

  lemma AdjustFrames(a: Snap, m: Snap, b: Snap, c: DeviceClass)
    requires c.vgName in a.suc && c.vgName != "" && ExpandDone(a, m, c) && ShrinkDone(m, b, c)
    ensures Framed(a, b, c) && Outcome(a, b, c)
  {
    FreedKeepsOthers(m.machine, b.machine, c.vgName, PvsOf(m.machine, c.vgName) - Elems(c.devices));
  }

  lemma AdjustStaysOnline(a: Snap, m: Snap, b: Snap, c: DeviceClass)
    requires c.vgName in a.suc && ExpandDone(a, m, c) && ShrinkDone(m, b, c)
    ensures StaysOnline(a, b, c)
  {
    ExpandedStaysOnline(a.machine, m.machine, c, a.suc[c.vgName], m.suc[c.vgName]);
  }

  lemma AdjustConverges(a: Snap, m: Snap, b: Snap, c: DeviceClass, disks: set<string>)
    requires c.vgName in a.suc && c.vgName != "" && ExpandDone(a, m, c) && ShrinkDone(m, b, c)
    ensures Converges(a, b, c, disks)
  {
    if Converged(a.machine, c, NoFault(a, b)) {
      var v, wanted := c.vgName, Elems(c.devices);
      assert forall p :: PvHasLv(m.machine, p) <==> PvHasLv(a.machine, p);
      assert PvsOf(m.machine, v) == PvsOf(a.machine, v) + wanted && PvsOf(m.machine, v) * wanted == wanted;
      if c.devices != [] { assert c.devices[0] in wanted; }
    }
  }

  lemma AdjustActsIfUseful(a: Snap, m: Snap, b: Snap, c: DeviceClass, disks: set<string>)
    requires c.vgName in a.suc && c.vgName != "" && ExpandDone(a, m, c) && ShrinkDone(m, b, c)
    ensures ActsIfUseful(a, b, c, disks)
  {
  }

  lemma AdjustIsTurn(a: Snap, m: Snap, b: Snap, c: DeviceClass, disks: set<string>)
    requires c.vgName in a.suc && c.vgName != "" && ExpandDone(a, m, c) && ShrinkDone(m, b, c)
    ensures Turn(a, b, c, disks)
  {
    AdjustFrames(a, m, b, c);
    AdjustStaysOnline(a, m, b, c);
    AdjustConverges(a, m, b, c, disks);
    AdjustActsIfUseful(a, m, b, c, disks);
  }

  /** The outcome of creating a class's group, from `a` to `b`: on success, with `state` recorded
      and the failures `left`, the group is new and holds just the devices, all available disks. */
  ghost predicate Attempted(a: Snap, b: Snap, c: DeviceClass, ok: bool, disks: set<string>, state: ClassState,
                            failed: ClassState, left: Classes) {
    var v := c.vgName;
    && Grows(a.tally, b.tally) && b.machine.lvs == a.machine.lvs && Whole(a, b)
    && OthersKept(a.machine, b.machine, v)
    && (if ok then
          && v != "" && !VgExists(a.machine, v) && c.devices != []
          && Elems(c.devices) <= disks && PvsOf(b.machine, v) == Elems(c.devices)
          && b.suc == a.suc[v := state] && b.fail == left
        else
          && (v != "" ==> PvsOf(b.machine, v) == PvsOf(a.machine, v))
          && b.suc == a.suc && b.fail == a.fail[v := failed])
    && (if Elems(c.devices) <= disks then !Idle(a, b) && (ok || !NoFault(a, b))
        else b.machine == a.machine && b.tally == a.tally)
  }

  lemma AttemptIsTurn(a: Snap, b: Snap, c: DeviceClass, ok: bool, disks: set<string>, state: ClassState,
                      failed: ClassState)
    requires c.vgName !in a.suc && Attempted(a, b, c, ok, disks, state, failed, a.fail - {c.vgName})
    requires state.vgName == c.vgName && state.name == c.className && (state.devices == [] || state == Created(c))
    requires Keyed(a.fail) ==> failed.vgName == c.vgName
    ensures Turn(a, b, c, disks) && ok == Added(a, b, c)
  {
    if ok { CreatedIsOnline(b.machine, c); }
  }

  /******* The turns of a pass, whatever the spec *******/

  /** The states a pass goes through. */
  datatype Trace = From(now: Snap) | Then(before: Trace, now: Snap)

  function Origin(t: Trace): Snap { if t.From? then t.now else Origin(t.before) }

  /** One turn for each of the first `k` classes. */
  ghost predicate Turns(t: Trace, classes: seq<DeviceClass>, disks: set<string>, k: nat) {
    match t
    case From(_) => k == 0
    case Then(before, now) =>
      0 < k <= |classes| && Turns(before, classes, disks, k - 1) && Turn(before.now, now, classes[k - 1], disks)
  }

  /** The classes that became successful, in the order of their turns. */
  function Picked(t: Trace, classes: seq<DeviceClass>, k: nat): seq<DeviceClass>
    requires k <= |classes|
  {
    if t.From? || k == 0 then []
    else Picked(t.before, classes, k - 1)
         + (if Added(t.before.now, t.now, classes[k - 1]) then [classes[k - 1]] else [])
  }

  /** What holds of any number of turns, of any spec. */
  ghost predicate Steady(a: Snap, b: Snap) {
    && Grows(a.tally, b.tally) && b.machine.lvs == a.machine.lvs && Filed(b.suc) && (Keyed(a.fail) ==> Keyed(b.fail))
    && (AllOnline(a.machine, a.suc) && Whole(a, b) ==> AllOnline(b.machine, b.suc))
    && (Idle(a, b) ==> b.machine == a.machine)
  }

  /** Every success has its name from before or from a class that became successful. */
  ghost predicate NamesFrom(suc: Classes, suc': Classes, sucVgs: seq<DeviceClass>) {
    forall v :: v in suc' ==> (v in suc && suc'[v].name == suc[v].name) || Bears(sucVgs, v, suc'[v].name)
  }

  predicate Bears(list: seq<DeviceClass>, vg: string, name: string) {
    exists d :: d in list && d.vgName == vg && d.className == name
  }

  ghost predicate Unchanged(a: Snap, b: Snap, v: string) {
    && (v in a.suc <==> v in b.suc) && (v in a.suc ==> a.suc[v] == b.suc[v])
    && (v in a.fail <==> v in b.fail) && (v != "" ==> PvsOf(b.machine, v) == PvsOf(a.machine, v))
  }

  /** The groups that no class so far has are as they were. */
  ghost predicate Untouched(a: Snap, b: Snap, classes: seq<DeviceClass>, k: nat)
    requires k <= |classes|
  {
    forall v :: v !in Groups(classes[..k]) ==> Unchanged(a, b, v)
  }

  lemma OnlineStep(t: Trace, classes: seq<DeviceClass>, disks: set<string>, k: nat)
    requires t.Then? && Turns(t, classes, disks, k) && Filed(t.before.now.suc)
    ensures AllOnline(t.before.now.machine, t.before.now.suc) && Whole(t.before.now, t.now)
            ==> AllOnline(t.now.machine, t.now.suc)
  {
    var a, b, c := t.before.now, t.now, classes[k - 1];
    if AllOnline(a.machine, a.suc) && Whole(a, b) {
      forall v | v in b.suc && v != c.vgName ensures OnlineIn(b.machine, v, b.suc[v]) {
        assert PvsOf(b.machine, v) == PvsOf(a.machine, v) && OnlineIn(a.machine, v, a.suc[v]);
      }
    }
  }

  lemma SteadyStep(t: Trace, classes: seq<DeviceClass>, disks: set<string>, k: nat)
    requires t.Then? && Turns(t, classes, disks, k) && Steady(Origin(t), t.before.now)
    ensures Steady(Origin(t), t.now)
  {
    OnlineStep(t, classes, disks, k);
  }

  lemma {:induction false} TurnsAreSteady(t: Trace, classes: seq<DeviceClass>, disks: set<string>, k: nat)
    requires Turns(t, classes, disks, k) && Filed(Origin(t).suc)
    ensures Steady(Origin(t), t.now)
  {
    if t.Then? {
      TurnsAreSteady(t.before, classes, disks, k - 1);
      SteadyStep(t, classes, disks, k);
    }
  }

  lemma FramedIsUnchanged(a: Snap, b: Snap, c: DeviceClass)
    requires Framed(a, b, c)
    ensures forall v :: v != c.vgName ==> Unchanged(a, b, v)
  {
  }

  lemma UntouchedStep(t: Trace, classes: seq<DeviceClass>, disks: set<string>, k: nat)
    requires t.Then? && k <= |classes| && Turns(t, classes, disks, k)
    requires Untouched(Origin(t), t.before.now, classes, k - 1)
    ensures Untouched(Origin(t), t.now, classes, k)
  {
    FramedIsUnchanged(t.before.now, t.now, classes[k - 1]);
    GroupsSnoc(classes, k - 1);
    forall v | v !in Groups(classes[..k]) ensures Unchanged(Origin(t), t.now, v) {
      assert Unchanged(Origin(t), t.before.now, v) && Unchanged(t.before.now, t.now, v);
    }
  }

  lemma {:induction false} TurnsTouchTheirGroups(t: Trace, classes: seq<DeviceClass>, disks: set<string>, k: nat)
    requires k <= |classes| && Turns(t, classes, disks, k)
    ensures Untouched(Origin(t), t.now, classes, k)
  {
    if t.Then? {
      TurnsTouchTheirGroups(t.before, classes, disks, k - 1);
      UntouchedStep(t, classes, disks, k);
    }
  }

  /** What a turn does to the names of the successes. */
  ghost predicate Renames(a: Snap, b: Snap, c: DeviceClass) {
    && SameBut(a.suc, b.suc, c.vgName)
    && (c.vgName in b.suc ==> b.suc[c.vgName].name == if c.vgName in a.suc then a.suc[c.vgName].name else c.className)
  }

  ghost predicate NameTurns(t: Trace, classes: seq<DeviceClass>, k: nat) {
    match t
    case From(_) => k == 0
    case Then(before, now) =>
      0 < k <= |classes| && NameTurns(before, classes, k - 1) && Renames(before.now, now, classes[k - 1])
  }

  lemma {:induction false} TurnsRename(t: Trace, classes: seq<DeviceClass>, disks: set<string>, k: nat)
    requires Turns(t, classes, disks, k)
    ensures NameTurns(t, classes, k)
  {
    if t.Then? { TurnsRename(t.before, classes, disks, k - 1); }
  }

  lemma NamesStep(suc: Classes, a: Snap, b: Snap, class_: DeviceClass, sucVgs: seq<DeviceClass>)
    requires NamesFrom(suc, a.suc, sucVgs) && Renames(a, b, class_)
    ensures NamesFrom(suc, b.suc, if Added(a, b, class_) then sucVgs + [class_] else sucVgs)
  {
    var more := if Added(a, b, class_) then sucVgs + [class_] else sucVgs;
    forall v | v in b.suc ensures (v in suc && b.suc[v].name == suc[v].name) || Bears(more, v, b.suc[v].name) {
      if v == class_.vgName && v !in a.suc {
        assert class_ in more;
      } else if Bears(sucVgs, v, b.suc[v].name) {
        var d :| d in sucVgs && d.vgName == v && d.className == b.suc[v].name;
        assert d in more;
      }
    }
  }

  lemma {:induction false} TurnsName(t: Trace, classes: seq<DeviceClass>, k: nat)
    requires k <= |classes| && NameTurns(t, classes, k)
    ensures NamesFrom(Origin(t).suc, t.now.suc, Picked(t, classes, k))
  {
    if t.Then? {
      TurnsName(t.before, classes, k - 1);
      NamesStep(Origin(t).suc, t.before.now, t.now, classes[k - 1], Picked(t.before, classes, k - 1));
    }
  }

  ghost predicate AllQuiet(a: Snap, classes: seq<DeviceClass>, disks: set<string>, k: nat)
    requires k <= |classes|
  {
    forall j :: 0 <= j < k ==> Quiet(a, classes[j], disks)
  }

  /** If no query fails, commands that could change LVM are issued exactly when something can be
      done about one of the first `k` classes. */
  ghost predicate Useful(a: Snap, b: Snap, classes: seq<DeviceClass>, disks: set<string>, k: nat)
    requires k <= |classes|
  {
    Answered(a, b) ==> (Idle(a, b) <==> AllQuiet(a, classes, disks, k))
  }

  lemma UsefulStep(a: Snap, b: Snap, c: Snap, classes: seq<DeviceClass>, disks: set<string>, k: nat)
    requires 0 < k <= |classes| && Grows(a.tally, b.tally) && Turn(b, c, classes[k - 1], disks)
    requires Useful(a, b, classes, disks, k - 1)
    requires Idle(a, b) ==> b.machine == a.machine && b.suc.Keys == a.suc.Keys
    ensures Useful(a, c, classes, disks, k)
    ensures Idle(a, c) ==> c.machine == a.machine && c.suc.Keys == a.suc.Keys
  {
    if Idle(a, b) { assert Quiet(b, classes[k - 1], disks) <==> Quiet(a, classes[k - 1], disks); }
    if Idle(a, c) { IdleKeepsKeys(b, c, classes[k - 1], disks); }
  }

  lemma IdleKeepsKeys(a: Snap, b: Snap, c: DeviceClass, disks: set<string>)
    requires Turn(a, b, c, disks) && Idle(a, b)
    ensures b.machine == a.machine && b.suc.Keys == a.suc.Keys
  {
    assert c.devices != [] ==> c.devices[0] in Elems(c.devices);
  }

  /** Turns of any spec are useful, and without commands they leave the machine and the groups of
      the successes alone. */
  lemma {:induction false} TurnsAreUseful(t: Trace, classes: seq<DeviceClass>, disks: set<string>, k: nat)
    requires k <= |classes| && Turns(t, classes, disks, k) && Filed(Origin(t).suc)
    ensures Useful(Origin(t), t.now, classes, disks, k)
    ensures Idle(Origin(t), t.now) ==> t.now.machine == Origin(t).machine && t.now.suc.Keys == Origin(t).suc.Keys
  {
    if t.Then? {
      TurnsAreUseful(t.before, classes, disks, k - 1);
      TurnsAreSteady(t.before, classes, disks, k - 1);
      UsefulStep(Origin(t), t.before.now, t.now, classes, disks, k);
    }
  }

  ghost predicate AllInPlace(a: Snap, classes: seq<DeviceClass>) {
    forall k :: 0 <= k < |classes| ==> InPlace(a, classes[k])
  }

  lemma {:induction false} TurnsKeepApart(t: Trace, classes: seq<DeviceClass>, disks: set<string>, k: nat)
    requires Turns(t, classes, disks, k) && Origin(t).suc.Keys !! Origin(t).fail.Keys
    ensures t.now.suc.Keys !! t.now.fail.Keys
  {
    if t.Then? { TurnsKeepApart(t.before, classes, disks, k - 1); }
  }

  lemma {:induction false} TurnsInPlace(t: Trace, classes: seq<DeviceClass>, disks: set<string>, k: nat)
    requires Turns(t, classes, disks, k) && AllInPlace(Origin(t), classes)
    ensures Same(Origin(t), t.now) && Idle(Origin(t), t.now) && (k <= |classes| ==> Picked(t, classes, k) == [])
  {
    if t.Then? {
      TurnsInPlace(t.before, classes, disks, k - 1);
      assert InPlace(Origin(t), classes[k - 1]);
    }
  }

  /******* The turns of a pass over distinct groups *******/

  /** Each of the first `k` classes is filed, unless its group was removed. */
  ghost predicate Reached(a: Snap, b: Snap, classes: seq<DeviceClass>, k: nat)
    requires k <= |classes|
  {
    forall j :: 0 <= j < k ==>
      var v := classes[j].vgName; v in b.suc || v in b.fail || (v in a.suc && PvsOf(b.machine, v) == {})
  }

  /** Each successful one of the first `k` has just its devices, as far as it could converge. */
  ghost predicate Arrived(a: Snap, b: Snap, classes: seq<DeviceClass>, k: nat)
    requires k <= |classes|
  {
    forall j :: 0 <= j < k && classes[j].vgName in b.suc
                && (classes[j].vgName in a.suc ==> Converged(a.machine, classes[j], NoFault(a, b))) ==>
      PvsOf(b.machine, classes[j].vgName) == Elems(classes[j].devices)
  }

  /** Classes of before keep their name, and those collected are new successes. */
  ghost predicate Renewed(suc: Classes, suc': Classes, sucVgs: seq<DeviceClass>) {
    && (forall v :: v in suc && v in suc' ==> suc'[v].name == suc[v].name)
    && (forall d :: d in sucVgs ==> d.vgName in suc' && d.vgName !in suc && suc'[d.vgName].name == d.className)
  }

  /** Classes of the spec, no two of the same group. */
  ghost predicate Chosen(classes: seq<DeviceClass>, sucVgs: seq<DeviceClass>) {
    (forall d :: d in sucVgs ==> d in classes) && DistinctVgs(sucVgs)
  }

  /** The new successes are exactly those collected. */
  ghost predicate Became(suc: Classes, suc': Classes, classes: seq<DeviceClass>, sucVgs: seq<DeviceClass>) {
    NamesFrom(suc, suc', sucVgs) && Renewed(suc, suc', sucVgs) && Chosen(classes, sucVgs)
  }

  lemma GroupsOf(list: seq<DeviceClass>, d: DeviceClass)
    ensures Groups(list + [d]) == Groups(list) + {d.vgName}
    ensures DistinctVgs(list) && d.vgName !in Groups(list) ==> DistinctVgs(list + [d])
  {
    assert d in list + [d];
    assert forall i :: 0 <= i < |list| ==> list[i] in list;
  }

  lemma ChosenStep(classes: seq<DeviceClass>, k: nat, sucVgs: seq<DeviceClass>)
    requires k < |classes| && DistinctVgs(classes) && Chosen(classes[..k], sucVgs)
    ensures classes[k].vgName !in Groups(sucVgs)
    ensures Chosen(classes[..k + 1], sucVgs) && Chosen(classes[..k + 1], sucVgs + [classes[k]])
  {
    GroupsSnoc(classes, k);
    assert classes[..k + 1] == classes[..k] + [classes[k]];
    assert forall d :: d in sucVgs ==> d.vgName in Groups(classes[..k]);
    GroupsOf(sucVgs, classes[k]);
  }

  /** Before its turn, a class's group is as it was at the start. */
  lemma AtItsTurn(t: Trace, classes: seq<DeviceClass>, disks: set<string>, k: nat)
    requires t.Then? && k <= |classes| && Turns(t, classes, disks, k) && DistinctVgs(classes)
    ensures Unchanged(Origin(t), t.before.now, classes[k - 1].vgName)
  {
    TurnsTouchTheirGroups(t.before, classes, disks, k - 1);
    GroupsSnoc(classes, k - 1);
  }

  lemma ReachedStep(t: Trace, classes: seq<DeviceClass>, disks: set<string>, k: nat)
    requires t.Then? && k <= |classes| && Turns(t, classes, disks, k) && DistinctVgs(classes) && Filed(Origin(t).suc)
    requires Reached(Origin(t), t.before.now, classes, k - 1)
    ensures Reached(Origin(t), t.now, classes, k)
  {
    AtItsTurn(t, classes, disks, k);
    TurnsAreSteady(t.before, classes, disks, k - 1);
    forall j | 0 <= j < k - 1
      ensures var v := classes[j].vgName;
              v in t.now.suc || v in t.now.fail || (v in Origin(t).suc && PvsOf(t.now.machine, v) == {})
    {
      assert classes[j].vgName != classes[k - 1].vgName;
    }
  }

  lemma {:induction false} TurnsReach(t: Trace, classes: seq<DeviceClass>, disks: set<string>, k: nat)
    requires k <= |classes| && Turns(t, classes, disks, k) && DistinctVgs(classes) && Filed(Origin(t).suc)
    ensures Reached(Origin(t), t.now, classes, k)
  {
    if t.Then? {
      TurnsReach(t.before, classes, disks, k - 1);
      ReachedStep(t, classes, disks, k);
    }
  }

  lemma ArrivedStep(t: Trace, classes: seq<DeviceClass>, disks: set<string>, k: nat)
    requires t.Then? && k <= |classes| && Turns(t, classes, disks, k) && DistinctVgs(classes) && Filed(Origin(t).suc)
    requires Arrived(Origin(t), t.before.now, classes, k - 1)
    ensures Arrived(Origin(t), t.now, classes, k)
  {
    var a, b, c := Origin(t), t.before.now, t.now;
    AtItsTurn(t, classes, disks, k);
    TurnsAreSteady(t.before, classes, disks, k - 1);
    assert forall p :: PvHasLv(b.machine, p) <==> PvHasLv(a.machine, p);
    forall j | 0 <= j < k - 1 && classes[j].vgName in c.suc
               && (classes[j].vgName in a.suc ==> Converged(a.machine, classes[j], NoFault(a, c)))
      ensures PvsOf(c.machine, classes[j].vgName) == Elems(classes[j].devices)
    {
      assert classes[j].vgName != classes[k - 1].vgName;
    }
  }

  lemma {:induction false} TurnsArrive(t: Trace, classes: seq<DeviceClass>, disks: set<string>, k: nat)
    requires k <= |classes| && Turns(t, classes, disks, k) && DistinctVgs(classes) && Filed(Origin(t).suc)
    ensures Arrived(Origin(t), t.now, classes, k)
  {
    if t.Then? {
      TurnsArrive(t.before, classes, disks, k - 1);
      ArrivedStep(t, classes, disks, k);
    }
  }

  lemma {:induction false} TurnsChoose(t: Trace, classes: seq<DeviceClass>, k: nat)
    requires k <= |classes| && DistinctVgs(classes)
    ensures Chosen(classes[..k], Picked(t, classes, k))
    ensures k < |classes| ==> classes[k].vgName !in Groups(Picked(t, classes, k))
  {
    if t.Then? && k > 0 {
      TurnsChoose(t.before, classes, k - 1);
      ChosenStep(classes, k - 1, Picked(t.before, classes, k - 1));
    }
    if k < |classes| { ChosenStep(classes, k, Picked(t, classes, k)); }
  }

  lemma RenewedStep(suc: Classes, a: Snap, b: Snap, c: DeviceClass, sucVgs: seq<DeviceClass>)
    requires Renewed(suc, a.suc, sucVgs) && Renames(a, b, c) && c.vgName !in Groups(sucVgs)
    requires (c.vgName in suc <==> c.vgName in a.suc) && (c.vgName in suc ==> suc[c.vgName] == a.suc[c.vgName])
    ensures Renewed(suc, b.suc, if Added(a, b, c) then sucVgs + [c] else sucVgs)
  {
    if Added(a, b, c) { GroupsOf(sucVgs, c); }
  }

  /** The successes of the groups that no class so far has are as they were. */
  lemma {:induction false} NamesStay(t: Trace, classes: seq<DeviceClass>, k: nat, v: string)
    requires k <= |classes| && NameTurns(t, classes, k) && v !in Groups(classes[..k])
    ensures (v in Origin(t).suc <==> v in t.now.suc) && (v in t.now.suc ==> Origin(t).suc[v] == t.now.suc[v])
  {
    if t.Then? {
      GroupsSnoc(classes, k - 1);
      NamesStay(t.before, classes, k - 1, v);
    }
  }

  lemma {:induction false} TurnsRenew(t: Trace, classes: seq<DeviceClass>, k: nat)
    requires k <= |classes| && NameTurns(t, classes, k) && DistinctVgs(classes)
    ensures Renewed(Origin(t).suc, t.now.suc, Picked(t, classes, k))
  {
    if t.Then? {
      TurnsRenew(t.before, classes, k - 1);
      TurnsChoose(t.before, classes, k - 1);
      GroupsSnoc(classes, k - 1);
      NamesStay(t.before, classes, k - 1, classes[k - 1].vgName);
      RenewedStep(Origin(t).suc, t.before.now, t.now, classes[k - 1], Picked(t.before, classes, k - 1));
    }
  }

  /******* A whole pass *******/

  /** A group that cannot be removed: it holds a logical volume, or no longer exists. */
  ghost predicate Unremovable(m: Machine, vg: string) { VgHasLv(m, vg) || !VgExists(m, vg) }

  ghost predicate RestUnremovable(a: Snap, classes: seq<DeviceClass>) {
    forall v :: v in a.suc && v !in Groups(classes) ==> Unremovable(a.machine, v)
  }

  ghost predicate RestForgotten(a: Snap, b: Snap, classes: seq<DeviceClass>) {
    forall v :: v in a.suc && v !in Groups(classes) ==> Forgotten(a.machine, b.machine, v, NoFault(a, b))
  }

  ghost predicate RestKept(a: Snap, b: Snap, classes: seq<DeviceClass>) {
    forall v :: v != "" && v !in a.suc && v !in Groups(classes) ==> PvsOf(b.machine, v) == PvsOf(a.machine, v)
  }

  /** The maps of `a` cut down to the groups of the spec, whose physical volumes stay; of the
      other successes, what can be removed is. */
  ghost predicate Cleared(a: Snap, b: Snap, classes: seq<DeviceClass>) {
    && Grows(a.tally, b.tally) && b.machine.lvs == a.machine.lvs
    && b.suc == (map v | v in a.suc && v in Groups(classes) :: a.suc[v])
    && b.fail == (map v | v in a.fail && v in Groups(classes) :: a.fail[v])
    && (forall v :: v != "" && (v in Groups(classes) || v !in a.suc) ==> PvsOf(b.machine, v) == PvsOf(a.machine, v))
    && RestForgotten(a, b, classes)
    && (Idle(a, b) ==> b.machine == a.machine)
    && (Answered(a, b) ==> (Idle(a, b) <==> RestUnremovable(a, classes)))
    && (a.suc.Keys <= Groups(classes) ==> b.machine == a.machine && b.tally == a.tally)
  }

  /** One success is looked at: in the spec it stays, else it is forgotten. */
  ghost predicate DeletedOne(a: Snap, b: Snap, classes: seq<DeviceClass>, key: string) {
    && Grows(a.tally, b.tally) && b.machine.lvs == a.machine.lvs && OthersKept(a.machine, b.machine, key)
    && if key in Groups(classes) then b == a
       else
         && b.suc == a.suc - {key} && b.fail == a.fail && Forgotten(a.machine, b.machine, key, NoFault(a, b))
         && (Idle(a, b) ==> b.machine == a.machine)
         && (Answered(a, b) ==> (Idle(a, b) <==> Unremovable(a.machine, key)))
  }

  /** The successes outside the spec and outside `todo`. */
  function Dropped(a: Snap, classes: seq<DeviceClass>, todo: set<string>): set<string> {
    a.suc.Keys - todo - Groups(classes)
  }

  /** Partway through the deletions: `todo` are the groups still to look at. */
  ghost predicate Deleting(a: Snap, b: Snap, classes: seq<DeviceClass>, todo: set<string>) {
    && Grows(a.tally, b.tally) && b.machine.lvs == a.machine.lvs && b.fail == a.fail
    && b.suc == a.suc - Dropped(a, classes, todo)
    && (forall v :: v != "" && v !in Dropped(a, classes, todo) ==> PvsOf(b.machine, v) == PvsOf(a.machine, v))
    && (forall v :: v in Dropped(a, classes, todo) ==> Forgotten(a.machine, b.machine, v, NoFault(a, b)))
    && (Idle(a, b) ==> b.machine == a.machine)
    && (Answered(a, b) ==> (Idle(a, b) <==> forall v :: v in Dropped(a, classes, todo) ==> Unremovable(a.machine, v)))
    && (Dropped(a, classes, todo) == {} ==> b.machine == a.machine && b.tally == a.tally)
  }

  lemma DeletingStart(a: Snap, classes: seq<DeviceClass>)
    ensures Deleting(a, a, classes, a.suc.Keys)
  {
    assert Dropped(a, classes, a.suc.Keys) == {};
    assert a.suc - {} == a.suc;
  }

  lemma DeletingStep(a: Snap, b: Snap, c: Snap, classes: seq<DeviceClass>, todo: set<string>, key: string)
    requires Filed(a.suc) && key in todo && todo <= a.suc.Keys && Deleting(a, b, classes, todo)
    requires DeletedOne(b, c, classes, key)
    ensures Deleting(a, c, classes, todo - {key})
  {
    var was, now := Dropped(a, classes, todo), Dropped(a, classes, todo - {key});
    if key in Groups(classes) {
      assert now == was;
    } else {
      assert now == was + {key} && key !in was;
      assert a.suc - now == (a.suc - was) - {key};
      assert VgHasLv(b.machine, key) <==> VgHasLv(a.machine, key);
      assert PvsOf(b.machine, key) == PvsOf(a.machine, key);
      forall v | v in was ensures Forgotten(a.machine, c.machine, v, NoFault(a, c)) {
        assert PvsOf(c.machine, v) == PvsOf(b.machine, v);
      }
    }
  }

  lemma DeletedIsCleared(a: Snap, b: Snap, c: Snap, classes: seq<DeviceClass>)
    requires Filed(a.suc) && Deleting(a, b, classes, {}) && c == b.(fail := c.fail)
    requires c.fail == map v | v in a.fail && v in Groups(classes) :: a.fail[v]
    ensures Cleared(a, c, classes)
  {
    assert Dropped(a, classes, {}) == a.suc.Keys - Groups(classes);
    assert forall v :: v in a.suc && v !in Groups(classes) <==> v in Dropped(a, classes, {});
  }

  /** Nothing is left to do: every class is a success, its group holds just its devices, and no
      class outside the spec is remembered. */
  ghost predicate Settled(a: Snap, classes: seq<DeviceClass>) {
    AllInPlace(a, classes) && a.suc.Keys + a.fail.Keys <= Groups(classes)
  }

  /** Nothing can be done: not about a class of the spec, nor about one that left it. */
  ghost predicate NothingToDo(a: Snap, classes: seq<DeviceClass>, disks: set<string>) {
    AllQuiet(a, classes, disks, |classes|) && RestUnremovable(a, classes)
  }

  /** What a pass achieves on any spec: no logical volume goes, online devices stay in their
      groups unless a command is left half done, every success has an old name or that of a class
      that became successful, what left the spec is forgotten, foreign groups stay, and the two
      maps stay disjoint; if no query fails, commands that could change LVM are issued exactly when
      something can be done; and a settled node stays as it is. */
  ghost predicate Ran(a: Snap, b: Snap, classes: seq<DeviceClass>, disks: set<string>, sucVgs: seq<DeviceClass>) {
    && Steady(a, b) && NamesFrom(a.suc, b.suc, sucVgs) && (forall d :: d in sucVgs ==> d in classes)
    && b.suc.Keys + b.fail.Keys <= Groups(classes) && RestForgotten(a, b, classes) && RestKept(a, b, classes)
    && (a.suc.Keys !! a.fail.Keys ==> b.suc.Keys !! b.fail.Keys)
    && (Answered(a, b) ==> (Idle(a, b) <==> NothingToDo(a, classes, disks)))
    && (Settled(a, classes) ==> Same(a, b) && Idle(a, b) && sucVgs == [])
  }

  /** What it also achieves on a spec of distinct groups: each class is in one of the maps, unless
      its group was removed; `sucVgs` are the classes that became successful; what could converge
      did. */
  ghost predicate Passed(a: Snap, b: Snap, classes: seq<DeviceClass>, sucVgs: seq<DeviceClass>) {
    Reached(a, b, classes, |classes|) && Became(a.suc, b.suc, classes, sucVgs) && Arrived(a, b, classes, |classes|)
  }

  lemma GroupsHave(classes: seq<DeviceClass>, k: nat)
    requires k < |classes|
    ensures classes[k].vgName in Groups(classes)
  {
  }

  lemma RestSinceStart(a: Snap, b: Snap, c: Snap, classes: seq<DeviceClass>)
    requires Filed(a.suc) && Untouched(a, b, classes, |classes|) && Steady(a, b) && Cleared(b, c, classes)
    ensures RestForgotten(a, c, classes) && RestKept(a, c, classes)
    ensures b.machine == a.machine ==> (RestUnremovable(b, classes) <==> RestUnremovable(a, classes))
  {
    assert classes[..|classes|] == classes;
    forall v | v in a.suc && v !in Groups(classes) ensures Forgotten(a.machine, c.machine, v, NoFault(a, c)) {
      assert Unchanged(a, b, v);
      assert VgHasLv(b.machine, v) <==> VgHasLv(a.machine, v);
    }
    forall v | v !in Groups(classes)
      ensures v in a.suc <==> v in b.suc
      ensures v != "" ==> PvsOf(b.machine, v) == PvsOf(a.machine, v)
    {
      assert Unchanged(a, b, v);
    }
  }

  lemma ClearedKeepsOnline(b: Snap, c: Snap, classes: seq<DeviceClass>)
    requires Filed(b.suc) && AllOnline(b.machine, b.suc) && Cleared(b, c, classes)
    ensures AllOnline(c.machine, c.suc)
  {
  }

  lemma ClearedKeepsSteady(a: Snap, b: Snap, c: Snap, classes: seq<DeviceClass>)
    requires Steady(a, b) && Cleared(b, c, classes)
    ensures Steady(a, c)
  {
    if AllOnline(b.machine, b.suc) { ClearedKeepsOnline(b, c, classes); }
  }

  lemma ClearedKeepsNames(suc: Classes, b: Snap, c: Snap, classes: seq<DeviceClass>, sucVgs: seq<DeviceClass>)
    requires NamesFrom(suc, b.suc, sucVgs) && Cleared(b, c, classes)
    ensures NamesFrom(suc, c.suc, sucVgs)
  {
  }

  lemma ClearedIsUseful(a: Snap, b: Snap, c: Snap, classes: seq<DeviceClass>, disks: set<string>)
    requires Filed(a.suc) && Untouched(a, b, classes, |classes|) && Steady(a, b) && Cleared(b, c, classes)
    requires Useful(a, b, classes, disks, |classes|)
    ensures Answered(a, c) ==> (Idle(a, c) <==> NothingToDo(a, classes, disks))
  {
    RestSinceStart(a, b, c, classes);
  }

  lemma SettledStays(t: Trace, c: Snap, classes: seq<DeviceClass>, disks: set<string>)
    requires Turns(t, classes, disks, |classes|) && Cleared(t.now, c, classes) && Settled(Origin(t), classes)
    ensures Same(Origin(t), c) && Idle(Origin(t), c) && Picked(t, classes, |classes|) == []
  {
    TurnsInPlace(t, classes, disks, |classes|);
    assert c.suc == Origin(t).suc && c.fail == Origin(t).fail;
  }

  lemma {:induction false} PickedAreListed(t: Trace, classes: seq<DeviceClass>, k: nat)
    requires k <= |classes|
    ensures forall d :: d in Picked(t, classes, k) ==> d in classes
  {
    if t.Then? && k > 0 { PickedAreListed(t.before, classes, k - 1); }
  }

  /** The turns of the classes and the deletions make a whole pass. */
  lemma RunsThrough(t: Trace, c: Snap, classes: seq<DeviceClass>, disks: set<string>)
    requires Turns(t, classes, disks, |classes|) && Filed(Origin(t).suc) && Cleared(t.now, c, classes)
    ensures Ran(Origin(t), c, classes, disks, Picked(t, classes, |classes|))
  {
    var a, b, n := Origin(t), t.now, |classes|;
    TurnsAreSteady(t, classes, disks, n);
    ClearedKeepsSteady(a, b, c, classes);
    TurnsTouchTheirGroups(t, classes, disks, n);
    RestSinceStart(a, b, c, classes);
    TurnsRename(t, classes, disks, n);
    TurnsName(t, classes, n);
    ClearedKeepsNames(a.suc, b, c, classes, Picked(t, classes, n));
    PickedAreListed(t, classes, n);
    TurnsAreUseful(t, classes, disks, n);
    ClearedIsUseful(a, b, c, classes, disks);
    if a.suc.Keys !! a.fail.Keys { TurnsKeepApart(t, classes, disks, n); }
    if Settled(a, classes) { SettledStays(t, c, classes, disks); }
  }

  lemma ClearedKeepsReached(a: Snap, b: Snap, c: Snap, classes: seq<DeviceClass>)
    requires Filed(a.suc) && Reached(a, b, classes, |classes|) && Cleared(b, c, classes)
    ensures Reached(a, c, classes, |classes|)
  {
    forall k | 0 <= k < |classes|
      ensures var v := classes[k].vgName; v in c.suc || v in c.fail || (v in a.suc && PvsOf(c.machine, v) == {})
    {
      GroupsHave(classes, k);
    }
  }

  lemma ClearedKeepsArrived(a: Snap, b: Snap, c: Snap, classes: seq<DeviceClass>)
    requires Filed(b.suc) && Steady(a, b) && Arrived(a, b, classes, |classes|) && Cleared(b, c, classes)
    ensures Arrived(a, c, classes, |classes|)
  {
    forall k | 0 <= k < |classes| && classes[k].vgName in c.suc
               && (classes[k].vgName in a.suc ==> Converged(a.machine, classes[k], NoFault(a, c)))
      ensures PvsOf(c.machine, classes[k].vgName) == Elems(classes[k].devices)
    {
      GroupsHave(classes, k);
    }
  }

  lemma ClearedKeepsNew(suc: Classes, b: Snap, c: Snap, classes: seq<DeviceClass>, sucVgs: seq<DeviceClass>)
    requires Became(suc, b.suc, classes, sucVgs) && Cleared(b, c, classes)
    ensures Became(suc, c.suc, classes, sucVgs)
  {
    assert forall d :: d in sucVgs ==> d.vgName in Groups(classes);
    assert forall v :: v in c.suc ==> v in b.suc && c.suc[v] == b.suc[v];
  }

  /** What they also make of it if no group is listed twice. */
  lemma PassDone(t: Trace, c: Snap, classes: seq<DeviceClass>, disks: set<string>)
    requires Turns(t, classes, disks, |classes|) && DistinctVgs(classes)
    requires Filed(Origin(t).suc) && Cleared(t.now, c, classes)
    ensures Passed(Origin(t), c, classes, Picked(t, classes, |classes|))
  {
    var a, b, n := Origin(t), t.now, |classes|;
    assert classes[..n] == classes;
    TurnsAreSteady(t, classes, disks, n);
    TurnsReach(t, classes, disks, n);
    ClearedKeepsReached(a, b, c, classes);
    TurnsArrive(t, classes, disks, n);
    ClearedKeepsArrived(a, b, c, classes);
    TurnsRename(t, classes, disks, n);
    TurnsName(t, classes, n);
    TurnsRenew(t, classes, n);
    TurnsChoose(t, classes, n);
    ClearedKeepsNew(a.suc, b, c, classes, Picked(t, classes, n));
  }

  /** After a pass without failures in which everything could converge, another pass issues no
      command that could change LVM exactly when every class is a success or lists a device that
      is no available disk. */
  lemma PassSettles(a: Snap, b: Snap, classes: seq<DeviceClass>, disks: set<string>, sucVgs: seq<DeviceClass>,
                    disks': set<string>)
    requires Ran(a, b, classes, disks, sucVgs) && Passed(a, b, classes, sucVgs) && NoFault(a, b)
    requires forall k :: 0 <= k < |classes| && classes[k].vgName in a.suc ==> Converged(a.machine, classes[k], true)
    ensures NothingToDo(b, classes, disks')
            <==> forall k :: 0 <= k < |classes| ==> classes[k].vgName in b.suc || !(Elems(classes[k].devices) <= disks')
    ensures (forall k :: 0 <= k < |classes| ==> classes[k].vgName in b.suc) ==> Settled(b, classes)
  {
    forall k | 0 <= k < |classes|
      ensures Quiet(b, classes[k], disks') <==> classes[k].vgName in b.suc || !(Elems(classes[k].devices) <= disks')
      ensures classes[k].vgName in b.suc ==> InPlace(b, classes[k])
    {
    }
  }

  /******* A pass without failures, foreseen *******/

  /** The successes by group, each with the name of its class, and the classes that became one. */
  datatype Plan = Plan(names: map<string, string>, made: seq<DeviceClass>)

  /** What one class changes: a class of available disks makes its group, and one without devices
      removes it, unless it is one of the `fixed` groups. */
  function After(p: Plan, c: DeviceClass, disks: set<string>, fixed: set<string>): Plan {
    if c.vgName in p.names then
      if c.devices == [] && c.vgName !in fixed then p.(names := p.names - {c.vgName}) else p
    else if Elems(c.devices) <= disks then Plan(p.names[c.vgName := c.className], p.made + [c])
    else p
  }

  /** What the first `k` classes change. */
  function Foreseen(names: map<string, string>, fixed: set<string>, classes: seq<DeviceClass>, disks: set<string>,
                    k: nat): Plan
    requires k <= |classes|
  {
    if k == 0 then Plan(names, [])
    else After(Foreseen(names, fixed, classes, disks, k - 1), classes[k - 1], disks, fixed)
  }

  function NamesOf(suc: Classes): map<string, string> { map v | v in suc :: suc[v].name }

  ghost function Fixed(a: Snap): set<string> { set v | v in a.suc && Unremovable(a.machine, v) }

  /** What a whole pass makes of the successes if no command fails. */
  ghost function Outlook(a: Snap, classes: seq<DeviceClass>, disks: set<string>): Plan {
    var p := Foreseen(NamesOf(a.suc), Fixed(a), classes, disks, |classes|);
    p.(names := map v | v in p.names && v in Groups(classes) :: p.names[v])
  }

  /** Every name under which a class made its group is the name of a success in the end. */
  ghost predicate KeepsNames(p: Plan) { NewNames(p.made) <= p.names.Values }

  ghost predicate AsForeseen(a: Snap, names: map<string, string>, fixed: set<string>) {
    && NamesOf(a.suc) == names && fixed <= names.Keys
    && (forall v :: v in a.suc ==> (v in fixed <==> Unremovable(a.machine, v)))
  }

  ghost predicate AllValid(t: Trace) { Valid(t.now.machine) && (t.Then? ==> AllValid(t.before)) }

  /** What a turn without failures makes of its group. */
  ghost predicate ForeseenTurn(a: Snap, b: Snap, c: DeviceClass, disks: set<string>) {
    var v := c.vgName;
    && b.machine.lvs == a.machine.lvs && OthersKept(a.machine, b.machine, v) && SameBut(a.suc, b.suc, v)
    && (v in b.suc <==> if v in a.suc then c.devices != [] || Unremovable(a.machine, v) else Elems(c.devices) <= disks)
    && (v in b.suc ==>
          && b.suc[v].name == (if v in a.suc then a.suc[v].name else c.className)
          && (Unremovable(b.machine, v) <==> v in a.suc && Unremovable(a.machine, v)))
  }

  lemma NewIsForeseen(a: Snap, b: Snap, c: DeviceClass, disks: set<string>)
    requires Turn(a, b, c, disks) && Valid(a.machine) && NoFault(a, b) && c.vgName !in a.suc
    ensures ForeseenTurn(a, b, c, disks)
  {
    if VgHasLv(a.machine, c.vgName) { HeldGroupExists(a.machine, c.vgName); }
    if c.devices != [] { assert c.devices[0] in Elems(c.devices); }
  }

  lemma OldIsForeseen(a: Snap, b: Snap, c: DeviceClass, disks: set<string>)
    requires Turn(a, b, c, disks) && Valid(a.machine) && Valid(b.machine) && NoFault(a, b) && c.vgName in a.suc
    ensures ForeseenTurn(a, b, c, disks)
  {
    if VgHasLv(a.machine, c.vgName) {
      HeldGroupExists(b.machine, c.vgName);
    } else if VgExists(a.machine, c.vgName) {
      EmptyVgHoldsNothing(a.machine, c.vgName);
      assert Converged(a.machine, c, true);
      if c.devices != [] { assert c.devices[0] in Elems(c.devices); }
    }
  }

  lemma ForeseenNames(a: Snap, b: Snap, c: DeviceClass, disks: set<string>, p: Plan, fixed: set<string>)
    requires SameBut(a.suc, b.suc, c.vgName) && NamesOf(a.suc) == p.names
    requires c.vgName in b.suc <==>
             if c.vgName in a.suc then c.devices != [] || c.vgName in fixed else Elems(c.devices) <= disks
    requires c.vgName in b.suc ==>
               b.suc[c.vgName].name == (if c.vgName in a.suc then a.suc[c.vgName].name else c.className)
    ensures NamesOf(b.suc) == After(p, c, disks, fixed).names
    ensures After(p, c, disks, fixed).made == p.made + (if Added(a, b, c) then [c] else [])
  {
    assert c.vgName in p.names <==> c.vgName in a.suc;
    assert c.vgName in a.suc ==> p.names[c.vgName] == a.suc[c.vgName].name;
    var names := After(p, c, disks, fixed).names;
    forall v ensures v in names <==> v in b.suc {
    }
    forall v | v in b.suc ensures names[v] == b.suc[v].name {
    }
  }

  lemma ForeseenStep(a: Snap, b: Snap, c: DeviceClass, disks: set<string>, p: Plan, fixed: set<string>)
    requires ForeseenTurn(a, b, c, disks) && Filed(a.suc) && AsForeseen(a, p.names, fixed)
    ensures AsForeseen(b, After(p, c, disks, fixed).names, fixed)
    ensures After(p, c, disks, fixed).made == p.made + (if Added(a, b, c) then [c] else [])
  {
    ForeseenNames(a, b, c, disks, p, fixed);
    forall v | v in b.suc ensures v in fixed <==> Unremovable(b.machine, v) {
      if v != c.vgName { assert PvsOf(b.machine, v) == PvsOf(a.machine, v); }
    }
  }

  lemma {:induction false} TurnsAsForeseen(t: Trace, classes: seq<DeviceClass>, disks: set<string>, k: nat)
    requires k <= |classes| && Turns(t, classes, disks, k) && AllValid(t)
    requires Filed(Origin(t).suc) && NoFault(Origin(t), t.now)
    ensures var a := Origin(t);
            var p := Foreseen(NamesOf(a.suc), Fixed(a), classes, disks, k);
            AsForeseen(t.now, p.names, Fixed(a)) && Picked(t, classes, k) == p.made
  {
    if t.Then? {
      var a, b, c := Origin(t), t.before.now, classes[k - 1];
      TurnsAreSteady(t.before, classes, disks, k - 1);
      TurnsAsForeseen(t.before, classes, disks, k - 1);
      if c.vgName in b.suc { OldIsForeseen(b, t.now, c, disks); } else { NewIsForeseen(b, t.now, c, disks); }
      ForeseenStep(b, t.now, c, disks, Foreseen(NamesOf(a.suc), Fixed(a), classes, disks, k - 1), Fixed(a));
    }
  }

  /** A whole pass without failures, of any spec and from any state, ends as foreseen. */
  lemma PassAsForeseen(t: Trace, b: Snap, classes: seq<DeviceClass>, disks: set<string>)
    requires Turns(t, classes, disks, |classes|) && AllValid(t) && Cleared(t.now, b, classes)
    requires Filed(Origin(t).suc) && NoFault(Origin(t), b)
    ensures Outlook(Origin(t), classes, disks) == Plan(NamesOf(b.suc), Picked(t, classes, |classes|))
  {
    assert NoFault(Origin(t), t.now) by { TurnsAreSteady(t, classes, disks, |classes|); }
    TurnsAsForeseen(t, classes, disks, |classes|);
  }

  lemma NamesAreValues(suc: Classes)
    ensures NamesOf(suc).Values == ClassNames(suc)
  {
    assert forall v :: v in suc ==> NamesOf(suc)[v] == suc[v].name;
  }

  lemma EmptiedIsGone(t: Trace, b: Snap, c: DeviceClass, disks: set<string>)
    requires Turns(t, [c], disks, 1) && Cleared(t.now, b, [c]) && NoFault(Origin(t), b)
    requires c.devices == [] && c.vgName in Origin(t).suc && Converged(Origin(t).machine, c, true)
    ensures c.vgName !in b.suc && !NothingToDo(b, [c], disks)
  {
    assert t.before.From?;
    EmptyClassIsNeverQuiet(b, c, disks);
    assert [c][0] == c;
  }

  /** A class without devices that is no success is never quiet: each pass asks for a group of
      no devices again. */
  lemma EmptyClassIsNeverQuiet(a: Snap, c: DeviceClass, disks: set<string>)
    requires c.devices == [] && c.vgName !in a.suc
    ensures !Quiet(a, c, disks)
  {
  }

  /******* A first pass *******/

  /** One class's turn in a first pass; `vgs` are the groups found before. */
  ghost predicate FirstTurn(a: Snap, b: Snap, c: DeviceClass, disks: set<string>, vgs: set<string>) {
    var v := c.vgName;
    && Grows(a.tally, b.tally) && b.machine.lvs == a.machine.lvs && OthersKept(a.machine, b.machine, v)
    && if Added(a, b, c) then
         && v != "" && !VgExists(a.machine, v) && v !in vgs && c.devices != []
         && PvsOf(b.machine, v) == Elems(c.devices) <= disks
         && b.suc == a.suc[v := Created(c)] && b.fail == a.fail
       else
         && (v != "" ==> PvsOf(b.machine, v) == PvsOf(a.machine, v))
         && b.suc == a.suc && v in b.fail && b.fail == a.fail[v := b.fail[v]]
         && (b.fail[v].vgName == v || (v in vgs && b.fail[v].vgName == ""))
         && (NoFault(a, b) ==> v in vgs || !(Elems(c.devices) <= disks))
  }

  ghost predicate FirstTurns(t: Trace, classes: seq<DeviceClass>, disks: set<string>, vgs: set<string>, k: nat) {
    match t
    case From(_) => k == 0
    case Then(before, now) =>
      && 0 < k <= |classes| && FirstTurns(before, classes, disks, vgs, k - 1)
      && FirstTurn(before.now, now, classes[k - 1], disks, vgs)
  }

  /** A failed class names its own group, or none. */
  ghost predicate FailsNamed(fail: Classes) {
    forall v :: v in fail ==> fail[v].vgName == v || fail[v].vgName == ""
  }

  /** Every success has a group. */
  ghost predicate Standing(m: Machine, suc: Classes) { forall v :: v in suc ==> VgExists(m, v) }

  /** Groups that existed before keep their physical volumes and are no successes. */
  ghost predicate OldKept(m: Machine, m': Machine, suc: Classes) {
    forall v :: VgExists(m, v) ==> PvsOf(m', v) == PvsOf(m, v) && v !in suc
  }

  /** What a first pass keeps, whatever the spec. */
  ghost predicate FirstSteady(a: Snap, b: Snap) {
    && Grows(a.tally, b.tally) && b.machine.lvs == a.machine.lvs && Filed(b.suc) && FailsNamed(b.fail)
    && Standing(b.machine, b.suc) && AllOnline(b.machine, b.suc) && OldKept(a.machine, b.machine, b.suc)
  }

  lemma FirstSteadyStep(t: Trace, classes: seq<DeviceClass>, disks: set<string>, vgs: set<string>, k: nat)
    requires t.Then? && FirstTurns(t, classes, disks, vgs, k) && FirstSteady(Origin(t), t.before.now)
    ensures FirstSteady(Origin(t), t.now)
  {
    var a, b, c := t.before.now, t.now, classes[k - 1];
    CreatedIsOnline(b.machine, c);
    forall v | v in b.suc ensures VgExists(b.machine, v) && OnlineIn(b.machine, v, b.suc[v]) {
      if v != c.vgName {
        assert PvsOf(b.machine, v) == PvsOf(a.machine, v) && OnlineIn(a.machine, v, a.suc[v]);
      } else if Added(a, b, c) {
        assert c.devices[0] in PvsOf(b.machine, v);
      }
    }
    forall v | VgExists(Origin(t).machine, v)
      ensures PvsOf(b.machine, v) == PvsOf(Origin(t).machine, v) && v !in b.suc
    {
      assert PvsOf(a.machine, v) == PvsOf(Origin(t).machine, v);
    }
  }

  lemma {:induction false} FirstTurnsAreSteady(t: Trace, classes: seq<DeviceClass>, disks: set<string>,
      vgs: set<string>, k: nat)
    requires FirstTurns(t, classes, disks, vgs, k) && Origin(t).suc == map[] && Origin(t).fail == map[]
    ensures FirstSteady(Origin(t), t.now)
  {
    if t.Then? {
      FirstTurnsAreSteady(t.before, classes, disks, vgs, k - 1);
      FirstSteadyStep(t, classes, disks, vgs, k);
    }
  }

  lemma FirstNamesStep(a: Snap, b: Snap, c: DeviceClass, sucVgs: seq<DeviceClass>, disks: set<string>, vgs: set<string>)
    requires FirstTurn(a, b, c, disks, vgs) && Became(map[], a.suc, sucVgs, sucVgs)
    ensures var more := if Added(a, b, c) then sucVgs + [c] else sucVgs; Became(map[], b.suc, more, more)
  {
    var more := if Added(a, b, c) then sucVgs + [c] else sucVgs;
    if Added(a, b, c) {
      assert c.vgName !in Groups(sucVgs);
      GroupsOf(sucVgs, c);
    }
    forall v | v in b.suc ensures Bears(more, v, b.suc[v].name) {
      if v == c.vgName && Added(a, b, c) {
        assert c in more;
      } else {
        var d :| d in sucVgs && d.vgName == v && d.className == a.suc[v].name;
        assert d in more;
      }
    }
  }

  /** The successes of a first pass are exactly those collected, whatever the spec. */
  lemma {:induction false} FirstTurnsName(t: Trace, classes: seq<DeviceClass>, disks: set<string>, vgs: set<string>,
      k: nat)
    requires k <= |classes| && FirstTurns(t, classes, disks, vgs, k) && Origin(t).suc == map[]
    ensures var picked := Picked(t, classes, k); Became(map[], t.now.suc, picked, picked)
  {
    if t.Then? {
      FirstTurnsName(t.before, classes, disks, vgs, k - 1);
      FirstNamesStep(t.before.now, t.now, classes[k - 1], Picked(t.before, classes, k - 1), disks, vgs);
    }
  }

  /** No group that became a success is listed twice. */
  ghost predicate MadeOnce(classes: seq<DeviceClass>, suc: Classes) {
    forall i, j :: 0 <= i < j < |classes| && classes[i].vgName == classes[j].vgName ==> classes[i].vgName !in suc
  }

  /** The failures of groups that did not exist before carry their group's name. */
  ghost predicate NewFailsKeyed(fail: Classes, vgs: set<string>) {
    forall v :: v in fail && v !in vgs ==> fail[v].vgName == v
  }

  lemma FilesOne(a: Snap, b: Snap, c: DeviceClass, disks: set<string>, vgs: set<string>)
    requires FirstTurn(a, b, c, disks, vgs) && NewFailsKeyed(a.fail, vgs) && a.suc.Keys !! vgs
    ensures b.suc.Keys + b.fail.Keys == a.suc.Keys + a.fail.Keys + {c.vgName}
    ensures b.suc.Keys !! b.fail.Keys <==>
            a.suc.Keys !! a.fail.Keys && (c.vgName in a.suc.Keys + a.fail.Keys ==> c.vgName !in b.suc)
    ensures NewFailsKeyed(b.fail, vgs) && b.suc.Keys !! vgs
    ensures a.suc.Keys <= b.suc.Keys <= a.suc.Keys + {c.vgName}
  {
  }

  lemma MadeOnceStep(classes: seq<DeviceClass>, k: nat, was: Classes, suc: Classes)
    requires k < |classes| && was.Keys <= suc.Keys <= was.Keys + {classes[k].vgName}
    ensures MadeOnce(classes[..k + 1], suc) <==>
            MadeOnce(classes[..k], was) && (classes[k].vgName in Groups(classes[..k]) ==> classes[k].vgName !in suc)
  {
    var v, front, more := classes[k].vgName, classes[..k], classes[..k + 1];
    assert forall i :: 0 <= i < k ==> more[i] == front[i];
    assert more[k] == classes[k];
    if v in Groups(front) && v in suc {
      var i :| 0 <= i < k && front[i].vgName == v;
      assert more[i].vgName == more[k].vgName;
    } else {
      assert forall i :: 0 <= i < k && front[i].vgName == v ==> front[i].vgName in Groups(front);
    }
  }

  /** Exactly these classes are filed, and each group once unless one of those that became a
      success is listed twice. */
  ghost predicate FirstFiled(b: Snap, classes: seq<DeviceClass>, vgs: set<string>) {
    && b.suc.Keys + b.fail.Keys == Groups(classes)
    && (b.suc.Keys !! b.fail.Keys <==> MadeOnce(classes, b.suc))
    && NewFailsKeyed(b.fail, vgs) && b.suc.Keys !! vgs
  }

  lemma FiledStep(a: Snap, b: Snap, classes: seq<DeviceClass>, disks: set<string>, vgs: set<string>, k: nat)
    requires k < |classes| && FirstTurn(a, b, classes[k], disks, vgs) && FirstFiled(a, classes[..k], vgs)
    ensures FirstFiled(b, classes[..k + 1], vgs)
  {
    GroupsSnoc(classes, k);
    FilesOne(a, b, classes[k], disks, vgs);
    MadeOnceStep(classes, k, a.suc, b.suc);
  }

  lemma NothingFiled(a: Snap, vgs: set<string>)
    requires a.suc == map[] && a.fail == map[]
    ensures FirstFiled(a, [], vgs)
  {
  }

  lemma {:induction false} FirstTurnsFile(t: Trace, classes: seq<DeviceClass>, disks: set<string>, vgs: set<string>,
      k: nat)
    requires k <= |classes| && FirstTurns(t, classes, disks, vgs, k) && Origin(t).suc == map[]
             && Origin(t).fail == map[]
    ensures FirstFiled(t.now, classes[..k], vgs)
  {
    if t.From? {
      NothingFiled(t.now, vgs);
      assert classes[..k] == [];
    } else {
      FirstTurnsFile(t.before, classes, disks, vgs, k - 1);
      FiledStep(t.before.now, t.now, classes, disks, vgs, k - 1);
    }
  }

  /** A success has just its devices, which were available disks, and no group among `vgs`; a
      class that meets this only misses out if a command failed. */
  ghost predicate MadeOne(a: Snap, b: Snap, c: DeviceClass, disks: set<string>, vgs: set<string>) {
    if c.vgName in b.suc then
      PvsOf(b.machine, c.vgName) == Elems(c.devices) <= disks && c.vgName !in vgs
    else
      NoFault(a, b) ==> c.vgName in vgs || !(Elems(c.devices) <= disks)
  }

  ghost predicate Made(a: Snap, b: Snap, classes: seq<DeviceClass>, disks: set<string>, vgs: set<string>, k: nat)
    requires k <= |classes|
  {
    forall j :: 0 <= j < k ==> MadeOne(a, b, classes[j], disks, vgs)
  }

  lemma MadeStep(t: Trace, classes: seq<DeviceClass>, disks: set<string>, vgs: set<string>, k: nat)
    requires t.Then? && k <= |classes| && FirstTurns(t, classes, disks, vgs, k) && DistinctVgs(classes)
    requires Grows(Origin(t).tally, t.before.now.tally) && Filed(t.before.now.suc)
    requires Made(Origin(t), t.before.now, classes, disks, vgs, k - 1)
    requires classes[k - 1].vgName !in t.before.now.suc
    ensures Made(Origin(t), t.now, classes, disks, vgs, k)
  {
    forall j | 0 <= j < k - 1 ensures MadeOne(Origin(t), t.now, classes[j], disks, vgs) {
      assert MadeOne(Origin(t), t.before.now, classes[j], disks, vgs) && classes[j].vgName != classes[k - 1].vgName;
    }
  }

  lemma {:induction false} FirstTurnsMake(t: Trace, classes: seq<DeviceClass>, disks: set<string>, vgs: set<string>,
      k: nat)
    requires k <= |classes| && FirstTurns(t, classes, disks, vgs, k) && DistinctVgs(classes)
    requires Origin(t).suc == map[] && Origin(t).fail == map[]
    ensures Made(Origin(t), t.now, classes, disks, vgs, k)
  {
    if t.Then? {
      FirstTurnsMake(t.before, classes, disks, vgs, k - 1);
      FirstTurnsAreSteady(t.before, classes, disks, vgs, k - 1);
      FirstTurnsFile(t.before, classes, disks, vgs, k - 1);
      GroupsSnoc(classes, k - 1);
      MadeStep(t, classes, disks, vgs, k);
    }
  }

  lemma {:induction false} PickedWereAvailable(t: Trace, classes: seq<DeviceClass>, disks: set<string>,
      vgs: set<string>, k: nat)
    requires k <= |classes| && FirstTurns(t, classes, disks, vgs, k)
    ensures forall d :: d in Picked(t, classes, k) ==> Elems(d.devices) <= disks
  {
    if t.Then? { PickedWereAvailable(t.before, classes, disks, vgs, k - 1); }
  }

  /** What a first pass achieves, whatever the spec: no logical volume goes, existing groups stay,
      the successes are online and exactly those collected, of available disks; all classes are
      filed, each group once unless a success is listed twice. */
  ghost predicate FirstRan(a: Snap, b: Snap, classes: seq<DeviceClass>, disks: set<string>, sucVgs: seq<DeviceClass>) {
    && FirstSteady(a, b) && Became(a.suc, b.suc, sucVgs, sucVgs)
    && (forall d :: d in sucVgs ==> d in classes && Elems(d.devices) <= disks)
    && b.suc.Keys + b.fail.Keys == Groups(classes)
    && (b.suc.Keys !! b.fail.Keys <==> MadeOnce(classes, b.suc))
    && (forall v :: v in b.suc && v in b.fail ==> b.fail[v].vgName == v)
  }

  /** On a spec of distinct groups it also makes what it can. */
  lemma FirstPassDone(t: Trace, classes: seq<DeviceClass>, disks: set<string>, vgs: set<string>)
    requires FirstTurns(t, classes, disks, vgs, |classes|) && Origin(t).suc == map[] && Origin(t).fail == map[]
    ensures FirstRan(Origin(t), t.now, classes, disks, Picked(t, classes, |classes|))
    ensures DistinctVgs(classes) ==> Made(Origin(t), t.now, classes, disks, vgs, |classes|)
  {
    var n := |classes|;
    assert classes[..n] == classes;
    FirstTurnsAreSteady(t, classes, disks, vgs, n);
    FirstTurnsName(t, classes, disks, vgs, n);
    PickedAreListed(t, classes, n);
    PickedWereAvailable(t, classes, disks, vgs, n);
    FirstTurnsFile(t, classes, disks, vgs, n);
    if DistinctVgs(classes) { FirstTurnsMake(t, classes, disks, vgs, n); }
  }
}
