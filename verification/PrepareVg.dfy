// The volume-group reconciler of one node: it drives LVM towards the classes of the spec and
// keeps the maps of successful and failed classes.
module PrepareVg {
  import opened Lvm
  import opened LvmCommands
  import opened VgStatus
  import opened Passes
  import opened Records

  class Reconciler {
    const host: Host
    const classes: seq<DeviceClass>
    var suc: Classes
    var fail: Classes

    constructor (host: Host, classes: seq<DeviceClass>, suc: Classes, fail: Classes)
      ensures this.host == host && this.classes == classes && this.suc == suc && this.fail == fail
    {
      this.host, this.classes, this.suc, this.fail := host, classes, suc, fail;
    }

    ghost function Now(): Snap
      reads this, host
    {
      Snap(host.machine, suc, fail, host.tally)
    }

    predicate InSpec(vg: string) { vg in Groups(classes) }

    method AddState(vg: string, d: DeviceState)
      requires vg in suc
      modifies this`suc
      ensures suc == old(suc)[vg := old(suc)[vg].(devices := old(suc)[vg].devices + [d])]
    {
      suc := suc[vg := suc[vg].(devices := suc[vg].devices + [d])];
    }

    method SetMessage(vg: string, message: string)
      requires vg in suc
      modifies this`suc
      ensures suc == old(suc)[vg := old(suc)[vg].(message := message)]
    {
      suc := suc[vg := suc[vg].(message := message)];
    }

    /** pvcreate for one device of a class; a failure is recorded. */
    method InitPv(vg: string, d: string) returns (ok: bool)
      requires vg in suc && Valid(host.machine)
      modifies this`suc, host
      ensures Valid(host.machine) && host.machine.lvs == old(host.machine.lvs)
      ensures forall v :: v != "" ==> PvsOf(host.machine, v) == PvsOf(old(host.machine), v)
      ensures host.tally.mutations > old(host.tally.mutations)
      ensures host.tally == old(host.tally).(mutations := host.tally.mutations, faults := host.tally.faults)
      ensures host.tally.faults == old(host.tally.faults) + if ok then 0 else 1
      ensures ok ==> suc == old(suc)
      ensures !ok ==> vg in suc && var c, c' := old(suc)[vg], suc[vg];
                      && suc == old(suc)[vg := c'] && |c'.devices| == |c.devices| + 1
                      && c' == c.(message := EXPAND_WARNING, devices := c.devices + [c'.devices[|c.devices|]])
                      && c'.devices[|c.devices|].name == d && c'.devices[|c.devices|].state == Error
    {
      var message;
      ok, message := host.PvCreate(d);
      if !ok {
        SetMessage(vg, EXPAND_WARNING);
        AddState(vg, DeviceState(d, Error, message));
      }
    }

    /** pvcreate for the devices that are not yet in the group; failures are recorded. The
        answer `ok` is that of the last pvcreate, true when there was none. */
    method InitNewPvs(class_: DeviceClass, pv: set<string>) returns (ok: bool, newPvs: seq<string>)
      requires class_.vgName in suc && Valid(host.machine)
      modifies this`suc, host
      ensures Valid(host.machine) && host.machine.lvs == old(host.machine.lvs) && Grows(old(host.tally), host.tally)
      ensures host.tally.halfDone == old(host.tally.halfDone) && host.tally.queryFaults == old(host.tally.queryFaults)
      ensures forall v :: v != "" ==> PvsOf(host.machine, v) == PvsOf(old(host.machine), v)
      ensures class_.vgName in suc && suc == old(suc)[class_.vgName := suc[class_.vgName]]
      ensures var c, c' := old(suc)[class_.vgName], suc[class_.vgName];
              && c' == c.(message := c'.message, devices := c'.devices)
              && c'.message in {c.message, EXPAND_WARNING}
              && Recorded(c.devices, c'.devices, Elems(class_.devices) - pv, Error)
      ensures Elems(newPvs) <= Elems(class_.devices) - pv
      ensures host.tally.faults == old(host.tally.faults) ==>
          ok && Elems(newPvs) == Elems(class_.devices) - pv && suc == old(suc)
      ensures if Elems(class_.devices) <= pv then ok && Now() == old(Now())
              else host.tally.mutations > old(host.tally.mutations)
    {
      var vg := class_.vgName;
      ghost var c := suc[vg];
      ok, newPvs := true, [];
      for i := 0 to |class_.devices|
        invariant vg in suc && suc == old(suc)[vg := suc[vg]]
        invariant Valid(host.machine) && host.machine.lvs == old(host.machine.lvs) && Grows(old(host.tally), host.tally)
        invariant host.tally.halfDone == old(host.tally.halfDone)
                  && host.tally.queryFaults == old(host.tally.queryFaults)
        invariant forall v :: v != "" ==> PvsOf(host.machine, v) == PvsOf(old(host.machine), v)
        invariant suc[vg] == c.(message := suc[vg].message, devices := suc[vg].devices)
        invariant suc[vg].message in {c.message, EXPAND_WARNING}
        invariant Recorded(c.devices, suc[vg].devices, Elems(class_.devices) - pv, Error)
        invariant Elems(newPvs) <= Elems(class_.devices) - pv
        invariant host.tally.faults == old(host.tally.faults) ==>
            ok && Elems(newPvs) == Elems(class_.devices[..i]) - pv && suc == old(suc)
        invariant if Elems(class_.devices[..i]) <= pv then ok && newPvs == [] && Now() == old(Now())
                  else host.tally.mutations > old(host.tally.mutations)
      {
        var d := class_.devices[i];
        assert Elems(class_.devices[..i + 1]) == Elems(class_.devices[..i]) + {d};
        if d !in pv {
          ok := InitPv(vg, d);
          if !ok { continue; }
          assert Elems(newPvs + [d]) == Elems(newPvs) + {d};
          newPvs := newPvs + [d];
        }
      }
      assert class_.devices[..|class_.devices|] == class_.devices;
    }

    /** Adds the class's new devices to its group; `ok` is what the caller logs. */
    method CheckVgIfExpand(class_: DeviceClass) returns (ok: bool)
      requires class_.vgName in suc && Valid(host.machine)
      modifies this`suc, host
      ensures Valid(host.machine) && ExpandDone(old(Now()), Now(), class_)
      ensures host.tally.faults == old(host.tally.faults) && VgExists(old(host.machine), class_.vgName) ==> ok
    {
      var vg := class_.vgName;
      var listed, pv := GetPhysicalVolume(host, vg);
      if !listed { return false; }
      var newPvs;
      ok, newPvs := InitNewPvs(class_, pv);
      assert pv + (Elems(class_.devices) - pv) == pv + Elems(class_.devices);
      if |newPvs| > 0 {
        assert newPvs[0] in Elems(newPvs);
        ok := Extend(vg, newPvs);
      } else {
        assert Elems(newPvs) == {};
      }
    }

    /** Lets the initialised devices join the group, and records them as online. */
    method Extend(vg: string, newPvs: seq<string>) returns (ok: bool)
      requires vg in suc && Valid(host.machine)
      modifies this`suc, host
      ensures Valid(host.machine) && host.machine.lvs == old(host.machine.lvs) && Grows(old(host.tally), host.tally)
      ensures host.tally.halfDone == old(host.tally.halfDone) && host.tally.mutations > old(host.tally.mutations)
      ensures OthersKept(old(host.machine), host.machine, vg)
      ensures ok ==> vg != "" && PvsOf(host.machine, vg) == PvsOf(old(host.machine), vg) + Elems(newPvs)
      ensures !ok ==> host.machine == old(host.machine) && host.tally.faults > old(host.tally.faults)
      ensures vg in suc && suc == old(suc)[vg := suc[vg]]
      ensures var c, c' := old(suc)[vg], suc[vg];
              if ok then c' == c.(devices := c.devices + States(newPvs, Online, ""))
                  else c' == c.(message := EXPAND_ERROR)
      ensures ok ==> forall p :: p in Elems(newPvs) ==> DeviceState(p, Online, "") in suc[vg].devices
      ensures ok ==> forall i :: |old(suc)[vg].devices| <= i < |suc[vg].devices| ==>
          suc[vg].devices[i].state == Online && suc[vg].devices[i].name in Elems(newPvs)
    {
      ghost var c := suc[vg];
      ok := ExpandVolumeGroup(host, vg, newPvs);
      if ok {
        AddOnline(vg, newPvs);
        OnlineStatesCover(c.devices, newPvs);
      } else {
        SetMessage(vg, EXPAND_ERROR);
      }
    }

    method AddOnline(vg: string, names: seq<string>)
      requires vg in suc
      modifies this`suc
      ensures suc == old(suc)[vg := old(suc)[vg].(devices := old(suc)[vg].devices + States(names, Online, ""))]
    {
      ghost var c := suc[vg];
      assert c.devices + States(names[..0], Online, "") == c.devices;
      for i := 0 to |names|
        invariant vg in suc && suc == old(suc)[vg := c.(devices := c.devices + States(names[..i], Online, ""))]
      {
        AddState(vg, DeviceState(names[i], Online, ""));
        assert c.devices + States(names[..i + 1], Online, "")
               == c.devices + States(names[..i], Online, "") + [DeviceState(names[i], Online, "")];
      }
      assert names[..|names|] == names;
    }

    method DropStates(vg: string, names: seq<string>)
      requires vg in suc
      modifies this`suc
      ensures suc == old(suc)[vg := old(suc)[vg].(devices := Without(old(suc)[vg].devices, Elems(names)))]
    {
      var states := DropAll(suc[vg].devices, names);
      suc := suc[vg := suc[vg].(devices := states)];
    }

    /** Removes the states of the named devices, one name after the other. */
    method DropAll(list: seq<DeviceState>, names: seq<string>) returns (states: seq<DeviceState>)
      ensures states == Without(list, Elems(names))
    {
      states := list;
      WithoutMembers(list, {});
      assert Elems(names[..0]) == {};
      for i := 0 to |names|
        invariant states == Without(list, Elems(names[..i]))
      {
        states := DropState(states, names[i]);
        WithoutTwice(list, Elems(names[..i]), {names[i]});
        assert Elems(names[..i + 1]) == Elems(names[..i]) + {names[i]};
      }
      assert names[..|names|] == names;
    }

    /** Deletes every entry of one name in place; the index steps back after a deletion. */
    method DropState(list: seq<DeviceState>, name: string) returns (states: seq<DeviceState>)
      ensures states == Without(list, {name})
    {
      states := list;
      var index := 0;
      ghost var seen := 0;
      while index < |states|
        invariant 0 <= index <= |states| && 0 <= seen <= |list|
        invariant states[..index] == Without(list[..seen], {name}) && states[index..] == list[seen..]
        decreases |list| - seen
      {
        CutOut(states, index, list, seen);
        WithoutSnoc(list[..seen], list[seen], {name});
        if states[index].name == name {
          states := states[..index] + states[index + 1..];
        } else {
          index := index + 1;
        }
        seen := seen + 1;
      }
      assert list[..seen] == list && states[..index] == states;
    }

    /** The physical volumes of the group that the class no longer lists, in some order. */
    method Extra(class_: DeviceClass, pvs: set<string>) returns (extra: seq<string>)
      ensures Elems(extra) == pvs - Elems(class_.devices) && |extra| == |pvs - Elems(class_.devices)|
    {
      extra := [];
      var todo := pvs;
      while todo != {}
        invariant todo <= pvs && Distinct(extra)
        invariant forall p :: p in Elems(extra) <==> p in pvs && p !in todo && p !in Elems(class_.devices)
        decreases todo
      {
        var pv :| pv in todo;
        var found := false;
        for k := 0 to |class_.devices|
          invariant found <==> pv in class_.devices[..k]
        {
          if pv == class_.devices[k] { found := true; }
        }
        assert class_.devices[..|class_.devices|] == class_.devices;
        if !found {
          assert Elems(extra + [pv]) == Elems(extra) + {pv};
          assert pv !in Elems(extra);
          extra := extra + [pv];
        }
        todo := todo - {pv};
      }
      DistinctSize(extra);
    }

    /** The group keeps none of its devices: it goes as a whole. */
    method RemoveWhole(class_: DeviceClass) returns (ok: bool)
      requires class_.vgName in suc && class_.vgName != "" && Valid(host.machine)
               && VgExists(host.machine, class_.vgName)
      modifies this`suc, host
      ensures Valid(host.machine) && GivenUp(old(Now()), Now(), PvsOf(old(host.machine), class_.vgName), ok)
      ensures suc == if ok then old(suc) - {class_.vgName}
                     else old(suc)[class_.vgName := old(suc)[class_.vgName].(message := DELETE_ERROR)]
    {
      VgHasLvIff(host.machine, class_.vgName);
      ok := RemoveVolumeGroup(host, class_.vgName);
      if ok {
        suc := suc - {class_.vgName};
      } else {
        SetMessage(class_.vgName, DELETE_ERROR);
      }
    }

    /** The group keeps some devices and gives up `extra`. */
    method ReducePart(class_: DeviceClass, extra: seq<string>) returns (ok: bool)
      requires class_.vgName in suc && Valid(host.machine) && Elems(extra) <= PvsOf(host.machine, class_.vgName)
      modifies this`suc, host
      ensures Valid(host.machine) && GivenUp(old(Now()), Now(), Elems(extra), ok)
      ensures var c := old(suc)[class_.vgName];
              suc == old(suc)[class_.vgName := if ok then c.(devices := Without(c.devices, Elems(extra)))
                                               else c.(message := SHRINK_ERROR)]
    {
      ghost var m := host.machine;
      ok := ShrinkVolumeGroup(host, class_.vgName, extra);
      assert Elems(extra) * PvsOf(m, class_.vgName) == Elems(extra);
      assert forall p :: p in extra <==> p in Elems(extra);
      if ok {
        DropStates(class_.vgName, extra);
      } else {
        SetMessage(class_.vgName, SHRINK_ERROR);
      }
    }

    /** Takes devices that the class dropped out of its group; without any device left, the
        whole group is removed. Nothing goes while a logical volume sits on what would go. */
    method CheckVgIfShrink(class_: DeviceClass) returns (ok: bool)
      requires class_.vgName in suc && class_.vgName != "" && Valid(host.machine)
      modifies this`suc, host
      ensures Valid(host.machine) && ShrinkDone(old(Now()), Now(), class_)
    {
      ghost var start := Now();
      var listed, pvs := GetPhysicalVolume(host, class_.vgName);
      if !listed {
        NothingExtra(start, Now(), class_);
        return false;
      }
      var extra := Extra(class_, pvs);
      if |extra| == |pvs| && |pvs| > 0 {
        SubsetOfSameSize(pvs - Elems(class_.devices), pvs);
        ok := RemoveWhole(class_);
        WholeGivenUp(start, Now(), class_, ok);
      } else if |extra| > 0 {
        assert extra[0] in Elems(extra);
        ok := ReducePart(class_, extra);
        PartGivenUp(start, Now(), class_, ok);
      } else {
        assert Elems(extra) == {};
        ok := true;
        NothingExtra(start, Now(), class_);
      }
    }

    /** A success of before: its group follows the spec. */
    method ExpandAndShrink(disks: set<string>, class_: DeviceClass)
      requires Valid(host.machine) && class_.vgName in suc && class_.vgName != ""
      modifies this`suc, host
      ensures Valid(host.machine) && Turn(old(Now()), Now(), class_, disks)
      ensures Entered(old(Now()), Now(), class_, disks)
    {
      ghost var start := Now();
      var _ := CheckVgIfExpand(class_);
      ghost var mid := Now();
      var _ := CheckVgIfShrink(class_);
      AdjustIsTurn(start, mid, Now(), class_, disks);
      AdjustEnters(start, mid, Now(), class_, disks);
    }

    /** A new group of the class's devices, if they are all available disks. */
    method CreateVg(disks: set<string>, class_: DeviceClass) returns (ok: bool)
      requires Valid(host.machine)
      modifies this`suc, this`fail, host
      ensures Valid(host.machine)
      ensures Attempted(old(Now()), Now(), class_, ok, disks, Created(class_), NotCreated(class_, disks), old(fail))
    {
      var unusable := Unusable(disks, class_.devices);
      MissingNone(class_.devices, disks);
      if unusable == [] {
        ok := CreateVolumeGroup(host, class_.devices, class_.vgName);
        if ok {
          var states := OnlineStates(class_.devices);
          suc := suc[class_.vgName := ClassState(class_.className, class_.vgName, Ready, CREATE_SUCCESSFUL, states)];
        } else {
          fail := fail[class_.vgName := ClassState(class_.className, class_.vgName, UnReady, CREATE_FAIL, [])];
        }
      } else {
        assert |States(Missing(class_.devices, disks), Offline, NOT_RAW)| > 0;
        fail := fail[class_.vgName := ClassState(class_.className, class_.vgName, NotSaid, "", unusable)];
        ok := false;
      }
    }

    /** The devices that are not available disks, each with the reason. */
    method Unusable(disks: set<string>, names: seq<string>) returns (states: seq<DeviceState>)
      ensures states == States(Missing(names, disks), Offline, NOT_RAW)
    {
      states := [];
      for i := 0 to |names|
        invariant states == States(Missing(names[..i], disks), Offline, NOT_RAW)
      {
        MissingSnoc(names, i, disks);
        if names[i] !in disks {
          states := states + [DeviceState(names[i], Offline, NOT_RAW)];
        }
      }
      assert names[..|names|] == names;
    }

    method OnlineStates(names: seq<string>) returns (states: seq<DeviceState>)
      ensures states == States(names, Online, "")
    {
      states := [];
      for i := 0 to |names|
        invariant states == States(names[..i], Online, "")
      {
        states := states + [DeviceState(names[i], Online, "")];
      }
      assert names[..|names|] == names;
    }

    /** A second attempt at a class that failed before; on success no device is recorded. */
    method CreateVgRetry(disks: set<string>, class_: DeviceClass) returns (ok: bool)
      requires class_.vgName in fail && Valid(host.machine)
      modifies this`suc, this`fail, host
      ensures Valid(host.machine)
      ensures Attempted(old(Now()), Now(), class_, ok, disks, Created(class_).(devices := []),
                        Noted(old(fail)[class_.vgName], class_, disks), old(fail) - {class_.vgName})
    {
      var states, available := MarkUnusable(fail[class_.vgName].devices, disks, class_.devices);
      fail := fail[class_.vgName := fail[class_.vgName].(devices := states)];
      MissingNone(class_.devices, disks);
      if !available { return false; }
      ok := CreateVolumeGroup(host, class_.devices, class_.vgName);
      if ok {
        suc := suc[class_.vgName := ClassState(class_.className, class_.vgName, Ready, CREATE_SUCCESSFUL, [])];
        fail := fail - {class_.vgName};
        assert fail == old(fail) - {class_.vgName};
      }
    }

    method MarkUnusable(list: seq<DeviceState>, disks: set<string>, names: seq<string>)
      returns (states: seq<DeviceState>, available: bool)
      ensures states == Marked(list, Missing(names, disks))
      ensures available <==> Missing(names, disks) == []
    {
      states, available := list, true;
      for i := 0 to |names|
        invariant states == Marked(list, Missing(names[..i], disks))
        invariant available <==> Missing(names[..i], disks) == []
      {
        MissingSnoc(names, i, disks);
        if names[i] !in disks {
          MarkedSnoc(list, Missing(names[..i], disks), names[i]);
          states := MarkOne(states, names[i]);
          available := false;
        } else {
          assert Missing(names[..i + 1], disks) == Missing(names[..i], disks);
        }
      }
      assert names[..|names|] == names;
    }

    method MarkOne(list: seq<DeviceState>, name: string) returns (states: seq<DeviceState>)
      ensures var i, d := FirstNamed(list, name), DeviceState(name, Unset, NOT_RAW);
              states == if i >= 0 then list[i := d] else list + [d]
    {
      var index := FindState(list, name);
      var note := DeviceState(name, Unset, NOT_RAW);
      states := if index >= 0 then list[index := note] else list + [note];
    }

    method FindState(states: seq<DeviceState>, name: string) returns (index: int)
      ensures index == FirstNamed(states, name)
    {
      for i := 0 to |states|
        invariant forall j :: 0 <= j < i ==> states[j].name != name
      {
        if states[i].name == name { return i; }
      }
      index := -1;
    }

    method Wanted(vg: string) returns (found: bool)
      ensures found <==> InSpec(vg)
    {
      for k := 0 to |classes|
        invariant forall j :: 0 <= j < k ==> classes[j].vgName != vg
      {
        if classes[k].vgName == vg { return true; }
      }
      found := false;
    }

    /** Forgets one success class if it left the spec, and tries to remove its group. */
    method DeleteIfUnwanted(key: string)
      requires Valid(host.machine) && key in suc && key != ""
      modifies this`suc, host
      ensures Valid(host.machine) && DeletedOne(old(Now()), Now(), classes, key)
    {
      var found := Wanted(key);
      if !found {
        var removed := RemoveVolumeGroup(host, key);
        FreedKeepsOthers(old(host.machine), host.machine, key, PvsOf(old(host.machine), key));
        suc := suc - {key};
      }
    }

    /** Forgets the success classes that left the spec, and tries to remove their groups. A
        group that cannot be removed is forgotten all the same. */
    method DeleteSuccesses()
      requires Valid(host.machine) && Filed(suc)
      modifies this`suc, host
      ensures Valid(host.machine) && Deleting(old(Now()), Now(), classes, {})
    {
      ghost var start := Now();
      var todo := suc.Keys;
      DeletingStart(start, classes);
      while todo != {}
        invariant Valid(host.machine) && todo <= start.suc.Keys && Deleting(start, Now(), classes, todo)
        decreases todo
      {
        var key :| key in todo;
        ghost var was := Now();
        DeleteIfUnwanted(key);
        DeletingStep(start, was, Now(), classes, todo, key);
        todo := todo - {key};
      }
    }

    /** Forgets what left the spec. */
    method CheckVgIfDelete()
      requires Valid(host.machine) && Filed(suc)
      modifies this`suc, this`fail, host
      ensures Valid(host.machine) && Cleared(old(Now()), Now(), classes)
    {
      ghost var start := Now();
      DeleteSuccesses();
      ghost var mid := Now();
      var left := fail.Keys;
      while left != {}
        invariant left <= start.fail.Keys
        invariant fail == map v | v in start.fail && (v in left || InSpec(v)) :: start.fail[v]
        modifies this`fail
        decreases left
      {
        var key :| key in left;
        left := left - {key};
        var found := Wanted(key);
        if !found { fail := fail - {key}; }
      }
      DeletedIsCleared(start, mid, Now(), classes);
    }

    /** A failure of before, or a new class. */
    method AddClass(disks: set<string>, class_: DeviceClass) returns (added: bool)
      requires Valid(host.machine) && Filed(suc) && class_.vgName !in suc
      modifies this`suc, this`fail, host
      ensures Valid(host.machine) && Turn(old(Now()), Now(), class_, disks) && added == Added(old(Now()), Now(), class_)
      ensures Entered(old(Now()), Now(), class_, disks)
    {
      ghost var was := Now();
      CreatedEnters(class_);
      if class_.vgName in fail {
        NotedEnters(was.fail[class_.vgName], class_, disks);
        added := CreateVgRetry(disks, class_);
        AttemptIsTurn(was, Now(), class_, added, disks, Created(class_).(devices := []),
                      Noted(was.fail[class_.vgName], class_, disks));
      } else {
        NotCreatedEnters(class_, disks);
        added := CreateVg(disks, class_);
        assert was.fail - {class_.vgName} == was.fail;
        AttemptIsTurn(was, Now(), class_, added, disks, Created(class_), NotCreated(class_, disks));
      }
    }

    /** One class of the spec: adjust its group, try again, or create it. */
    method ReconcileClass(disks: set<string>, class_: DeviceClass) returns (added: bool)
      requires Valid(host.machine) && Filed(suc)
      modifies this`suc, this`fail, host
      ensures Valid(host.machine) && Turn(old(Now()), Now(), class_, disks) && added == Added(old(Now()), Now(), class_)
      ensures Entered(old(Now()), Now(), class_, disks)
    {
      if class_.vgName in suc {
        ExpandAndShrink(disks, class_);
        added := false;
      } else {
        added := AddClass(disks, class_);
      }
    }

    /** All classes of the spec, in order: a turn for each. */
    method ReconcileAll(disks: set<string>) returns (sucVgs: seq<DeviceClass>, ghost t: Trace)
      requires Valid(host.machine) && Filed(suc)
      modifies this`suc, this`fail, host
      ensures t.now == Now() && Origin(t) == old(Now()) && Turns(t, classes, disks, |classes|) && AllValid(t)
      ensures sucVgs == Picked(t, classes, |classes|) && Entries(t, classes, disks, |classes|)
    {
      sucVgs, t := [], From(Now());
      for k := 0 to |classes|
        invariant AllValid(t) && Filed(suc) && t.now == Now() && Origin(t) == old(Now())
        invariant Turns(t, classes, disks, k) && Entries(t, classes, disks, k) && sucVgs == Picked(t, classes, k)
      {
        var added := ReconcileClass(disks, classes[k]);
        t := Then(t, Now());
        if added { sucVgs := sucVgs + [classes[k]]; }
      }
    }

    /** All classes of the spec, then the classes that left it. `sucVgs` are the classes that
        became successful in this pass, in the order of the spec. */
    method Reconcile(disks: set<string>) returns (sucVgs: seq<DeviceClass>, ghost t: Trace)
      requires Valid(host.machine) && Filed(suc)
      modifies this`suc, this`fail, host
      ensures Valid(host.machine) && Ran(old(Now()), Now(), classes, disks, sucVgs)
      ensures DistinctVgs(classes) ==> Passed(old(Now()), Now(), classes, sucVgs)
      ensures WellRecorded(old(Now()), Now(), classes, disks, sucVgs)
      ensures Origin(t) == old(Now()) && Turns(t, classes, disks, |classes|) && Cleared(t.now, Now(), classes)
      ensures sucVgs == Picked(t, classes, |classes|) && AllValid(t)
    {
      sucVgs, t := ReconcileAll(disks);
      TurnsAreSteady(t, classes, disks, |classes|);
      CheckVgIfDelete();
      RunsThrough(t, Now(), classes, disks);
      PassRecords(t, Now(), classes, disks);
      if DistinctVgs(classes) { PassDone(t, Now(), classes, disks); }
    }

    /** One class of a first pass: a class whose group exists already only fails. */
    method FirstClass(disks: set<string>, vgs: set<string>, class_: DeviceClass) returns (added: bool)
      requires Valid(host.machine) && Standing(host.machine, suc)
      modifies this`suc, this`fail, host
      ensures Valid(host.machine) && FirstTurn(old(Now()), Now(), class_, disks, vgs)
      ensures FirstEntered(old(Now()), Now(), class_, disks, vgs)
      ensures added == Added(old(Now()), Now(), class_)
      ensures class_.vgName in vgs ==>
          && !added && host.machine == old(host.machine) && host.tally == old(host.tally)
          && fail == old(fail)[class_.vgName := ClassState(class_.className, "", UnReady, VG_EXISTING, [])]
      ensures class_.vgName !in vgs && !added ==> fail == old(fail)[class_.vgName := NotCreated(class_, disks)]
    {
      CreatedEnters(class_);
      NotCreatedEnters(class_, disks);
      if class_.vgName in vgs {
        fail := fail[class_.vgName := ClassState(class_.className, "", UnReady, VG_EXISTING, [])];
        added := false;
      } else {
        added := CreateVg(disks, class_);
      }
    }

    /** The first pass on a node, without any recorded class: creates what does not exist yet.
        `vgs` are the groups found before. */
    method FirstPass(disks: set<string>, vgs: set<string>) returns (sucVgs: seq<DeviceClass>, ghost t: Trace)
      requires Valid(host.machine) && suc == map[] && fail == map[]
      modifies this`suc, this`fail, host
      ensures Valid(host.machine) && FirstRan(old(Now()), Now(), classes, disks, sucVgs)
      ensures DistinctVgs(classes) ==> Made(old(Now()), Now(), classes, disks, vgs, |classes|)
      ensures FirstRecorded(Now(), classes, disks, vgs)
      ensures Origin(t) == old(Now()) && t.now == Now() && FirstTurns(t, classes, disks, vgs, |classes|)
    {
      sucVgs, t := [], From(Now());
      for k := 0 to |classes|
        invariant Valid(host.machine) && t.now == Now() && Origin(t) == old(Now())
        invariant FirstEntries(t, classes, disks, vgs, k)
        invariant FirstTurns(t, classes, disks, vgs, k) && sucVgs == Picked(t, classes, k)
      {
        FirstTurnsAreSteady(t, classes, disks, vgs, k);
        var added := FirstClass(disks, vgs, classes[k]);
        t := Then(t, Now());
        if added { sucVgs := sucVgs + [classes[k]]; }
      }
      FirstPassDone(t, classes, disks, vgs);
      FirstPassRecords(t, classes, disks, vgs, |classes|);
    }
  }

  /** A success that comes to list no devices is removed with its group; the next pass, and each
      after it, asks LVM for a group of no devices. */
  method EmptyClassActsAgain(host: Host, c: DeviceClass, state: ClassState, disks: set<string>)
    returns (ghost between: Tally)
    requires Valid(host.machine) && VgExists(host.machine, c.vgName) && !VgHasLv(host.machine, c.vgName)
    requires c.devices == [] && state.vgName == c.vgName
    modifies host
    ensures between.faults == old(host.tally.faults) && host.tally.queryFaults == between.queryFaults ==>
        host.tally.mutations > between.mutations
  {
    var job := new Reconciler(host, [c], map[c.vgName := state], map[]);
    ghost var start := job.Now();
    EmptyVgHoldsNothing(host.machine, c.vgName);
    var _, t := job.Reconcile(disks);
    ghost var mid := job.Now();
    between := host.tally;
    if NoFault(start, mid) { EmptiedIsGone(t, mid, c, disks); }
    var _, _ := job.Reconcile(disks);
  }
}
