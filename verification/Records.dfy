// What the records of a pass say: the states of the classes it made, kept or failed to make.
module Records {
  import opened Lvm
  import opened Passes
  import opened VgStatus

  /** A class that became a success is ready, with its devices online; a retried one lists none. */
  ghost predicate NewSuccess(s: ClassState, c: DeviceClass, retried: bool) {
    && s.name == c.className && s.vgName == c.vgName && s.state == Ready && s.message == "create successful"
    && |s.devices| == (if retried then 0 else |c.devices|)
    && (forall i :: 0 <= i < |s.devices| ==> s.devices[i] == DeviceState(c.devices[i], Online, ""))
  }

  /** A class that failed for the first time: a command failed, or it says just which of its devices
      are no available disks. */
  ghost predicate NewFailure(f: ClassState, c: DeviceClass, disks: set<string>) {
    && f.name == c.className && f.vgName == c.vgName
    && if forall p :: p in c.devices ==> p in disks then
         f.state == UnReady && f.message == "create failed" && f.devices == []
       else
         && f.state == NotSaid && f.message == ""
         && (forall p :: p in c.devices && p !in disks ==> DeviceState(p, Offline, NOT_RAW) in f.devices)
         && (forall d :: d in f.devices ==> d.state == Offline && d.name in c.devices && d.name !in disks)
  }

  /** A class that failed again: each device that is no available disk is noted, over its old state
      if it had one, and all else stays. */
  ghost predicate FailedAgain(was: ClassState, f: ClassState, c: DeviceClass, disks: set<string>) {
    && f == was.(devices := f.devices) && |was.devices| <= |f.devices|
    && (forall p :: p in c.devices && p !in disks ==> DeviceState(p, Unset, NOT_RAW) in f.devices)
    && (forall i :: 0 <= i < |f.devices| ==>
          || (i < |was.devices| && f.devices[i] == was.devices[i])
          || (f.devices[i].name in c.devices && f.devices[i].name !in disks && f.devices[i].state == Unset
              && (i < |was.devices| ==> was.devices[i].name == f.devices[i].name)))
  }

  /** What one turn leaves in the two maps. */
  ghost predicate Entered(a: Snap, b: Snap, c: DeviceClass, disks: set<string>) {
    var v := c.vgName;
    && SameBut(a.suc, b.suc, v) && SameBut(a.fail, b.fail, v)
    && if v in a.suc then
         v in b.suc ==>
           && b.suc[v].state == a.suc[v].state && b.suc[v].name == a.suc[v].name
           && (forall p :: p in PvsOf(b.machine, v) - PvsOf(a.machine, v) ==>
                 DeviceState(p, Online, "") in b.suc[v].devices)
       else if v in b.suc then
         NewSuccess(b.suc[v], c, v in a.fail)
       else
         v in b.fail && if v in a.fail then FailedAgain(a.fail[v], b.fail[v], c, disks)
                        else NewFailure(b.fail[v], c, disks)
  }

  lemma CreatedEnters(c: DeviceClass)
    ensures NewSuccess(Created(c), c, false) && NewSuccess(Created(c).(devices := []), c, true)
  {
  }

  lemma NotCreatedEnters(c: DeviceClass, disks: set<string>)
    ensures NewFailure(NotCreated(c, disks), c, disks)
  {
    MissingMembers(c.devices, disks);
    var missing := Missing(c.devices, disks);
    assert Elems(c.devices) <= disks <==> forall p :: p in c.devices ==> p in disks;
    forall p | p in c.devices && p !in disks
      ensures DeviceState(p, Offline, NOT_RAW) in States(missing, Offline, NOT_RAW)
    {
      var i :| 0 <= i < |missing| && missing[i] == p;
      assert States(missing, Offline, NOT_RAW)[i] == DeviceState(p, Offline, NOT_RAW);
    }
  }

  lemma NotedEnters(was: ClassState, c: DeviceClass, disks: set<string>)
    ensures FailedAgain(was, Noted(was, c, disks), c, disks)
  {
    MissingMembers(c.devices, disks);
    MarkedTells(was.devices, Missing(c.devices, disks));
  }

  lemma AdjustEnters(a: Snap, m: Snap, b: Snap, c: DeviceClass, disks: set<string>)
    requires c.vgName in a.suc && ExpandDone(a, m, c) && ShrinkDone(m, b, c)
    ensures Entered(a, b, c, disks)
  {
    if c.vgName in b.suc {
      var v, extra := c.vgName, PvsOf(m.machine, c.vgName) - Elems(c.devices);
      WithoutMembers(m.suc[v].devices, extra);
      forall p | p in PvsOf(b.machine, v) - PvsOf(a.machine, v)
        ensures DeviceState(p, Online, "") in b.suc[v].devices
      {
        assert p in PvsOf(m.machine, v) && p !in extra;
      }
    }
  }

  /** The turns of a pass, by what they enter. */
  ghost predicate Entries(t: Trace, classes: seq<DeviceClass>, disks: set<string>, k: nat) {
    match t
    case From(_) => k == 0
    case Then(before, now) =>
      0 < k <= |classes| && Entries(before, classes, disks, k - 1) && Entered(before.now, now, classes[k - 1], disks)
  }

  /** The classes that became successful are recorded as ready as long as they are successes. */
  ghost predicate MadeReady(suc: Classes, made: seq<DeviceClass>) {
    forall d :: d in made && d.vgName in suc ==> suc[d.vgName].state == Ready
  }

  lemma {:induction false} EntriesMakeReady(t: Trace, classes: seq<DeviceClass>, disks: set<string>, k: nat)
    requires k <= |classes| && Entries(t, classes, disks, k)
    ensures MadeReady(t.now.suc, Picked(t, classes, k))
  {
    if t.Then? { EntriesMakeReady(t.before, classes, disks, k - 1); }
  }

  /** What becomes of one class of a spec of distinct groups, from start to end. */
  ghost predicate Told(a: Snap, b: Snap, c: DeviceClass, disks: set<string>) {
    var v := c.vgName;
    v !in a.suc ==>
      if v in b.suc then NewSuccess(b.suc[v], c, v in a.fail)
      else v in b.fail && if v in a.fail then FailedAgain(a.fail[v], b.fail[v], c, disks)
                          else NewFailure(b.fail[v], c, disks)
  }

  /** The entries of the groups that no class so far has are as they were. */
  lemma {:induction false} EntriesElsewhere(t: Trace, classes: seq<DeviceClass>, disks: set<string>, k: nat, v: string)
    requires k <= |classes| && Entries(t, classes, disks, k) && v !in Groups(classes[..k])
    ensures (v in Origin(t).suc <==> v in t.now.suc) && (v in t.now.suc ==> t.now.suc[v] == Origin(t).suc[v])
    ensures (v in Origin(t).fail <==> v in t.now.fail) && (v in t.now.fail ==> t.now.fail[v] == Origin(t).fail[v])
  {
    if t.Then? {
      GroupsSnoc(classes, k - 1);
      EntriesElsewhere(t.before, classes, disks, k - 1, v);
    }
  }

  lemma {:induction false} EntriesTell(t: Trace, classes: seq<DeviceClass>, disks: set<string>, k: nat, j: nat)
    requires j < k <= |classes| && Entries(t, classes, disks, k) && DistinctVgs(classes)
    ensures Told(Origin(t), t.now, classes[j], disks)
  {
    if j < k - 1 {
      EntriesTell(t.before, classes, disks, k - 1, j);
      assert classes[j].vgName != classes[k - 1].vgName;
    } else {
      GroupsSnoc(classes, j);
      EntriesElsewhere(t.before, classes, disks, j, classes[j].vgName);
    }
  }

  /** What a whole pass records: new successes are ready, and with distinct groups each class has
      just the record that goes with what became of it. */
  ghost predicate WellRecorded(a: Snap, b: Snap, classes: seq<DeviceClass>, disks: set<string>,
                               made: seq<DeviceClass>) {
    MadeReady(b.suc, made) && (DistinctVgs(classes) ==> AllTold(a, b, classes, disks))
  }

  ghost predicate AllTold(a: Snap, b: Snap, classes: seq<DeviceClass>, disks: set<string>) {
    forall j :: 0 <= j < |classes| ==> Told(a, b, classes[j], disks)
  }

  lemma PassRecords(t: Trace, b: Snap, classes: seq<DeviceClass>, disks: set<string>)
    requires Entries(t, classes, disks, |classes|) && Cleared(t.now, b, classes)
    ensures WellRecorded(Origin(t), b, classes, disks, Picked(t, classes, |classes|))
  {
    EntriesMakeReady(t, classes, disks, |classes|);
    if DistinctVgs(classes) {
      forall j | 0 <= j < |classes| ensures Told(Origin(t), b, classes[j], disks) {
        GroupsHave(classes, j);
        EntriesTell(t, classes, disks, |classes|, j);
      }
    }
  }

  /******* A first pass *******/

  ghost predicate FirstEntered(a: Snap, b: Snap, c: DeviceClass, disks: set<string>, vgs: set<string>) {
    var v := c.vgName;
    && SameBut(a.suc, b.suc, v) && SameBut(a.fail, b.fail, v) && (v in a.suc ==> v in b.suc && b.suc[v] == a.suc[v])
    && if v !in a.suc && v in b.suc then
         NewSuccess(b.suc[v], c, false) && (v in b.fail <==> v in a.fail) && (v in b.fail ==> b.fail[v] == a.fail[v])
       else
         v in b.fail && if v in vgs then b.fail[v] == ClassState(c.className, "", UnReady, VG_EXISTING, [])
                        else NewFailure(b.fail[v], c, disks)
  }

  ghost predicate FirstEntries(t: Trace, classes: seq<DeviceClass>, disks: set<string>, vgs: set<string>, k: nat) {
    match t
    case From(_) => k == 0
    case Then(before, now) =>
      && 0 < k <= |classes| && FirstEntries(before, classes, disks, vgs, k - 1)
      && FirstEntered(before.now, now, classes[k - 1], disks, vgs)
  }

  /** After a first pass every success is ready and no failure is, and each record is one of a class
      of the spec. */
  ghost predicate FirstRecorded(b: Snap, classes: seq<DeviceClass>, disks: set<string>, vgs: set<string>) {
    && (forall v :: v in b.suc ==> b.suc[v].state == Ready)
    && (forall v :: v in b.fail ==> b.fail[v].state != Ready)
    && FirstTold(b, classes, disks, vgs)
  }

  ghost predicate FirstTold(b: Snap, classes: seq<DeviceClass>, disks: set<string>, vgs: set<string>) {
    && (forall v :: v in b.suc ==> FirstMade(b.suc[v], v, classes))
    && (forall v :: v in b.fail ==> FirstFailed(b.fail[v], v, classes, disks, vgs))
  }

  ghost predicate FirstMade(s: ClassState, v: string, classes: seq<DeviceClass>) {
    exists c :: c in classes && c.vgName == v && NewSuccess(s, c, false)
  }

  ghost predicate FirstFailed(f: ClassState, v: string, classes: seq<DeviceClass>, disks: set<string>,
                              vgs: set<string>) {
    exists c :: c in classes && c.vgName == v
                && if v in vgs then f == ClassState(c.className, "", UnReady, VG_EXISTING, [])
                   else NewFailure(f, c, disks)
  }

  lemma FirstRecordedStep(a: Snap, b: Snap, classes: seq<DeviceClass>, disks: set<string>, vgs: set<string>, k: nat)
    requires k < |classes| && FirstRecorded(a, classes, disks, vgs) && FirstEntered(a, b, classes[k], disks, vgs)
    ensures FirstRecorded(b, classes, disks, vgs)
  {
    var c := classes[k];
    assert c in classes;
    forall v | v in b.suc ensures b.suc[v].state == Ready && FirstMade(b.suc[v], v, classes) {
      if v == c.vgName && v !in a.suc {
        assert NewSuccess(b.suc[v], c, false);
      } else {
        assert b.suc[v] == a.suc[v] && FirstMade(a.suc[v], v, classes);
      }
    }
    forall v | v in b.fail ensures b.fail[v].state != Ready && FirstFailed(b.fail[v], v, classes, disks, vgs) {
      if v in a.fail && b.fail[v] == a.fail[v] {
        assert FirstFailed(a.fail[v], v, classes, disks, vgs);
      } else {
        assert v == c.vgName;
      }
    }
  }

  lemma {:induction false} FirstPassRecords(t: Trace, classes: seq<DeviceClass>, disks: set<string>, vgs: set<string>,
                                            k: nat)
    requires FirstEntries(t, classes, disks, vgs, k) && Origin(t).suc == map[] && Origin(t).fail == map[]
    ensures FirstRecorded(t.now, classes, disks, vgs)
  {
    if t.Then? {
      FirstPassRecords(t.before, classes, disks, vgs, k - 1);
      FirstRecordedStep(t.before.now, t.now, classes, disks, vgs, k - 1);
    }
  }
}
