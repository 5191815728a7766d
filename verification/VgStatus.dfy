// What a node records about its volume groups: the device classes of the spec, the state of
// each class, the status kept in the ConfigMap, and the lvmd configuration.
module VgStatus {
  import opened Lvm

  const EXPAND_WARNING := "expand warning"
  const EXPAND_ERROR := "expand error"
  const SHRINK_ERROR := "shrink error"
  const DELETE_ERROR := "delete error"
  const CREATE_SUCCESSFUL := "create successful"
  const CREATE_FAIL := "create failed"
  const VG_EXISTING := "create failed vg existing"
  const NOT_RAW := "disk may has filesystem or is not raw disk please check"

  datatype Option<T> = None | Some(value: T)

  datatype Condition = Unset | Online | Offline | Error

  datatype Readiness = NotSaid | Ready | UnReady

  datatype DeviceState = DeviceState(name: string, state: Condition, message: string)

  datatype ClassState = ClassState(name: string, vgName: string, state: Readiness, message: string,
                                   devices: seq<DeviceState>)

  datatype DeviceClass = DeviceClass(className: string, vgName: string, devices: seq<string>, default_: bool,
                                     spareGb: nat, stripe: nat, stripeSize: string)

  datatype LvmdClass = LvmdClass(name: string, vg: string, spareGb: nat, default_: bool, stripe: nat,
      stripeSize: string)

  datatype NodeStatus = NodeStatus(node: string, successes: seq<ClassState>, failures: seq<ClassState>)

  /** The two keys of the node's ConfigMap that matter here; either may be absent. */
  datatype ConfigData = ConfigData(lvmd: Option<seq<LvmdClass>>, status: Option<NodeStatus>)

  const NoConfig := ConfigData(None, None)

  type Classes = map<string, ClassState>

  /******* Device states *******/

  function States(names: seq<string>, state: Condition, message: string): (r: seq<DeviceState>)
    ensures |r| == |names| && forall i :: 0 <= i < |r| ==> r[i] == DeviceState(names[i], state, message)
  {
    seq(|names|, i requires 0 <= i < |names| => DeviceState(names[i], state, message))
  }

  /** The devices of a class that are not among the available disks. */
  function Missing(names: seq<string>, disks: set<string>): seq<string> {
    if names == [] then []
    else
      var last := |names| - 1;
      Missing(names[..last], disks) + (if names[last] in disks then [] else [names[last]])
  }

  lemma {:induction false} MissingMembers(names: seq<string>, disks: set<string>)
    ensures forall n :: n in Missing(names, disks) <==> n in names && n !in disks
  {
    if names != [] {
      var last := |names| - 1;
      assert names == names[..last] + [names[last]];
      MissingMembers(names[..last], disks);
    }
  }

  function Without(states: seq<DeviceState>, gone: set<string>): seq<DeviceState> {
    if states == [] then []
    else
      var last := |states| - 1;
      Without(states[..last], gone) + (if states[last].name in gone then [] else [states[last]])
  }

  lemma {:induction false} WithoutMembers(states: seq<DeviceState>, gone: set<string>)
    ensures forall d :: d in Without(states, gone) <==> d in states && d.name !in gone
    ensures (forall d :: d in states ==> d.name !in gone) ==> Without(states, gone) == states
  {
    if states != [] {
      var last := |states| - 1;
      assert states == states[..last] + [states[last]];
      WithoutMembers(states[..last], gone);
    }
  }

  lemma WithoutSnoc(states: seq<DeviceState>, d: DeviceState, gone: set<string>)
    ensures Without(states + [d], gone) == Without(states, gone) + (if d.name in gone then [] else [d])
  {
  }

  lemma {:induction false} WithoutTwice(states: seq<DeviceState>, a: set<string>, b: set<string>)
    ensures Without(Without(states, a), b) == Without(states, a + b)
  {
    if states != [] {
      var last := states[|states| - 1];
      var front := states[..|states| - 1];
      assert states == front + [last];
      WithoutTwice(front, a, b);
      WithoutSnoc(front, last, a);
      WithoutSnoc(front, last, a + b);
      WithoutSnoc(Without(front, a), last, b);
      if last.name in a { assert Without(states, a) == Without(front, a); }
      assert last.name in a + b <==> last.name in a || last.name in b;
    }
  }

  /** The first state of that name, or -1. */
  function FirstNamed(states: seq<DeviceState>, name: string): (i: int)
    ensures -1 <= i < |states|
    ensures i >= 0 ==> states[i].name == name && forall j :: 0 <= j < i ==> states[j].name != name
    ensures i == -1 ==> forall j :: 0 <= j < |states| ==> states[j].name != name
  {
    if states == [] then -1
    else
      var i := FirstNamed(states[..|states| - 1], name);
      if i >= 0 then i else if states[|states| - 1].name == name then |states| - 1 else -1
  }

  /** Notes devices as not usable: over the state of that name if there is one, else at the end. */
  function Marked(states: seq<DeviceState>, names: seq<string>): seq<DeviceState> {
    if names == [] then states
    else
      var rest := Marked(states, names[..|names| - 1]);
      var d := DeviceState(names[|names| - 1], Unset, NOT_RAW);
      var i := FirstNamed(rest, d.name);
      if i >= 0 then rest[i := d] else rest + [d]
  }

  lemma MarkedSnoc(states: seq<DeviceState>, names: seq<string>, name: string)
    ensures var rest, d := Marked(states, names), DeviceState(name, Unset, NOT_RAW);
            var i := FirstNamed(rest, name);
            Marked(states, names + [name]) == if i >= 0 then rest[i := d] else rest + [d]
  {
  }

  /** Each named device is noted, over its first state if there is one; the other states stay. */
  ghost predicate NotedOver(states: seq<DeviceState>, names: seq<string>, r: seq<DeviceState>) {
    && |states| <= |r|
    && (forall n :: n in names ==> DeviceState(n, Unset, NOT_RAW) in r)
    && (forall i :: |states| <= i < |r| ==> r[i].name in names && r[i] == DeviceState(r[i].name, Unset, NOT_RAW))
    && (forall i :: 0 <= i < |states| ==>
          r[i] == states[i] || (states[i].name in names && r[i] == DeviceState(states[i].name, Unset, NOT_RAW)))
  }

  lemma NotedStays(r: seq<DeviceState>, k: int, name: string, n: string)
    requires k == FirstNamed(r, name) && DeviceState(n, Unset, NOT_RAW) in r
    ensures var d := DeviceState(name, Unset, NOT_RAW);
            DeviceState(n, Unset, NOT_RAW) in if k >= 0 then r[k := d] else r + [d]
  {
    var d := DeviceState(name, Unset, NOT_RAW);
    var i :| 0 <= i < |r| && r[i] == DeviceState(n, Unset, NOT_RAW);
    if k >= 0 { assert r[k := d][i] == r[i]; }
  }

  lemma NotedStep(states: seq<DeviceState>, names: seq<string>, r: seq<DeviceState>, name: string)
    requires NotedOver(states, names, r)
    ensures var k, d := FirstNamed(r, name), DeviceState(name, Unset, NOT_RAW);
            NotedOver(states, names + [name], if k >= 0 then r[k := d] else r + [d])
  {
    var k, d := FirstNamed(r, name), DeviceState(name, Unset, NOT_RAW);
    var next := if k >= 0 then r[k := d] else r + [d];
    assert next[if k >= 0 then k else |r|] == d;
    forall n | n in names ensures DeviceState(n, Unset, NOT_RAW) in next { NotedStays(r, k, name, n); }
    forall i | 0 <= i < |next| ensures next[i] == d || (i < |r| && next[i] == r[i]) {
    }
  }

  lemma {:induction false} MarkedTells(states: seq<DeviceState>, names: seq<string>)
    ensures NotedOver(states, names, Marked(states, names))
  {
    if names != [] {
      var front, last := names[..|names| - 1], names[|names| - 1];
      MarkedTells(states, front);
      assert names == front + [last];
      NotedStep(states, front, Marked(states, front), last);
    }
  }

  lemma MissingSnoc(names: seq<string>, k: nat, disks: set<string>)
    requires k < |names|
    ensures Missing(names[..k + 1], disks) ==
            Missing(names[..k], disks) + (if names[k] in disks then [] else [names[k]])
  {
    assert names[..k + 1][..k] == names[..k];
  }

  /** Every device recorded as online is a physical volume of the group. */
  ghost predicate OnlineIn(m: Machine, vg: string, c: ClassState) {
    forall d :: d in c.devices && d.state == Online ==> d.name in PvsOf(m, vg)
  }

  ghost predicate AllOnline(m: Machine, suc: Classes) {
    forall v :: v in suc ==> OnlineIn(m, v, suc[v])
  }

  /** Cutting one element out of a list whose rest is the rest of another. */
  lemma CutOut<T>(s: seq<T>, i: nat, list: seq<T>, k: nat)
    requires i < |s| && k < |list| && s[i..] == list[k..]
    ensures s[i] == list[k] && s[i + 1..] == list[k + 1..]
    ensures var cut := s[..i] + s[i + 1..]; cut[..i] == s[..i] && cut[i..] == list[k + 1..]
    ensures s[..i + 1] == s[..i] + [s[i]] && list[..k + 1] == list[..k] + [list[k]]
  {
    assert s[i + 1..] == s[i..][1..] && list[k + 1..] == list[k..][1..];
    assert s[i] == s[i..][0] && list[k] == list[k..][0];
  }

  /******* Maps of classes and their persisted lists *******/

  /** A class is filed under its own group, and groups have names. */
  ghost predicate Filed(m: Classes) { Keyed(m) && "" !in m }

  ghost predicate Keyed(m: Classes) { forall v :: v in m ==> m[v].vgName == v }

  /** getVgNameMap: a later entry overrides an earlier one of the same group. */
  function NameMap(list: seq<ClassState>): Classes {
    if list == [] then map[]
    else NameMap(list[..|list| - 1])[list[|list| - 1].vgName := list[|list| - 1]]
  }

  /** The list holds each class of the map once, in some order. */
  ghost predicate Lists(list: seq<ClassState>, keys: seq<string>, m: Classes) {
    && |list| == |keys|
    && (forall i :: 0 <= i < |keys| ==> keys[i] in m && list[i] == m[keys[i]])
    && (forall i, j :: 0 <= i < j < |keys| ==> keys[i] != keys[j])
    && (forall v :: v in m ==> v in keys)
  }

  lemma {:induction false} NameMapPrefix(list: seq<ClassState>, keys: seq<string>, m: Classes, k: nat)
    requires Lists(list, keys, m) && k <= |keys|
    requires Keyed(m)
    ensures NameMap(list[..k]) == map v | v in keys[..k] :: m[v]
  {
    if k > 0 {
      NameMapPrefix(list, keys, m, k - 1);
      assert list[..k][..k - 1] == list[..k - 1];
      assert keys[..k] == keys[..k - 1] + [keys[k - 1]];
    }
  }

  /** The list holds each class of the map once, in an order that does not matter. */
  ghost predicate Listed(list: seq<ClassState>, m: Classes) { exists keys :: Lists(list, keys, m) }

  /** Writing the map of classes out as a list and reading it back loses nothing. */
  lemma ClassesRoundTrip(list: seq<ClassState>, m: Classes)
    requires Listed(list, m) && Keyed(m)
    ensures NameMap(list) == m
  {
    var keys :| Lists(list, keys, m);
    ListReadsBack(list, keys, m);
  }

  lemma ListReadsBack(list: seq<ClassState>, keys: seq<string>, m: Classes)
    requires Lists(list, keys, m) && Keyed(m)
    ensures NameMap(list) == m
  {
    NameMapPrefix(list, keys, m, |keys|);
    assert list[..|keys|] == list && keys[..|keys|] == keys;
  }

  /** A group is mapped to the last listed class of that group. */
  lemma {:induction false} NameMapIsLast(list: seq<ClassState>, v: string)
    ensures v in NameMap(list) <==> exists i :: IsLastOf(list, v, i)
    ensures forall i :: IsLastOf(list, v, i) ==> v in NameMap(list) && NameMap(list)[v] == list[i]
  {
    if list != [] {
      var n := |list| - 1;
      NameMapIsLast(list[..n], v);
      if list[n].vgName == v {
        assert IsLastOf(list, v, n);
      } else {
        forall i ensures IsLastOf(list, v, i) <==> IsLastOf(list[..n], v, i) {
        }
      }
    }
  }

  ghost predicate IsLastOf(list: seq<ClassState>, v: string, i: int) {
    0 <= i < |list| && list[i].vgName == v && forall j :: i < j < |list| ==> list[j].vgName != v
  }

  lemma {:induction false} NameMapKeys(list: seq<ClassState>)
    ensures forall v :: v in NameMap(list) ==> NameMap(list)[v] in list && NameMap(list)[v].vgName == v
    ensures forall c :: c in list ==> c.vgName in NameMap(list)
  {
    if list != [] {
      var last := |list| - 1;
      assert list == list[..last] + [list[last]];
      NameMapKeys(list[..last]);
    }
  }

  /******* The lvmd configuration *******/

  function ConvertConfig(d: DeviceClass): LvmdClass {
    LvmdClass(d.className, d.vgName, d.spareGb, d.default_, d.stripe, d.stripeSize)
  }

  function ConvertAll(ds: seq<DeviceClass>): (r: seq<LvmdClass>)
    ensures |r| == |ds| && forall i :: 0 <= i < |r| ==> r[i] == ConvertConfig(ds[i])
  {
    seq(|ds|, i requires 0 <= i < |ds| => ConvertConfig(ds[i]))
  }

  /** Takes over one class's default flag in the entries of its name. */
  function WithDefault(list: seq<LvmdClass>, d: DeviceClass): (r: seq<LvmdClass>)
    ensures |r| == |list|
    ensures forall i :: 0 <= i < |r| ==>
              r[i] == if list[i].name == d.className then list[i].(default_ := d.default_) else list[i]
  {
    seq(|list|, i requires 0 <= i < |list| =>
        if list[i].name == d.className then list[i].(default_ := d.default_) else list[i])
  }

  function WithDefaults(list: seq<LvmdClass>, ds: seq<DeviceClass>): (r: seq<LvmdClass>)
    ensures |r| == |list| && forall i :: 0 <= i < |r| ==> r[i].(default_ := list[i].default_) == list[i]
  {
    if ds == [] then list else WithDefault(WithDefaults(list, ds[..|ds| - 1]), ds[|ds| - 1])
  }

  lemma WithDefaultAt(list: seq<LvmdClass>, ds: seq<DeviceClass>, i: nat)
    requires i < |list| && ds != []
    ensures var rest, d := WithDefaults(list, ds[..|ds| - 1])[i], ds[|ds| - 1];
            && rest.name == list[i].name
            && WithDefaults(list, ds)[i] == if list[i].name == d.className then rest.(default_ := d.default_) else rest
  {
  }

  /** An entry that no class names stays as it is. */
  lemma {:induction false} DefaultsKeepOthers(list: seq<LvmdClass>, ds: seq<DeviceClass>, i: nat)
    requires i < |list| && forall k :: 0 <= k < |ds| ==> ds[k].className != list[i].name
    ensures WithDefaults(list, ds)[i] == list[i]
  {
    if ds != [] {
      WithDefaultAt(list, ds, i);
      DefaultsKeepOthers(list, ds[..|ds| - 1], i);
    }
  }

  /** An entry takes over the default flag of the last class of its name. */
  lemma {:induction false} DefaultsFromLast(list: seq<LvmdClass>, ds: seq<DeviceClass>, i: nat, k: nat)
    requires i < |list| && k < |ds| && ds[k].className == list[i].name
    requires forall j :: k < j < |ds| ==> ds[j].className != list[i].name
    ensures WithDefaults(list, ds)[i] == list[i].(default_ := ds[k].default_)
  {
    WithDefaultAt(list, ds, i);
    if k < |ds| - 1 { DefaultsFromLast(list, ds[..|ds| - 1], i, k); }
  }

  function KeptNames(list: seq<LvmdClass>, names: set<string>): (r: seq<LvmdClass>)
    ensures forall e :: e in r <==> e in list && e.name in names
  {
    if list == [] then []
    else
      var last := |list| - 1;
      assert list == list[..last] + [list[last]];
      KeptNames(list[..last], names) + (if list[last].name in names then [list[last]] else [])
  }

  /** The lvmd key after a pass: created if absent, else updated, extended and pruned. */
  function UpdatedLvmd(lvmd: Option<seq<LvmdClass>>, spec: seq<DeviceClass>, newVgs: seq<DeviceClass>,
                       names: set<string>): Option<seq<LvmdClass>> {
    if lvmd.None? then (if newVgs == [] then None else Some(ConvertAll(newVgs)))
    else Some(KeptNames(WithDefaults(lvmd.value, spec) + ConvertAll(newVgs), names))
  }

  function LvmdNames(lvmd: Option<seq<LvmdClass>>): set<string> {
    if lvmd.None? then {} else set e | e in lvmd.value :: e.name
  }

  function ClassNames(m: Classes): set<string> { set v | v in m :: m[v].name }

  function NewNames(ds: seq<DeviceClass>): set<string> { set d | d in ds :: d.className }

  /** Exactly when the lvmd configuration names the success classes after a pass: with an
      lvmd key, when no success class is unheard of; without one, when the new classes are
      the success classes. The key's absence skips the pruning. */
  lemma LvmdNamesIff(lvmd: Option<seq<LvmdClass>>, spec: seq<DeviceClass>, newVgs: seq<DeviceClass>, suc: Classes)
    ensures LvmdNames(UpdatedLvmd(lvmd, spec, newVgs, ClassNames(suc))) == ClassNames(suc)
            <==> if lvmd.Some? then ClassNames(suc) <= LvmdNames(lvmd) + NewNames(newVgs)
                 else ClassNames(suc) == NewNames(newVgs)
  {
    LvmdNamesAfter(lvmd, spec, newVgs, ClassNames(suc));
  }

  function EntryNames(list: seq<LvmdClass>): set<string> { set e | e in list :: e.name }

  lemma DefaultsKeepNames(list: seq<LvmdClass>, ds: seq<DeviceClass>)
    ensures EntryNames(WithDefaults(list, ds)) == EntryNames(list)
  {
  }

  lemma LvmdNamesAfter(lvmd: Option<seq<LvmdClass>>, spec: seq<DeviceClass>, newVgs: seq<DeviceClass>,
      names: set<string>)
    ensures LvmdNames(UpdatedLvmd(lvmd, spec, newVgs, names))
            == if lvmd.None? then NewNames(newVgs) else (LvmdNames(lvmd) + NewNames(newVgs)) * names
  {
  }
}
