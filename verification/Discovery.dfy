// The discovery daemon of a node: it creates, re-specs and deletes the node's RawDevice
// objects so that they follow the block devices found on the node.
module Discovery {
  import opened RawDevices
  import opened ApiServers
  import opened Protocol

  /** The specs a list of disks asks for, by object name; a later disk overrides. */
  function Desired(hash: string -> string, node: string, disks: seq<Disk>): map<string, Spec> {
    if disks == [] then map[]
    else
      var dev := Convert(hash, node, disks[|disks| - 1]);
      Desired(hash, node, disks[..|disks| - 1])[dev.name := dev.spec]
  }

  lemma DesiredNames(hash: string -> string, node: string, disks: seq<Disk>, name: string)
    ensures name in Desired(hash, node, disks) <==>
              exists k :: 0 <= k < |disks| && hash(node + disks[k].realPath) == name
  {
  }

  /** Each wanted object has the converted spec of a disk, the last one of that name. */
  lemma {:induction false} DesiredIsLast(hash: string -> string, node: string, disks: seq<Disk>, name: string)
    returns (k: nat)
    requires name in Desired(hash, node, disks)
    ensures k < |disks| && Convert(hash, node, disks[k]).name == name
    ensures Desired(hash, node, disks)[name] == Convert(hash, node, disks[k]).spec
    ensures forall j :: k < j < |disks| ==> hash(node + disks[j].realPath) != name
  {
    var last := |disks| - 1;
    if Convert(hash, node, disks[last]).name == name {
      k := last;
    } else {
      k := DesiredIsLast(hash, node, disks[..last], name);
      assert forall j :: k < j < last ==> disks[..last][j] == disks[j];
    }
  }

  lemma {:induction false} RunAppend(hash: string -> string, w: World, a: seq<Action>, b: seq<Action>)
    ensures Run(hash, w, a + b) == Run(hash, Run(hash, w, a), b)
    ensures Legal(hash, w, a + b) <==> Legal(hash, w, a) && Legal(hash, Run(hash, w, a), b)
    ensures DeletesAreCurrent(hash, w, a + b)
            <==> DeletesAreCurrent(hash, w, a) && DeletesAreCurrent(hash, Run(hash, w, a), b)
  {
    if b == [] {
      assert a + b == a;
    } else {
      var last := |b| - 1;
      assert (a + b)[..|a + b| - 1] == a + b[..last] && (a + b)[|a + b| - 1] == b[last];
      RunAppend(hash, w, a, b[..last]);
      assert Run(hash, w, a + b) == Apply(hash, Run(hash, w, a + b[..last]), b[last]);
    }
  }

  /** What creating or updating the object of one disk makes of the server. */
  function Synced(hash: string -> string, w: World, node: string, disk: Disk): World {
    var dev := Convert(hash, node, disk);
    var (created, reply) := Create(w, dev);
    if reply.AlreadyExists? then Update(w, w.objects[dev.name].(spec := dev.spec)).0 else created
  }

  function SyncedAll(hash: string -> string, w: World, node: string, disks: seq<Disk>): World {
    if disks == [] then w
    else Synced(hash, SyncedAll(hash, w, node, disks[..|disks| - 1]), node, disks[|disks| - 1])
  }

  predicate Found(hash: string -> string, node: string, disks: seq<Disk>, name: string) {
    exists k :: 0 <= k < |disks| && hash(node + disks[k].realPath) == name
  }

  /** A listed object that looks free and whose disk is gone. */
  predicate Vanished(hash: string -> string, node: string, disks: seq<Disk>, d: RawDevice) {
    d.volume == "" && !Found(hash, node, disks, d.name)
  }

  function Swept(hash: string -> string, w: World, node: string, disks: seq<Disk>, raws: seq<RawDevice>): World {
    if raws == [] then w
    else
      var last := |raws| - 1;
      var rest := Swept(hash, w, node, disks, raws[..last]);
      if Vanished(hash, node, disks, raws[last]) then Delete(rest, raws[last].name).0 else rest
  }

  /** The server's answer to the last deletion, if there was one. */
  function SweptReply(hash: string -> string, w: World, node: string, disks: seq<Disk>, raws: seq<RawDevice>): Reply {
    if raws == [] then Done
    else
      var last := |raws| - 1;
      if Vanished(hash, node, disks, raws[last])
      then Delete(Swept(hash, w, node, disks, raws[..last]), raws[last].name).1
      else SweptReply(hash, w, node, disks, raws[..last])
  }

  /** A pass over the listing reports an error only if its last deletion found nothing. */
  lemma {:induction false} SweptReplyIs(hash: string -> string, w: World, node: string, disks: seq<Disk>,
                                        raws: seq<RawDevice>, k: nat)
    requires k < |raws| && Vanished(hash, node, disks, raws[k])
    requires forall j :: k < j < |raws| ==> !Vanished(hash, node, disks, raws[j])
    ensures SweptReply(hash, w, node, disks, raws)
            == if raws[k].name in Swept(hash, w, node, disks, raws[..k]).objects then Done else NotFound
  {
    if k < |raws| - 1 {
      assert raws[..|raws| - 1][..k] == raws[..k];
      SweptReplyIs(hash, w, node, disks, raws[..|raws| - 1], k);
    }
  }

  /******* The same effects as steps of the protocol *******/

  function SyncActs(hash: string -> string, w: World, node: string, disk: Disk): seq<Action> {
    var name := hash(node + disk.realPath);
    if name in w.objects then [DaemonUpdate(node, disk, w.objects[name])] else [DaemonCreate(node, disk)]
  }

  lemma OneStep(hash: string -> string, w: World, a: Action)
    ensures Run(hash, w, [a]) == Apply(hash, w, a)
    ensures Legal(hash, w, [a]) <==> Enabled(hash, w, a)
    ensures !a.DaemonDelete? ==> DeletesAreCurrent(hash, w, [a])
  {
  }

  lemma SyncIsRun(hash: string -> string, w: World, node: string, disk: Disk)
    requires HashOk(hash) && Inv(hash, w) && NodeOk(node) && PathOk(disk.realPath)
    ensures var acts := SyncActs(hash, w, node, disk);
            && Legal(hash, w, acts) && DeletesAreCurrent(hash, w, acts)
            && Run(hash, w, acts) == Synced(hash, w, node, disk)
    ensures Inv(hash, Synced(hash, w, node, disk))
  {
    var a := SyncActs(hash, w, node, disk)[0];
    OneStep(hash, w, a);
    SyncIsStep(hash, w, node, disk);
    StepKeepsInv(hash, w, a);
  }

  lemma SyncIsStep(hash: string -> string, w: World, node: string, disk: Disk)
    requires HashOk(hash) && Versioned(w) && NodeOk(node) && PathOk(disk.realPath)
    ensures var acts := SyncActs(hash, w, node, disk);
            |acts| == 1 && Enabled(hash, w, acts[0]) && Apply(hash, w, acts[0]) == Synced(hash, w, node, disk)
  {
  }

  function SyncAllActs(hash: string -> string, w: World, node: string, disks: seq<Disk>): seq<Action> {
    if disks == [] then []
    else
      var last := |disks| - 1;
      SyncAllActs(hash, w, node, disks[..last])
      + SyncActs(hash, SyncedAll(hash, w, node, disks[..last]), node, disks[last])
  }

  predicate DisksOk(disks: seq<Disk>) { forall k :: 0 <= k < |disks| ==> PathOk(disks[k].realPath) }

  lemma {:induction false} SyncAllIsRun(hash: string -> string, w: World, node: string, disks: seq<Disk>)
    requires HashOk(hash) && Inv(hash, w) && NodeOk(node) && DisksOk(disks)
    ensures var acts := SyncAllActs(hash, w, node, disks);
            && Legal(hash, w, acts) && DeletesAreCurrent(hash, w, acts)
            && Run(hash, w, acts) == SyncedAll(hash, w, node, disks)
    ensures Inv(hash, SyncedAll(hash, w, node, disks))
  {
    if disks != [] {
      var last := |disks| - 1;
      var mid := SyncedAll(hash, w, node, disks[..last]);
      SyncAllIsRun(hash, w, node, disks[..last]);
      SyncIsRun(hash, mid, node, disks[last]);
      RunAppend(hash, w, SyncAllActs(hash, w, node, disks[..last]), SyncActs(hash, mid, node, disks[last]));
    }
  }

  function SweepActs(hash: string -> string, node: string, disks: seq<Disk>, raws: seq<RawDevice>): seq<Action> {
    if raws == [] then []
    else
      var last := |raws| - 1;
      SweepActs(hash, node, disks, raws[..last])
      + (if Vanished(hash, node, disks, raws[last]) then [DaemonDelete(raws[last])] else [])
  }

  /** Every stored object of the list is the listed one. */
  ghost predicate Current(w: World, raws: seq<RawDevice>) {
    forall d :: d in raws && d.name in w.objects ==> d == w.objects[d.name]
  }

  lemma {:induction false} SweepEffect(hash: string -> string, w: World, node: string, disks: seq<Disk>,
      raws: seq<RawDevice>)
    ensures var next := Swept(hash, w, node, disks, raws);
            && next == w.(objects := next.objects)
            && (forall n :: n in next.objects <==>
                  n in w.objects && !exists d :: d in raws && d.name == n && Vanished(hash, node, disks, d))
            && (forall n :: n in next.objects ==> next.objects[n] == w.objects[n])
  {
    if raws != [] {
      var last := |raws| - 1;
      assert raws == raws[..last] + [raws[last]];
      SweepEffect(hash, w, node, disks, raws[..last]);
    }
  }

  lemma DeleteStep(hash: string -> string, w: World, acts: seq<Action>, d: RawDevice)
    requires Legal(hash, w, acts) && Inv(hash, Run(hash, w, acts))
    requires d in Run(hash, w, acts).history && d.volume == ""
    ensures var more := acts + [DaemonDelete(d)];
            && Legal(hash, w, more) && Run(hash, w, more) == Delete(Run(hash, w, acts), d.name).0
            && Inv(hash, Run(hash, w, more))
            && (DeletesAreCurrent(hash, w, acts) && Current(Run(hash, w, acts), [d]) ==>
                  DeletesAreCurrent(hash, w, more))
  {
    var more := acts + [DaemonDelete(d)];
    RunSnoc(hash, w, acts, DaemonDelete(d));
    assert more[..|more| - 1] == acts;
    if DeletesAreCurrent(hash, w, acts) && Current(Run(hash, w, acts), [d]) {
      assert d in [d];
      assert DeletesAreCurrent(hash, w, more);
    }
  }

  /** One listed object more: it stays, or its deletion is one more step. */
  lemma SweepStep(hash: string -> string, w: World, node: string, disks: seq<Disk>, front: seq<RawDevice>, d: RawDevice)
    requires var acts := SweepActs(hash, node, disks, front);
             && Legal(hash, w, acts) && Run(hash, w, acts) == Swept(hash, w, node, disks, front)
             && Inv(hash, Run(hash, w, acts)) && d in Run(hash, w, acts).history
    ensures var acts, more := SweepActs(hash, node, disks, front), SweepActs(hash, node, disks, front + [d]);
            && Legal(hash, w, more) && Run(hash, w, more) == Swept(hash, w, node, disks, front + [d])
            && Inv(hash, Run(hash, w, more))
            && (DeletesAreCurrent(hash, w, acts) && Current(Run(hash, w, acts), [d]) ==>
                  DeletesAreCurrent(hash, w, more))
  {
    SweepSnoc(hash, w, node, disks, front, d);
    if Vanished(hash, node, disks, d) {
      DeleteStep(hash, w, SweepActs(hash, node, disks, front), d);
    }
  }

  lemma SweepSnoc(hash: string -> string, w: World, node: string, disks: seq<Disk>, front: seq<RawDevice>, d: RawDevice)
    ensures var acts, rest := SweepActs(hash, node, disks, front), Swept(hash, w, node, disks, front);
            if Vanished(hash, node, disks, d) then
              && SweepActs(hash, node, disks, front + [d]) == acts + [DaemonDelete(d)]
              && Swept(hash, w, node, disks, front + [d]) == Delete(rest, d.name).0
            else
              SweepActs(hash, node, disks, front + [d]) == acts && Swept(hash, w, node, disks, front + [d]) == rest
  {
  }

  lemma {:induction false} SweepIsRun(hash: string -> string, w: World, node: string, disks: seq<Disk>,
      raws: seq<RawDevice>)
    requires Inv(hash, w) && forall d :: d in raws ==> d in w.history
    ensures var acts := SweepActs(hash, node, disks, raws);
            && Legal(hash, w, acts)
            && Run(hash, w, acts) == Swept(hash, w, node, disks, raws)
            && (Current(w, raws) ==> DeletesAreCurrent(hash, w, acts))
    ensures Inv(hash, Swept(hash, w, node, disks, raws))
  {
    if raws != [] {
      var front, d := raws[..|raws| - 1], raws[|raws| - 1];
      assert raws == front + [d];
      SweepIsRun(hash, w, node, disks, front);
      SweepEffect(hash, w, node, disks, front);
      SweepStep(hash, w, node, disks, front, d);
      CurrentParts(w, Swept(hash, w, node, disks, front), front, d);
    }
  }

  lemma CurrentParts(w: World, v: World, front: seq<RawDevice>, d: RawDevice)
    requires forall n :: n in v.objects ==> n in w.objects && v.objects[n] == w.objects[n]
    ensures Current(w, front + [d]) ==> Current(w, front) && Current(v, [d])
  {
  }

  /******* What one pass achieves *******/

  /** The objects after the create-or-update loop, compared with those before. */
  ghost predicate Respecced(was: map<string, RawDevice>, now: map<string, RawDevice>, node: string,
      want: map<string, Spec>)
  {
    && now.Keys == was.Keys + want.Keys
    && (forall n :: n in was && n !in want ==> now[n] == was[n])
    && (forall n :: n in was && n in want ==>
          now[n] == was[n].(spec := want[n], version := now[n].version))
    && (forall n :: n in want && n !in was ==>
          now[n].spec == want[n] && now[n].volume == "" && now[n].labels == map["node" := node])
  }

  ghost predicate NamesMatch(objects: map<string, RawDevice>) { forall n :: n in objects ==> objects[n].name == n }

  lemma SyncEffect(hash: string -> string, w: World, node: string, disk: Disk)
    requires HashOk(hash) && NamesMatch(w.objects)
    ensures var dev, next := Convert(hash, node, disk), Synced(hash, w, node, disk);
            && next.commits == w.commits && NamesMatch(next.objects)
            && Respecced(w.objects, next.objects, node, map[dev.name := dev.spec])
  {
    var dev := Convert(hash, node, disk);
    if dev.name in w.objects {
      var stored := w.objects[dev.name];
      assert Update(w, stored.(spec := dev.spec)).1.Done?;
    }
  }

  lemma RespeccedTwice(was: map<string, RawDevice>, mid: map<string, RawDevice>, now: map<string, RawDevice>,
                       node: string, want: map<string, Spec>, name: string, spec: Spec)
    requires Respecced(was, mid, node, want) && Respecced(mid, now, node, map[name := spec])
    ensures Respecced(was, now, node, want[name := spec])
  {
    var more := want[name := spec];
    assert now.Keys == was.Keys + more.Keys;
    assert forall n :: n in mid && n != name ==> now[n] == mid[n];
    forall n | n in was && n !in more ensures now[n] == was[n] {
      assert mid[n] == was[n];
    }
    forall n | n in was && n in more ensures now[n] == was[n].(spec := more[n], version := now[n].version) {
      if n == name {
        assert now[n] == mid[n].(spec := spec, version := now[n].version);
      } else {
        assert mid[n] == was[n].(spec := want[n], version := mid[n].version);
      }
    }
    forall n | n in more && n !in was
      ensures now[n].spec == more[n] && now[n].volume == "" && now[n].labels == map["node" := node]
    {
      if n in mid && n == name { assert now[n] == mid[n].(spec := spec, version := now[n].version); }
    }
  }

  lemma {:induction false} SyncAllEffect(hash: string -> string, w: World, node: string, disks: seq<Disk>)
    requires HashOk(hash) && NamesMatch(w.objects)
    ensures var next := SyncedAll(hash, w, node, disks);
            && Respecced(w.objects, next.objects, node, Desired(hash, node, disks))
            && next.commits == w.commits && NamesMatch(next.objects)
  {
    if disks != [] {
      var last := |disks| - 1;
      var mid := SyncedAll(hash, w, node, disks[..last]);
      var dev := Convert(hash, node, disks[last]);
      SyncAllEffect(hash, w, node, disks[..last]);
      SyncEffect(hash, mid, node, disks[last]);
      RespeccedTwice(w.objects, mid.objects, Synced(hash, mid, node, disks[last]).objects, node,
                     Desired(hash, node, disks[..last]), dev.name, dev.spec);
    }
  }

  /** The objects after a pass, compared with those before: the node keeps the disks found
      and the vanished devices that are handed out; everybody's status stays. */
  ghost predicate Mirrors(hash: string -> string, was: map<string, RawDevice>, now: map<string, RawDevice>,
                          node: string, disks: seq<Disk>) {
    var want := Desired(hash, node, disks);
    && (forall n :: n in now <==> n in want || (n in was && (was[n].volume != "" || !OnNode(was[n], node))))
    && (forall n :: n in was && n !in want && n in now ==> now[n] == was[n])
    && (forall n :: n in was && n in want ==> now[n] == was[n].(spec := want[n], version := now[n].version))
    && (forall n :: n in want && n !in was ==>
          now[n].spec == want[n] && now[n].volume == "" && now[n].labels == map["node" := node])
  }

  lemma PassMirrors(hash: string -> string, w: World, node: string, disks: seq<Disk>, raws: seq<RawDevice>)
    requires HashOk(hash) && NamesMatch(w.objects)
    requires var mid := SyncedAll(hash, w, node, disks);
             forall d :: d in raws <==> d.name in mid.objects && mid.objects[d.name] == d && OnNode(d, node)
    ensures Mirrors(hash, w.objects, Swept(hash, SyncedAll(hash, w, node, disks), node, disks, raws).objects,
                    node, disks)
  {
    var mid := SyncedAll(hash, w, node, disks);
    SyncAllEffect(hash, w, node, disks);
    SweepEffect(hash, mid, node, disks, raws);
    var now := Swept(hash, mid, node, disks, raws).objects;
    var want := Desired(hash, node, disks);
    forall n
      ensures n in now <==> n in want || (n in w.objects && (w.objects[n].volume != "" || !OnNode(w.objects[n], node)))
    {
      DesiredNames(hash, node, disks, n);
      if n in mid.objects {
        assert mid.objects[n] in raws <==> OnNode(mid.objects[n], node);
      }
    }
  }

  /** No later disk has the same path. */
  predicate LastOfPath(disks: seq<Disk>, k: int) {
    0 <= k < |disks| && forall j :: k < j < |disks| ==> disks[j].realPath != disks[k].realPath
  }

  /** The node's objects describe the disks found, those of other nodes stay as they were, and of
      the node's objects without a disk those handed out stay and the others go. */
  ghost predicate Shown(hash: string -> string, was: map<string, RawDevice>, now: map<string, RawDevice>, node: string,
                        disks: seq<Disk>) {
    && (forall k :: LastOfPath(disks, k) ==>
          hash(node + disks[k].realPath) in now && Describes(now[hash(node + disks[k].realPath)], node, disks[k]))
    && (forall n :: n in was && was[n].spec.nodeName != node ==> n in now && now[n] == was[n])
    && (forall n :: n in was && was[n].spec.nodeName == node && !Found(hash, node, disks, n) ==>
          if was[n].volume == "" then n !in now else n in now && now[n] == was[n])
    && (forall n :: n in now && n in was ==> now[n].volume == was[n].volume && now[n].uid == was[n].uid)
    && (forall n :: n in now && n !in was ==> now[n].volume == "" && Found(hash, node, disks, n))
  }

  /** Names of a node's disks are as distinct as their paths. */
  lemma LastIsDesired(hash: string -> string, node: string, disks: seq<Disk>, k: nat)
    requires HashOk(hash) && LastOfPath(disks, k)
    ensures var n := hash(node + disks[k].realPath);
            n in Desired(hash, node, disks) && Desired(hash, node, disks)[n] == Convert(hash, node, disks[k]).spec
  {
    var n := hash(node + disks[k].realPath);
    DesiredNames(hash, node, disks, n);
    var i := DesiredIsLast(hash, node, disks, n);
    assert node + disks[i].realPath == node + disks[k].realPath;
    assert disks[i].realPath == (node + disks[i].realPath)[|node|..] == disks[k].realPath;
  }

  lemma WantedDescribes(hash: string -> string, was: map<string, RawDevice>, now: map<string, RawDevice>, node: string,
                        disks: seq<Disk>, k: nat)
    requires HashOk(hash) && NodeOk(node) && DisksOk(disks) && Mirrors(hash, was, now, node, disks)
    requires forall n :: n in was ==> was[n].name == n && KeyedObject(hash, was[n])
    requires LastOfPath(disks, k)
    ensures var n := hash(node + disks[k].realPath); n in now && Describes(now[n], node, disks[k])
  {
    var n := hash(node + disks[k].realPath);
    LastIsDesired(hash, node, disks, k);
    ConvertDescribes(hash, node, disks[k]);
    if n in was { SameKey(hash, was[n], node, disks[k]); }
  }

  lemma OthersAreUnwanted(hash: string -> string, d: RawDevice, node: string, disks: seq<Disk>)
    requires HashOk(hash) && NodeOk(node) && DisksOk(disks) && KeyedObject(hash, d) && d.spec.nodeName != node
    ensures !Found(hash, node, disks, d.name)
  {
    forall k | 0 <= k < |disks| ensures hash(node + disks[k].realPath) != d.name {
      if hash(node + disks[k].realPath) == d.name {
        KeyIsInjective(d.spec.nodeName, d.spec.realPath, node, disks[k].realPath);
      }
    }
  }

  /** What mirroring means for the objects. */
  lemma MirrorsShown(hash: string -> string, was: map<string, RawDevice>, now: map<string, RawDevice>, node: string,
                     disks: seq<Disk>)
    requires HashOk(hash) && NodeOk(node) && DisksOk(disks) && Mirrors(hash, was, now, node, disks)
    requires forall n :: n in was ==> was[n].name == n && KeyedObject(hash, was[n])
    ensures Shown(hash, was, now, node, disks)
  {
    forall k | LastOfPath(disks, k)
      ensures hash(node + disks[k].realPath) in now && Describes(now[hash(node + disks[k].realPath)], node, disks[k])
    {
      WantedDescribes(hash, was, now, node, disks, k);
    }
    forall n ensures n in Desired(hash, node, disks) <==> Found(hash, node, disks, n) {
      DesiredNames(hash, node, disks, n);
    }
    forall n | n in was && was[n].spec.nodeName != node ensures !Found(hash, node, disks, n) {
      OthersAreUnwanted(hash, was[n], node, disks);
    }
  }

  /** A second pass over the same disks changes nothing but versions. */
  lemma SecondPassChangesNothing(hash: string -> string, was: map<string, RawDevice>, mid: map<string, RawDevice>,
                                 now: map<string, RawDevice>, node: string, disks: seq<Disk>)
    requires Mirrors(hash, was, mid, node, disks) && Mirrors(hash, mid, now, node, disks)
    ensures now.Keys == mid.Keys
    ensures forall n :: n in now ==> now[n] == mid[n].(version := now[n].version)
  {
    var want := Desired(hash, node, disks);
    forall n | n in mid && n !in want ensures n in now {
      assert mid[n] == was[n];
    }
  }

  /** A pass never drops a handed-out device, and leaves every status as it was. */
  lemma PassKeepsAllocations(hash: string -> string, was: map<string, RawDevice>, now: map<string, RawDevice>,
                             node: string, disks: seq<Disk>, n: string)
    requires Mirrors(hash, was, now, node, disks) && n in was && was[n].volume != ""
    ensures n in now && now[n].volume == was[n].volume && now[n].uid == was[n].uid
  {
  }

  class DeviceManager {
    const server: ApiServer
    const nodeName: string
    const hash: string -> string

    constructor (server: ApiServer, nodeName: string, hash: string -> string)
      ensures this.server == server && this.nodeName == nodeName && this.hash == hash
    {
      this.server, this.nodeName, this.hash := server, nodeName, hash;
    }

    /** Creates the object, or overwrites the spec of the stored one. The reply is that of the
        creation even when the update then succeeds. */
    method CreateOrUpdateRawDevice(disk: Disk) returns (reply: Reply)
      requires NamesMatch(server.objects)
      modifies server
      ensures server.View() == Synced(hash, old(server.View()), nodeName, disk)
      ensures reply == Create(old(server.View()), Convert(hash, nodeName, disk)).1
    {
      var dev := Convert(hash, nodeName, disk);
      reply := server.Create(dev);
      if reply.AlreadyExists? {
        var found, newDev := server.Get(dev.name);
        var _ := server.Update(newDev.(spec := dev.spec));
      }
    }

    /** Deletes what the listed view, which may be stale, shows as free and gone. */
    method CheckRawDeviceDeleted(disks: seq<Disk>, raws: seq<RawDevice>) returns (reply: Reply)
      modifies server
      ensures server.View() == Swept(hash, old(server.View()), nodeName, disks, raws)
      ensures reply == SweptReply(hash, old(server.View()), nodeName, disks, raws)
    {
      reply := Done;
      for k := 0 to |raws|
        invariant server.View() == Swept(hash, old(server.View()), nodeName, disks, raws[..k])
        invariant reply == SweptReply(hash, old(server.View()), nodeName, disks, raws[..k])
      {
        assert raws[..k + 1][..k] == raws[..k];
        var dev := raws[k];
        var found := false;
        for i := 0 to |disks|
          invariant found <==> exists j :: 0 <= j < i && hash(nodeName + disks[j].realPath) == dev.name
          invariant server.View() == Swept(hash, old(server.View()), nodeName, disks, raws[..k])
        {
          if dev.name == hash(nodeName + disks[i].realPath) { found := true; }
        }
        if !found && dev.volume == "" { reply := server.Delete(dev.name); }
      }
      assert raws[..|raws|] == raws;
    }

    method CreateOrUpdateAll(disks: seq<Disk>)
      requires HashOk(hash) && NamesMatch(server.objects)
      modifies server
      ensures server.View() == SyncedAll(hash, old(server.View()), nodeName, disks)
    {
      for k := 0 to |disks|
        invariant server.View() == SyncedAll(hash, old(server.View()), nodeName, disks[..k])
      {
        assert disks[..k + 1][..k] == disks[..k];
        SyncAllEffect(hash, old(server.View()), nodeName, disks[..k]);
        var _ := CreateOrUpdateRawDevice(disks[k]);
      }
      assert disks[..|disks|] == disks;
    }

    /** One pass with a current listing. It is itself a run of the protocol in which every
        deletion acts on a current view. */
    method Pass(disks: seq<Disk>) returns (ghost acts: seq<Action>)
      requires HashOk(hash) && Inv(hash, server.View()) && NodeOk(nodeName) && DisksOk(disks)
      modifies server
      ensures Inv(hash, server.View())
      ensures Mirrors(hash, old(server.objects), server.objects, nodeName, disks)
      ensures Shown(hash, old(server.objects), server.objects, nodeName, disks)
      ensures Legal(hash, old(server.View()), acts) && server.View() == Run(hash, old(server.View()), acts)
      ensures DeletesAreCurrent(hash, old(server.View()), acts)
    {
      ghost var w := server.View();
      CreateOrUpdateAll(disks);
      ghost var mid := server.View();
      SyncAllIsRun(hash, w, nodeName, disks);
      var raws := server.ListByNode(nodeName);
      var _ := CheckRawDeviceDeleted(disks, raws);
      SweepIsRun(hash, mid, nodeName, disks, raws);
      PassMirrors(hash, w, nodeName, disks, raws);
      MirrorsShown(hash, w.objects, server.objects, nodeName, disks);
      acts := SyncAllActs(hash, w, nodeName, disks) + SweepActs(hash, nodeName, disks, raws);
      RunAppend(hash, w, SyncAllActs(hash, w, nodeName, disks), SweepActs(hash, nodeName, disks, raws));
    }
  }
}
