// The raw-device protocol: any number of controllers and discovery daemons act on one API
// server, each from whatever past object versions its cache happens to hold.
module Protocol {
  import opened RawDevices
  import opened Allocator

  /** What discovery learns about one block device; `size` is uint64 in the source. */
  datatype Disk = Disk(realPath: string, size: nat, kind: string, uuid: string,
                       available: bool, major: nat, minor: nat)

  function Convert(hash: string -> string, node: string, disk: Disk): RawDevice {
    RawDevice(hash(node + disk.realPath), map["node" := node],
              Spec(node, Wrap(disk.size), disk.kind, disk.realPath, disk.major, disk.minor, disk.uuid, disk.available),
              "", 0, 0)
  }

  /** The index of the last entry whose Status.Name is `id`, or -1. */
  function LastNamed(view: seq<RawDevice>, id: string): (i: int)
    ensures -1 <= i < |view|
    ensures i >= 0 ==> view[i].volume == id
    ensures forall j :: i < j < |view| ==> view[j].volume != id
  {
    if view == [] then -1
    else if view[|view| - 1].volume == id then |view| - 1
    else LastNamed(view[..|view| - 1], id)
  }

  /** One atomic step. A `view` is the list a controller read from its cache, `got` the
      object a daemon fetched before its update, `seen` the cached object it finds gone. */
  datatype Action =
    | CreateVolume(view: seq<RawDevice>, node: string, requestGb: Int64)
    | DeleteVolume(view: seq<RawDevice>, id: string)
    | DaemonCreate(node: string, disk: Disk)
    | DaemonUpdate(node: string, disk: Disk, got: RawDevice)
    | DaemonDelete(seen: RawDevice)

  ghost predicate HashOk(hash: string -> string) {
    && (forall a, b :: hash(a) == hash(b) ==> a == b)
    && (forall a :: hash(a) != "")
  }

  predicate NodeOk(node: string) { '/' !in node }

  predicate PathOk(path: string) { path != "" && path[0] == '/' }

  ghost predicate Enabled(hash: string -> string, w: World, a: Action) {
    match a
    case CreateVolume(view, node, requestGb) => 1 <= requestGb && (forall d :: d in view ==> d in w.history)
    case DeleteVolume(view, id) => id != "" && (forall d :: d in view ==> d in w.history)
    case DaemonCreate(node, disk) => NodeOk(node) && PathOk(disk.realPath)
    case DaemonUpdate(node, disk, got) =>
      NodeOk(node) && PathOk(disk.realPath) && got in w.history && got.name == hash(node + disk.realPath)
    case DaemonDelete(seen) => seen in w.history && seen.volume == ""
  }

  function HandOut(w: World, dev: RawDevice): World {
    var (next, reply) := UpdateStatus(w, dev.(volume := dev.name));
    if reply.Done? then Log(next, Handed(dev.uid, dev.name)) else next
  }

  function TakeBack(w: World, dev: RawDevice): World {
    var (next, reply) := UpdateStatus(w, dev.(volume := ""));
    if reply.Done? then Log(next, Freed(dev.uid, dev.name)) else next
  }

  function Apply(hash: string -> string, w: World, a: Action): World {
    match a
    case CreateVolume(view, node, requestGb) =>
      var mine := ByNode(view, node);
      var i := BestFit(mine, requestGb);
      if i < 0 then w else HandOut(w, mine[i])
    case DeleteVolume(view, id) =>
      var i := LastNamed(view, id);
      if i < 0 then w else TakeBack(w, view[i])
    case DaemonCreate(node, disk) => Create(w, Convert(hash, node, disk)).0
    case DaemonUpdate(node, disk, got) => Update(w, got.(spec := Convert(hash, node, disk).spec)).0
    case DaemonDelete(seen) => Delete(w, seen.name).0
  }

  function Run(hash: string -> string, w: World, acts: seq<Action>): World {
    if acts == [] then w
    else Apply(hash, Run(hash, w, acts[..|acts| - 1]), acts[|acts| - 1])
  }

  ghost predicate Legal(hash: string -> string, w: World, acts: seq<Action>) {
    acts == [] ||
    (&& Legal(hash, w, acts[..|acts| - 1])
     && Enabled(hash, Run(hash, w, acts[..|acts| - 1]), acts[|acts| - 1]))
  }

  /******* What every run keeps *******/

  /** Commits are followed by object (uid) or by name, across re-creations of the object. */
  datatype Key = ByUid(uid: nat) | ByName(name: string)

  predicate Concerns(c: Commit, key: Key) {
    match key
    case ByUid(uid) => c.uid == uid
    case ByName(name) => c.name == name
  }

  /** The commits under a key, oldest first; true for a hand-out, false for a free. */
  function Kinds(commits: seq<Commit>, key: Key): seq<bool> {
    if commits == [] then []
    else
      var last := commits[|commits| - 1];
      Kinds(commits[..|commits| - 1], key) + (if Concerns(last, key) then [last.Handed?] else [])
  }

  /** Strict alternation that starts with a hand-out. */
  ghost predicate Alternates(kinds: seq<bool>) {
    forall i :: 0 <= i < |kinds| ==> kinds[i] == (i % 2 == 0)
  }

  /** Handed out and not freed since. */
  predicate Out(kinds: seq<bool>) { |kinds| % 2 == 1 }

  lemma AlternatesSnoc(kinds: seq<bool>, handed: bool)
    requires Alternates(kinds) && handed == !Out(kinds)
    ensures Alternates(kinds + [handed]) && Out(kinds + [handed]) == handed
  {
  }

  /** Versions identify contents; a volume id is the name of its own device. */
  ghost predicate Versioned(w: World) {
    && (forall n :: n in w.objects ==> w.objects[n].name == n && w.objects[n] in w.history)
    && (forall o :: o in w.history ==>
          o.name != "" && o.uid <= o.version < w.clock && (o.volume == "" || o.volume == o.name))
    && (forall o, p :: o in w.history && p in w.history && o.version == p.version ==> o == p)
    && (forall o, p :: o in w.history && p in w.history && o.uid == p.uid ==> o.name == p.name)
    && (forall c :: c in w.commits ==> c.uid < w.clock)
  }

  /** A key's commits alternate and tell whether the object now stored is handed out. */
  ghost predicate Accounted(w: World) {
    && (forall u :: Alternates(Kinds(w.commits, ByUid(u))))
    && (forall n :: n in w.objects ==> (Out(Kinds(w.commits, ByUid(w.objects[n].uid))) <==> w.objects[n].volume != ""))
  }

  /** The label, the spec and the name of a device agree about its node and path. */
  ghost predicate KeyedObject(hash: string -> string, o: RawDevice) {
    && o.labels == map["node" := o.spec.nodeName]
    && NodeOk(o.spec.nodeName) && PathOk(o.spec.realPath)
    && o.name == hash(o.spec.nodeName + o.spec.realPath)
  }

  ghost predicate Keyed(hash: string -> string, w: World) {
    forall o :: o in w.history ==> KeyedObject(hash, o)
  }

  ghost predicate Inv(hash: string -> string, w: World) { Versioned(w) && Accounted(w) && Keyed(hash, w) }

  /** Node name and path can be read back from their concatenation. */
  lemma KeyIsInjective(node: string, path: string, node': string, path': string)
    requires NodeOk(node) && NodeOk(node') && PathOk(path) && PathOk(path')
    requires node + path == node' + path'
    ensures node == node' && path == path'
  {
    var k := node + path;
    assert k[|node|] == '/' && k[|node'|] == '/';
    assert forall i :: 0 <= i < |node| ==> k[i] == node[i];
    assert forall i :: 0 <= i < |node'| ==> k[i] == node'[i];
    assert |node| == |node'|;
    assert node == k[..|node|] && path == k[|node|..];
  }

  lemma KindsSnoc(commits: seq<Commit>, c: Commit, key: Key)
    ensures Kinds(commits + [c], key) == Kinds(commits, key) + (if Concerns(c, key) then [c.Handed?] else [])
  {
  }

  lemma {:induction false} KindsOfUnseen(commits: seq<Commit>, uid: nat)
    requires forall c :: c in commits ==> c.uid != uid
    ensures Kinds(commits, ByUid(uid)) == []
  {
    if commits != [] {
      var last := |commits| - 1;
      assert commits[last] in commits;
      KindsOfUnseen(commits[..last], uid);
    }
  }

  lemma StoreKeepsVersioned(w: World, dev: RawDevice)
    requires Versioned(w) && dev.name != "" && dev.uid <= w.clock
    requires dev.volume == "" || dev.volume == dev.name
    requires forall o :: o in w.history && o.uid == dev.uid ==> o.name == dev.name
    ensures Versioned(Store(w, dev))
  {
  }

  lemma StoreKeepsKeyed(hash: string -> string, w: World, dev: RawDevice)
    requires Keyed(hash, w) && KeyedObject(hash, dev)
    ensures Keyed(hash, Store(w, dev))
  {
  }

  /** Stores `dev` with a new Status.Name and records that as a hand-out or a free. */
  function Committed(w: World, dev: RawDevice, volume: string): World {
    Log(Store(w, dev.(volume := volume)), if volume == "" then Freed(dev.uid, dev.name) else Handed(dev.uid, dev.name))
  }

  /** A status update that passes the version check acts on the object the caller saw; one
      that does not pass changes nothing. */
  lemma SeenIsStored(w: World, dev: RawDevice)
    requires Versioned(w) && dev in w.history
    ensures dev.volume == "" ==>
              HandOut(w, dev) == if dev.name in w.objects && dev == w.objects[dev.name]
                                 then Committed(w, dev, dev.name) else w
    ensures dev.volume != "" ==>
              TakeBack(w, dev) == if dev.name in w.objects && dev == w.objects[dev.name]
                                  then Committed(w, dev, "") else w
  {
  }

  lemma CommitKeepsAccounts(w: World, dev: RawDevice, volume: string)
    requires Accounted(w) && dev.name in w.objects && dev == w.objects[dev.name]
    requires (volume == "") != (dev.volume == "")
    requires forall n :: n in w.objects && n != dev.name ==> w.objects[n].uid != dev.uid
    ensures Accounted(Committed(w, dev, volume))
  {
    var next := Committed(w, dev, volume);
    var c := if volume == "" then Freed(dev.uid, dev.name) else Handed(dev.uid, dev.name);
    forall u
      ensures u != dev.uid ==> Kinds(next.commits, ByUid(u)) == Kinds(w.commits, ByUid(u))
      ensures Alternates(Kinds(next.commits, ByUid(u)))
      ensures u == dev.uid ==> (Out(Kinds(next.commits, ByUid(u))) <==> volume != "")
    {
      KindsSnoc(w.commits, c, ByUid(u));
      if u == dev.uid { AlternatesSnoc(Kinds(w.commits, ByUid(u)), c.Handed?); }
    }
  }

  lemma CommitKeepsInv(hash: string -> string, w: World, dev: RawDevice, volume: string)
    requires Inv(hash, w) && dev.name in w.objects && dev == w.objects[dev.name]
    requires (volume == "" || volume == dev.name) && (volume == "") != (dev.volume == "")
    ensures Inv(hash, Committed(w, dev, volume))
  {
    StoreKeepsVersioned(w, dev.(volume := volume));
    StoreKeepsKeyed(hash, w, dev.(volume := volume));
    CommitKeepsAccounts(w, dev, volume);
  }

  lemma HandOutKeepsInv(hash: string -> string, w: World, dev: RawDevice)
    requires Inv(hash, w) && dev in w.history && dev.volume == ""
    ensures Inv(hash, HandOut(w, dev))
  {
    SeenIsStored(w, dev);
    if dev.name in w.objects && dev == w.objects[dev.name] { CommitKeepsInv(hash, w, dev, dev.name); }
  }

  lemma TakeBackKeepsInv(hash: string -> string, w: World, dev: RawDevice)
    requires Inv(hash, w) && dev in w.history && dev.volume != ""
    ensures Inv(hash, TakeBack(w, dev))
  {
    SeenIsStored(w, dev);
    if dev.name in w.objects && dev == w.objects[dev.name] { CommitKeepsInv(hash, w, dev, ""); }
  }

  /** Storing an object whose account is already right keeps all accounts. */
  lemma StoreKeepsAccounts(w: World, dev: RawDevice)
    requires Accounted(w)
    requires Out(Kinds(w.commits, ByUid(dev.uid))) <==> dev.volume != ""
    ensures Accounted(Store(w, dev))
  {
  }

  lemma CreateKeepsInv(hash: string -> string, w: World, node: string, disk: Disk)
    requires Inv(hash, w) && NodeOk(node) && PathOk(disk.realPath)
    ensures Inv(hash, Create(w, Convert(hash, node, disk)).0)
  {
    var dev := Convert(hash, node, disk).(uid := w.clock);
    if dev.name != "" && dev.name !in w.objects {
      StoreKeepsVersioned(w, dev);
      StoreKeepsKeyed(hash, w, dev);
      KindsOfUnseen(w.commits, w.clock);
      StoreKeepsAccounts(w, dev);
    }
  }

  lemma UpdateKeepsInv(hash: string -> string, w: World, node: string, disk: Disk, got: RawDevice)
    requires HashOk(hash) && Inv(hash, w) && NodeOk(node) && PathOk(disk.realPath)
    requires got in w.history && got.name == hash(node + disk.realPath)
    ensures Inv(hash, Update(w, got.(spec := Convert(hash, node, disk).spec)).0)
  {
    var spec := Convert(hash, node, disk).spec;
    if got.name in w.objects && got.version == w.objects[got.name].version {
      assert got == w.objects[got.name];
      assert KeyedObject(hash, got);
      KeyIsInjective(got.spec.nodeName, got.spec.realPath, node, disk.realPath);
      StoreKeepsVersioned(w, got.(spec := spec));
      StoreKeepsKeyed(hash, w, got.(spec := spec));
      StoreKeepsAccounts(w, got.(spec := spec));
    }
  }

  lemma CreateStepKeepsInv(hash: string -> string, w: World, view: seq<RawDevice>, node: string, requestGb: Int64)
    requires Inv(hash, w) && Enabled(hash, w, CreateVolume(view, node, requestGb))
    ensures Inv(hash, Apply(hash, w, CreateVolume(view, node, requestGb)))
  {
    var mine := ByNode(view, node);
    var i := BestFit(mine, requestGb);
    if i >= 0 {
      assert mine[i] in mine;
      HandOutKeepsInv(hash, w, mine[i]);
    }
  }

  lemma StepKeepsInv(hash: string -> string, w: World, a: Action)
    requires HashOk(hash) && Inv(hash, w) && Enabled(hash, w, a)
    ensures Inv(hash, Apply(hash, w, a))
  {
    match a
    case CreateVolume(view, node, requestGb) => CreateStepKeepsInv(hash, w, view, node, requestGb);
    case DeleteVolume(view, id) =>
      var i := LastNamed(view, id);
      if i >= 0 { TakeBackKeepsInv(hash, w, view[i]); }
    case DaemonCreate(node, disk) => CreateKeepsInv(hash, w, node, disk);
    case DaemonUpdate(node, disk, got) => UpdateKeepsInv(hash, w, node, disk, got);
    case DaemonDelete(seen) =>
  }

  lemma {:induction false} RunKeepsInv(hash: string -> string, w: World, acts: seq<Action>)
    requires HashOk(hash) && Inv(hash, w) && Legal(hash, w, acts)
    ensures Inv(hash, Run(hash, w, acts))
  {
    if acts != [] {
      var last := |acts| - 1;
      RunKeepsInv(hash, w, acts[..last]);
      StepKeepsInv(hash, Run(hash, w, acts[..last]), acts[last]);
    }
  }

  /******* The theorems about runs from an empty server *******/

  /** Whatever the interleaving and however stale the caches, the commits on one object
      alternate, starting with a hand-out. */
  lemma CommitsAlternate(hash: string -> string, acts: seq<Action>, uid: nat)
    requires HashOk(hash) && Legal(hash, EmptyWorld, acts)
    ensures Alternates(Kinds(Run(hash, EmptyWorld, acts).commits, ByUid(uid)))
  {
    RunKeepsInv(hash, EmptyWorld, acts);
  }

  lemma {:induction false} KindsOfPrefix(commits: seq<Commit>, i: nat, key: Key)
    requires i <= |commits|
    ensures Kinds(commits[..i], key) <= Kinds(commits, key)
  {
    if i == |commits| {
      assert commits[..i] == commits;
    } else {
      var last := |commits| - 1;
      KindsOfPrefix(commits[..last], i, key);
      assert commits[..last][..i] == commits[..i];
    }
  }

  lemma {:induction false} OnlyHandOuts(commits: seq<Commit>, i: nat, key: Key, k: nat)
    requires i <= |commits|
    requires forall j :: i <= j < |commits| && Concerns(commits[j], key) ==> commits[j].Handed?
    requires |Kinds(commits[..i], key)| <= k < |Kinds(commits, key)|
    ensures Kinds(commits, key)[k]
  {
    var last := |commits| - 1;
    if i < |commits| && k < |Kinds(commits[..last], key)| {
      assert commits[..last][..i] == commits[..i];
      OnlyHandOuts(commits[..last], i, key, k);
    } else {
      assert commits[..|commits|] == commits;
    }
  }

  /** Where a commit that concerns the key sits among the key's commits. */
  lemma PlaceOf(cs: seq<Commit>, i: nat, key: Key)
    requires i < |cs| && Concerns(cs[i], key)
    ensures |Kinds(cs[..i + 1], key)| == |Kinds(cs[..i], key)| + 1 <= |Kinds(cs, key)|
  {
    assert cs[..i + 1] == cs[..i] + [cs[i]];
    KindsSnoc(cs[..i], cs[i], key);
    KindsOfPrefix(cs, i + 1, key);
  }

  lemma NoFreeNoAlternation(cs: seq<Commit>, key: Key, i: nat, j: nat)
    requires i < j < |cs|
    requires cs[i].Handed? && cs[j].Handed? && Concerns(cs[i], key) && Concerns(cs[j], key)
    requires forall k :: i < k < j && Concerns(cs[k], key) ==> cs[k].Handed?
    ensures !Alternates(Kinds(cs, key))
  {
    var upto, n := cs[..j + 1], |Kinds(cs[..i], key)|;
    TwoPlaces(cs, key, i, j);
    assert upto[..i] == cs[..i];
    assert forall k :: 0 <= k < |upto| ==> upto[k] == cs[k];
    OnlyHandOuts(upto, i, key, n);
    OnlyHandOuts(upto, i, key, n + 1);
    assert Kinds(cs, key)[n] && Kinds(cs, key)[n + 1];
  }

  lemma TwoPlaces(cs: seq<Commit>, key: Key, i: nat, j: nat)
    requires i < j < |cs| && Concerns(cs[i], key) && Concerns(cs[j], key)
    ensures |Kinds(cs[..i], key)| + 2 <= |Kinds(cs[..j + 1], key)|
    ensures Kinds(cs[..j + 1], key) <= Kinds(cs, key)
  {
    PlaceOf(cs, i, key);
    PlaceOf(cs, j, key);
    KindsOfPrefix(cs, j + 1, key);
    assert cs[..j][..i + 1] == cs[..i + 1];
    KindsOfPrefix(cs[..j], i + 1, key);
  }

  /** Between two hand-outs of an alternating sequence of commits there is a free. */
  lemma FreeInBetween(cs: seq<Commit>, key: Key, i: nat, j: nat) returns (k: nat)
    requires Alternates(Kinds(cs, key)) && i < j < |cs|
    requires cs[i].Handed? && cs[j].Handed? && Concerns(cs[i], key) && Concerns(cs[j], key)
    ensures i < k < j && cs[k].Freed? && Concerns(cs[k], key)
  {
    if forall k' :: i < k' < j && Concerns(cs[k'], key) ==> cs[k'].Handed? {
      NoFreeNoAlternation(cs, key, i, j);
    }
    k :| i < k < j && cs[k].Freed? && Concerns(cs[k], key);
  }

  /** No device is handed out twice without a free in between. */
  lemma NoDoubleHandOut(hash: string -> string, acts: seq<Action>, i: nat, j: nat) returns (k: nat)
    requires HashOk(hash) && Legal(hash, EmptyWorld, acts)
    requires i < j < |Run(hash, EmptyWorld, acts).commits|
    requires var cs := Run(hash, EmptyWorld, acts).commits; cs[i].Handed? && cs[j].Handed? && cs[i].uid == cs[j].uid
    ensures var cs := Run(hash, EmptyWorld, acts).commits; i < k < j && cs[k].Freed? && cs[k].uid == cs[i].uid
  {
    var cs := Run(hash, EmptyWorld, acts).commits;
    CommitsAlternate(hash, acts, cs[i].uid);
    k := FreeInBetween(cs, ByUid(cs[i].uid), i, j);
  }

  /** A createVolume that commits does so on a device that is free, available, on the chosen
      node and large enough in the server's own state, the first of the smallest such in the
      view, and changes nothing else there. */
  lemma CommitIsCurrent(hash: string -> string, w: World, view: seq<RawDevice>, node: string, requestGb: Int64)
    returns (name: string, at: nat)
    requires Versioned(w) && Enabled(hash, w, CreateVolume(view, node, requestGb))
    requires Apply(hash, w, CreateVolume(view, node, requestGb)).commits != w.commits
    ensures var w' := Apply(hash, w, CreateVolume(view, node, requestGb));
            && name in w.objects && at < |view|
            && var d := w.objects[name];
            && d.volume == "" && d.spec.available && requestGb * GIB <= d.spec.size && d == view[at]
            && "node" in d.labels && d.labels["node"] == node
            && (Keyed(hash, w) ==> d.spec.nodeName == node)
            && Shl30(requestGb) == requestGb * GIB
            && w'.commits == w.commits + [Handed(d.uid, name)]
            && w'.objects == w.objects[name := d.(volume := name, version := w.clock)]
    ensures forall j :: 0 <= j < |view| && view[j].volume == "" && view[j].spec.available
                        && "node" in view[j].labels && view[j].labels["node"] == node
                        && requestGb * GIB <= view[j].spec.size ==>
              if j < at then view[at].spec.size < view[j].spec.size else view[at].spec.size <= view[j].spec.size
  {
    var mine := ByNode(view, node);
    var i := BestFit(mine, requestGb);
    name := mine[i].name;
    assert mine[i] in mine;
    SeenIsStored(w, mine[i]);
    at := ByNodeKeepsOrder(view, node, i);
    forall j | 0 <= j < |view| && OnNode(view[j], node) && Fits(view[j], requestGb)
      ensures if j < at then view[at].spec.size < view[j].spec.size else view[at].spec.size <= view[j].spec.size
    {
      assert view[j] in mine;
    }
  }

  /******* What the objects say of the disks *******/

  /** The object describes that disk of that node; a size beyond int64 wraps around. */
  ghost predicate Describes(d: RawDevice, node: string, disk: Disk) {
    && d.labels == map["node" := node] && d.spec.nodeName == node && d.spec.realPath == disk.realPath
    && d.spec.kind == disk.kind && d.spec.uuid == disk.uuid && d.spec.major == disk.major && d.spec.minor == disk.minor
    && d.spec.available == disk.available
    && (disk.size - d.spec.size) % TWO_64 == 0 && (disk.size < TWO_63 ==> d.spec.size == disk.size)
  }

  lemma ConvertDescribes(hash: string -> string, node: string, disk: Disk)
    ensures Describes(Convert(hash, node, disk), node, disk)
    ensures Convert(hash, node, disk).name == hash(node + disk.realPath) && Convert(hash, node, disk).volume == ""
  {
  }

  /** The disk that a daemon last recorded under a name. */
  datatype Source = NoSource | FromDisk(node: string, disk: Disk)

  /** An object is recorded when it is created, and again when a daemon updates it while the
      object it fetched is the one stored. */
  function NextSource(hash: string -> string, w: World, a: Action, name: string, s: Source): Source {
    if a.DaemonCreate? && hash(a.node + a.disk.realPath) == name && name !in w.objects then FromDisk(a.node, a.disk)
    else if a.DaemonUpdate? && name in w.objects && w.objects[name] == a.got then FromDisk(a.node, a.disk)
    else s
  }

  function SourceOf(hash: string -> string, w: World, acts: seq<Action>, name: string): Source {
    if acts == [] then NoSource
    else
      var front, a := acts[..|acts| - 1], acts[|acts| - 1];
      NextSource(hash, Run(hash, w, front), a, name, SourceOf(hash, w, front, name))
  }

  /** The object of that name, if stored, describes its source. */
  ghost predicate Described(w: World, name: string, s: Source) {
    name in w.objects ==> s.FromDisk? && Describes(w.objects[name], s.node, s.disk)
  }

  /** A daemon's update acts on the object it fetched or not at all. */
  lemma UpdateSeenIsStored(hash: string -> string, w: World, node: string, disk: Disk, got: RawDevice)
    requires Versioned(w) && Enabled(hash, w, DaemonUpdate(node, disk, got))
    ensures var w' := Apply(hash, w, DaemonUpdate(node, disk, got));
            if got.name in w.objects && w.objects[got.name] == got then
              && got.name in w'.objects && w'.objects == w.objects[got.name := w'.objects[got.name]]
              && w'.objects[got.name] == got.(spec := Convert(hash, node, disk).spec,
                                              version := w'.objects[got.name].version)
            else w' == w
  {
  }

  /** An object found by the name of a disk lies on that disk's node. */
  lemma SameKey(hash: string -> string, got: RawDevice, node: string, disk: Disk)
    requires HashOk(hash) && KeyedObject(hash, got) && got.name == hash(node + disk.realPath)
    requires NodeOk(node) && PathOk(disk.realPath)
    ensures got.labels == map["node" := node]
  {
    KeyIsInjective(got.spec.nodeName, got.spec.realPath, node, disk.realPath);
  }

  /** Controllers never touch what an object says of its disk. */
  lemma CommitKeepsSpec(w: World, dev: RawDevice, name: string)
    requires Versioned(w) && dev in w.history
    ensures var w' := if dev.volume == "" then HandOut(w, dev) else TakeBack(w, dev);
            && w'.objects.Keys == w.objects.Keys
            && (name in w.objects ==>
                  w'.objects[name].spec == w.objects[name].spec && w'.objects[name].labels == w.objects[name].labels)
  {
    SeenIsStored(w, dev);
  }

  lemma ControllerKeepsSpec(hash: string -> string, w: World, a: Action, name: string)
    requires Versioned(w) && Enabled(hash, w, a) && (a.CreateVolume? || a.DeleteVolume?)
    ensures var w' := Apply(hash, w, a);
            && w'.objects.Keys == w.objects.Keys
            && (name in w.objects ==>
                  w'.objects[name].spec == w.objects[name].spec && w'.objects[name].labels == w.objects[name].labels)
  {
    match a {
      case CreateVolume(view, node, requestGb) =>
        var mine := ByNode(view, node);
        var i := BestFit(mine, requestGb);
        if i >= 0 {
          assert mine[i] in mine;
          CommitKeepsSpec(w, mine[i], name);
        }
      case DeleteVolume(view, id) =>
        var i := LastNamed(view, id);
        if i >= 0 { CommitKeepsSpec(w, view[i], name); }
    }
  }

  lemma CreateDescribes(hash: string -> string, w: World, node: string, disk: Disk, name: string, s: Source)
    requires HashOk(hash) && Described(w, name, s)
    ensures var a := DaemonCreate(node, disk);
            Described(Apply(hash, w, a), name, NextSource(hash, w, a, name, s))
  {
    ConvertDescribes(hash, node, disk);
  }

  lemma UpdateDescribes(hash: string -> string, w: World, node: string, disk: Disk, got: RawDevice, name: string,
                        s: Source)
    requires HashOk(hash) && Versioned(w) && Keyed(hash, w) && Enabled(hash, w, DaemonUpdate(node, disk, got))
    requires Described(w, name, s)
    ensures var a := DaemonUpdate(node, disk, got);
            Described(Apply(hash, w, a), name, NextSource(hash, w, a, name, s))
  {
    var w' := Apply(hash, w, DaemonUpdate(node, disk, got));
    UpdateSeenIsStored(hash, w, node, disk, got);
    if name in w.objects && w.objects[name] == got {
      ConvertDescribes(hash, node, disk);
      SameKey(hash, got, node, disk);
      assert Describes(w'.objects[name], node, disk);
    } else {
      assert name in w'.objects ==> name in w.objects && w'.objects[name] == w.objects[name];
    }
  }

  lemma SameSpecDescribes(w: World, w': World, name: string, s: Source)
    requires Described(w, name, s) && w'.objects.Keys == w.objects.Keys
    requires name in w.objects ==>
               w'.objects[name].spec == w.objects[name].spec && w'.objects[name].labels == w.objects[name].labels
    ensures Described(w', name, s)
  {
  }

  lemma ControllerDescribes(hash: string -> string, w: World, a: Action, name: string, s: Source)
    requires Versioned(w) && Enabled(hash, w, a) && (a.CreateVolume? || a.DeleteVolume?) && Described(w, name, s)
    ensures Described(Apply(hash, w, a), name, s)
  {
    ControllerKeepsSpec(hash, w, a, name);
    SameSpecDescribes(w, Apply(hash, w, a), name, s);
  }

  /** One step keeps every stored object a description of its source. */
  lemma DescribedStep(hash: string -> string, w: World, a: Action, name: string, s: Source)
    requires HashOk(hash) && Versioned(w) && Keyed(hash, w) && Enabled(hash, w, a) && Described(w, name, s)
    ensures Described(Apply(hash, w, a), name, NextSource(hash, w, a, name, s))
  {
    if a.CreateVolume? || a.DeleteVolume? {
      ControllerDescribes(hash, w, a, name, s);
      assert NextSource(hash, w, a, name, s) == s;
    } else if a.DaemonCreate? {
      CreateDescribes(hash, w, a.node, a.disk, name, s);
    } else if a.DaemonUpdate? {
      UpdateDescribes(hash, w, a.node, a.disk, a.got, name, s);
    }
  }

  /** In every reachable state a stored object describes the disk last recorded under its name. */
  lemma {:induction false} StoredDescribesItsDisk(hash: string -> string, acts: seq<Action>, name: string)
    requires HashOk(hash) && Legal(hash, EmptyWorld, acts)
    ensures Described(Run(hash, EmptyWorld, acts), name, SourceOf(hash, EmptyWorld, acts, name))
  {
    if acts != [] {
      var front := acts[..|acts| - 1];
      StoredDescribesItsDisk(hash, front, name);
      RunKeepsInv(hash, EmptyWorld, front);
      DescribedStep(hash, Run(hash, EmptyWorld, front), acts[|acts| - 1], name,
                    SourceOf(hash, EmptyWorld, front, name));
    }
  }

  /** The selection by label is the selection by the node of the spec. */
  lemma SelectsTheNode(hash: string -> string, list: seq<RawDevice>, node: string)
    requires forall d :: d in list ==> KeyedObject(hash, d)
    ensures forall d :: d in ByNode(list, node) <==> d in list && d.spec.nodeName == node
  {
  }

  /** However stale the view: a createVolume that commits hands out a device whose disk was last
      recorded as available, on that node and, below 2^63 bytes, at least as large as asked. */
  lemma HandsOutUsableDisks(hash: string -> string, acts: seq<Action>, view: seq<RawDevice>, node: string,
                            requestGb: Int64) returns (name: string)
    requires HashOk(hash) && Legal(hash, EmptyWorld, acts)
    requires var w := Run(hash, EmptyWorld, acts);
             && Enabled(hash, w, CreateVolume(view, node, requestGb))
             && Apply(hash, w, CreateVolume(view, node, requestGb)).commits != w.commits
    ensures var w := Run(hash, EmptyWorld, acts);
            var s := SourceOf(hash, EmptyWorld, acts, name);
            && name in w.objects
            && Apply(hash, w, CreateVolume(view, node, requestGb)).commits
               == w.commits + [Handed(w.objects[name].uid, name)]
            && s.FromDisk? && s.disk.available && s.node == node
            && (s.disk.size < TWO_63 ==> requestGb * GIB <= s.disk.size)
  {
    RunKeepsInv(hash, EmptyWorld, acts);
    var at;
    name, at := CommitIsCurrent(hash, Run(hash, EmptyWorld, acts), view, node, requestGb);
    StoredDescribesItsDisk(hash, acts, name);
  }

  /******* What the caches show *******/

  /** A list as a cache may hold it: past versions of objects, no two of one name. */
  ghost predicate Cached(w: World, view: seq<RawDevice>) {
    && (forall d :: d in view ==> d in w.history)
    && (forall i, j :: 0 <= i < j < |view| ==> view[i].name != view[j].name)
  }

  /** However stale the cache, looking a volume up by Status.Name finds the entry of that name if
      it shows it handed out, and no other entry carries the id. */
  lemma VolumeIsItsDevice(hash: string -> string, acts: seq<Action>, view: seq<RawDevice>, id: string)
    requires HashOk(hash) && Legal(hash, EmptyWorld, acts) && id != ""
    requires Cached(Run(hash, EmptyWorld, acts), view)
    ensures forall i :: 0 <= i < |view| ==> (view[i].volume == id <==> view[i].name == id && view[i].volume != "")
    ensures forall i, j :: 0 <= i < |view| && 0 <= j < |view| && view[i].volume == id && view[j].volume == id ==> i == j
    ensures forall i :: 0 <= i < |view| && view[i].volume == id ==> LastNamed(view, id) == i
  {
    RunKeepsInv(hash, EmptyWorld, acts);
    forall i | 0 <= i < |view| ensures view[i].volume == id <==> view[i].name == id && view[i].volume != "" {
      assert view[i] in view;
    }
  }

  /** On a current listing it equals a lookup by name in the server. */
  lemma CurrentVolumeIsStored(hash: string -> string, acts: seq<Action>, view: seq<RawDevice>, id: string)
    requires HashOk(hash) && Legal(hash, EmptyWorld, acts) && id != ""
    requires var w := Run(hash, EmptyWorld, acts);
             && (forall d :: d in view ==> d.name in w.objects && w.objects[d.name] == d)
             && (forall n :: n in w.objects ==> w.objects[n] in view)
    ensures var w := Run(hash, EmptyWorld, acts);
            var i := LastNamed(view, id);
            && (i >= 0 <==> id in w.objects && w.objects[id].volume != "")
            && (i >= 0 ==> view[i] == w.objects[id])
            && (forall d :: d in view && d.volume == id ==> d == w.objects[id])
  {
    RunKeepsInv(hash, EmptyWorld, acts);
  }

  /******* Alternation across re-creations of the object *******/

  /** The deletions act on a current view: the object seen is the object stored. */
  ghost predicate DeletesAreCurrent(hash: string -> string, w: World, acts: seq<Action>) {
    acts == [] ||
    (&& DeletesAreCurrent(hash, w, acts[..|acts| - 1])
     && var a := acts[|acts| - 1];
        var v := Run(hash, w, acts[..|acts| - 1]);
        a.DaemonDelete? && a.seen.name in v.objects ==> a.seen == v.objects[a.seen.name])
  }

  predicate Busy(w: World, name: string) { name in w.objects && w.objects[name].volume != "" }

  ghost predicate AccountedByName(w: World) {
    forall n ::
      && Alternates(Kinds(w.commits, ByName(n)))
      && (Out(Kinds(w.commits, ByName(n))) <==> Busy(w, n))
  }

  lemma CommitKeepsNames(w: World, dev: RawDevice, volume: string)
    requires AccountedByName(w) && dev.name in w.objects && dev == w.objects[dev.name]
    requires (volume == "") != (dev.volume == "")
    ensures AccountedByName(Committed(w, dev, volume))
  {
    var c := if volume == "" then Freed(dev.uid, dev.name) else Handed(dev.uid, dev.name);
    forall n
      ensures var ks := Kinds(w.commits + [c], ByName(n));
              && Alternates(ks)
              && (n != dev.name ==> ks == Kinds(w.commits, ByName(n)))
              && (n == dev.name ==> (Out(ks) <==> volume != ""))
    {
      KindsSnoc(w.commits, c, ByName(n));
      if n == dev.name { AlternatesSnoc(Kinds(w.commits, ByName(n)), c.Handed?); }
    }
  }

  lemma CommitStepKeepsNames(w: World, dev: RawDevice)
    requires Versioned(w) && AccountedByName(w) && dev in w.history
    ensures dev.volume == "" ==> AccountedByName(HandOut(w, dev))
    ensures dev.volume != "" ==> AccountedByName(TakeBack(w, dev))
  {
    SeenIsStored(w, dev);
    if dev.name in w.objects && dev == w.objects[dev.name] {
      CommitKeepsNames(w, dev, if dev.volume == "" then dev.name else "");
    }
  }

  /** A daemon's step commits nothing and keeps what is handed out. */
  lemma DaemonStepKeepsNames(hash: string -> string, w: World, a: Action)
    requires Versioned(w) && Enabled(hash, w, a) && AccountedByName(w)
             && (a.DaemonCreate? || a.DaemonUpdate? || a.DaemonDelete?)
    requires a.DaemonDelete? ==> !Busy(w, a.seen.name)
    ensures AccountedByName(Apply(hash, w, a))
  {
    DaemonStepKeepsStatus(hash, w, a);
    SameAccounts(w, Apply(hash, w, a));
  }

  ghost predicate SameStatus(w: World, w': World) {
    w'.commits == w.commits && forall n :: Busy(w', n) <==> Busy(w, n)
  }

  lemma StoreKeepsStatus(w: World, dev: RawDevice)
    requires dev.volume != "" <==> Busy(w, dev.name)
    ensures SameStatus(w, Store(w, dev))
  {
  }

  lemma DeleteKeepsStatus(w: World, name: string)
    requires !Busy(w, name)
    ensures SameStatus(w, Delete(w, name).0)
  {
  }

  lemma DaemonStepKeepsStatus(hash: string -> string, w: World, a: Action)
    requires Versioned(w) && Enabled(hash, w, a) && (a.DaemonCreate? || a.DaemonUpdate? || a.DaemonDelete?)
    requires a.DaemonDelete? ==> !Busy(w, a.seen.name)
    ensures SameStatus(w, Apply(hash, w, a))
  {
    match a {
      case DaemonCreate(node, disk) =>
        var dev := Convert(hash, node, disk);
        if dev.name !in w.objects { StoreKeepsStatus(w, dev.(uid := w.clock)); }
      case DaemonUpdate(node, disk, got) =>
        if got.name in w.objects {
          var stored := w.objects[got.name];
          StoreKeepsStatus(w, stored.(labels := got.labels, spec := Convert(hash, node, disk).spec));
        }
      case DaemonDelete(seen) =>
        DeleteKeepsStatus(w, seen.name);
    }
  }

  lemma SameAccounts(w: World, w': World)
    requires AccountedByName(w) && SameStatus(w, w')
    ensures AccountedByName(w')
  {
  }

  lemma NamedStep(hash: string -> string, w: World, a: Action)
    requires Versioned(w) && Enabled(hash, w, a) && AccountedByName(w)
    requires a.DaemonDelete? ==> !Busy(w, a.seen.name)
    ensures AccountedByName(Apply(hash, w, a))
  {
    match a {
      case CreateVolume(view, node, requestGb) =>
        var mine := ByNode(view, node);
        var i := BestFit(mine, requestGb);
        if i >= 0 {
          assert mine[i] in mine;
          CommitStepKeepsNames(w, mine[i]);
        }
      case DeleteVolume(view, id) =>
        var i := LastNamed(view, id);
        if i >= 0 { CommitStepKeepsNames(w, view[i]); }
      case _ => DaemonStepKeepsNames(hash, w, a);
    }
  }

  /** No deletion hits an object that is handed out. */
  ghost predicate DeletesSpare(hash: string -> string, w: World, acts: seq<Action>) {
    acts == [] ||
    (&& DeletesSpare(hash, w, acts[..|acts| - 1])
     && var a := acts[|acts| - 1];
        a.DaemonDelete? ==> !Busy(Run(hash, w, acts[..|acts| - 1]), a.seen.name))
  }

  /** The accounts by name are right all along the run. */
  ghost predicate AlwaysAccounted(hash: string -> string, w: World, acts: seq<Action>) {
    AccountedByName(Run(hash, w, acts)) && (acts == [] || AlwaysAccounted(hash, w, acts[..|acts| - 1]))
  }

  lemma BusyDeleteBreaksAccounts(w: World, name: string)
    requires AccountedByName(w) && Busy(w, name)
    ensures !AccountedByName(Delete(w, name).0)
  {
  }

  /** The accounts by name, which also tell who is handed out now, are kept exactly by the runs
      whose deletions spare the objects that are handed out. */
  lemma {:induction false} AccountedIff(hash: string -> string, acts: seq<Action>)
    requires HashOk(hash) && Legal(hash, EmptyWorld, acts)
    ensures AlwaysAccounted(hash, EmptyWorld, acts) <==> DeletesSpare(hash, EmptyWorld, acts)
  {
    if acts != [] {
      var front, a := acts[..|acts| - 1], acts[|acts| - 1];
      var w := Run(hash, EmptyWorld, front);
      AccountedIff(hash, front);
      RunKeepsInv(hash, EmptyWorld, front);
      if DeletesSpare(hash, EmptyWorld, front) {
        if a.DaemonDelete? && Busy(w, a.seen.name) {
          BusyDeleteBreaksAccounts(w, a.seen.name);
        } else {
          NamedStep(hash, w, a);
        }
      }
    }
  }

  /** A daemon that sees the object as it is stored spares it. */
  lemma {:induction false} CurrentDeletesSpare(hash: string -> string, w: World, acts: seq<Action>)
    requires Legal(hash, w, acts) && DeletesAreCurrent(hash, w, acts)
    ensures DeletesSpare(hash, w, acts)
  {
    if acts != [] { CurrentDeletesSpare(hash, w, acts[..|acts| - 1]); }
  }

  /** With that, the alternation extends over re-creations. */
  lemma NamesAlternate(hash: string -> string, acts: seq<Action>, name: string)
    requires HashOk(hash) && Legal(hash, EmptyWorld, acts) && DeletesSpare(hash, EmptyWorld, acts)
    ensures Alternates(Kinds(Run(hash, EmptyWorld, acts).commits, ByName(name)))
  {
    AccountedIff(hash, acts);
  }

  lemma RunSnoc(hash: string -> string, w: World, acts: seq<Action>, a: Action)
    ensures Run(hash, w, acts + [a]) == Apply(hash, Run(hash, w, acts), a)
    ensures Legal(hash, w, acts + [a]) <==> Legal(hash, w, acts) && Enabled(hash, Run(hash, w, acts), a)
  {
  }

  /******* Exactly when the commits under one name alternate *******/

  /** Between `w` and `w'` the device of that name was handed out. */
  predicate GaveOut(w: World, w': World, name: string) {
    var n := |w.commits|;
    |w'.commits| == n + 1 && w'.commits[n].Handed? && w'.commits[n].name == name
  }

  predicate TookBack(w: World, w': World, name: string) {
    var n := |w.commits|;
    |w'.commits| == n + 1 && w'.commits[n].Freed? && w'.commits[n].name == name
  }

  /** The last step deleted the object of that name while it was handed out. */
  ghost predicate Drops(hash: string -> string, w: World, acts: seq<Action>, name: string)
    requires acts != []
  {
    var a := acts[|acts| - 1];
    a.DaemonDelete? && a.seen.name == name && Busy(Run(hash, w, acts[..|acts| - 1]), name)
  }

  /** Some step did. */
  ghost predicate Dropped(hash: string -> string, w: World, acts: seq<Action>, name: string) {
    acts != [] && (Dropped(hash, w, acts[..|acts| - 1], name) || Drops(hash, w, acts, name))
  }

  /** After such a deletion the device was handed out. */
  ghost predicate Reissued(hash: string -> string, w: World, acts: seq<Action>, name: string) {
    acts != []
    && (Reissued(hash, w, acts[..|acts| - 1], name)
        || (Dropped(hash, w, acts[..|acts| - 1], name)
            && GaveOut(Run(hash, w, acts[..|acts| - 1]), Run(hash, w, acts), name)))
  }

  /** What a step does to one name. */
  ghost predicate StepOn(w: World, w': World, name: string, deletes: bool) {
    var ks, ks' := Kinds(w.commits, ByName(name)), Kinds(w'.commits, ByName(name));
    if GaveOut(w, w', name) then !deletes && ks' == ks + [true] && !Busy(w, name) && Busy(w', name)
    else if TookBack(w, w', name) then !deletes && ks' == ks + [false] && Busy(w, name) && !Busy(w', name)
    else ks' == ks && if deletes then !Busy(w', name) else Busy(w', name) <==> Busy(w, name)
  }

  predicate DeletesName(a: Action, name: string) { a.DaemonDelete? && a.seen.name == name }

  lemma CommitOn(w: World, dev: RawDevice, volume: string, name: string)
    requires Versioned(w) && dev.name in w.objects && dev == w.objects[dev.name] && (volume == "") != (dev.volume == "")
    ensures StepOn(w, Committed(w, dev, volume), name, false)
  {
    var c := if volume == "" then Freed(dev.uid, dev.name) else Handed(dev.uid, dev.name);
    KindsSnoc(w.commits, c, ByName(name));
  }

  lemma SeenCommitOn(w: World, dev: RawDevice, name: string)
    requires Versioned(w) && dev in w.history
    ensures dev.volume == "" ==> StepOn(w, HandOut(w, dev), name, false)
    ensures dev.volume != "" ==> StepOn(w, TakeBack(w, dev), name, false)
  {
    SeenIsStored(w, dev);
    if dev.name in w.objects && dev == w.objects[dev.name] {
      CommitOn(w, dev, if dev.volume == "" then dev.name else "", name);
    }
  }

  lemma DaemonOn(hash: string -> string, w: World, a: Action, name: string)
    requires Versioned(w) && Enabled(hash, w, a) && (a.DaemonCreate? || a.DaemonUpdate? || a.DaemonDelete?)
    ensures StepOn(w, Apply(hash, w, a), name, DeletesName(a, name))
  {
    if !a.DaemonDelete? { DaemonStepKeepsStatus(hash, w, a); }
  }

  lemma StepOnName(hash: string -> string, w: World, a: Action, name: string)
    requires Versioned(w) && Enabled(hash, w, a)
    ensures StepOn(w, Apply(hash, w, a), name, DeletesName(a, name))
  {
    match a {
      case CreateVolume(view, node, requestGb) =>
        var mine := ByNode(view, node);
        var i := BestFit(mine, requestGb);
        if i >= 0 {
          assert mine[i] in mine;
          SeenCommitOn(w, mine[i], name);
        }
      case DeleteVolume(view, id) =>
        var i := LastNamed(view, id);
        if i >= 0 { SeenCommitOn(w, view[i], name); }
      case _ => DaemonOn(hash, w, a, name);
    }
  }

  lemma AlternatesMore(ks: seq<bool>, handed: bool)
    ensures Alternates(ks + [handed]) <==> Alternates(ks) && handed == !Out(ks)
  {
    assert (ks + [handed])[|ks|] == handed;
    assert forall i :: 0 <= i < |ks| ==> (ks + [handed])[i] == ks[i];
  }

  lemma LastStepOn(hash: string -> string, acts: seq<Action>, name: string)
    requires HashOk(hash) && acts != [] && Legal(hash, EmptyWorld, acts)
    ensures StepOn(Run(hash, EmptyWorld, acts[..|acts| - 1]), Run(hash, EmptyWorld, acts), name,
                   DeletesName(acts[|acts| - 1], name))
  {
    var front := acts[..|acts| - 1];
    RunKeepsInv(hash, EmptyWorld, front);
    StepOnName(hash, Run(hash, EmptyWorld, front), acts[|acts| - 1], name);
  }

  /** Commits under one name and what happened to it: after a handed-out object was deleted it is
      no longer busy, otherwise the commits tell whether it is. */
  ghost predicate Tells(ks: seq<bool>, busy: bool, dropped: bool, reissued: bool) {
    && (Alternates(ks) <==> !reissued)
    && (!reissued ==> if dropped then Out(ks) && !busy else Out(ks) <==> busy)
  }

  lemma TellsMore(w: World, w': World, name: string, deletes: bool, dropped: bool, reissued: bool)
    requires StepOn(w, w', name, deletes)
    requires Tells(Kinds(w.commits, ByName(name)), Busy(w, name), dropped, reissued)
    ensures Tells(Kinds(w'.commits, ByName(name)), Busy(w', name), dropped || (deletes && Busy(w, name)),
                  reissued || (dropped && GaveOut(w, w', name)))
  {
    AlternatesMore(Kinds(w.commits, ByName(name)), GaveOut(w, w', name));
  }

  /** Under each name the commits alternate if and only if the device was never handed out after
      its object had been deleted while handed out. */
  lemma {:induction false} AlternatesByNameIff(hash: string -> string, acts: seq<Action>, name: string)
    requires HashOk(hash) && Legal(hash, EmptyWorld, acts)
    ensures Alternates(Kinds(Run(hash, EmptyWorld, acts).commits, ByName(name))) <==>
              !Reissued(hash, EmptyWorld, acts, name)
    ensures Tells(Kinds(Run(hash, EmptyWorld, acts).commits, ByName(name)), Busy(Run(hash, EmptyWorld, acts), name),
                  Dropped(hash, EmptyWorld, acts, name), Reissued(hash, EmptyWorld, acts, name))
  {
    if acts != [] {
      var front := acts[..|acts| - 1];
      AlternatesByNameIff(hash, front, name);
      LastStepOn(hash, acts, name);
      TellsMore(Run(hash, EmptyWorld, front), Run(hash, EmptyWorld, acts), name, DeletesName(acts[|acts| - 1], name),
                Dropped(hash, EmptyWorld, front, name), Reissued(hash, EmptyWorld, front, name));
    }
  }

  /** The object as a daemon creates it again, big enough and available. */
  function Reborn(hash: string -> string, seen: RawDevice, clock: nat): RawDevice {
    Convert(hash, seen.spec.nodeName, RebornDisk(seen)).(version := clock, uid := clock)
  }

  function RebornDisk(seen: RawDevice): Disk { Disk(seen.spec.realPath, GIB, "disk", "", true, 0, 0) }

  /** Two steps that hand a deleted device out: its disk is found again, and a controller takes it. */
  function Reissue(hash: string -> string, seen: RawDevice, clock: nat): seq<Action> {
    [DaemonCreate(seen.spec.nodeName, RebornDisk(seen)),
     CreateVolume([Reborn(hash, seen, clock)], seen.spec.nodeName, 1)]
  }

  lemma ReissueSteps(hash: string -> string, w: World, seen: RawDevice)
    requires HashOk(hash) && KeyedObject(hash, seen) && seen.name !in w.objects
    ensures var more := Reissue(hash, seen, w.clock);
            var w' := Apply(hash, w, more[0]);
            && Enabled(hash, w, more[0]) && Enabled(hash, w', more[1])
            && GaveOut(w', Apply(hash, w', more[1]), seen.name)
  {
    var dev := Reborn(hash, seen, w.clock);
    assert dev.name == seen.name;
    var w' := Apply(hash, w, Reissue(hash, seen, w.clock)[0]);
    assert w'.objects[dev.name] == dev && dev in w'.history;
    ScanOfOne(dev, seen.spec.nodeName);
  }

  lemma DroppedOnce(hash: string -> string, acts: seq<Action>, seen: RawDevice, a: Action)
    requires Busy(Run(hash, EmptyWorld, acts), seen.name)
    ensures Dropped(hash, EmptyWorld, acts + [DaemonDelete(seen)], seen.name)
    ensures Dropped(hash, EmptyWorld, acts + [DaemonDelete(seen)] + [a], seen.name)
  {
    var dropped := acts + [DaemonDelete(seen)];
    assert dropped[..|acts|] == acts && (dropped + [a])[..|dropped|] == dropped;
  }

  /** From any reachable state: once a daemon has deleted a handed-out object, some legal
      continuation hands the device out a second time without a free in between. */
  lemma DroppedCanBeReissued(hash: string -> string, acts: seq<Action>, seen: RawDevice) returns (more: seq<Action>)
    requires HashOk(hash) && Legal(hash, EmptyWorld, acts + [DaemonDelete(seen)])
    requires Busy(Run(hash, EmptyWorld, acts), seen.name)
    ensures Legal(hash, EmptyWorld, acts + [DaemonDelete(seen)] + more)
    ensures !Alternates(Kinds(Run(hash, EmptyWorld, acts + [DaemonDelete(seen)] + more).commits, ByName(seen.name)))
  {
    var dropped := acts + [DaemonDelete(seen)];
    RunSnoc(hash, EmptyWorld, acts, DaemonDelete(seen));
    SeenIsKeyed(hash, acts, seen);
    var w := Run(hash, EmptyWorld, dropped);
    more := Reissue(hash, seen, w.clock);
    var found := dropped + [more[0]];
    ReissueSteps(hash, w, seen);
    RunSnoc(hash, EmptyWorld, dropped, more[0]);
    RunSnoc(hash, EmptyWorld, found, more[1]);
    DroppedOnce(hash, acts, seen, more[0]);
    assert dropped + more == found + [more[1]];
    assert (found + [more[1]])[..|found|] == found;
    AlternatesByNameIff(hash, dropped + more, seen.name);
  }

  lemma SeenIsKeyed(hash: string -> string, acts: seq<Action>, seen: RawDevice)
    requires HashOk(hash) && Legal(hash, EmptyWorld, acts) && seen in Run(hash, EmptyWorld, acts).history
    ensures KeyedObject(hash, seen)
  {
    RunKeepsInv(hash, EmptyWorld, acts);
  }

  /** A stale view in one daemon is enough to break that: it still sees the device free,
      deletes the handed-out object, finds the disk again, and the device goes out twice. */
  function StaleDelete(hash: string -> string, node: string, disk: Disk): seq<Action> {
    var first := Convert(hash, node, disk);
    var again := first.(version := 2, uid := 2);
    [DaemonCreate(node, disk), CreateVolume([first], node, 1), DaemonDelete(first),
     DaemonCreate(node, disk), CreateVolume([again], node, 1)]
  }

  /** The server after each of those five steps. */
  function StaleWorld(hash: string -> string, node: string, disk: Disk, k: nat): World
    requires k <= 5
  {
    var first := Convert(hash, node, disk);
    var out := first.(volume := first.name, version := 1);
    var again := first.(version := 2, uid := 2);
    var twice := again.(volume := first.name, version := 3);
    if k == 0 then EmptyWorld
    else if k == 1 then World(map[first.name := first], 1, {first}, [])
    else if k == 2 then World(map[first.name := out], 2, {first, out}, [Handed(0, first.name)])
    else if k == 3 then World(map[], 2, {first, out}, [Handed(0, first.name)])
    else if k == 4 then World(map[first.name := again], 3, {first, out, again}, [Handed(0, first.name)])
    else World(map[first.name := twice], 4, {first, out, again, twice}, [Handed(0, first.name), Handed(2, first.name)])
  }

  lemma StaleStep(hash: string -> string, node: string, disk: Disk, k: nat)
    requires k < 5
    requires HashOk(hash) && NodeOk(node) && PathOk(disk.realPath) && disk.available && GIB <= disk.size < TWO_63
    ensures var a, w := StaleDelete(hash, node, disk)[k], StaleWorld(hash, node, disk, k);
            Enabled(hash, w, a) && Apply(hash, w, a) == StaleWorld(hash, node, disk, k + 1)
  {
    var first := Convert(hash, node, disk);
    var w := StaleWorld(hash, node, disk, k);
    if k == 0 {
      assert Create(EmptyWorld, first).0 == StaleWorld(hash, node, disk, 1);
    } else if k == 1 {
      ScanOfOne(first, node);
      assert HandOut(w, first) == StaleWorld(hash, node, disk, 2);
    } else if k == 2 {
      assert w.objects - {first.name} == map[];
    } else if k == 3 {
      assert Create(w, first).0 == StaleWorld(hash, node, disk, 4);
    } else {
      var again := first.(version := 2, uid := 2);
      ScanOfOne(again, node);
      assert HandOut(w, again) == StaleWorld(hash, node, disk, 5);
    }
  }

  lemma RunUpTo(hash: string -> string, w: World, acts: seq<Action>, k: nat)
    requires k < |acts|
    ensures Run(hash, w, acts[..k + 1]) == Apply(hash, Run(hash, w, acts[..k]), acts[k])
    ensures Legal(hash, w, acts[..k + 1]) <==>
              Legal(hash, w, acts[..k]) && Enabled(hash, Run(hash, w, acts[..k]), acts[k])
  {
    assert acts[..k + 1] == acts[..k] + [acts[k]];
    RunSnoc(hash, w, acts[..k], acts[k]);
  }

  lemma {:induction false} StaleRun(hash: string -> string, node: string, disk: Disk, k: nat)
    requires k <= 5
    requires HashOk(hash) && NodeOk(node) && PathOk(disk.realPath) && disk.available && GIB <= disk.size < TWO_63
    ensures var acts := StaleDelete(hash, node, disk)[..k];
            Legal(hash, EmptyWorld, acts) && Run(hash, EmptyWorld, acts) == StaleWorld(hash, node, disk, k)
  {
    if k > 0 {
      StaleRun(hash, node, disk, k - 1);
      StaleStep(hash, node, disk, k - 1);
      RunUpTo(hash, EmptyWorld, StaleDelete(hash, node, disk), k - 1);
    }
  }

  lemma TwoHandOuts(name: string)
    ensures !Alternates(Kinds([Handed(0, name), Handed(2, name)], ByName(name)))
  {
    NoFreeNoAlternation([Handed(0, name), Handed(2, name)], ByName(name), 0, 1);
  }

  lemma StaleDeleteHandsOutTwice(hash: string -> string, node: string, disk: Disk)
    requires HashOk(hash) && NodeOk(node) && PathOk(disk.realPath) && disk.available && GIB <= disk.size < TWO_63
    ensures var acts := StaleDelete(hash, node, disk);
            && Legal(hash, EmptyWorld, acts)
            && !Alternates(Kinds(Run(hash, EmptyWorld, acts).commits, ByName(hash(node + disk.realPath))))
  {
    var acts := StaleDelete(hash, node, disk);
    StaleRun(hash, node, disk, |acts|);
    assert acts[..|acts|] == acts;
    TwoHandOuts(hash(node + disk.realPath));
  }

  lemma ScanOfOne(dev: RawDevice, node: string)
    requires OnNode(dev, node) && Fits(dev, 1)
    ensures ByNode([dev], node) == [dev] && BestFit([dev], 1) == 0
  {
  }

  /** On any snapshot a controller can hold, whenever admission without a topology passes,
      createVolume finds a device on the admitted node; the request must not overflow. */
  lemma AdmittedIsSelected(hash: string -> string, acts: seq<Action>, view: seq<RawDevice>,
                           requestBytes: Int64, limitBytes: Int64, at: int)
    requires HashOk(hash) && Legal(hash, EmptyWorld, acts)
    requires forall d :: d in view ==> d in Run(hash, EmptyWorld, acts).history
    requires ConvertRequestCapacity(requestBytes, limitBytes).Ok?
    requires IsFirstLargest(view, at)
    requires view[at].spec.size >= Shl30(ConvertRequestCapacity(requestBytes, limitBytes).value)
    ensures var g := ConvertRequestCapacity(requestBytes, limitBytes).value;
            0 <= BestFit(ByNode(view, view[at].spec.nodeName), g) <==> requestBytes <= TWO_63 - GIB
  {
    RunKeepsInv(hash, EmptyWorld, acts);
    assert view[at] in view && KeyedObject(hash, view[at]);
    AdmissionImpliesSelection(view, requestBytes, limitBytes, at);
  }

  /** On a node's current listing, a committed hand-out takes exactly the device's size off
      the free bytes, and freeing a device that is still available puts its size back. */
  lemma CommitMovesFreeBytes(w: World, list: seq<RawDevice>, i: nat)
    requires Versioned(w) && i < |list| && list[i].name in w.objects && list[i] == w.objects[list[i].name]
    ensures var d := list[i];
            && (Free(d) ==> FreeBytes(list[i := HandOut(w, d).objects[d.name]]) == FreeBytes(list) - d.spec.size)
            && (d.volume != "" ==> FreeBytes(list[i := TakeBack(w, d).objects[d.name]])
                                   == FreeBytes(list) + (if d.spec.available then d.spec.size else 0))
  {
    var d := list[i];
    SeenIsStored(w, d);
    if d.volume == "" {
      ReplaceMovesFreeBytes(list, i, HandOut(w, d).objects[d.name]);
    } else {
      ReplaceMovesFreeBytes(list, i, TakeBack(w, d).objects[d.name]);
    }
  }

  /** The reported figure is the free bytes in the integer's width, and moves likewise. */
  lemma CommitMovesFigure(w: World, list: seq<RawDevice>, i: nat)
    requires Versioned(w) && i < |list| && list[i].name in w.objects && list[i] == w.objects[list[i].name]
    ensures var d := list[i];
            var size: int := d.spec.size;
            var was := Wrap(FreeBytes(list));
            && (Free(d) ==> Wrap(FreeBytes(list[i := HandOut(w, d).objects[d.name]])) == Wrap(was - size))
            && (d.volume != "" ==> Wrap(FreeBytes(list[i := TakeBack(w, d).objects[d.name]]))
                                   == Wrap(was + (if d.spec.available then size else 0)))
  {
    var d := list[i];
    var size: int := d.spec.size;
    CommitMovesFreeBytes(w, list, i);
    if Free(d) { WrapMoves(FreeBytes(list), -size, FreeBytes(list[i := HandOut(w, d).objects[d.name]])); }
    if d.volume != "" {
      WrapMoves(FreeBytes(list), if d.spec.available then size else 0,
                FreeBytes(list[i := TakeBack(w, d).objects[d.name]]));
    }
  }
}
