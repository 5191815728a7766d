// The CSI controller's calls, working on the API server through a cache that may be stale.
module ControllerService {
  import opened RawDevices
  import opened ApiServers
  import opened Allocator
  import opened Protocol

  datatype Code = InvalidArgument | Internal | ResourceExhausted | NotFoundCode

  datatype Access = Block | Mount | NoAccess

  datatype Mode = NoMode | SingleNodeWriter | OtherMode

  datatype Capability = Capability(access: Access, mode: Mode)

  /** The accessibility requirements of a request; absent when the caller gives none. */
  datatype Topology = NoTopology | Topology(preferred: seq<map<string, string>>, requisite: seq<map<string, string>>)

  datatype CreateRequest = CreateRequest(name: string, requiredBytes: Int64, limitBytes: Int64,
                                         hasSource: bool, capabilities: seq<Capability>, topology: Topology)

  datatype Volume = Volume(id: string, capacityBytes: Int64, node: string)

  /** Without the node key in the topology only a zero available capacity is reported. */
  datatype Capacity = NothingKnown | Capacity(available: Int64, maximum: Int64, minimum: Int64)

  datatype Accessible = NoSegments | Segments(segments: map<string, string>)

  const TOPOLOGY_KEY := "topology.nativestor.alauda.io/node"

  /** The node of the first segment that names one. */
  function FirstNode(segments: seq<map<string, string>>): (r: string)
    ensures (r == "" && forall k :: 0 <= k < |segments| ==> TOPOLOGY_KEY !in segments[k])
            || exists k :: 0 <= k < |segments| && TOPOLOGY_KEY in segments[k] && segments[k][TOPOLOGY_KEY] == r
                           && forall j :: 0 <= j < k ==> TOPOLOGY_KEY !in segments[j]
  {
    if segments == [] then ""
    else if TOPOLOGY_KEY in segments[0] then segments[0][TOPOLOGY_KEY]
    else FirstNode(segments[1..])
  }

  /** What is refused before any device is looked at. */
  predicate Acceptable(req: CreateRequest) {
    && !req.hasSource
    && req.capabilities != []
    && (forall c :: c in req.capabilities ==> !c.access.NoAccess? && !c.mode.OtherMode?)
    && ConvertRequestCapacity(req.requiredBytes, req.limitBytes).Ok?
  }

  /** A positive number of whole GiB, less than one GiB above the request unless that is 0. */
  predicate RoundedUp(requiredBytes: Int64, bytes: int) {
    && requiredBytes <= bytes && GIB <= bytes && bytes % GIB == 0
    && (if requiredBytes == 0 then bytes == GIB else bytes < requiredBytes + GIB)
  }

  lemma RoundingBounds(requiredBytes: Int64, limitBytes: Int64)
    requires ConvertRequestCapacity(requiredBytes, limitBytes).Ok?
    ensures RoundedUp(requiredBytes, ConvertRequestCapacity(requiredBytes, limitBytes).value * GIB)
  {
  }

  /** The volume is a device that was free, available, on that node and large enough in the
      server's state `w`, and `w'` differs from `w` by that one hand-out. */
  ghost predicate Placed(w: World, w': World, view: seq<RawDevice>, req: CreateRequest, v: Volume) {
    && v.id in w.objects
    && var d := w.objects[v.id];
    && d.volume == "" && d.spec.available && "node" in d.labels && d.labels["node"] == v.node && d in view
    && req.requiredBytes <= v.capacityBytes <= d.spec.size
    && RoundedUp(req.requiredBytes, v.capacityBytes)
    && w'.objects == w.objects[v.id := d.(volume := v.id, version := w.clock)]
    && w'.commits == w.commits + [Handed(d.uid, v.id)]
  }

  lemma CommitIsPlacement(hash: string -> string, w: World, view: seq<RawDevice>, req: CreateRequest,
                          node: string, requestGb: Int64)
    requires Versioned(w) && Enabled(hash, w, Action.CreateVolume(view, node, requestGb))
    requires ConvertRequestCapacity(req.requiredBytes, req.limitBytes) == Ok(requestGb)
    requires Apply(hash, w, Action.CreateVolume(view, node, requestGb)).commits != w.commits
    ensures var w' := Apply(hash, w, Action.CreateVolume(view, node, requestGb));
            |w'.commits| > 0 &&
            var v := Volume(w'.commits[|w'.commits| - 1].name, Shl30(requestGb), node);
            Placed(w, w', view, req, v) && (Keyed(hash, w) ==> w.objects[v.id].spec.nodeName == node)
  {
    var name, _ := CommitIsCurrent(hash, w, view, node, requestGb);
    RoundingBounds(req.requiredBytes, req.limitBytes);
  }

  /** The request passes all checks and is to be placed on that node. */
  ghost predicate AdmittedTo(req: CreateRequest, admission: seq<RawDevice>, node: string) {
    && Acceptable(req) && req.name != "" && node != ""
    && if req.topology.Topology? then
         var preferred, requisite := FirstNode(req.topology.preferred), FirstNode(req.topology.requisite);
         node == if preferred != "" then preferred else requisite
       else exists at :: IsFirstLargest(admission, at) && node == admission[at].spec.nodeName
                         && Shl30(ConvertRequestCapacity(req.requiredBytes, req.limitBytes).value)
                             <= admission[at].spec.size
  }

  /** The node is the asked one, or without a topology that of the largest free device. */
  ghost predicate IsTheNode(req: CreateRequest, admission: seq<RawDevice>, node: string) {
    if req.topology.Topology? then
      node == FirstNode(req.topology.preferred)
      || (FirstNode(req.topology.preferred) == "" && node == FirstNode(req.topology.requisite))
    else
      exists at :: 0 <= at < |admission| && admission[at].volume == "" && admission[at].spec.available
                   && admission[at].spec.nodeName == node
                   && forall d :: d in admission && d.volume == "" && d.spec.available ==>
                        d.spec.size <= admission[at].spec.size
  }

  lemma AdmittedIsTheNode(req: CreateRequest, admission: seq<RawDevice>, node: string)
    requires AdmittedTo(req, admission, node)
    ensures IsTheNode(req, admission, node)
  {
  }

  /** Without a topology: no free device of positive size names a node. */
  ghost predicate NoNode(admission: seq<RawDevice>) {
    forall at :: IsFirstLargest(admission, at) ==> admission[at].spec.nodeName == ""
  }

  /** Without a topology: the largest free device is too small. */
  ghost predicate TooSmall(req: CreateRequest, admission: seq<RawDevice>)
    requires Acceptable(req)
  {
    exists at :: IsFirstLargest(admission, at) && admission[at].spec.nodeName != ""
                 && admission[at].spec.size < Shl30(ConvertRequestCapacity(req.requiredBytes, req.limitBytes).value)
  }

  /** The best fit of the view is stored just as the view shows it. */
  predicate Sendable(w: World, view: seq<RawDevice>, node: string, requestGb: Int64) {
    var mine := ByNode(view, node);
    var i := BestFit(mine, requestGb);
    i >= 0 && mine[i].name in w.objects && mine[i] == w.objects[mine[i].name]
  }

  /** The view shows devices as they are stored. */
  ghost predicate Shows(w: World, view: seq<RawDevice>) {
    forall d :: d in view ==> d.name in w.objects && d == w.objects[d.name]
  }

  /** With a current view, a fitting device on the node is enough. */
  lemma CurrentViewIsSendable(w: World, view: seq<RawDevice>, node: string, requestGb: Int64)
    requires Shows(w, view)
    ensures Sendable(w, view, node, requestGb)
            <==> exists d :: d in view && "node" in d.labels && d.labels["node"] == node && d.volume == ""
                             && d.spec.available && requestGb * GIB <= d.spec.size
  {
    var mine := ByNode(view, node);
    var i := BestFit(mine, requestGb);
    if i >= 0 { assert mine[i] in mine; }
    if d :| d in view && OnNode(d, node) && Fits(d, requestGb) {
      var k :| 0 <= k < |mine| && mine[k] == d;
    }
  }

  /** If the same current view serves admission without a topology and selection, what is admitted
      can be sent exactly if the request does not overflow. */
  lemma OneSnapshotIsSendable(hash: string -> string, w: World, view: seq<RawDevice>, req: CreateRequest, node: string)
    requires Inv(hash, w) && Shows(w, view) && req.topology.NoTopology? && AdmittedTo(req, view, node)
    ensures Sendable(w, view, node, ConvertRequestCapacity(req.requiredBytes, req.limitBytes).value)
            <==> req.requiredBytes <= TWO_63 - GIB
  {
    var at :| IsFirstLargest(view, at) && node == view[at].spec.nodeName
              && Shl30(ConvertRequestCapacity(req.requiredBytes, req.limitBytes).value) <= view[at].spec.size;
    assert view[at] in view;
    AdmissionImpliesSelection(view, req.requiredBytes, req.limitBytes, at);
    var mine := ByNode(view, node);
    assert forall k :: 0 <= k < |mine| ==> mine[k] in mine;
  }

  class Controller {
    const server: ApiServer

    constructor (server: ApiServer)
      ensures this.server == server
    {
      this.server := server;
    }

    method FindNode(segments: seq<map<string, string>>) returns (node: string)
      ensures node == FirstNode(segments)
    {
      node := "";
      for k := 0 to |segments|
        invariant FirstNode(segments) == FirstNode(segments[k..])
        invariant node == ""
      {
        if TOPOLOGY_KEY in segments[k] {
          node := segments[k][TOPOLOGY_KEY];
          return;
        }
      }
    }

    /** Commits the best fit of the cached view, or reports why not. `act` is the step of the
        protocol this call takes. */
    method Allocate(hash: string -> string, view: seq<RawDevice>, node: string, requestGb: Int64)
      returns (res: Result<string, Code>, ghost act: Action)
      requires Versioned(server.View()) && 1 <= requestGb
      requires forall d :: d in view ==> d in server.history
      modifies server
      ensures act == Action.CreateVolume(view, node, requestGb)
      ensures server.View() == Apply(hash, old(server.View()), act)
      ensures res.Ok? <==> server.commits != old(server.commits)
      ensures res.Ok? ==> server.commits[|server.commits| - 1].name == res.value
      ensures res.Err? ==> res.error == Internal && server.View() == old(server.View())
      ensures res.Ok? <==> Sendable(old(server.View()), view, node, requestGb)
    {
      act := Action.CreateVolume(view, node, requestGb);
      var mine := ByNode(view, node);
      var matchIndex := ScanBestFit(mine, requestGb);
      if matchIndex < 0 { return Err(Internal), act; }
      var device := mine[matchIndex];
      assert device in mine;
      res := CommitStatus(device, device.name);
    }

    /** The versioned status write behind hand-outs and frees. */
    method CommitStatus(device: RawDevice, volume: string) returns (res: Result<string, Code>)
      requires Versioned(server.View()) && device in server.history
      requires (volume == "" || volume == device.name) && (volume == "") != (device.volume == "")
      modifies server
      ensures server.View() == if volume == "" then TakeBack(old(server.View()), device)
                               else HandOut(old(server.View()), device)
      ensures res.Ok? <==> device.name in old(server.objects) && device == old(server.objects)[device.name]
      ensures res.Ok? ==> res.value == device.name && server.View() == Committed(old(server.View()), device, volume)
      ensures res.Err? ==> res.error == Internal && server.View() == old(server.View())
    {
      SeenIsStored(server.View(), device);
      var reply := server.UpdateStatus(device.(volume := volume));
      if reply.Done? {
        server.Record(if volume == "" then Freed(device.uid, device.name) else Handed(device.uid, device.name));
        res := Ok(device.name);
      } else {
        res := Err(Internal);
      }
    }

    /** Everything CreateVolume checks before it scans for a device; `admission` is the view
        getMaxCapacity lists. Answers the node and the GiB count to place. */
    method Admit(req: CreateRequest, admission: seq<RawDevice>) returns (res: Result<(string, Int64), Code>)
      ensures res.Ok? ==> AdmittedTo(req, admission, res.value.0)
      ensures res.Ok? ==> res.value.1 == ConvertRequestCapacity(req.requiredBytes, req.limitBytes).value
      ensures forall node :: AdmittedTo(req, admission, node) ==> res.Ok? && res.value.0 == node
      ensures res == Err(Internal) <==> Acceptable(req) && req.topology.NoTopology? && NoNode(admission)
      ensures res == Err(ResourceExhausted) <==>
          Acceptable(req) && req.topology.NoTopology? && TooSmall(req, admission)
      ensures res.Err? && res.error != Internal && res.error != ResourceExhausted ==> res.error == InvalidArgument
    {
      if req.hasSource || req.capabilities == [] { return Err(InvalidArgument); }
      for k := 0 to |req.capabilities|
        invariant forall j :: 0 <= j < k ==>
            !req.capabilities[j].access.NoAccess? && !req.capabilities[j].mode.OtherMode?
      {
        if req.capabilities[k].access.NoAccess? { return Err(InvalidArgument); }
        if req.capabilities[k].mode.OtherMode? { return Err(InvalidArgument); }
      }
      var converted := ConvertRequestCapacity(req.requiredBytes, req.limitBytes);
      if converted.Err? { return Err(InvalidArgument); }
      var requestGb := converted.value;
      var node;
      if req.topology.NoTopology? {
        var capacity;
        ghost var at;
        node, capacity, at := GetMaxCapacity(admission);
        OnlyFirstLargest(admission, capacity, at);
        if node == "" { return Err(Internal); }
        if capacity < Shl30(requestGb) { return Err(ResourceExhausted); }
      } else {
        node := FindNode(req.topology.preferred);
        if node == "" { node := FindNode(req.topology.requisite); }
        if node == "" { return Err(InvalidArgument); }
      }
      if req.name == "" { return Err(InvalidArgument); }
      res := Ok((node, requestGb));
    }

    /** Hands a device of the node out, and answers the volume. */
    method Place(hash: string -> string, req: CreateRequest, view: seq<RawDevice>, node: string, requestGb: Int64)
      returns (res: Result<Volume, Code>)
      requires Inv(hash, server.View()) && 1 <= requestGb
      requires forall d :: d in view ==> d in server.history
      requires ConvertRequestCapacity(req.requiredBytes, req.limitBytes) == Ok(requestGb)
      modifies server
      ensures Inv(hash, server.View())
      ensures res.Ok? <==> Sendable(old(server.View()), view, node, requestGb)
      ensures res.Err? ==> res.error == Internal && server.View() == old(server.View())
      ensures res.Ok? ==> res.value.node == node && Placed(old(server.View()), server.View(), view, req, res.value)
      ensures res.Ok? ==> old(server.objects)[res.value.id].spec.nodeName == node
    {
      var placed, act := Allocate(hash, view, node, requestGb);
      CreateStepKeepsInv(hash, old(server.View()), view, node, requestGb);
      if placed.Err? { return Err(placed.error); }
      CommitIsPlacement(hash, old(server.View()), view, req, node, requestGb);
      res := Ok(Volume(placed.value, Shl30(requestGb), node));
    }

    /** A volume is handed out on the server's own terms, or nothing changes. */
    method CreateVolume(hash: string -> string, req: CreateRequest, admission: seq<RawDevice>, view: seq<RawDevice>)
      returns (res: Result<Volume, Code>)
      requires Inv(hash, server.View())
      requires forall d :: d in view ==> d in server.history
      modifies server
      ensures Inv(hash, server.View())
      ensures req.hasSource || req.capabilities == [] || req.requiredBytes < 0 || req.limitBytes < 0
              || (req.limitBytes != 0 && req.requiredBytes > req.limitBytes)
              || (exists c :: c in req.capabilities && (c.access.NoAccess? || c.mode.OtherMode?))
              ==> res == Err(InvalidArgument)
      ensures res == Err(ResourceExhausted) <==>
          Acceptable(req) && req.topology.NoTopology? && TooSmall(req, admission)
      ensures Acceptable(req) && req.topology.NoTopology? && NoNode(admission) ==> res == Err(Internal)
      ensures res.Err? && (exists node :: AdmittedTo(req, admission, node)) ==> res.error == Internal
      ensures res.Ok? <==> exists node ::
          && AdmittedTo(req, admission, node)
          && Sendable(old(server.View()), view, node, ConvertRequestCapacity(req.requiredBytes, req.limitBytes).value)
      ensures req.topology.NoTopology? && admission == view && Shows(old(server.View()), view) ==>
          (res.Ok? <==> req.requiredBytes <= TWO_63 - GIB && exists node :: AdmittedTo(req, view, node))
      ensures res.Err? ==> server.View() == old(server.View())
      ensures res.Ok? ==> Placed(old(server.View()), server.View(), view, req, res.value)
      ensures res.Ok? ==> AdmittedTo(req, admission, res.value.node)
      ensures res.Ok? ==> old(server.objects)[res.value.id].spec.nodeName == res.value.node
      ensures res.Ok? ==> IsTheNode(req, admission, res.value.node)
    {
      var admitted := Admit(req, admission);
      if admitted.Err? { return Err(admitted.error); }
      var (node, requestGb) := admitted.value;
      AdmittedIsTheNode(req, admission, node);
      if req.topology.NoTopology? && admission == view && Shows(server.View(), view) {
        OneSnapshotIsSendable(hash, server.View(), view, req, node);
      }
      res := Place(hash, req, view, node, requestGb);
    }

    method FindVolume(view: seq<RawDevice>, id: string) returns (matchIndex: int)
      ensures matchIndex == LastNamed(view, id)
    {
      matchIndex := -1;
      for index := 0 to |view|
        invariant matchIndex == LastNamed(view[..index], id)
      {
        assert view[..index + 1][..index] == view[..index];
        if view[index].volume == id { matchIndex := index; }
      }
      assert view[..|view|] == view;
    }

    /** Frees the device that carries the volume id in the cached view. */
    method DeleteVolume(hash: string -> string, id: string, view: seq<RawDevice>)
      returns (res: Result<(), Code>)
      requires Inv(hash, server.View())
      requires forall d :: d in view ==> d in server.history
      modifies server
      ensures Inv(hash, server.View())
      ensures id == "" <==> res == Err(InvalidArgument)
      ensures id != "" ==> server.View() == Apply(hash, old(server.View()), Action.DeleteVolume(view, id))
      ensures id != "" ==> (res == Err(NotFoundCode) <==> forall d :: d in view ==> d.volume != id)
      ensures res.Err? ==> server.View() == old(server.View())
      ensures res.Ok? ==>
          && id in old(server.objects)
          && var d := old(server.objects)[id];
          && d.volume == id && d in view
          && server.objects == old(server.objects)[id := d.(volume := "", version := old(server.clock))]
          && server.commits == old(server.commits) + [Freed(d.uid, id)]
    {
      if id == "" { return Err(InvalidArgument); }
      var matchIndex := FindVolume(view, id);
      if matchIndex < 0 { return Err(NotFoundCode); }
      var device := view[matchIndex];
      TakeBackKeepsInv(hash, server.View(), device);
      var freed := CommitStatus(device, "");
      res := if freed.Ok? then Ok(()) else Err(freed.error);
    }

    /** ValidateVolumeCapabilities and friends look a volume up the same way. */
    method GetVolume(view: seq<RawDevice>, id: string) returns (res: Result<RawDevice, Code>)
      ensures res.Ok? <==> exists d :: d in view && d.volume == id
      ensures res.Ok? ==> res.value == view[LastNamed(view, id)]
      ensures res.Err? ==> res.error == NotFoundCode
    {
      var matchIndex := FindVolume(view, id);
      if matchIndex < 0 { return Err(NotFoundCode); }
      res := Ok(view[matchIndex]);
    }

    /** The node plugin opens the device whose object carries the volume id as its name: while
        the volume is handed out that is the very device the controller committed. */
    method NodeResolve(hash: string -> string, id: string) returns (res: Result<RawDevice, Code>)
      requires Inv(hash, server.View())
      ensures res.Ok? <==> id in server.objects
      ensures res.Ok? ==> res.value == server.objects[id]
      ensures (exists n :: n in server.objects && server.objects[n].volume == id && id != "") ==>
          res.Ok? && res.value.volume == id && Out(Kinds(server.commits, ByUid(res.value.uid)))
    {
      var reply, dev := server.Get(id);
      res := if reply.Done? then Ok(dev) else Err(NotFoundCode);
    }

    method GetCapacity(topology: Accessible, view: seq<RawDevice>) returns (res: Result<Capacity, Code>)
      ensures topology.NoSegments? <==> res == Err(InvalidArgument)
      ensures topology.Segments? && TOPOLOGY_KEY !in topology.segments ==> res == Ok(NothingKnown)
      ensures topology.Segments? && TOPOLOGY_KEY in topology.segments ==>
          && res.Ok? && res.value.Capacity?
          && var r, mine := res.value, ByNode(view, topology.segments[TOPOLOGY_KEY]);
          && IsFigures(mine, r.available, r.maximum, r.minimum)
          && (forall g: Int64 :: 1 <= g ==> (0 <= BestFit(mine, g) <==> g * GIB <= r.maximum))
          && (forall d | d in view && "node" in d.labels && d.labels["node"] == topology.segments[TOPOLOGY_KEY]
                         && d.volume == "" && d.spec.available :: r.minimum <= d.spec.size <= r.maximum)
          && (r.maximum != 0 ==>
                exists d :: d in view && "node" in d.labels && d.labels["node"] == topology.segments[TOPOLOGY_KEY]
                            && d.volume == "" && d.spec.available && d.spec.size == r.maximum)
          && ((forall d | d in view && "node" in d.labels && d.labels["node"] == topology.segments[TOPOLOGY_KEY] ::
                 d.volume != "" || !d.spec.available) ==> r == Capacity(0, 0, 0))
    {
      if topology.NoSegments? { return Err(InvalidArgument); }
      if TOPOLOGY_KEY !in topology.segments { return Ok(NothingKnown); }
      var mine := ByNode(view, topology.segments[TOPOLOGY_KEY]);
      var available, maximum, minimum := Allocator.GetCapacity(mine);
      if forall d :: d in mine ==> d.volume != "" || !d.spec.available { NothingFree(mine); }
      forall g: Int64 | 1 <= g ensures 0 <= BestFit(mine, g) <==> g * GIB <= maximum {
        MaximumMeansPlaceable(mine, maximum, g);
      }
      res := Ok(Capacity(available, maximum, minimum));
    }
  }
}
