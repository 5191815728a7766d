// The API server as an object whose methods change the stored objects.
module ApiServers {
  import opened RawDevices

  /** The server that the controllers and the discovery daemons talk to. */
  class ApiServer {
    var objects: map<string, RawDevice>
    var clock: nat
    ghost var history: set<RawDevice>
    ghost var commits: seq<Commit>

    ghost function View(): World
      reads this
    {
      World(objects, clock, history, commits)
    }

    constructor ()
      ensures View() == EmptyWorld
    {
      objects, clock, history, commits := map[], 0, {}, [];
    }

    /** All stored objects with that node label, each once, in some order. */
    method ListByNode(node: string) returns (list: seq<RawDevice>)
      requires forall n :: n in objects ==> objects[n].name == n
      ensures forall d :: d in list <==>
                d.name in objects && objects[d.name] == d && "node" in d.labels && d.labels["node"] == node
      ensures forall i, j :: 0 <= i < j < |list| ==> list[i].name != list[j].name
    {
      list := [];
      var todo := objects.Keys;
      while todo != {}
        invariant todo <= objects.Keys
        invariant forall d :: d in list <==>
                    d.name in objects && objects[d.name] == d && OnNode(d, node) && d.name !in todo
        invariant forall i, j :: 0 <= i < j < |list| ==> list[i].name != list[j].name
        decreases todo
      {
        var n :| n in todo;
        todo := todo - {n};
        if OnNode(objects[n], node) { list := list + [objects[n]]; }
      }
    }

    method Put(dev: RawDevice)
      modifies this
      ensures View() == Store(old(View()), dev)
    {
      var stamped := dev.(version := clock);
      objects := objects[dev.name := stamped];
      history := history + {stamped};
      clock := clock + 1;
    }

    method Create(dev: RawDevice) returns (reply: Reply)
      modifies this
      ensures (View(), reply) == RawDevices.Create(old(View()), dev)
      ensures reply == if dev.name == "" then Invalid else if dev.name in old(objects) then AlreadyExists else Done
      ensures reply.Done? ==> objects == old(objects)[dev.name := dev.(volume := "", uid := old(clock),
                                                                       version := old(clock))]
      ensures !reply.Done? ==> View() == old(View())
    {
      if dev.name == "" { return Invalid; }
      if dev.name in objects { return AlreadyExists; }
      Put(dev.(volume := "", uid := clock));
      reply := Done;
    }

    method Get(name: string) returns (reply: Reply, dev: RawDevice)
      ensures reply == (if name in objects then Done else NotFound)
      ensures name in objects ==> dev == objects[name]
    {
      if name in objects {
        reply, dev := Done, objects[name];
      } else {
        reply := NotFound;
        dev := *;
      }
    }

    method Update(dev: RawDevice) returns (reply: Reply)
      modifies this
      ensures (View(), reply) == RawDevices.Update(old(View()), dev)
      ensures reply == if dev.name !in old(objects) then NotFound
                       else if dev.version != old(objects)[dev.name].version then Conflict else Done
      ensures reply.Done? && old(objects)[dev.name].name == dev.name ==>
          && objects == old(objects)[dev.name := objects[dev.name]]
          && var was, now := old(objects)[dev.name], objects[dev.name];
          && now == was.(labels := dev.labels, spec := dev.spec, version := now.version)
          && now.version == (if dev.labels == was.labels && dev.spec == was.spec then was.version else old(clock))
      ensures !reply.Done? ==> View() == old(View())
    {
      if dev.name !in objects { return NotFound; }
      var stored := objects[dev.name];
      if dev.version != stored.version { return Conflict; }
      var next := stored.(labels := dev.labels, spec := dev.spec);
      if next != stored { Put(next); }
      reply := Done;
    }

    method UpdateStatus(dev: RawDevice) returns (reply: Reply)
      modifies this
      ensures (View(), reply) == RawDevices.UpdateStatus(old(View()), dev)
      ensures reply == if dev.name !in old(objects) then NotFound
                       else if dev.version != old(objects)[dev.name].version then Conflict else Done
      ensures reply.Done? && old(objects)[dev.name].name == dev.name ==>
          && objects == old(objects)[dev.name := objects[dev.name]]
          && var was, now := old(objects)[dev.name], objects[dev.name];
          && now == was.(volume := dev.volume, version := now.version)
          && now.version == (if dev.volume == was.volume then was.version else old(clock))
      ensures !reply.Done? ==> View() == old(View())
    {
      if dev.name !in objects { return NotFound; }
      var stored := objects[dev.name];
      if dev.version != stored.version { return Conflict; }
      var next := stored.(volume := dev.volume);
      if next != stored { Put(next); }
      reply := Done;
    }

    method Delete(name: string) returns (reply: Reply)
      modifies this
      ensures (View(), reply) == RawDevices.Delete(old(View()), name)
      ensures reply == if name in old(objects) then Done else NotFound
      ensures objects == old(objects) - {name} && clock == old(clock)
    {
      if name !in objects { return NotFound; }
      objects := objects - {name};
      reply := Done;
    }

    ghost method Record(c: Commit)
      modifies this`commits
      ensures View() == Log(old(View()), c)
    {
      commits := commits + [c];
    }
  }
}
