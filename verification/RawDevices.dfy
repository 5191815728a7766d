// The RawDevice objects and the API server that stores them: named objects with
// optimistic versions, a status subresource, and one counter for all versions.
module RawDevices {
  const TWO_63: int := 0x8000_0000_0000_0000
  const TWO_64: int := 0x1_0000_0000_0000_0000
  const GIB: int := 0x4000_0000

  type Int64 = x: int | -TWO_63 <= x < TWO_63

  /** Two's complement truncation to 64 bits. */
  function Wrap(x: int): (r: Int64)
    ensures (x - r) % TWO_64 == 0
    ensures -TWO_63 <= x < TWO_63 <==> r == x
  {
    var m := x % TWO_64;
    if m < TWO_63 then m else m - TWO_64
  }

  /** `x >> 30` on int64: an arithmetic shift, so it rounds towards minus infinity. */
  function Shr30(x: Int64): Int64 { x / GIB }

  /** `x << 30` on int64. */
  function Shl30(x: Int64): Int64 { Wrap(x * GIB) }

  datatype Spec = Spec(nodeName: string, size: Int64, kind: string, realPath: string,
                       major: nat, minor: nat, uuid: string, available: bool)

  /** `volume` is Status.Name: empty while the device is not handed out. `uid` tells two
      objects apart that carried the same name one after the other. */
  datatype RawDevice = RawDevice(name: string, labels: map<string, string>, spec: Spec,
                                 volume: string, version: nat, uid: nat)

  predicate OnNode(d: RawDevice, node: string) { "node" in d.labels && d.labels["node"] == node }

  datatype Commit = Handed(uid: nat, name: string) | Freed(uid: nat, name: string)

  /** What the API server stores, every object version it ever stored, and the
      successful hand-outs and frees so far, oldest first. */
  datatype World = World(objects: map<string, RawDevice>, clock: nat,
                         history: set<RawDevice>, commits: seq<Commit>)

  const EmptyWorld := World(map[], 0, {}, [])

  datatype Reply = Done | AlreadyExists | NotFound | Conflict | Invalid

  function Store(w: World, dev: RawDevice): World {
    var stamped := dev.(version := w.clock);
    w.(objects := w.objects[dev.name := stamped], clock := w.clock + 1,
       history := w.history + {stamped})
  }

  /** Creation drops the status, as the type has a status subresource. */
  function Create(w: World, dev: RawDevice): (World, Reply) {
    if dev.name == "" then (w, Invalid)
    else if dev.name in w.objects then (w, AlreadyExists)
    else (Store(w, dev.(volume := "", uid := w.clock)), Done)
  }

  /** A versioned update of everything but the status; writing equal contents stores nothing. */
  function Update(w: World, dev: RawDevice): (World, Reply) {
    if dev.name !in w.objects then (w, NotFound)
    else if dev.version != w.objects[dev.name].version then (w, Conflict)
    else
      var stored := w.objects[dev.name];
      var next := stored.(labels := dev.labels, spec := dev.spec);
      if next == stored then (w, Done) else (Store(w, next), Done)
  }

  /** A versioned update of the status alone. */
  function UpdateStatus(w: World, dev: RawDevice): (World, Reply) {
    if dev.name !in w.objects then (w, NotFound)
    else if dev.version != w.objects[dev.name].version then (w, Conflict)
    else
      var stored := w.objects[dev.name];
      var next := stored.(volume := dev.volume);
      if next == stored then (w, Done) else (Store(w, next), Done)
  }

  /** Deletion is by name alone: it carries no version. */
  function Delete(w: World, name: string): (World, Reply) {
    if name !in w.objects then (w, NotFound)
    else (w.(objects := w.objects - {name}), Done)
  }

  function Log(w: World, c: Commit): World { w.(commits := w.commits + [c]) }
}
