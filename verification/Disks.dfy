// The two device filters: one lists every device with a verdict, the other keeps the usable ones.
module Disks {
  import opened VgStatus

  const DISK_TYPE := "disk"
  const PART_TYPE := "part"
  const LOOP_TYPE := "loop"
  const SUPPORTED: set<string> := {DISK_TYPE, "ssd", "crypt", "mpath", PART_TYPE, "linear", LOOP_TYPE}
  const MIN_SIZE: nat := 0x8000_0000
  const DISK_PREFIX := "/dev/"

  datatype LocalDisk = LocalDisk(name: string, realPath: string, kernelName: string, type_: string, size: nat,
                                 mountPoint: string, filesystem: string)

  /** A device with its verdict. */
  datatype Verdict = Verdict(disk: LocalDisk, available: bool, message: string)

  /** What the commands on the host answer, by device; a device without an entry makes its command fail. */
  datatype Answers = Answers(listed: Option<seq<string>>, props: map<string, map<string, string>>, noUuid: set<string>,
                             noNumber: set<string>, udev: map<string, map<string, string>>, children: map<string, nat>)

  function Get(m: map<string, string>, key: string): string { if key in m then m[key] else "" }

  function ParseUint(s: string): Option<nat> {
    if s == "" then None
    else
      var front, c := if |s| == 1 then Some(0) else ParseUint(s[..|s| - 1]), s[|s| - 1];
      if front.None? || !('0' <= c <= '9') then None
      else
        var n := front.value * 10 + (c - '0') as nat;
        if n < 0x1_0000_0000_0000_0000 then Some(n) else None
  }

  /** The last element of a path. */
  function Base(p: string): (r: string)
    ensures r != ""
  {
    if p == "" then "."
    else if p[|p| - 1] == '/' then (if |p| == 1 then "/" else Base(p[..|p| - 1]))
    else LastPart(p)
  }

  function LastPart(p: string): (r: string)
    requires p != "" && p[|p| - 1] != '/'
    ensures r != ""
    decreases p
  {
    if '/' in p then LastPart(p[1..]) else p
  }

  /** What lsblk and udev say of a device; None if it is skipped. */
  function Populated(a: Answers, d: string): Option<LocalDisk> {
    if d !in a.props || "TYPE" !in a.props[d] then None
    else
      var p := a.props[d];
      if p["TYPE"] !in SUPPORTED || (p["TYPE"] != PART_TYPE && d in a.noUuid) || d in a.noNumber then None
      else
        var size := ParseUint(Get(p, "SIZE"));
        Some(LocalDisk(d, Get(p, "NAME"), if "KNAME" in p then Base(p["KNAME"]) else "", p["TYPE"],
                       if size.Some? then size.value else 0,
                       if Get(p, "MOUNTPOINT") == "" then "" else Base(p["MOUNTPOINT"]),
                       if d in a.udev then Get(a.udev[d], "ID_FS_TYPE") else ""))
  }

  /** A failing command counts as no child. */
  function Lines(a: Answers, device: string): nat { if device in a.children then a.children[device] else 0 }

  predicate HasChild(a: Answers, x: LocalDisk, device: string) { x.type_ == DISK_TYPE && Lines(a, device) > 1 }

  function Discovered(a: Answers, names: seq<string>, listParent: bool): seq<LocalDisk> {
    if names == [] then []
    else
      var front, d := Discovered(a, names[..|names| - 1], listParent), names[|names| - 1];
      var x := Populated(a, d);
      if x.None? || (!listParent && HasChild(a, x.value, d)) then front else front + [x.value]
  }

  method DiscoverDevices(a: Answers, listParent: bool) returns (r: Option<seq<LocalDisk>>)
    ensures r == if a.listed.None? then None else Some(Discovered(a, a.listed.value, listParent))
  {
    if a.listed.None? { return None; }
    var names, disks := a.listed.value, [];
    for i := 0 to |names|
      invariant disks == Discovered(a, names[..i], listParent)
    {
      assert names[..i + 1][..i] == names[..i];
      var disk := Populated(a, names[i]);
      if disk.None? { continue; }
      if disk.value.type_ == DISK_TYPE {
        if !listParent && Lines(a, names[i]) > 1 { continue; }
      }
      disks := disks + [disk.value];
    }
    assert names[..|names|] == names;
    r := Some(disks);
  }

  /** Big enough, and neither formatted nor mounted. */
  predicate Blank(x: LocalDisk) { x.size >= MIN_SIZE && x.filesystem == "" && x.mountPoint == "" }

  /** The verdict on one device; loop devices that would be usable are not listed at all. */
  function Judged(a: Answers, x: LocalDisk): seq<Verdict> {
    if x.size < MIN_SIZE then [Verdict(x, false, "size less than 2G")]
    else if x.filesystem != "" then [Verdict(x, false, "containe a filesystem " + x.filesystem)]
    else if x.mountPoint != "" then [Verdict(x, false, "has a mount point " + x.mountPoint)]
    else if HasChild(a, x, x.kernelName) then [Verdict(x, false, "has child")]
    else if x.type_ == LOOP_TYPE then []
    else [Verdict(x, true, "")]
  }

  function Verdicts(a: Answers, xs: seq<LocalDisk>): seq<Verdict> {
    if xs == [] then [] else Verdicts(a, xs[..|xs| - 1]) + Judged(a, xs[|xs| - 1])
  }

  method GetAllDevices(a: Answers) returns (r: Option<seq<Verdict>>)
    ensures r == if a.listed.None? then None else Some(Verdicts(a, Discovered(a, a.listed.value, true)))
    ensures r.Some? ==> forall d ::
              (exists v :: v in r.value && v.disk.name == d && v.available) <==>
              Readable(a, a.listed.value, d) && LooksBlank(a, d) && !Divided(a, d, KernelName(a, d))
              && a.props[d]["TYPE"] != "loop"
  {
    var disks := DiscoverDevices(a, true);
    if disks.None? { return None; }
    var xs, res := disks.value, [];
    for i := 0 to |xs|
      invariant res == Verdicts(a, xs[..i])
    {
      assert xs[..i + 1][..i] == xs[..i];
      ghost var before := res;
      var device := xs[i];
      assert Judged(a, device) == [] ==> before + Judged(a, device) == before;
      if device.size < MIN_SIZE {
        res := res + [Verdict(device, false, "size less than 2G")];
        continue;
      }
      if device.filesystem != "" {
        res := res + [Verdict(device, false, "containe a filesystem " + device.filesystem)];
        continue;
      }
      if device.mountPoint != "" {
        res := res + [Verdict(device, false, "has a mount point " + device.mountPoint)];
        continue;
      }
      if device.type_ == DISK_TYPE {
        if Lines(a, device.kernelName) > 1 {
          res := res + [Verdict(device, false, "has child")];
          continue;
        }
      }
      if device.type_ == LOOP_TYPE { continue; }
      res := res + [Verdict(device, true, "")];
    }
    assert xs[..|xs|] == xs;
    r := Some(res);
    forall d
      ensures (exists v :: v in res && v.disk.name == d && v.available) <==>
              Readable(a, a.listed.value, d) && LooksBlank(a, d) && !Divided(a, d, KernelName(a, d))
              && a.props[d]["TYPE"] != "loop"
    {
      FlaggedIff(a, a.listed.value, d, true);
    }
  }

  function Usable(xs: seq<LocalDisk>): map<string, LocalDisk> {
    if xs == [] then map[]
    else
      var front, x := Usable(xs[..|xs| - 1]), xs[|xs| - 1];
      if Blank(x) then front[DISK_PREFIX + x.name := x] else front
  }

  method GetAvailableDevices(a: Answers) returns (r: Option<map<string, LocalDisk>>)
    ensures r == if a.listed.None? then None else Some(Usable(Discovered(a, a.listed.value, false)))
    ensures r.Some? ==> forall d :: (DISK_PREFIX + d) in r.value <==>
              Readable(a, a.listed.value, d) && LooksBlank(a, d) && !Divided(a, d, d)
  {
    var disks := DiscoverDevices(a, false);
    if disks.None? { return None; }
    var xs := disks.value;
    var found: map<string, LocalDisk> := map[];
    for i := 0 to |xs|
      invariant found == Usable(xs[..i])
    {
      assert xs[..i + 1][..i] == xs[..i];
      if xs[i].size < MIN_SIZE { continue; }
      if xs[i].filesystem != "" { continue; }
      if xs[i].mountPoint != "" { continue; }
      found := found[DISK_PREFIX + xs[i].name := xs[i]];
    }
    assert xs[..|xs|] == xs;
    r := Some(found);
    forall d
      ensures (DISK_PREFIX + d) in found <==> Readable(a, a.listed.value, d) && LooksBlank(a, d) && !Divided(a, d, d)
    {
      KeptIff(a, a.listed.value, d);
    }
  }

  /******* What the host's answers mean *******/

  /** The decimal digits of a number. */
  function Digits(n: nat): string {
    if n < 10 then [('0' as int + n) as char] else Digits(n / 10) + [('0' as int + n % 10) as char]
  }

  /** A size below 2^64 is read back; beyond it is an error. */
  lemma {:induction false} ParsesDigits(n: nat)
    ensures Digits(n) != ""
    ensures ParseUint(Digits(n)) == if n < 0x1_0000_0000_0000_0000 then Some(n) else None
  {
    if n >= 10 {
      ParsesDigits(n / 10);
      assert Digits(n)[..|Digits(n)| - 1] == Digits(n / 10);
    } else {
      assert |Digits(n)| == 1;
    }
  }

  lemma {:induction false} BaseOfPath(dir: string, name: string)
    requires name != "" && '/' !in name
    ensures Base(name) == name && Base(dir + "/" + name) == name
  {
    var p := dir + "/" + name;
    assert p[|p| - 1] == name[|name| - 1] && name[|name| - 1] in name;
    LastOfPath(dir, name);
  }

  lemma {:induction false} LastOfPath(dir: string, name: string)
    requires name != "" && '/' !in name
    ensures var p := dir + "/" + name; p[|p| - 1] != '/' && LastPart(p) == name
  {
    var p := dir + "/" + name;
    assert p[|p| - 1] == name[|name| - 1] && name[|name| - 1] in name;
    assert p[|dir|] == '/';
    if dir == "" {
      assert p[1..] == name;
    } else {
      LastOfPath(dir[1..], name);
      assert p[1..] == dir[1..] + "/" + name;
    }
  }

  /** A listed device that is reported on, of a supported type, with a UUID unless it is a partition. */
  predicate Readable(a: Answers, names: seq<string>, d: string) {
    && d in names && d in a.props && "TYPE" in a.props[d] && d !in a.noNumber
    && a.props[d]["TYPE"] in ["disk", "ssd", "crypt", "mpath", "part", "linear", "loop"]
    && (d in a.noUuid ==> a.props[d]["TYPE"] == "part")
  }

  /** At least 2 GiB, without a filesystem and a mount point. */
  predicate LooksBlank(a: Answers, d: string)
    requires d in a.props
  {
    && "SIZE" in a.props[d] && ParseUint(a.props[d]["SIZE"]).Some?
    && ParseUint(a.props[d]["SIZE"]).value >= 2 * 1024 * 1024 * 1024
    && (d in a.udev && "ID_FS_TYPE" in a.udev[d] ==> a.udev[d]["ID_FS_TYPE"] == "")
    && ("MOUNTPOINT" in a.props[d] ==> a.props[d]["MOUNTPOINT"] == "")
  }

  /** A whole disk with more than one line of children under that name. */
  predicate Divided(a: Answers, d: string, name: string)
    requires d in a.props && "TYPE" in a.props[d]
  {
    a.props[d]["TYPE"] == "disk" && name in a.children && a.children[name] > 1
  }

  function KernelName(a: Answers, d: string): string
    requires d in a.props
  {
    if "KNAME" in a.props[d] then Base(a.props[d]["KNAME"]) else ""
  }

  lemma PopulatedIs(a: Answers, names: seq<string>, d: string)
    requires d in names
    ensures Populated(a, d).Some? <==> Readable(a, names, d)
    ensures Populated(a, d).Some? ==>
              var x := Populated(a, d).value;
              && x.name == d && x.type_ == a.props[d]["TYPE"] && x.kernelName == KernelName(a, d)
              && (Blank(x) <==> LooksBlank(a, d))
  {
  }

  /******* Where the two filters agree *******/

  lemma {:induction false} DiscoveredIff(a: Answers, names: seq<string>, listParent: bool)
    ensures forall x :: x in Discovered(a, names, listParent)
                <==> x.name in names && Populated(a, x.name) == Some(x) && (listParent || !HasChild(a, x, x.name))
  {
    if names != [] {
      DiscoveredIff(a, names[..|names| - 1], listParent);
      assert names == names[..|names| - 1] + [names[|names| - 1]];
    }
  }

  lemma {:induction false} VerdictsIff(a: Answers, xs: seq<LocalDisk>)
    ensures forall v :: v in Verdicts(a, xs) <==> v.disk in xs && v in Judged(a, v.disk)
  {
    if xs != [] {
      VerdictsIff(a, xs[..|xs| - 1]);
      assert xs == xs[..|xs| - 1] + [xs[|xs| - 1]];
    }
  }

  lemma {:induction false} UsableIff(a: Answers, xs: seq<LocalDisk>)
    requires forall x :: x in xs ==> Populated(a, x.name) == Some(x)
    ensures forall x :: x in xs && Blank(x) <==>
              (DISK_PREFIX + x.name) in Usable(xs) && Usable(xs)[DISK_PREFIX + x.name] == x
    ensures forall k :: k in Usable(xs) ==> k == DISK_PREFIX + Usable(xs)[k].name && Usable(xs)[k] in xs
  {
    if xs != [] {
      var front, last := xs[..|xs| - 1], xs[|xs| - 1];
      UsableIff(a, front);
      assert xs == front + [last];
      forall x: LocalDisk, y: LocalDisk | DISK_PREFIX + x.name == DISK_PREFIX + y.name ensures x.name == y.name {
        assert x.name == (DISK_PREFIX + x.name)[|DISK_PREFIX|..];
        assert y.name == (DISK_PREFIX + y.name)[|DISK_PREFIX|..];
      }
    }
  }

  predicate FlaggedAvailable(a: Answers, names: seq<string>, x: LocalDisk) {
    Verdict(x, true, "") in Verdicts(a, Discovered(a, names, true))
  }

  predicate KeptAvailable(a: Answers, names: seq<string>, x: LocalDisk) {
    var kept := Usable(Discovered(a, names, false));
    (DISK_PREFIX + x.name) in kept && kept[DISK_PREFIX + x.name] == x
  }

  /** What each filter lets through; both see the same devices. */
  lemma FiltersAre(a: Answers, names: seq<string>, x: LocalDisk)
    ensures FlaggedAvailable(a, names, x) <==>
        x.name in names && Populated(a, x.name) == Some(x) && Blank(x) && x.type_ != LOOP_TYPE
          && !HasChild(a, x, x.kernelName)
    ensures KeptAvailable(a, names, x) <==>
        x.name in names && Populated(a, x.name) == Some(x) && Blank(x) && !HasChild(a, x, x.name)
  {
    DiscoveredIff(a, names, true);
    DiscoveredIff(a, names, false);
    VerdictsIff(a, Discovered(a, names, true));
    UsableIff(a, Discovered(a, names, false));
  }

  /** A device is kept by the one filter exactly if it is readable and blank and has no children. */
  lemma KeptIff(a: Answers, names: seq<string>, d: string)
    ensures (DISK_PREFIX + d) in Usable(Discovered(a, names, false)) <==>
              Readable(a, names, d) && LooksBlank(a, d) && !Divided(a, d, d)
  {
    var xs := Discovered(a, names, false);
    DiscoveredIff(a, names, false);
    UsableIff(a, xs);
    if d in names { PopulatedIs(a, names, d); }
    if (DISK_PREFIX + d) in Usable(xs) {
      var x := Usable(xs)[DISK_PREFIX + d];
      assert d == (DISK_PREFIX + d)[|DISK_PREFIX|..] == (DISK_PREFIX + x.name)[|DISK_PREFIX|..] == x.name;
      FiltersAre(a, names, x);
    } else if Populated(a, d).Some? {
      FiltersAre(a, names, Populated(a, d).value);
    }
  }

  lemma OneVerdict(a: Answers, x: LocalDisk)
    ensures var blank := Blank(x) && !HasChild(a, x, x.kernelName);
            if blank && x.type_ == LOOP_TYPE then Judged(a, x) == []
            else |Judged(a, x)| == 1 && Judged(a, x)[0].disk == x && Judged(a, x)[0].available == blank
  {
  }

  lemma VerdictsByName(a: Answers, names: seq<string>, d: string, v: Verdict)
    requires v.disk.name == d
    ensures v in Verdicts(a, Discovered(a, names, true)) <==>
              d in names && Populated(a, d) == Some(v.disk) && v in Judged(a, v.disk)
  {
    DiscoveredIff(a, names, true);
    VerdictsIff(a, Discovered(a, names, true));
  }

  /** The other lists each readable device, with the verdict that it is available exactly if it is
      blank, no loop device, and has no children under its kernel name; it leaves out loop devices
      that are blank. */
  lemma FlaggedIff(a: Answers, names: seq<string>, d: string, available: bool)
    ensures (exists v :: v in Verdicts(a, Discovered(a, names, true)) && v.disk.name == d && v.available == available)
            <==> && Readable(a, names, d)
                 && var blank := LooksBlank(a, d) && !Divided(a, d, KernelName(a, d));
                    if available then blank && a.props[d]["TYPE"] != "loop" else !blank
  {
    var vs := Verdicts(a, Discovered(a, names, true));
    forall v: Verdict | v.disk.name == d
      ensures v in vs <==> d in names && Populated(a, d) == Some(v.disk) && v in Judged(a, v.disk)
    {
      VerdictsByName(a, names, d, v);
    }
    if d in names && Populated(a, d).Some? {
      PopulatedIs(a, names, d);
      var x := Populated(a, d).value;
      OneVerdict(a, x);
      if Judged(a, x) != [] { assert Judged(a, x)[0] in Judged(a, x) && Judged(a, x)[0] in vs; }
    } else if d in names {
      PopulatedIs(a, names, d);
    }
  }

  /** The filters agree on a listed blank device exactly when it is no loop device and its
      children are the same under its listed name and its kernel name. */
  lemma FiltersAgreeIff(a: Answers, names: seq<string>, x: LocalDisk)
    requires x.name in names && Populated(a, x.name) == Some(x) && Blank(x)
    ensures (FlaggedAvailable(a, names, x) <==> KeptAvailable(a, names, x))
            <==> x.type_ != LOOP_TYPE && (HasChild(a, x, x.kernelName) <==> HasChild(a, x, x.name))
  {
    FiltersAre(a, names, x);
  }

  /** A loop device that is big enough, and neither formatted nor mounted, is kept by the one
      filter and not listed by the other. */
  lemma LoopDeviceSplitsFilters(size: string)
    requires ParseUint(size).Some? && ParseUint(size).value >= MIN_SIZE
    ensures var props := map["loop0" := map["TYPE" := "loop", "SIZE" := size]];
            var a := Answers(Some(["loop0"]), props, {}, {}, map[], map[]);
            var x := LocalDisk("loop0", "", "", "loop", ParseUint(size).value, "", "");
            KeptAvailable(a, ["loop0"], x) && !FlaggedAvailable(a, ["loop0"], x)
  {
    var a := Answers(Some(["loop0"]), map["loop0" := map["TYPE" := "loop", "SIZE" := size]], {}, {}, map[], map[]);
    var x := LocalDisk("loop0", "", "", "loop", ParseUint(size).value, "", "");
    assert Populated(a, "loop0") == Some(x);
    FiltersAre(a, ["loop0"], x);
  }

  /** With kernel names as listed, they agree on every device but loop devices. */
  lemma FiltersAgree(a: Answers, names: seq<string>, x: LocalDisk)
    requires x.type_ != LOOP_TYPE && x.kernelName == x.name
    ensures FlaggedAvailable(a, names, x) <==> KeptAvailable(a, names, x)
  {
    FiltersAre(a, names, x);
  }
}
