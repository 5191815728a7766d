// The arithmetic and the scans of the CSI controller: how many GiB a request needs, which
// device is the best fit, and the capacity figures a node advertises.
module Allocator {
  import opened RawDevices

  datatype Result<T, E> = Ok(value: T) | Err(error: E)

  datatype RangeError = NegativeRequest | NegativeLimit | RequestAboveLimit

  /** The number of GiB to ask for. The first two clauses say which ranges are refused;
      the last one that the answer is the least positive count covering the request. */
  function ConvertRequestCapacity(requestBytes: Int64, limitBytes: Int64): (r: Result<Int64, RangeError>)
    ensures r.Ok? <==> 0 <= requestBytes && 0 <= limitBytes && (limitBytes == 0 || requestBytes <= limitBytes)
    ensures r.Ok? ==> 1 <= r.value && requestBytes <= r.value * GIB
    ensures r.Ok? ==> forall g: int :: 1 <= g && requestBytes <= g * GIB ==> r.value <= g
  {
    if requestBytes < 0 then Err(NegativeRequest)
    else if limitBytes < 0 then Err(NegativeLimit)
    else if limitBytes != 0 && requestBytes > limitBytes then Err(RequestAboveLimit)
    else if requestBytes == 0 then Ok(1)
    else Ok(Shr30(requestBytes - 1) + 1)
  }

  /** Turning the count back into bytes overflows int64 for the very largest requests only. */
  lemma ShiftBackIsExactIff(requestBytes: Int64, limitBytes: Int64)
    requires ConvertRequestCapacity(requestBytes, limitBytes).Ok?
    ensures var g := ConvertRequestCapacity(requestBytes, limitBytes).value;
            Shl30(g) == g * GIB <==> requestBytes <= TWO_63 - GIB
  {
  }

  predicate Free(d: RawDevice) { d.volume == "" && d.spec.available }

  predicate Fits(d: RawDevice, requestGb: Int64) { Free(d) && Shr30(d.spec.size) >= requestGb }

  /** `i` is the first of the smallest devices that fit, or -1 when none does. */
  ghost predicate IsBestFit(list: seq<RawDevice>, requestGb: Int64, i: int) {
    && -1 <= i < |list|
    && (i == -1 ==> forall j :: 0 <= j < |list| ==> !Fits(list[j], requestGb))
    && (i >= 0 ==>
          && Fits(list[i], requestGb)
          && (forall j :: 0 <= j < |list| && Fits(list[j], requestGb) ==> list[i].spec.size <= list[j].spec.size)
          && (forall j :: 0 <= j < i && Fits(list[j], requestGb) ==> list[i].spec.size < list[j].spec.size))
  }

  lemma BestFitIsUnique(list: seq<RawDevice>, requestGb: Int64, i: int, k: int)
    requires IsBestFit(list, requestGb, i) && IsBestFit(list, requestGb, k)
    ensures i == k
  {
  }

  /** The best fit as a function of the list, for the specification of the protocol. */
  function BestFit(list: seq<RawDevice>, requestGb: Int64): (i: int)
    ensures IsBestFit(list, requestGb, i)
  {
    if list == [] then -1
    else
      var last := |list| - 1;
      var k := BestFit(list[..last], requestGb);
      assert forall j :: 0 <= j < last ==> list[..last][j] == list[j];
      if Fits(list[last], requestGb) && (k < 0 || list[last].spec.size < list[k].spec.size) then last else k
  }

  /** The scan of createVolume, with 0 standing for "no size yet". That sentinel is sound
      because a request is at least 1 GiB, so a fitting device has a positive size. */
  method ScanBestFit(list: seq<RawDevice>, requestGb: Int64) returns (matchIndex: int)
    requires 1 <= requestGb
    ensures matchIndex == BestFit(list, requestGb)
  {
    matchIndex := -1;
    var matchSize: Int64 := 0;
    for index := 0 to |list|
      invariant -1 <= matchIndex < index
      invariant IsBestFit(list[..index], requestGb, matchIndex)
      invariant matchSize == if matchIndex < 0 then 0 else list[matchIndex].spec.size
    {
      assert forall j :: 0 <= j < index ==> list[..index + 1][j] == list[..index][j];
      var dev := list[index];
      if dev.volume != "" || !dev.spec.available { continue; }
      if Shr30(dev.spec.size) >= requestGb {
        if matchSize == 0 {
          matchSize := dev.spec.size;
          matchIndex := index;
        }
        if dev.spec.size < matchSize {
          matchSize := dev.spec.size;
          matchIndex := index;
        }
      }
    }
    assert list[..|list|] == list;
    BestFitIsUnique(list, requestGb, matchIndex, BestFit(list, requestGb));
  }

  ghost predicate IsLargestFree(list: seq<RawDevice>, capacity: Int64) {
    && 0 <= capacity
    && (forall d :: d in list && d.volume == "" && d.spec.available ==> d.spec.size <= capacity)
    && (capacity > 0 ==> exists d :: d in list && d.volume == "" && d.spec.available && d.spec.size == capacity)
  }

  /** The device getMaxCapacity settles on: the first of the largest free ones. */
  ghost predicate IsFirstLargest(list: seq<RawDevice>, i: int) {
    && 0 <= i < |list|
    && list[i].volume == "" && list[i].spec.available && 0 < list[i].spec.size
    && (forall j :: 0 <= j < |list| && list[j].volume == "" && list[j].spec.available ==>
          if j < i then list[j].spec.size < list[i].spec.size else list[j].spec.size <= list[i].spec.size)
  }

  method GetMaxCapacity(list: seq<RawDevice>) returns (node: string, capacity: Int64, ghost at: int)
    ensures IsLargestFree(list, capacity)
    ensures capacity == 0 ==> node == ""
    ensures capacity > 0 ==>
              IsFirstLargest(list, at) && capacity == list[at].spec.size && node == list[at].spec.nodeName
  {
    node, capacity, at := "", 0, -1;
    for index := 0 to |list|
      invariant IsLargestFree(list[..index], capacity)
      invariant capacity == 0 ==> node == ""
      invariant capacity > 0 ==>
          IsFirstLargest(list[..index], at) && capacity == list[at].spec.size && node == list[at].spec.nodeName
    {
      assert list[..index + 1] == list[..index] + [list[index]];
      var ele := list[index];
      if ele.volume != "" || !ele.spec.available { continue; }
      if ele.spec.size > capacity {
        capacity := ele.spec.size;
        node := ele.spec.nodeName;
        at := index;
      }
    }
    assert list[..|list|] == list;
  }

  /** What getMaxCapacity answers tells where the first of the largest free devices is. */
  lemma OnlyFirstLargest(list: seq<RawDevice>, capacity: Int64, at: int)
    requires IsLargestFree(list, capacity) && (capacity > 0 ==> IsFirstLargest(list, at))
    ensures forall i :: IsFirstLargest(list, i) ==> capacity > 0 && i == at
  {
    forall i | IsFirstLargest(list, i) ensures capacity > 0 && i == at {
      assert list[i] in list;
    }
  }

  function ByNode(list: seq<RawDevice>, node: string): (r: seq<RawDevice>)
    ensures forall d :: d in r <==> d in list && "node" in d.labels && d.labels["node"] == node
  {
    if list == [] then []
    else
      var last := |list| - 1;
      assert list == list[..last] + [list[last]];
      ByNode(list[..last], node) + (if OnNode(list[last], node) then [list[last]] else [])
  }

  /** The selection keeps the order of the list: what precedes an entry and is on the node
      precedes it in the selection. */
  lemma {:induction false} ByNodeKeepsOrder(list: seq<RawDevice>, node: string, i: nat) returns (p: nat)
    requires i < |ByNode(list, node)|
    ensures p < |list| && list[p] == ByNode(list, node)[i]
    ensures forall j :: 0 <= j < p && OnNode(list[j], node) ==> list[j] in ByNode(list, node)[..i]
  {
    var last := |list| - 1;
    var front := ByNode(list[..last], node);
    if i < |front| {
      p := ByNodeKeepsOrder(list[..last], node, i);
      assert front[..i] == ByNode(list, node)[..i];
    } else {
      p := last;
      assert ByNode(list, node)[..i] == front;
      forall j | 0 <= j < last && OnNode(list[j], node) ensures list[j] in front {
        assert list[j] in list[..last];
      }
    }
  }

  /** Admission and selection agree on one snapshot, unless the GiB count overflows int64. */
  lemma AdmissionImpliesSelection(list: seq<RawDevice>, requestBytes: Int64, limitBytes: Int64, at: int)
    requires ConvertRequestCapacity(requestBytes, limitBytes).Ok?
    requires IsFirstLargest(list, at)
    requires OnNode(list[at], list[at].spec.nodeName)
    requires list[at].spec.size >= Shl30(ConvertRequestCapacity(requestBytes, limitBytes).value)
    ensures var g := ConvertRequestCapacity(requestBytes, limitBytes).value;
            0 <= BestFit(ByNode(list, list[at].spec.nodeName), g) <==> requestBytes <= TWO_63 - GIB
  {
    var g := ConvertRequestCapacity(requestBytes, limitBytes).value;
    var mine := ByNode(list, list[at].spec.nodeName);
    ShiftBackIsExactIff(requestBytes, limitBytes);
    assert list[at] in mine;
    var k :| 0 <= k < |mine| && mine[k] == list[at];
    if requestBytes <= TWO_63 - GIB {
      assert Fits(mine[k], g);
    } else {
      assert requestBytes > 0x1_FFFF_FFFF * GIB;
      assert g >= 0x2_0000_0000;
      forall j | 0 <= j < |mine| ensures !Fits(mine[j], g) {
        assert Shr30(mine[j].spec.size) < 0x2_0000_0000;
      }
    }
  }

  lemma TopCount(requestBytes: Int64)
    requires requestBytes > TWO_63 - GIB
    ensures ConvertRequestCapacity(requestBytes, 0) == Ok(0x2_0000_0000) && Shl30(0x2_0000_0000) == -TWO_63
  {
    assert 0x1_FFFF_FFFF * GIB <= requestBytes - 1 < 0x2_0000_0000 * GIB;
    assert Shr30(requestBytes - 1) == 0x1_FFFF_FFFF;
    assert 0x2_0000_0000 * GIB == TWO_63;
  }

  /** Above that bound any free device of positive size makes admission pass and selection fail. */
  lemma OverflowAdmitsUnplaceable(dev: RawDevice, requestBytes: Int64)
    requires Free(dev) && 0 < dev.spec.size && OnNode(dev, dev.spec.nodeName) && requestBytes > TWO_63 - GIB
    ensures ConvertRequestCapacity(requestBytes, 0).Ok? && IsFirstLargest([dev], 0)
    ensures var g := ConvertRequestCapacity(requestBytes, 0).value;
            Shl30(g) <= dev.spec.size && BestFit(ByNode([dev], dev.spec.nodeName), g) == -1
  {
    TopCount(requestBytes);
    AdmissionImpliesSelection([dev], requestBytes, 0, 0);
  }

  /** The free bytes of a list, in unbounded arithmetic. */
  function FreeBytes(list: seq<RawDevice>): int {
    if list == [] then 0
    else
      var last := |list| - 1;
      FreeBytes(list[..last]) + Share(list[last])
  }

  /** What adds up: the sizes of the free devices, wherever they are in the list. */
  lemma {:induction false} FreeBytesAdd(a: seq<RawDevice>, b: seq<RawDevice>)
    ensures FreeBytes(a + b) == FreeBytes(a) + FreeBytes(b)
  {
    if b == [] {
      assert a + b == a;
    } else {
      var last := |b| - 1;
      assert (a + b)[..|a + b| - 1] == a + b[..last];
      FreeBytesAdd(a, b[..last]);
    }
  }

  lemma FreeBytesOfOne(d: RawDevice)
    ensures FreeBytes([d]) == if d.volume == "" && d.spec.available then d.spec.size else 0
  {
    assert [d][..0] == [];
    assert FreeBytes([]) == 0;
  }

  /** Without a free device there are no free bytes. */
  lemma {:induction false} NothingFree(list: seq<RawDevice>)
    requires forall d :: d in list ==> d.volume != "" || !d.spec.available
    ensures FreeBytes(list) == 0
  {
    if list != [] {
      assert list[|list| - 1] in list;
      NothingFree(list[..|list| - 1]);
    }
  }

  /** The minimum GetCapacity reports: a bound on every free size, and the size of a free
      device, unless it is still the 0 it starts from because the first device is not free. */
  ghost predicate IsReportedMinimum(list: seq<RawDevice>, minimum: Int64) {
    && (forall d :: d in list && d.volume == "" && d.spec.available ==> minimum <= d.spec.size)
    && ((minimum == 0 && (list == [] || list[0].volume != "" || !list[0].spec.available))
        || ((list != [] && (list[0].volume != "" || !list[0].spec.available) ==> minimum < 0)
            && exists d :: d in list && d.volume == "" && d.spec.available && d.spec.size == minimum))
  }

  /** What the three figures are after some devices. */
  ghost predicate IsFigures(seen: seq<RawDevice>, available: Int64, maximum: Int64, minimum: Int64) {
    available == Wrap(FreeBytes(seen)) && IsLargestFree(seen, maximum) && IsReportedMinimum(seen, minimum)
  }

  /** The three figures of GetCapacity. The sum wraps around like int64 does; the minimum
      starts from the first device only if that one is free, and from 0 otherwise. */
  method GetCapacity(list: seq<RawDevice>) returns (available: Int64, maximum: Int64, minimum: Int64)
    ensures IsFigures(list, available, maximum, minimum)
  {
    available, maximum, minimum := 0, 0, 0;
    for index := 0 to |list|
      invariant IsFigures(list[..index], available, maximum, minimum)
    {
      assert list[..index + 1] == list[..index] + [list[index]];
      available, maximum, minimum := AddFigures(list[..index], list[index], index, available, maximum, minimum);
    }
    assert list[..|list|] == list;
  }

  /** The body of that loop. */
  method AddFigures(ghost seen: seq<RawDevice>, dev: RawDevice, index: nat, sum: Int64, max: Int64, min: Int64)
    returns (available: Int64, maximum: Int64, minimum: Int64)
    requires index == |seen| && IsFigures(seen, sum, max, min)
    ensures IsFigures(seen + [dev], available, maximum, minimum)
  {
    available, maximum, minimum := sum, max, min;
    SumStep(seen, dev);
    LargestStep(seen, dev, max);
    MinimumStep(seen, dev, min);
    if dev.volume != "" || !dev.spec.available { return; }
    available := Wrap(available + dev.spec.size);
    if index == 0 { minimum := dev.spec.size; }
    if dev.spec.size > maximum { maximum := dev.spec.size; }
    if dev.spec.size < minimum { minimum := dev.spec.size; }
  }

  lemma SumStep(seen: seq<RawDevice>, dev: RawDevice)
    ensures Wrap(FreeBytes(seen + [dev])) ==
            if Free(dev) then Wrap(Wrap(FreeBytes(seen)) + dev.spec.size) else Wrap(FreeBytes(seen))
  {
    assert (seen + [dev])[..|seen|] == seen;
    WrapAdds(FreeBytes(seen), dev.spec.size);
  }

  lemma LargestStep(seen: seq<RawDevice>, dev: RawDevice, maximum: Int64)
    requires IsLargestFree(seen, maximum)
    ensures IsLargestFree(seen + [dev], if Free(dev) && dev.spec.size > maximum then dev.spec.size else maximum)
  {
  }

  lemma MinimumStep(seen: seq<RawDevice>, dev: RawDevice, minimum: Int64)
    requires IsReportedMinimum(seen, minimum)
    ensures var first := if seen == [] && Free(dev) then dev.spec.size else minimum;
            IsReportedMinimum(seen + [dev], if Free(dev) && dev.spec.size < first then dev.spec.size else first)
  {
  }

  lemma WrapAdds(x: int, y: int)
    ensures Wrap(Wrap(x) + y) == Wrap(x + y)
  {
    var q := (x - Wrap(x)) / TWO_64;
    assert x == Wrap(x) + q * TWO_64;
    assert (x + y) % TWO_64 == (Wrap(x) + y) % TWO_64;
  }

  lemma WrapMoves(was: int, change: int, now: int)
    requires now == was + change
    ensures Wrap(now) == Wrap(Wrap(was) + change)
  {
    WrapAdds(was, change);
  }

  /** A whole number of GiB can be placed exactly when the advertised maximum covers it. */
  lemma MaximumMeansPlaceable(list: seq<RawDevice>, maximum: Int64, g: Int64)
    requires 1 <= g && IsLargestFree(list, maximum)
    ensures 0 <= BestFit(list, g) <==> g * GIB <= maximum
  {
  }

  /** What a device contributes to the free bytes. */
  function Share(d: RawDevice): int { if Free(d) then d.spec.size else 0 }

  /** Replacing one device moves the free bytes by the difference of the two shares. */
  lemma {:induction false} ReplaceMovesFreeBytes(list: seq<RawDevice>, i: nat, d: RawDevice)
    requires i < |list|
    ensures FreeBytes(list[i := d]) == FreeBytes(list) - Share(list[i]) + Share(d)
  {
    var last := |list| - 1;
    if i < last {
      ReplaceMovesFreeBytes(list[..last], i, d);
      assert list[i := d][..last] == list[..last][i := d];
    } else {
      assert list[i := d][..last] == list[..last];
    }
  }
}
