// The finalizer list of an object. Removal shifts the list in place while ranging over it.
module Finalizer {
  function Filter(list: seq<string>, s: string): seq<string> {
    if list == [] then []
    else (if list[0] == s then [] else [list[0]]) + Filter(list[1..], s)
  }

  /** A slice: its whole backing array, how much of it is in use, and whether the program
      panicked on a slice bound. */
  datatype Slice = Slice(backing: seq<string>, len: nat, panicked: bool)

  /** append(list[:i], list[i+1:]...): the backing array keeps what lies past the new end. */
  function Shifted(b: seq<string>, len: nat, i: nat): (r: seq<string>)
    requires i < len <= |b|
    ensures |r| == |b|
  {
    b[..i] + b[i + 1..len] + b[len - 1..]
  }

  lemma ShiftedAt(b: seq<string>, len: nat, i: nat, p: nat)
    requires i < len <= |b| && p < |b|
    ensures Shifted(b, len, i)[p] == if i <= p < len - 1 then b[p + 1] else b[p]
  {
  }

  /** The range loop from index `i` on: it runs over the length at its start, and reads each
      value from the shifted backing array. */
  function Scan(b: seq<string>, len: nat, i: nat, s: string): Slice
    requires len <= |b| && i <= |b|
    decreases |b| - i
  {
    if i == |b| then Slice(b, len, false)
    else if b[i] != s then Scan(b, len, i + 1, s)
    else if i + 1 > len then Slice(b, len, true)
    else Scan(Shifted(b, len, i), len - 1, i + 1, s)
  }

  /** The shift in place, from index `i` to the end of the list. */
  method Shift(a: array<string>, len: nat, i: nat)
    requires i < len <= a.Length
    modifies a
    ensures a[..] == Shifted(old(a[..]), len, i)
  {
    for p := i to len - 1
      invariant forall q :: i <= q < p ==> a[q] == old(a[q + 1])
      invariant forall q :: 0 <= q < a.Length && !(i <= q < p) ==> a[q] == old(a[q])
    {
      a[p] := a[p + 1];
    }
    forall p | 0 <= p < a.Length ensures a[p] == Shifted(old(a[..]), len, i)[p] { ShiftedAt(old(a[..]), len, i, p); }
  }

  /** The list after remove, in the array that held it. */
  method Remove(a: array<string>, s: string) returns (len: nat, panicked: bool)
    modifies a
    ensures len <= a.Length
    ensures Slice(a[..], len, panicked) == Scan(old(a[..]), a.Length, 0, s)
  {
    len, panicked := a.Length, false;
    for i := 0 to a.Length
      invariant len <= a.Length && Scan(a[..], len, i, s) == Scan(old(a[..]), a.Length, 0, s)
    {
      if a[i] == s {
        if i + 1 > len { return len, true; }
        Shift(a, len, i);
        len := len - 1;
      }
    }
  }

  method Contains(list: seq<string>, s: string) returns (found: bool)
    ensures found <==> s in list
  {
    for i := 0 to |list|
      invariant s !in list[..i]
    {
      if list[i] == s { return true; }
    }
    found := false;
  }

  predicate NoDuplicates(list: seq<string>) { forall i, j :: 0 <= i < j < |list| ==> list[i] != list[j] }

  method AddIfNotPresent(list: seq<string>, s: string) returns (r: seq<string>)
    ensures r == if s in list then list else list + [s]
    ensures NoDuplicates(list) ==> NoDuplicates(r)
  {
    r := list;
    var found := Contains(list, s);
    if !found { r := list + [s]; }
  }

  /******* When remove is right *******/

  predicate Leaves(r: Slice, list: seq<string>) {
    !r.panicked && r.len <= |r.backing| && r.backing[..r.len] == list
  }

  predicate Removes(list: seq<string>, s: string) { Leaves(Scan(list, |list|, 0, s), Filter(list, s)) }

  predicate AtMostOnce(list: seq<string>, s: string) {
    forall i, j :: 0 <= i < j < |list| ==> !(list[i] == s && list[j] == s)
  }

  predicate Adjacent(list: seq<string>, s: string)
  {
    exists i :: 0 <= i < |list| - 1 && list[i] == s && list[i + 1] == s
  }

  /** What the loop keeps of a list that does not end in `s`: it skips what follows a removal. */
  function Skipping(t: seq<string>, s: string): seq<string> {
    if t == [] then []
    else if t[0] != s then [t[0]] + Skipping(t[1..], s)
    else if |t| == 1 then []
    else [t[1]] + Skipping(t[2..], s)
  }

  lemma {:induction false} SkippingIsFilterIff(t: seq<string>, s: string)
    ensures s !in Filter(t, s)
    ensures if Adjacent(t, s) then s in Skipping(t, s) else Skipping(t, s) == Filter(t, s)
  {
    if t != [] {
      SkippingIsFilterIff(t[1..], s);
      if t[0] != s {
        assert Adjacent(t, s) ==> Adjacent(t[1..], s) by {
          if i :| 0 <= i < |t| - 1 && t[i] == s && t[i + 1] == s { assert t[1..][i - 1] == s && t[1..][i] == s; }
        }
        assert Adjacent(t[1..], s) ==> Adjacent(t, s) by {
          if i :| 0 <= i < |t| - 2 && t[1..][i] == s && t[1..][i + 1] == s { assert t[i + 1] == s && t[i + 2] == s; }
        }
      } else if |t| > 1 {
        SkippingIsFilterIff(t[2..], s);
        assert t[1..][1..] == t[2..] && t[1..][0] == t[1];
        if t[1] == s {
          assert t[0] == s && t[0 + 1] == s;
        } else {
          assert Adjacent(t, s) ==> Adjacent(t[2..], s) by {
            if i :| 0 <= i < |t| - 1 && t[i] == s && t[i + 1] == s { assert t[2..][i - 2] == s && t[2..][i - 1] == s; }
          }
          assert Adjacent(t[2..], s) ==> Adjacent(t, s) by {
            if i :| 0 <= i < |t| - 3 && t[2..][i] == s && t[2..][i + 1] == s { assert t[i + 2] == s && t[i + 3] == s; }
          }
        }
      }
    }
  }

  /** Past the end of the list, only copies of its last element remain to be read. */
  lemma {:induction false} ScanIdle(b: seq<string>, len: nat, i: nat, s: string)
    requires len <= |b| && i <= |b| && forall p :: i <= p < |b| ==> b[p] != s
    ensures Scan(b, len, i, s) == Slice(b, len, false)
    decreases |b| - i
  {
    if i < |b| { ScanIdle(b, len, i + 1, s); }
  }

  /** The array after `k` removals, seen from index `i` on: shifted by `k`, and filled up with
      the last element. */
  predicate Lags(list: seq<string>, b: seq<string>, k: nat, i: nat) {
    && |b| == |list| && list != []
    && forall p :: i <= p < |list| ==> b[p] == if p + k < |list| then list[p + k] else list[|list| - 1]
  }

  lemma LagsMore(list: seq<string>, b: seq<string>, len: nat, i: nat)
    requires len <= |list| && Lags(list, b, |list| - len, i) && i + 1 < len
    ensures Lags(list, Shifted(b, len, i), |list| - len + 1, i + 1)
    ensures Shifted(b, len, i)[..i + 1] == b[..i] + [list[i + |list| - len + 1]]
  {
  }

  /** What the loop is to make of the rest of the list. */
  predicate Skips(rest: seq<string>, b: seq<string>, len: nat, i: nat, s: string) {
    len <= |b| && i <= |b| && Leaves(Scan(b, len, i, s), b[..i] + Skipping(rest, s))
  }

  lemma KeepStep(list: seq<string>, n: nat, b: seq<string>, len: nat, i: nat, s: string)
    requires n < |list| && list[|list| - 1] != s && i < |b| && b[i] == list[n] != s
    requires Skips(list[n + 1..], b, len, i + 1, s)
    ensures Skips(list[n..], b, len, i, s)
  {
  }

  lemma DropStep(list: seq<string>, n: nat, b: seq<string>, len: nat, i: nat, s: string)
    requires n + 1 < |list| && list[|list| - 1] != s && i < len <= |b| && b[i] == list[n] == s
    requires Skips(list[n + 2..], Shifted(b, len, i), len - 1, i + 1, s)
    requires Shifted(b, len, i)[..i + 1] == b[..i] + [list[n + 1]]
    ensures Skips(list[n..], b, len, i, s)
  {
  }

  lemma IdleEnd(b: seq<string>, len: nat, i: nat, s: string)
    requires len == i <= |b| && forall p :: i <= p < |b| ==> b[p] != s
    ensures Skips([], b, len, i, s)
  {
    ScanIdle(b, len, i, s);
    assert b[..i] + [] == b[..i];
  }

  /** The loop when `len` elements are left, for a list that does not end in `s`; `n` is where
      in the list it has got. */
  lemma {:induction false} ScanSkips(list: seq<string>, b: seq<string>, len: nat, i: nat, n: nat, s: string)
    requires len <= |list| && Lags(list, b, |list| - len, i) && n == i + |list| - len <= |list| && list[|list| - 1] != s
    ensures Skips(list[n..], b, len, i, s)
    decreases |b| - i
  {
    if n == |list| {
      assert list[n..] == [];
      IdleEnd(b, len, i, s);
    } else if b[i] != s {
      ScanSkips(list, b, len, i + 1, n + 1, s);
      KeepStep(list, n, b, len, i, s);
    } else {
      LagsMore(list, b, len, i);
      ScanSkips(list, Shifted(b, len, i), len - 1, i + 1, n + 2, s);
      DropStep(list, n, b, len, i, s);
    }
  }

  /** After a removal, a list that ended in `s` makes the loop panic. */
  lemma {:induction false} ScanPanics(b: seq<string>, len: nat, i: nat, s: string)
    requires len < |b| && i < |b| && b[|b| - 1] == s
    ensures Scan(b, len, i, s).panicked
    decreases |b| - i
  {
    if b[i] != s {
      ScanPanics(b, len, i + 1, s);
    } else if i + 1 <= len {
      ShiftedAt(b, len, i, |b| - 1);
      ScanPanics(Shifted(b, len, i), len - 1, i + 1, s);
    }
  }

  lemma {:induction false} ScanToFirst(list: seq<string>, i: nat, j: nat, s: string)
    requires i <= j <= |list| && forall p :: i <= p < j ==> list[p] != s
    ensures Scan(list, |list|, i, s) == Scan(list, |list|, j, s)
    decreases j - i
  {
    if i < j { ScanToFirst(list, i + 1, j, s); }
  }

  lemma {:induction false} FilterAbsent(list: seq<string>, s: string)
    requires s !in list
    ensures Filter(list, s) == list && Filter(list + [s], s) == list
  {
    if list == [] {
      assert [s][1..] == [];
    } else {
      FilterAbsent(list[1..], s);
      assert (list + [s])[1..] == list[1..] + [s];
    }
  }

  /** Adding a finalizer and removing it again gives back a list that lacked it. */
  lemma RemoveUndoesAdd(list: seq<string>, s: string)
    requires s !in list
    ensures Removes(list + [s], s) && Filter(list + [s], s) == list
  {
    var more := list + [s];
    FilterAbsent(list, s);
    ScanToFirst(more, 0, |list|, s);
    assert Shifted(more, |more|, |list|) == more;
  }

  lemma FirstOf(list: seq<string>, s: string) returns (j: nat)
    requires s in list
    ensures j < |list| && list[j] == s && forall p :: 0 <= p < j ==> list[p] != s
  {
    j := 0;
    while list[j] != s
      invariant j < |list| && s !in list[..j]
      decreases |list| - j
    {
      j := j + 1;
    }
  }

  lemma RemovesIfEndDiffers(list: seq<string>, s: string)
    requires list != [] && list[|list| - 1] != s
    ensures Removes(list, s) <==> !Adjacent(list, s)
  {
    ScanSkips(list, list, |list|, 0, 0, s);
    assert list[0..] == list;
    assert list[..0] + Skipping(list, s) == Skipping(list, s);
    SkippingIsFilterIff(list, s);
  }

  lemma RemovesIfEndSame(list: seq<string>, s: string)
    requires list != [] && list[|list| - 1] == s
    ensures Removes(list, s) <==> s !in list[..|list| - 1]
  {
    var j := FirstOf(list, s);
    if j == |list| - 1 {
      assert list == list[..j] + [s];
      RemoveUndoesAdd(list[..j], s);
    } else {
      assert list[..|list| - 1][j] == s;
      ScanToFirst(list, 0, j, s);
      PanicsAfterFirst(list, j, s);
    }
  }

  lemma PanicsAfterFirst(list: seq<string>, j: nat, s: string)
    requires j < |list| - 1 && list[j] == s && list[|list| - 1] == s
    ensures Scan(list, |list|, j, s).panicked
  {
    ShiftedAt(list, |list|, j, |list| - 1);
    ScanPanics(Shifted(list, |list|, j), |list| - 1, j + 1, s);
  }

  /** Exactly when remove neither panics nor leaves or drops anything it should not. */
  lemma RemovesIff(list: seq<string>, s: string)
    ensures Removes(list, s) <==> AtMostOnce(list, s) || (!Adjacent(list, s) && list[|list| - 1] != s)
  {
    if list == [] {
      assert Removes(list, s);
    } else if list[|list| - 1] != s {
      RemovesIfEndDiffers(list, s);
      assert AtMostOnce(list, s) ==> !Adjacent(list, s);
    } else {
      RemovesIfEndSame(list, s);
      var front := list[..|list| - 1];
      if s in front {
        var j :| 0 <= j < |front| && front[j] == s;
        assert list[j] == s;
      } else {
        assert forall i :: 0 <= i < |front| ==> list[i] == front[i];
      }
    }
  }

  /** Twice in a row at the end, the program panics; before another element, one is left. */
  lemma TwiceGoesWrong(s: string, x: string)
    requires x != s
    ensures Scan([s, s], 2, 0, s).panicked && !Removes([s, s], s)
    ensures Leaves(Scan([s, s, x], 3, 0, s), [s, x]) && !Removes([s, s, x], s)
  {
    assert Shifted([s, s], 2, 0) == [s, s];
    var list := [s, s, x];
    ScanSkips(list, list, 3, 0, 0, s);
    assert list[0..] == list && list[2..] == [x] && [x][1..] == [];
    assert Skipping([x], s) == [x] + Skipping([], s) == [x];
    assert Skipping(list, s) == [s] + Skipping(list[2..], s) == [s, x];
    RemovesIfEndDiffers(list, s);
    assert list[0] == s && list[0 + 1] == s;
  }

  lemma DistinctIsRemoved(list: seq<string>, s: string)
    requires NoDuplicates(list)
    ensures Removes(list, s)
  {
    RemovesIff(list, s);
  }
}
