// How a pass rewrites the two keys of the node's ConfigMap, and what that keeps.
module LvmdConfig {
  import opened Lvm
  import opened VgStatus
  import opened Passes

  /** Takes the spec's default flags over into the entries of the same name. */
  method ApplyDefaults(list: seq<LvmdClass>, spec: seq<DeviceClass>) returns (r: seq<LvmdClass>)
    ensures r == WithDefaults(list, spec)
  {
    r := list;
    for k := 0 to |spec|
      invariant r == WithDefaults(list, spec[..k])
    {
      assert spec[..k + 1][..k] == spec[..k];
      ghost var before := r;
      for index := 0 to |r|
        invariant |r| == |before|
        invariant forall i :: 0 <= i < |r| ==>
            r[i] == if i < index && before[i].name == spec[k].className
                    then before[i].(default_ := spec[k].default_)
                    else before[i]
      {
        if r[index].name == spec[k].className && r[index].default_ != spec[k].default_ {
          r := r[index := r[index].(default_ := spec[k].default_)];
        }
      }
      assert r == WithDefault(before, spec[k]);
    }
    assert spec[..|spec|] == spec;
  }

  lemma KeptSnoc(list: seq<LvmdClass>, k: nat, names: set<string>)
    requires k < |list|
    ensures KeptNames(list[..k + 1], names) ==
            KeptNames(list[..k], names) + (if list[k].name in names then [list[k]] else [])
  {
    assert list[..k + 1][..k] == list[..k];
  }

  method HasName(suc: Classes, name: string) returns (found: bool)
    ensures found <==> name in ClassNames(suc)
  {
    found := false;
    var todo := suc.Keys;
    while todo != {}
      invariant todo <= suc.Keys
      invariant found <==> exists v :: v in suc && v !in todo && suc[v].name == name
      decreases todo
    {
      var v :| v in todo;
      todo := todo - {v};
      if suc[v].name == name { found := true; }
    }
  }

  /** Deletes in place the entries that no success class bears. */
  method Prune(list: seq<LvmdClass>, suc: Classes) returns (r: seq<LvmdClass>)
    ensures r == KeptNames(list, ClassNames(suc))
  {
    r := list;
    var index := 0;
    ghost var seen := 0;
    while index < |r|
      invariant 0 <= index <= |r| && 0 <= seen <= |list|
      invariant r[..index] == KeptNames(list[..seen], ClassNames(suc)) && r[index..] == list[seen..]
      decreases |list| - seen
    {
      CutOut(r, index, list, seen);
      KeptSnoc(list, seen, ClassNames(suc));
      var found := HasName(suc, r[index].name);
      if !found {
        r := r[..index] + r[index + 1..];
      } else {
        index := index + 1;
      }
      seen := seen + 1;
    }
    assert list[..seen] == list && r[..index] == r;
  }

  /** The entry carries the settings of the class. */
  ghost predicate IsEntryOf(e: LvmdClass, d: DeviceClass) {
    && e.name == d.className && e.vg == d.vgName && e.default_ == d.default_
    && e.spareGb == d.spareGb && e.stripe == d.stripe && e.stripeSize == d.stripeSize
  }

  /** The entry is an old one, but for its default flag: that is the one of the last class of its
      name, if the spec has any. */
  ghost predicate IsOldEntry(e: LvmdClass, old_: LvmdClass, spec: seq<DeviceClass>) {
    && e == old_.(default_ := e.default_)
    && ((exists d :: d in spec && d.className == e.name) ==>
          exists k :: 0 <= k < |spec| && spec[k].className == e.name && e.default_ == spec[k].default_
                      && forall j :: k < j < |spec| ==> spec[j].className != e.name)
    && ((forall d :: d in spec ==> d.className != e.name) ==> e.default_ == old_.default_)
  }

  /** What a rewrite of an existing key lists: the old entries and one for each new class, but only
      those of the given names. */
  ghost predicate Rewritten(was: seq<LvmdClass>, spec: seq<DeviceClass>, made: seq<DeviceClass>, names: set<string>,
                            now: seq<LvmdClass>) {
    && (forall e :: e in now ==>
          && e.name in names
          && ((exists o :: o in was && IsOldEntry(e, o, spec)) || exists d :: d in made && IsEntryOf(e, d)))
    && (forall o :: o in was && o.name in names ==> exists e :: e in now && IsOldEntry(e, o, spec))
    && (forall d :: d in made && d.className in names ==> exists e :: e in now && IsEntryOf(e, d))
  }

  lemma LastOfName(spec: seq<DeviceClass>, name: string) returns (k: int)
    ensures -1 <= k < |spec|
    ensures k == -1 ==> forall d :: d in spec ==> d.className != name
    ensures k >= 0 ==> spec[k].className == name && forall j :: k < j < |spec| ==> spec[j].className != name
  {
    k := |spec| - 1;
    while k >= 0 && spec[k].className != name
      invariant -1 <= k < |spec| && forall j :: k < j < |spec| ==> spec[j].className != name
    {
      k := k - 1;
    }
  }

  lemma DefaultedIsOld(was: seq<LvmdClass>, spec: seq<DeviceClass>, i: nat)
    requires i < |was|
    ensures IsOldEntry(WithDefaults(was, spec)[i], was[i], spec)
  {
    var k := LastOfName(spec, was[i].name);
    if k >= 0 {
      DefaultsFromLast(was, spec, i, k);
      assert spec[k] in spec;
    } else {
      assert forall j :: 0 <= j < |spec| ==> spec[j] in spec;
      DefaultsKeepOthers(was, spec, i);
    }
  }

  /** The rewrite of an existing key, entry by entry. */
  lemma RewriteLists(was: seq<LvmdClass>, spec: seq<DeviceClass>, made: seq<DeviceClass>, names: set<string>)
    ensures Rewritten(was, spec, made, names, UpdatedLvmd(Some(was), spec, made, names).value)
  {
    var old_, fresh_ := WithDefaults(was, spec), ConvertAll(made);
    var now := UpdatedLvmd(Some(was), spec, made, names).value;
    assert now == KeptNames(old_ + fresh_, names);
    forall i | 0 <= i < |was| ensures IsOldEntry(old_[i], was[i], spec) && (old_[i].name in names ==> old_[i] in now) {
      DefaultedIsOld(was, spec, i);
      assert old_[i] in old_ + fresh_;
    }
    forall i | 0 <= i < |made| ensures IsEntryOf(fresh_[i], made[i]) && (fresh_[i].name in names ==> fresh_[i] in now) {
      assert fresh_[i] in old_ + fresh_;
    }
    forall e | e in now
      ensures (exists o :: o in was && IsOldEntry(e, o, spec)) || exists d :: d in made && IsEntryOf(e, d)
    {
      if e in old_ {
        var i :| 0 <= i < |old_| && old_[i] == e;
        assert was[i] in was;
      } else {
        var i :| 0 <= i < |fresh_| && fresh_[i] == e;
        assert made[i] in made;
      }
    }
    forall o | o in was && o.name in names ensures exists e :: e in now && IsOldEntry(e, o, spec) {
      var i :| 0 <= i < |was| && was[i] == o;
      assert old_[i] in now;
    }
    forall d | d in made && d.className in names ensures exists e :: e in now && IsEntryOf(e, d) {
      var i :| 0 <= i < |made| && made[i] == d;
      assert fresh_[i] in now;
    }
  }

  /** Without new classes the key stays as it is, present or not. */
  function CreatedLvmd(lvmd: Option<seq<LvmdClass>>, newVgs: seq<DeviceClass>): Option<seq<LvmdClass>> {
    if newVgs == [] then lvmd else Some(ConvertAll(newVgs))
  }

  method CreateLvmdConf(lvmd: Option<seq<LvmdClass>>, newVgs: seq<DeviceClass>) returns (r: Option<seq<LvmdClass>>)
    ensures r == CreatedLvmd(lvmd, newVgs)
    ensures newVgs == [] ==> r == lvmd
    ensures newVgs != [] ==>
              r.Some? && |r.value| == |newVgs| && forall i :: 0 <= i < |newVgs| ==> IsEntryOf(r.value[i], newVgs[i])
  {
    if newVgs == [] { return lvmd; }
    var list := [];
    for k := 0 to |newVgs|
      invariant list == ConvertAll(newVgs[..k])
    {
      list := list + [ConvertConfig(newVgs[k])];
    }
    assert newVgs[..|newVgs|] == newVgs;
    r := Some(list);
  }

  method UpdateLvmdConf(lvmd: Option<seq<LvmdClass>>, spec: seq<DeviceClass>, newVgs: seq<DeviceClass>, suc: Classes)
    returns (r: Option<seq<LvmdClass>>)
    ensures r == UpdatedLvmd(lvmd, spec, newVgs, ClassNames(suc))
    ensures lvmd.None? && newVgs == [] ==> r.None?
    ensures lvmd.None? && newVgs != [] ==>
              r.Some? && |r.value| == |newVgs| && forall i :: 0 <= i < |newVgs| ==> IsEntryOf(r.value[i], newVgs[i])
    ensures lvmd.Some? ==>
              r.Some? && Rewritten(lvmd.value, spec, newVgs, set v | v in suc :: suc[v].name, r.value)
  {
    if lvmd.None? {
      r := CreateLvmdConf(lvmd, newVgs);
      return;
    }
    var list := ApplyDefaults(lvmd.value, spec);
    ghost var base := list;
    for k := 0 to |newVgs|
      invariant list == base + ConvertAll(newVgs[..k])
    {
      list := list + [ConvertConfig(newVgs[k])];
      assert ConvertAll(newVgs[..k + 1]) == ConvertAll(newVgs[..k]) + [ConvertConfig(newVgs[k])];
    }
    assert newVgs[..|newVgs|] == newVgs;
    list := Prune(list, suc);
    r := Some(list);
    RewriteLists(lvmd.value, spec, newVgs, ClassNames(suc));
  }

  /** The map of classes as a list, in whatever order the map is ranged over. */
  method ListOf(m: Classes) returns (list: seq<ClassState>)
    ensures Listed(list, m)
  {
    list := [];
    ghost var keys := [];
    var todo := m.Keys;
    while todo != {}
      invariant todo <= m.Keys && |list| == |keys|
      invariant forall i :: 0 <= i < |keys| ==> keys[i] in m && keys[i] !in todo && list[i] == m[keys[i]]
      invariant forall i, j :: 0 <= i < j < |keys| ==> keys[i] != keys[j]
      invariant forall v :: v in m && v !in todo ==> v in keys
      decreases todo
    {
      var v :| v in todo;
      todo := todo - {v};
      list, keys := list + [m[v]], keys + [v];
    }
    assert Lists(list, keys, m);
  }

  /** The persisted maps of classes. */
  function SucOf(cd: ConfigData): Classes { if cd.status.None? then map[] else NameMap(cd.status.value.successes) }

  function FailOf(cd: ConfigData): Classes { if cd.status.None? then map[] else NameMap(cd.status.value.failures) }

  /** No group is a success and a failure. */
  ghost predicate Apart(cd: ConfigData) { SucOf(cd).Keys !! FailOf(cd).Keys }

  /******* Rewriting the key *******/

  /** The classes of a spec have the groups that go with their names. */
  ghost predicate Obeys(naming: map<string, string>, classes: seq<DeviceClass>) {
    forall c :: c in classes ==> c.className in naming && naming[c.className] == c.vgName
  }

  ghost predicate ListMatches(naming: map<string, string>, lvmd: Option<seq<LvmdClass>>) {
    lvmd.Some? ==> forall e :: e in lvmd.value ==> e.name in naming && naming[e.name] == e.vg
  }

  /** The entries at two places of a list that have the same name are not among `names`. */
  ghost predicate OnceAmong(list: seq<LvmdClass>, names: set<string>) {
    forall i, j :: 0 <= i < j < |list| && list[i].name == list[j].name ==> list[i].name !in names
  }

  /** No name is listed twice. */
  ghost predicate NoDuplicates(lvmd: Option<seq<LvmdClass>>) {
    lvmd.Some? ==> forall i, j :: 0 <= i < j < |lvmd.value| ==> lvmd.value[i].name != lvmd.value[j].name
  }

  ghost predicate DistinctNames(ds: seq<DeviceClass>) {
    forall i, j :: 0 <= i < j < |ds| ==> ds[i].className != ds[j].className
  }

  /** No name is kept twice when a pass that made the classes `made` and leaves the names `left`
      rewrites the key: neither among the old entries, nor among the new, nor across. */
  ghost predicate KeptOnce(lvmd: Option<seq<LvmdClass>>, made: seq<DeviceClass>, left: set<string>) {
    if lvmd.None? then DistinctNames(made)
    else
      && OnceAmong(lvmd.value, left) && OnceAmong(ConvertAll(made), left)
      && LvmdNames(lvmd) * NewNames(made) * left == {}
  }

  lemma {:induction false} PruningKeepsOnce(list: seq<LvmdClass>, names: set<string>)
    ensures NoDuplicates(Some(KeptNames(list, names))) <==> OnceAmong(list, names)
  {
    if list != [] {
      var n := |list| - 1;
      PruningKeepsOnce(list[..n], names);
      OnceSnoc(list, names);
      var kept, last := KeptNames(list[..n], names), list[n];
      if last.name in names {
        assert KeptNames(list, names) == kept + [last];
        AppendsOnce(kept, last);
        assert forall e :: e in kept <==> e in list[..n] && e.name in names;
      } else {
        assert KeptNames(list, names) == kept + [] == kept;
      }
    }
  }

  lemma OnceSnoc(list: seq<LvmdClass>, names: set<string>)
    requires list != []
    ensures var front, last := list[..|list| - 1], list[|list| - 1];
            OnceAmong(list, names) <==>
              OnceAmong(front, names) && (last.name in names ==> forall e :: e in front ==> e.name != last.name)
  {
    var n := |list| - 1;
    if OnceAmong(list, names) && list[n].name in names {
      forall e | e in list[..n] ensures e.name != list[n].name {
        var i :| 0 <= i < n && list[i] == e;
      }
    }
    assert forall i :: 0 <= i < n ==> list[i] in list[..n];
  }

  lemma AppendsOnce(list: seq<LvmdClass>, e: LvmdClass)
    ensures NoDuplicates(Some(list + [e])) <==> NoDuplicates(Some(list)) && forall d :: d in list ==> d.name != e.name
  {
    var more := list + [e];
    if NoDuplicates(Some(more)) {
      forall d | d in list ensures d.name != e.name {
        var i :| 0 <= i < |list| && list[i] == d;
        assert more[i] == d && more[|list|] == e;
      }
      assert forall i :: 0 <= i < |list| ==> more[i] == list[i];
    }
  }

  lemma OnceAcross(a: seq<LvmdClass>, b: seq<LvmdClass>, names: set<string>)
    ensures OnceAmong(a + b, names) <==>
            OnceAmong(a, names) && OnceAmong(b, names) && EntryNames(a) * EntryNames(b) * names == {}
  {
    var list := a + b;
    if OnceAmong(list, names) {
      assert forall i :: 0 <= i < |a| ==> list[i] == a[i];
      assert forall i :: 0 <= i < |b| ==> list[|a| + i] == b[i];
      forall n | n in EntryNames(a) && n in EntryNames(b) ensures n !in names {
        var i, j :| 0 <= i < |a| && 0 <= j < |b| && a[i].name == n && b[j].name == n;
        assert list[i].name == n && list[|a| + j].name == n;
      }
      assert EntryNames(a) * EntryNames(b) * names == {};
    } else {
      var i, j :| 0 <= i < j < |list| && list[i].name == list[j].name && list[i].name in names;
      if i < |a| <= j {
        assert list[i] in a && list[j] in b;
        assert list[i].name in EntryNames(a) * EntryNames(b) * names;
      }
    }
  }

  /** Exactly when a rewrite of the key lists no name twice, whatever it was before. */
  lemma RewriteOnceIff(lvmd: Option<seq<LvmdClass>>, spec: seq<DeviceClass>, made: seq<DeviceClass>, left: set<string>)
    ensures NoDuplicates(UpdatedLvmd(lvmd, spec, made, left)) <==> KeptOnce(lvmd, made, left)
  {
    if lvmd.Some? {
      var old_, fresh_ := WithDefaults(lvmd.value, spec), ConvertAll(made);
      PruningKeepsOnce(old_ + fresh_, left);
      OnceAcross(old_, fresh_, left);
      DefaultsKeepNames(lvmd.value, spec);
      assert EntryNames(old_) == LvmdNames(lvmd);
      ConvertedNames(made);
      assert OnceAmong(old_, left) <==> OnceAmong(lvmd.value, left);
    }
  }

  lemma ConvertedNames(ds: seq<DeviceClass>)
    ensures EntryNames(ConvertAll(ds)) == NewNames(ds)
  {
    forall d | d in ds ensures d.className in EntryNames(ConvertAll(ds)) {
      var i :| 0 <= i < |ds| && ds[i] == d;
      assert ConvertAll(ds)[i] in ConvertAll(ds);
    }
  }

  /** A rewrite keeps each entry with the group of its name. */
  lemma RewriteMatches(naming: map<string, string>, lvmd: Option<seq<LvmdClass>>, spec: seq<DeviceClass>,
                       made: seq<DeviceClass>, left: set<string>)
    requires ListMatches(naming, lvmd) && Obeys(naming, made)
    ensures ListMatches(naming, UpdatedLvmd(lvmd, spec, made, left))
  {
    ConvertedMatch(naming, made);
    if lvmd.Some? {
      var old_ := WithDefaults(lvmd.value, spec);
      forall e | e in old_ ensures e.name in naming && naming[e.name] == e.vg {
        var i :| 0 <= i < |old_| && old_[i] == e;
        assert lvmd.value[i] in lvmd.value;
      }
    }
  }

  lemma ConvertedMatch(naming: map<string, string>, ds: seq<DeviceClass>)
    requires Obeys(naming, ds)
    ensures ListMatches(naming, Some(ConvertAll(ds)))
  {
  }

  /** A rewrite that leaves no unheard-of name goes on naming all that are left; it names exactly
      those if there was an lvmd key, and without one exactly if all the new names are left. */
  lemma RewriteNamesIff(lvmd: Option<seq<LvmdClass>>, spec: seq<DeviceClass>, made: seq<DeviceClass>, left: set<string>)
    requires left <= LvmdNames(lvmd) + NewNames(made)
    ensures var names := LvmdNames(UpdatedLvmd(lvmd, spec, made, left));
            left <= names && (names == left <==> lvmd.Some? || NewNames(made) <= left)
  {
    LvmdNamesAfter(lvmd, spec, made, left);
  }

  lemma ObeyingIsDistinct(naming: map<string, string>, ds: seq<DeviceClass>)
    requires Obeys(naming, ds) && DistinctVgs(ds)
    ensures DistinctNames(ds)
  {
    forall i, j | 0 <= i < j < |ds| ensures ds[i].className != ds[j].className {
      assert ds[i] in ds && ds[j] in ds;
    }
  }

  /** Reading back failures, of which some lost their group, invents no group. */
  lemma FailuresReadBack(list: seq<ClassState>, m: Classes)
    requires Listed(list, m) && forall v :: v in m ==> m[v].vgName == v || m[v].vgName == ""
    ensures forall v :: v in NameMap(list) ==> v in m || v == ""
  {
    var keys :| Lists(list, keys, m);
    NameMapKeys(list);
    forall v | v in NameMap(list) ensures v in m || v == "" {
      var i :| 0 <= i < |list| && list[i] == NameMap(list)[v];
      assert list[i] == m[keys[i]];
    }
  }

  /** Failures under their own groups are read back, so that a group that is a success and a failure
      stays both. */
  lemma ApartReadsBack(list: seq<ClassState>, suc: Classes, fail: Classes)
    requires Listed(list, fail) && Filed(suc) && FailsNamed(fail)
    ensures suc.Keys !! fail.Keys ==> suc.Keys !! NameMap(list).Keys
    ensures (forall v :: v in suc && v in fail ==> fail[v].vgName == v) ==>
              (suc.Keys !! NameMap(list).Keys <==> suc.Keys !! fail.Keys)
  {
    var keys :| Lists(list, keys, fail);
    FailuresReadBack(list, fail);
    NameMapKeys(list);
    forall v | v in suc && v in fail && fail[v].vgName == v ensures v in NameMap(list) {
      var i :| 0 <= i < |keys| && keys[i] == v;
      assert list[i] in list;
    }
  }
}
