// What the jobs and resets of a node make of its ConfigMap: the lvmd key and the names of the
// success classes as the replay of what was written.
module ConfigHistory {
  import opened Lvm
  import opened LvmdConfig
  import opened Passes
  import opened VgStatus

  /** The lvmd key, and the success classes by group. */
  datatype Keys = Keys(lvmd: Option<seq<LvmdClass>>, names: map<string, string>)

  function KeysOf(cd: ConfigData): Keys { Keys(cd.lvmd, NamesOf(SucOf(cd))) }

  /** What an event writes: nothing, a reset, or the outcome of a job. The first job on a node made
      the classes `made`; a later one, started in `start`, also leaves the classes `names`, and
      `clean` says that none of its commands failed. */
  datatype Written =
    | Nothing
    | Emptied
    | FirstJob(spec: seq<DeviceClass>, made: seq<DeviceClass>)
    | LaterJob(start: Snap, spec: seq<DeviceClass>, disks: set<string>, made: seq<DeviceClass>,
        names: map<string, string>, clean: bool)

  function Next(k: Keys, w: Written): Keys {
    match w
    case Nothing => k
    case Emptied => Keys(None, map[])
    case FirstJob(_, made) => Keys(CreatedLvmd(k.lvmd, made), GroupNames(made))
    case LaterJob(_, spec, _, made, names, _) => Keys(UpdatedLvmd(k.lvmd, spec, made, names.Values), names)
  }

  /** Each class's name by its group. */
  function GroupNames(ds: seq<DeviceClass>): map<string, string> {
    if ds == [] then map[] else GroupNames(ds[..|ds| - 1])[ds[|ds| - 1].vgName := ds[|ds| - 1].className]
  }

  lemma {:induction false} GroupNamesKeys(ds: seq<DeviceClass>)
    ensures GroupNames(ds).Keys == Groups(ds)
  {
    if ds != [] {
      GroupNamesKeys(ds[..|ds| - 1]);
      GroupsSnoc(ds, |ds| - 1);
      assert ds[..|ds|] == ds;
    }
  }

  lemma {:induction false} GroupNamesAre(ds: seq<DeviceClass>, d: DeviceClass)
    requires DistinctVgs(ds) && d in ds
    ensures d.vgName in GroupNames(ds) && GroupNames(ds)[d.vgName] == d.className
  {
    var n := |ds| - 1;
    if d != ds[n] {
      assert d in ds[..n];
      GroupNamesAre(ds[..n], d);
      var i :| 0 <= i < n && ds[i] == d;
    }
  }

  lemma DistinctGroupNames(ds: seq<DeviceClass>)
    requires DistinctVgs(ds)
    ensures GroupNames(ds).Values == NewNames(ds)
  {
    GroupNamesKeys(ds);
    var names := GroupNames(ds);
    forall v | v in names ensures names[v] in NewNames(ds) {
      var d :| d in ds && d.vgName == v;
      GroupNamesAre(ds, d);
    }
    forall d | d in ds ensures d.className in names.Values {
      GroupNamesAre(ds, d);
      assert names[d.vgName] == d.className;
    }
  }

  /** What a job can write if the success classes have these names. */
  ghost predicate Possible(was: map<string, string>, w: Written) {
    match w
    case Nothing => true
    case Emptied => true
    case FirstJob(spec, made) => was == map[] && (forall d :: d in made ==> d in spec) && DistinctVgs(made)
    case LaterJob(start, spec, disks, made, names, clean) =>
      && was == NamesOf(start.suc)
      && (forall d :: d in made ==> d in spec)
      && (forall v :: v in names ==> (v in was && names[v] == was[v]) || Bears(made, v, names[v]))
      && (DistinctVgs(spec) ==> DistinctVgs(made) && NewIn(was, names, made))
      && (clean ==> Plan(names, made) == Outlook(start, spec, disks))
  }

  /** The classes are new, under their names. */
  ghost predicate NewIn(was: map<string, string>, names: map<string, string>, made: seq<DeviceClass>) {
    forall d :: d in made ==> d.vgName in names && names[d.vgName] == d.className && d.vgName !in was
  }

  /** The keys after everything that was written. */
  function Replay(k: Keys, log: seq<Written>): Keys {
    if log == [] then k else Next(Replay(k, log[..|log| - 1]), log[|log| - 1])
  }

  ghost predicate PossibleLog(k: Keys, log: seq<Written>) {
    log == [] || (PossibleLog(k, log[..|log| - 1]) && Possible(Replay(k, log[..|log| - 1]).names, log[|log| - 1]))
  }

  /** A first job made a group that its spec lists twice, so that it is a success and a failure. */
  ghost predicate Crosses(w: Written) {
    w.FirstJob? && exists i, j :: 0 <= i < j < |w.spec| && w.spec[i].vgName == w.spec[j].vgName
                                  && w.spec[i].vgName in Groups(w.made)
  }

  ghost predicate NoneCrosses(log: seq<Written>) {
    log == [] || (NoneCrosses(log[..|log| - 1]) && !Crosses(log[|log| - 1]))
  }

  lemma ReplaySnoc(k: Keys, log: seq<Written>, w: Written)
    ensures Replay(k, log + [w]) == Next(Replay(k, log), w)
    ensures PossibleLog(k, log + [w]) <==> PossibleLog(k, log) && Possible(Replay(k, log).names, w)
    ensures NoneCrosses(log + [w]) <==> NoneCrosses(log) && !Crosses(w)
  {
    assert (log + [w])[..|log|] == log;
  }

  /******* The names *******/

  /** The lvmd configuration names every success class. */
  ghost predicate Included(k: Keys) { k.names.Values <= LvmdNames(k.lvmd) }

  /** It names exactly those. */
  ghost predicate NamesAgree(k: Keys) { LvmdNames(k.lvmd) == k.names.Values }

  /** What one write does to the names: a later job that finds the key sets them right. */
  ghost predicate SetsRight(k: Keys, w: Written) {
    match w
    case Nothing => NamesAgree(k)
    case Emptied => true
    case FirstJob(_, made) => made != [] || LvmdNames(k.lvmd) == {}
    case LaterJob(_, _, _, made, names, _) => k.lvmd.Some? || NewNames(made) <= names.Values
  }

  lemma JobNames(k: Keys, w: Written)
    requires w.LaterJob? && Possible(k.names, w)
    ensures w.names.Values <= k.names.Values + NewNames(w.made)
    ensures DistinctVgs(w.spec) ==> NewNames(w.made) <= w.names.Values
  {
    forall v | v in w.names ensures w.names[v] in k.names.Values + NewNames(w.made) {
      if Bears(w.made, v, w.names[v]) {
        var d :| d in w.made && d.vgName == v && d.className == w.names[v];
        assert d.className in NewNames(w.made);
      }
    }
    if DistinctVgs(w.spec) {
      forall d | d in w.made ensures d.className in w.names.Values {
        assert w.names[d.vgName] == d.className;
      }
    }
  }

  lemma StepNamesIff(k: Keys, w: Written)
    requires Included(k) && Possible(k.names, w)
    ensures Included(Next(k, w)) && (NamesAgree(Next(k, w)) <==> SetsRight(k, w))
  {
    match w {
      case FirstJob(spec, made) =>
        DistinctGroupNames(made);
        assert LvmdNames(Some(ConvertAll(made))) == EntryNames(ConvertAll(made));
        ConvertedNames(made);
      case LaterJob(_, spec, _, made, names, _) =>
        JobNames(k, w);
        RewriteNamesIff(k.lvmd, spec, made, names.Values);
      case _ =>
    }
  }

  /** Whether the names are right after a history: what the last event that wrote did to them. */
  ghost predicate EndsRight(k: Keys, log: seq<Written>) {
    if log == [] then NamesAgree(k)
    else
      var n := |log| - 1;
      if log[n].Nothing? then EndsRight(k, log[..n]) else SetsRight(Replay(k, log[..n]), log[n])
  }

  /** Over every history the key goes on naming every success class, and it names exactly those
      if and only if the last event that wrote set the names right. */
  lemma {:induction false} NamesAgreeIff(k: Keys, log: seq<Written>)
    requires Included(k) && PossibleLog(k, log)
    ensures Included(Replay(k, log)) && (NamesAgree(Replay(k, log)) <==> EndsRight(k, log))
  {
    if log != [] {
      var n := |log| - 1;
      NamesAgreeIff(k, log[..n]);
      StepNamesIff(Replay(k, log[..n]), log[n]);
    }
  }

  /** For a later job without failures this is known before it starts. */
  lemma CleanJobIff(k: Keys, w: Written)
    requires w.LaterJob? && w.clean && Possible(k.names, w)
    ensures var p := Outlook(w.start, w.spec, w.disks);
            && (SetsRight(k, w) <==> k.lvmd.Some? || KeepsNames(p))
            && (Included(k) ==> (NamesAgree(Next(k, w)) <==> k.lvmd.Some? || KeepsNames(p)))
            && (NoDuplicates(Next(k, w).lvmd) <==> KeptOnce(k.lvmd, p.made, p.names.Values))
  {
    if Included(k) { StepNamesIff(k, w); }
    StepOnceIff(k, w);
  }

  /******* Duplicates *******/

  ghost predicate SetsOnce(k: Keys, w: Written) {
    match w
    case Nothing => NoDuplicates(k.lvmd)
    case Emptied => true
    case FirstJob(_, made) => if made == [] then NoDuplicates(k.lvmd) else DistinctNames(made)
    case LaterJob(_, _, _, made, names, _) => KeptOnce(k.lvmd, made, names.Values)
  }

  lemma StepOnceIff(k: Keys, w: Written)
    ensures NoDuplicates(Next(k, w).lvmd) <==> SetsOnce(k, w)
  {
    if w.LaterJob? { RewriteOnceIff(k.lvmd, w.spec, w.made, w.names.Values); }
  }

  ghost predicate EndsOnce(k: Keys, log: seq<Written>) {
    if log == [] then NoDuplicates(k.lvmd)
    else
      var n := |log| - 1;
      if log[n].Nothing? then EndsOnce(k, log[..n]) else SetsOnce(Replay(k, log[..n]), log[n])
  }

  /** Over every history no name is listed twice if and only if the last event that wrote kept
      each name once. */
  lemma {:induction false} NoDuplicatesIff(k: Keys, log: seq<Written>)
    ensures NoDuplicates(Replay(k, log).lvmd) <==> EndsOnce(k, log)
  {
    if log != [] {
      var n := |log| - 1;
      NoDuplicatesIff(k, log[..n]);
      StepOnceIff(Replay(k, log[..n]), log[n]);
    }
  }

  /******* The groups that go with the names *******/

  /** Each lvmd entry and each success has the group that goes with its name. */
  ghost predicate Matched(naming: map<string, string>, k: Keys) {
    && ListMatches(naming, k.lvmd)
    && (forall v :: v in k.names ==> k.names[v] in naming && naming[k.names[v]] == v)
  }

  ghost predicate ObeysSpec(naming: map<string, string>, w: Written) {
    w.FirstJob? || w.LaterJob? ==> Obeys(naming, w.spec)
  }

  lemma StepMatches(naming: map<string, string>, k: Keys, w: Written)
    requires Matched(naming, k) && Possible(k.names, w) && ObeysSpec(naming, w)
    ensures Matched(naming, Next(k, w))
  {
    match w {
      case FirstJob(_, made) =>
        ConvertedMatch(naming, made);
        GroupNamesKeys(made);
        forall v | v in GroupNames(made) ensures GroupNames(made)[v] in naming && naming[GroupNames(made)[v]] == v {
          var d :| d in made && d.vgName == v;
          GroupNamesAre(made, d);
        }
      case LaterJob(_, spec, _, made, names, _) => RewriteMatches(naming, k.lvmd, spec, made, names.Values);
      case _ =>
    }
  }

  /** Over every history of specs whose classes have the groups of their names, so do the entries
      of the key and the success classes. */
  lemma {:induction false} HistoryMatches(naming: map<string, string>, k: Keys, log: seq<Written>)
    requires Matched(naming, k) && PossibleLog(k, log) && forall w :: w in log ==> ObeysSpec(naming, w)
    ensures Matched(naming, Replay(k, log))
  {
    if log != [] {
      var n := |log| - 1;
      HistoryMatches(naming, k, log[..n]);
      StepMatches(naming, Replay(k, log[..n]), log[n]);
    }
  }

  /******* Histories in which no spec lists a group twice *******/

  ghost predicate DistinctSpec(w: Written) { w.FirstJob? || w.LaterJob? ==> DistinctVgs(w.spec) }

  lemma DistinctSetsRight(k: Keys, w: Written)
    requires NamesAgree(k) && Possible(k.names, w) && DistinctSpec(w)
    ensures SetsRight(k, w)
  {
    if w.LaterJob? { JobNames(k, w); }
  }

  lemma {:induction false} DistinctNeverCrosses(log: seq<Written>)
    requires forall w :: w in log ==> DistinctSpec(w)
    ensures NoneCrosses(log)
  {
    if log != [] {
      DistinctNeverCrosses(log[..|log| - 1]);
      assert DistinctSpec(log[|log| - 1]);
    }
  }

  lemma {:induction false} DistinctKeepsNames(k: Keys, log: seq<Written>)
    requires NamesAgree(k) && PossibleLog(k, log) && forall w :: w in log ==> DistinctSpec(w)
    ensures NamesAgree(Replay(k, log))
  {
    if log != [] {
      var n := |log| - 1;
      DistinctKeepsNames(k, log[..n]);
      DistinctSetsRight(Replay(k, log[..n]), log[n]);
      StepNamesIff(Replay(k, log[..n]), log[n]);
    }
  }

  lemma DistinctStepOnce(naming: map<string, string>, k: Keys, w: Written)
    requires NamesAgree(k) && NoDuplicates(k.lvmd) && Matched(naming, k)
    requires Possible(k.names, w) && DistinctSpec(w) && ObeysSpec(naming, w)
    ensures SetsOnce(k, w)
  {
    if w.FirstJob? || w.LaterJob? { ObeyingIsDistinct(naming, w.made); }
    if w.LaterJob? {
      forall n | n in LvmdNames(k.lvmd) ensures n !in NewNames(w.made) {
        var v :| v in k.names && k.names[v] == n;
      }
    }
  }

  lemma {:induction false} DistinctKeepsOnce(naming: map<string, string>, k: Keys, log: seq<Written>)
    requires NamesAgree(k) && NoDuplicates(k.lvmd) && Matched(naming, k) && PossibleLog(k, log)
    requires forall w :: w in log ==> DistinctSpec(w) && ObeysSpec(naming, w)
    ensures NoDuplicates(Replay(k, log).lvmd)
  {
    if log != [] {
      var n := |log| - 1;
      var was := Replay(k, log[..n]);
      DistinctKeepsOnce(naming, k, log[..n]);
      DistinctKeepsNames(k, log[..n]);
      HistoryMatches(naming, k, log[..n]);
      DistinctStepOnce(naming, was, log[n]);
      StepOnceIff(was, log[n]);
    }
  }

  /******* A group listed twice *******/

  /** A class, the same without devices, and the class again. */
  function OnOffOn(c: DeviceClass): seq<DeviceClass> { [c, c.(devices := []), c] }

  lemma NoSuccessNoneFixed(a: Snap)
    requires NamesOf(a.suc) == map[]
    ensures Fixed(a) == {}
  {
    assert forall v :: v in a.suc ==> v in NamesOf(a.suc);
  }

  lemma OnOffForeseen(c: DeviceClass, disks: set<string>)
    requires Elems(c.devices) <= disks
    ensures Foreseen(map[], {}, OnOffOn(c)[..2], disks, 2) == Plan(map[], [c])
    ensures Foreseen(map[], {}, OnOffOn(c), disks, 3) == Plan(map[c.vgName := c.className], [c, c])
  {
    var spec := OnOffOn(c);
    assert Foreseen(map[], {}, spec[..2], disks, 0) == Foreseen(map[], {}, spec, disks, 0) == Plan(map[], []);
    var on := Plan(map[c.vgName := c.className], [c]);
    assert Foreseen(map[], {}, spec[..2], disks, 1) == Foreseen(map[], {}, spec, disks, 1) == on;
    assert Foreseen(map[], {}, spec[..2], disks, 2) == Foreseen(map[], {}, spec, disks, 2) == Plan(map[], [c]);
  }

  /** Without a success before, the class's group is made and removed, and then made again. */
  lemma OnOffOutlook(a: Snap, c: DeviceClass, disks: set<string>)
    requires NamesOf(a.suc) == map[] && Elems(c.devices) <= disks
    ensures Outlook(a, OnOffOn(c)[..2], disks) == Plan(map[], [c])
    ensures Outlook(a, OnOffOn(c), disks) == Plan(map[c.vgName := c.className], [c, c])
  {
    NoSuccessNoneFixed(a);
    OnOffForeseen(c, disks);
    assert OnOffOn(c)[0] in OnOffOn(c);
  }

  lemma OnOffKeys(c: DeviceClass)
    ensures var e := ConvertConfig(c);
            && (forall spec, left :: UpdatedLvmd(None, spec, [c], left) == Some([e]))
            && (forall spec, left :: UpdatedLvmd(None, spec, [c, c], left) == Some([e, e]))
            && !NamesAgree(Keys(Some([e]), map[])) && !NoDuplicates(Some([e, e]))
  {
    var e := ConvertConfig(c);
    assert ConvertAll([c]) == [e] && ConvertAll([c, c]) == [e, e];
    var k, twice := Keys(Some([e]), map[]), Some([e, e]);
    assert twice.value[0].name == twice.value[1].name;
    assert k.names.Values == {};
    assert e in [e] && e.name in LvmdNames(k.lvmd);
  }
}
