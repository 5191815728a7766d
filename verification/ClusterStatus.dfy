// The cluster's status and its two writers: the nodes' reports, and the checker that judges the
// health of pods and nodes. Both read and write under one lock.
module ClusterStatus {
  import opened VgStatus

  datatype Phase = Unsaid | PhaseReady | Failure | Unknown | Pending

  datatype Loop = Loop(name: string, file: string, deviceName: string)

  datatype Entry = Entry(node: string, phase: Phase, successes: seq<ClassState>, failures: seq<ClassState>,
      loops: seq<Loop>)

  datatype PodPhase = PodRunning | PodUnknown | PodFailed | PodPending | PodOther

  datatype Pod = Pod(node: string, phase: PodPhase, containersReady: seq<bool>)

  /** What the checker sees: the cluster's nodes, the node pods, and for each node that can be
      read whether one of its conditions says that its readiness is unknown. A list that fails
      shows nothing. */
  datatype Sight = Sight(nodes: seq<string>, pods: seq<Pod>, lost: map<string, bool>)

  datatype Event =
    | Report(state: Entry, written: bool)
    | Check(sight: Sight, checkWritten: bool)

  /******* The health of the nodes *******/

  function Judged(pod: Pod): Phase {
    if false in pod.containersReady then Unknown
    else match pod.phase
      case PodRunning => PhaseReady
      case PodUnknown => Unknown
      case PodFailed => Failure
      case PodPending => Pending
      case PodOther => Unknown
  }

  /** The last pod of a node counts; without a pod, nothing is known. */
  function PodHealth(pods: seq<Pod>, node: string): Phase {
    if pods == [] then Unknown
    else if pods[|pods| - 1].node == node then Judged(pods[|pods| - 1])
    else PodHealth(pods[..|pods| - 1], node)
  }

  predicate Lost(sight: Sight, node: string) { node in sight.lost && sight.lost[node] }

  function Health(sight: Sight): map<string, Phase> {
    map n | n in sight.nodes :: if Lost(sight, n) then Unknown else PodHealth(sight.pods, n)
  }

  /** The node's last pod. */
  predicate IsLastPod(pods: seq<Pod>, node: string, k: int) {
    0 <= k < |pods| && pods[k].node == node && forall j :: k < j < |pods| ==> pods[j].node != node
  }

  /** The node's readiness is not known to be unknown, and its last pod is in that phase, with no
      container that is not ready. */
  ghost predicate SeenAs(sight: Sight, node: string, phase: PodPhase) {
    && (node in sight.lost ==> !sight.lost[node])
    && exists k :: IsLastPod(sight.pods, node, k) && sight.pods[k].phase == phase
                   && false !in sight.pods[k].containersReady
  }

  /** The phase says what was seen of the node. */
  ghost predicate Tells(phase: Phase, sight: Sight, node: string) {
    && (phase == PhaseReady <==> SeenAs(sight, node, PodRunning))
    && (phase == Failure <==> SeenAs(sight, node, PodFailed))
    && (phase == Pending <==> SeenAs(sight, node, PodPending))
    && phase != Unsaid
  }

  lemma {:induction false} PodHealthIs(pods: seq<Pod>, node: string)
    ensures (forall k :: !IsLastPod(pods, node, k)) ==> PodHealth(pods, node) == Unknown
    ensures forall k :: IsLastPod(pods, node, k) ==> PodHealth(pods, node) == Judged(pods[k])
  {
    if pods != [] {
      var n := |pods| - 1;
      PodHealthIs(pods[..n], node);
      if pods[n].node == node {
        assert IsLastPod(pods, node, n);
      } else {
        assert forall k :: IsLastPod(pods, node, k) <==> IsLastPod(pods[..n], node, k);
      }
    }
  }

  lemma HealthTells(sight: Sight, node: string)
    requires node in Health(sight)
    ensures Tells(Health(sight)[node], sight, node)
  {
    PodHealthIs(sight.pods, node);
    assert forall i, k :: IsLastPod(sight.pods, node, i) && IsLastPod(sight.pods, node, k) ==> i == k;
  }

  lemma AllHealthTells(sight: Sight)
    ensures forall n :: n in Health(sight) <==> n in sight.nodes
    ensures forall n :: n in Health(sight) ==> Tells(Health(sight)[n], sight, n)
  {
    forall n | n in Health(sight) ensures Tells(Health(sight)[n], sight, n) { HealthTells(sight, n); }
  }

  method JudgePod(pod: Pod) returns (phase: Phase)
    ensures phase == Judged(pod)
    ensures phase == PhaseReady <==> pod.phase == PodRunning && false !in pod.containersReady
    ensures phase == Failure <==> pod.phase == PodFailed && false !in pod.containersReady
    ensures phase == Pending <==> pod.phase == PodPending && false !in pod.containersReady
    ensures phase != Unsaid
  {
    match pod.phase {
      case PodRunning => phase := PhaseReady;
      case PodUnknown => phase := Unknown;
      case PodFailed => phase := Failure;
      case PodPending => phase := Pending;
      case PodOther => phase := Unknown;
    }
    for i := 0 to |pod.containersReady|
      invariant forall j :: 0 <= j < i ==> pod.containersReady[j]
    {
      if !pod.containersReady[i] { return Unknown; }
    }
  }

  method NodesStatus(sight: Sight) returns (status: map<string, Phase>)
    ensures status == Health(sight)
    ensures forall n :: n in status <==> n in sight.nodes
    ensures forall n :: n in status ==> Tells(status[n], sight, n)
  {
    status := map[];
    for i := 0 to |sight.nodes|
      invariant status == map n | n in sight.nodes[..i] :: PodHealth(sight.pods, n)
    {
      var node, found, phase := sight.nodes[i], false, Unknown;
      for k := 0 to |sight.pods|
        invariant phase == PodHealth(sight.pods[..k], node)
        invariant !found ==> phase == Unknown
      {
        assert sight.pods[..k + 1][..k] == sight.pods[..k];
        if sight.pods[k].node != node { continue; }
        phase := JudgePod(sight.pods[k]);
        found := true;
      }
      assert sight.pods[..|sight.pods|] == sight.pods;
      status := status[node := if found then phase else Unknown];
      assert sight.nodes[..i + 1] == sight.nodes[..i] + [node];
    }
    assert sight.nodes[..|sight.nodes|] == sight.nodes;
    var todo := status.Keys;
    while todo != {}
      invariant todo <= status.Keys && status.Keys == Health(sight).Keys
      invariant forall n :: n in status ==>
          status[n] == if n !in todo && Lost(sight, n) then Unknown else PodHealth(sight.pods, n)
      decreases todo
    {
      var key :| key in todo;
      todo := todo - {key};
      if key !in sight.lost { continue; }
      if sight.lost[key] { status := status[key := Unknown]; }
    }
    assert status == Health(sight);
    AllHealthTells(sight);
  }

  /******* Merging it into the status *******/

  /** One entry a node. */
  ghost predicate Unique(es: seq<Entry>) { forall i, j :: 0 <= i < j < |es| ==> es[i].node != es[j].node }

  predicate Named(es: seq<Entry>, node: string) { exists i :: 0 <= i < |es| && es[i].node == node }

  function Bare(node: string, phase: Phase): Entry { Entry(node, phase, [], [], []) }

  /** Known entries take over the phase of their node. */
  ghost predicate Updated(es: seq<Entry>, es': seq<Entry>, health: map<string, Phase>, done: set<string>)
    requires done <= health.Keys
  {
    && |es| <= |es'|
    && forall i :: 0 <= i < |es| ==>
         es'[i] == es[i].(phase := if es[i].node in done then health[es[i].node] else es[i].phase)
  }

  /** Unknown nodes get a bare entry each. */
  ghost predicate Extended(es: seq<Entry>, es': seq<Entry>, health: map<string, Phase>, done: set<string>)
    requires done <= health.Keys && |es| <= |es'|
  {
    && (forall i :: |es| <= i < |es'| ==>
          var n := es'[i].node; n in done && es'[i] == Bare(n, health[n]) && !Named(es, n))
    && (forall i, j :: |es| <= i < j < |es'| ==> es'[i].node != es'[j].node)
  }

  /** The health of the nodes in `done` is merged in. */
  ghost predicate Merged(es: seq<Entry>, es': seq<Entry>, health: map<string, Phase>, done: set<string>) {
    && done <= health.Keys
    && Updated(es, es', health, done) && Extended(es, es', health, done)
    && (forall n :: n in done ==> Named(es', n))
  }

  predicate HasReadyClass(e: Entry) { exists i :: 0 <= i < |e.successes| && e.successes[i].state == Ready }

  function Demoted(e: Entry): Entry { if HasReadyClass(e) then e else e.(phase := Unknown) }

  function AllDemoted(es: seq<Entry>): (r: seq<Entry>)
    ensures |r| == |es| && forall i :: 0 <= i < |r| ==> r[i] == Demoted(es[i])
  {
    seq(|es|, i requires 0 <= i < |es| => Demoted(es[i]))
  }

  predicate SomeReady(es: seq<Entry>) { exists i :: 0 <= i < |es| && es[i].phase == PhaseReady }

  /** The cluster's phase looks at the nodes before they are demoted. */
  function ClusterPhase(es: seq<Entry>): Phase { if SomeReady(es) then PhaseReady else Failure }

  ghost predicate PhaseSet(a: seq<Entry>, b: seq<Entry>, node: string, phase: Phase) {
    && |b| == (if Named(a, node) then |a| else |a| + 1)
    && (forall i :: 0 <= i < |a| ==> b[i] == if a[i].node == node then a[i].(phase := phase) else a[i])
    && (!Named(a, node) ==> b[|a|] == Bare(node, phase))
  }

  method SetPhase(es: seq<Entry>, node: string, phase: Phase) returns (es': seq<Entry>)
    ensures PhaseSet(es, es', node, phase)
  {
    es' := es;
    var found := false;
    for i := 0 to |es|
      invariant |es'| == |es| && (found <==> Named(es[..i], node))
      invariant forall j :: 0 <= j < |es| ==>
                  es'[j] == if j < i && es[j].node == node then es[j].(phase := phase) else es[j]
    {
      NamedSnoc(es, i, node);
      if es'[i].node != node { continue; }
      found := true;
      es' := es'[i := es'[i].(phase := phase)];
    }
    assert es[..|es|] == es;
    if !found { es' := es' + [Bare(node, phase)]; }
  }

  lemma NamedSnoc(es: seq<Entry>, i: nat, node: string)
    requires i < |es|
    ensures Named(es[..i + 1], node) <==> Named(es[..i], node) || es[i].node == node
  {
  }

  lemma NamedBefore(es: seq<Entry>, a: seq<Entry>, health: map<string, Phase>, done: set<string>, node: string)
    requires Merged(es, a, health, done) && node !in done
    ensures Named(a, node) <==> Named(es, node)
    ensures forall i :: |es| <= i < |a| ==> a[i].node != node
  {
  }

  lemma StillNamed(a: seq<Entry>, b: seq<Entry>, node: string, phase: Phase, n: string)
    requires PhaseSet(a, b, node, phase) && (Named(a, n) || n == node)
    ensures Named(b, n)
  {
  }

  lemma UpdatedStep(es: seq<Entry>, a: seq<Entry>, b: seq<Entry>, health: map<string, Phase>, done: set<string>,
      node: string)
    requires done <= health.Keys && node in health
    requires Updated(es, a, health, done) && PhaseSet(a, b, node, health[node])
    ensures Updated(es, b, health, done + {node})
  {
  }

  lemma ExtendedStep(es: seq<Entry>, a: seq<Entry>, b: seq<Entry>, health: map<string, Phase>, done: set<string>,
      node: string)
    requires Merged(es, a, health, done) && node in health && node !in done && PhaseSet(a, b, node, health[node])
    ensures Extended(es, b, health, done + {node})
  {
    NamedBefore(es, a, health, done, node);
    assert forall i :: |es| <= i < |a| ==> b[i] == a[i];
  }

  lemma MergeStep(es: seq<Entry>, a: seq<Entry>, b: seq<Entry>, health: map<string, Phase>, done: set<string>,
      node: string)
    requires Merged(es, a, health, done) && node in health && node !in done && PhaseSet(a, b, node, health[node])
    ensures Merged(es, b, health, done + {node})
  {
    UpdatedStep(es, a, b, health, done, node);
    ExtendedStep(es, a, b, health, done, node);
    forall n | n in done + {node} ensures Named(b, n) { StillNamed(a, b, node, health[node], n); }
  }

  method Merge(es: seq<Entry>, health: map<string, Phase>) returns (es': seq<Entry>)
    ensures Merged(es, es', health, health.Keys)
  {
    es' := es;
    var todo := health.Keys;
    ghost var done: set<string> := {};
    while todo != {}
      invariant todo <= health.Keys && done == health.Keys - todo
      invariant Merged(es, es', health, done)
      decreases todo
    {
      var key :| key in todo;
      ghost var before := es';
      es' := SetPhase(es', key, health[key]);
      MergeStep(es, before, es', health, done, key);
      todo, done := todo - {key}, done + {key};
    }
    assert done == health.Keys;
  }

  method Judge(es: seq<Entry>) returns (es': seq<Entry>, phase: Phase)
    ensures es' == AllDemoted(es) && phase == ClusterPhase(es)
  {
    es' := es;
    var clusterReady := false;
    for i := 0 to |es|
      invariant |es'| == |es| && (forall j :: 0 <= j < |es| ==> es'[j] == if j < i then Demoted(es[j]) else es[j])
      invariant clusterReady <==> exists j :: 0 <= j < i && es[j].phase == PhaseReady
    {
      var nodeReady := false;
      for k := 0 to |es[i].successes|
        invariant nodeReady <==> exists j :: 0 <= j < k && es[i].successes[j].state == Ready
      {
        if es[i].successes[k].state == Ready { nodeReady := true; }
      }
      if !nodeReady { es' := es'[i := es'[i].(phase := Unknown)]; }
      if es[i].phase == PhaseReady { clusterReady := true; }
    }
    phase := if clusterReady then PhaseReady else Failure;
  }

  /** A running pod on a node without classes makes the cluster ready and the node unknown. */
  lemma ReadyWithoutReadyNode(node: string)
    ensures var es := [Bare(node, PhaseReady)]; ClusterPhase(es) == PhaseReady && !SomeReady(AllDemoted(es))
  {
    var es := [Bare(node, PhaseReady)];
    assert es[0].phase == PhaseReady;
  }

  /******* Histories *******/

  /** The last report of a node that was written. */
  function Latest(events: seq<Event>, node: string): Option<Entry> {
    if events == [] then None
    else
      var last := events[|events| - 1];
      if last.Report? && last.written && last.state.node == node then Some(last.state)
      else Latest(events[..|events| - 1], node)
  }

  predicate SameClasses(e: Entry, r: Entry) {
    e.node == r.node && e.successes == r.successes && e.failures == r.failures && e.loops == r.loops
  }

  /** Each entry carries its node's last report, or nothing; each reporting node has an entry. */
  ghost predicate Faithful(es: seq<Entry>, events: seq<Event>) {
    && Unique(es)
    && (forall i :: 0 <= i < |es| ==>
          var r := Latest(events, es[i].node);
          SameClasses(es[i], if r.Some? then r.value else Bare(es[i].node, Unsaid)))
    && (forall n :: Latest(events, n).Some? ==> Named(es, n))
  }

  /** The list after one report: the first entry of the node is replaced, or one is appended. */
  ghost predicate Placed(es: seq<Entry>, es': seq<Entry>, state: Entry) {
    if Named(es, state.node) then
      exists i :: 0 <= i < |es| && es[i].node == state.node && es' == es[i := state] && !Named(es[..i], state.node)
    else es' == es + [state]
  }

  lemma LatestSnoc(events: seq<Event>, e: Event)
    ensures forall n :: Latest(events + [e], n)
                        == if e.Report? && e.written && e.state.node == n then Some(e.state) else Latest(events, n)
  {
  }

  lemma PlacedNames(es: seq<Entry>, es': seq<Entry>, state: Entry, n: string)
    requires Placed(es, es', state)
    ensures Named(es', n) <==> Named(es, n) || n == state.node
  {
    if Named(es, state.node) {
      var i :| 0 <= i < |es| && es[i].node == state.node && es' == es[i := state];
      assert es'[i].node == state.node;
      assert forall k :: 0 <= k < |es| ==> es'[k].node == es[k].node;
    } else {
      assert es'[|es|].node == state.node;
      assert forall k :: 0 <= k < |es| ==> es'[k] == es[k];
    }
  }

  lemma PlacedEntries(es: seq<Entry>, es': seq<Entry>, state: Entry)
    requires Unique(es) && Placed(es, es', state)
    ensures Unique(es')
    ensures forall i :: 0 <= i < |es'| ==>
              es'[i] == state || (i < |es| && es'[i] == es[i] && es[i].node != state.node)
  {
    if Named(es, state.node) {
      var i :| 0 <= i < |es| && es[i].node == state.node && es' == es[i := state];
      assert forall k :: 0 <= k < |es| ==> es'[k].node == es[k].node;
    }
  }

  lemma ReportKeepsFaithful(es: seq<Entry>, es': seq<Entry>, events: seq<Event>, state: Entry)
    requires Faithful(es, events) && Placed(es, es', state)
    ensures Faithful(es', events + [Report(state, true)])
  {
    LatestSnoc(events, Report(state, true));
    PlacedEntries(es, es', state);
    forall n | Latest(events + [Report(state, true)], n).Some? ensures Named(es', n) {
      PlacedNames(es, es', state, n);
    }
  }

  lemma CheckKeepsFaithful(es: seq<Entry>, mid: seq<Entry>, events: seq<Event>, health: map<string, Phase>, e: Event)
    requires Faithful(es, events) && Merged(es, mid, health, health.Keys) && e.Check?
    ensures Faithful(AllDemoted(mid), events + [e])
  {
  }

  lemma UnwrittenKeepsFaithful(es: seq<Entry>, events: seq<Event>, e: Event)
    requires Faithful(es, events) && !(e.Report? && e.written)
    ensures Faithful(es, events + [e])
  {
  }

  /******* When the cluster's phase misleads *******/

  /** After the merge the node counts as ready: by its pods if the checker knows it, else as
      before. */
  ghost predicate Healthy(es: seq<Entry>, sight: Sight, node: string) {
    if node in Health(sight) then Health(sight)[node] == PhaseReady
    else exists i :: 0 <= i < |es| && es[i].node == node && es[i].phase == PhaseReady
  }

  /** The node's last report that was written names a ready class. */
  predicate ReportedReady(events: seq<Event>, node: string) {
    Latest(events, node).Some? && HasReadyClass(Latest(events, node).value)
  }

  lemma MergedHealth(es: seq<Entry>, mid: seq<Entry>, events: seq<Event>, sight: Sight)
    requires Faithful(es, events) && Merged(es, mid, Health(sight), Health(sight).Keys)
    ensures forall i :: 0 <= i < |mid| ==>
        && (mid[i].phase == PhaseReady <==> Healthy(es, sight, mid[i].node))
        && (HasReadyClass(mid[i]) <==> ReportedReady(events, mid[i].node))
    ensures forall n :: Healthy(es, sight, n) ==> Named(mid, n)
  {
    forall i | 0 <= i < |mid|
      ensures mid[i].phase == PhaseReady <==> Healthy(es, sight, mid[i].node)
      ensures HasReadyClass(mid[i]) <==> ReportedReady(events, mid[i].node)
    {
      if i < |es| {
        assert mid[i].node == es[i].node && mid[i].successes == es[i].successes;
      } else {
        assert !Named(es, mid[i].node);
      }
    }
    forall n | Healthy(es, sight, n) ensures Named(mid, n) {
      if n !in Health(sight) {
        var i :| 0 <= i < |es| && es[i].node == n && es[i].phase == PhaseReady;
        assert mid[i].node == n;
      }
    }
  }

  lemma SomeReadyIff(es: seq<Entry>, mid: seq<Entry>, events: seq<Event>, sight: Sight)
    requires Faithful(es, events) && Merged(es, mid, Health(sight), Health(sight).Keys)
    ensures SomeReady(mid) <==> exists n :: Healthy(es, sight, n)
  {
    MergedHealth(es, mid, events, sight);
    if n :| Healthy(es, sight, n) {
      var i :| 0 <= i < |mid| && mid[i].node == n;
      assert mid[i].phase == PhaseReady;
    }
  }

  lemma SomeReadyAfterIff(es: seq<Entry>, mid: seq<Entry>, events: seq<Event>, sight: Sight)
    requires Faithful(es, events) && Merged(es, mid, Health(sight), Health(sight).Keys)
    ensures SomeReady(AllDemoted(mid)) <==> exists n :: Healthy(es, sight, n) && ReportedReady(events, n)
  {
    MergedHealth(es, mid, events, sight);
    var after := AllDemoted(mid);
    forall i | 0 <= i < |mid|
      ensures after[i].phase == PhaseReady <==> mid[i].phase == PhaseReady && HasReadyClass(mid[i])
    {
    }
    if n :| Healthy(es, sight, n) && ReportedReady(events, n) {
      var i :| 0 <= i < |mid| && mid[i].node == n;
      assert after[i].phase == PhaseReady;
    }
  }

  /** Some node counts as ready, and no node that does has reported a ready class. */
  ghost predicate Misleading(es: seq<Entry>, events: seq<Event>, sight: Sight) {
    && (exists n :: Healthy(es, sight, n))
    && (forall n :: Healthy(es, sight, n) ==> !ReportedReady(events, n))
  }

  /** Exactly then a check makes the cluster ready while none of its nodes is. */
  lemma PhaseMisleadsIff(es: seq<Entry>, mid: seq<Entry>, events: seq<Event>, sight: Sight)
    requires Faithful(es, events) && Merged(es, mid, Health(sight), Health(sight).Keys)
    ensures ClusterPhase(mid) == PhaseReady && !SomeReady(AllDemoted(mid)) <==> Misleading(es, events, sight)
  {
    SomeReadyIff(es, mid, events, sight);
    SomeReadyAfterIff(es, mid, events, sight);
  }

  /** What a check makes of the entries. One that has no ready class becomes unknown, a listed node's
      phase tells what was seen of it, the others keep theirs; classes stay, and each listed node
      without an entry gets one without classes. */
  ghost predicate Rechecked(es: seq<Entry>, es': seq<Entry>, sight: Sight) {
    && |es| <= |es'|
    && (forall i :: 0 <= i < |es| ==>
          && es'[i] == es[i].(phase := es'[i].phase)
          && if forall c :: c in es[i].successes ==> c.state != Ready then es'[i].phase == Unknown
             else if es[i].node in sight.nodes then Tells(es'[i].phase, sight, es[i].node)
             else es'[i].phase == es[i].phase)
    && (forall i :: |es| <= i < |es'| ==>
          es'[i] == Entry(es'[i].node, Unknown, [], [], []) && es'[i].node in sight.nodes && !Named(es, es'[i].node))
    && (forall n :: n in sight.nodes ==> Named(es', n))
  }

  /** The cluster is ready if a listed node is seen as ready, or an unlisted one counted as such,
      and has failed otherwise. */
  ghost predicate ClusterTells(phase: Phase, es: seq<Entry>, sight: Sight) {
    if (exists n :: n in sight.nodes && SeenAs(sight, n, PodRunning))
       || (exists i :: 0 <= i < |es| && es[i].node !in sight.nodes && es[i].phase == PhaseReady)
    then phase == PhaseReady
    else phase == Failure
  }

  lemma ReadyClassIs(e: Entry)
    ensures HasReadyClass(e) <==> exists c :: c in e.successes && c.state == Ready
  {
    if c :| c in e.successes && c.state == Ready {
      var k :| 0 <= k < |e.successes| && e.successes[k] == c;
    }
  }

  lemma KnownIsRechecked(es: seq<Entry>, mid: seq<Entry>, sight: Sight, i: nat)
    requires Merged(es, mid, Health(sight), Health(sight).Keys) && i < |es|
    ensures var e, e' := es[i], AllDemoted(mid)[i];
            && e' == e.(phase := e'.phase)
            && if forall c :: c in e.successes ==> c.state != Ready then e'.phase == Unknown
               else if e.node in sight.nodes then Tells(e'.phase, sight, e.node)
               else e'.phase == e.phase
  {
    AllHealthTells(sight);
    ReadyClassIs(mid[i]);
  }

  lemma NewIsRechecked(es: seq<Entry>, mid: seq<Entry>, sight: Sight, i: nat)
    requires Merged(es, mid, Health(sight), Health(sight).Keys) && |es| <= i < |mid|
    ensures var e' := AllDemoted(mid)[i];
            e' == Entry(e'.node, Unknown, [], [], []) && e'.node in sight.nodes && !Named(es, e'.node)
  {
  }

  lemma MergedIsRechecked(es: seq<Entry>, mid: seq<Entry>, sight: Sight)
    requires Merged(es, mid, Health(sight), Health(sight).Keys)
    ensures Rechecked(es, AllDemoted(mid), sight)
  {
    var es' := AllDemoted(mid);
    forall i | 0 <= i < |es|
      ensures es'[i] == es[i].(phase := es'[i].phase)
      ensures if forall c :: c in es[i].successes ==> c.state != Ready then es'[i].phase == Unknown
              else if es[i].node in sight.nodes then Tells(es'[i].phase, sight, es[i].node)
              else es'[i].phase == es[i].phase
    {
      KnownIsRechecked(es, mid, sight, i);
    }
    forall i | |es| <= i < |es'|
      ensures es'[i] == Entry(es'[i].node, Unknown, [], [], []) && es'[i].node in sight.nodes && !Named(es, es'[i].node)
    {
      NewIsRechecked(es, mid, sight, i);
    }
    forall n | n in sight.nodes ensures Named(es', n) {
      assert n in Health(sight).Keys && Named(mid, n);
      var i :| 0 <= i < |mid| && mid[i].node == n;
      assert es'[i].node == n;
    }
  }

  /** Which entries count as ready before the demotion. */
  lemma MergedEntryIsReady(es: seq<Entry>, mid: seq<Entry>, sight: Sight, i: nat)
    requires Merged(es, mid, Health(sight), Health(sight).Keys) && i < |mid|
    ensures mid[i].node in sight.nodes ==> (mid[i].phase == PhaseReady <==> SeenAs(sight, mid[i].node, PodRunning))
    ensures mid[i].node !in sight.nodes ==> i < |es| && mid[i].phase == es[i].phase && mid[i].node == es[i].node
  {
    AllHealthTells(sight);
    assert mid[i].node in sight.nodes ==> mid[i].phase == Health(sight)[mid[i].node];
  }

  lemma MergedPhaseTells(es: seq<Entry>, mid: seq<Entry>, sight: Sight)
    requires Merged(es, mid, Health(sight), Health(sight).Keys)
    ensures ClusterTells(ClusterPhase(mid), es, sight)
  {
    if n :| n in sight.nodes && SeenAs(sight, n, PodRunning) {
      assert n in Health(sight).Keys && Named(mid, n);
      var i :| 0 <= i < |mid| && mid[i].node == n;
      MergedEntryIsReady(es, mid, sight, i);
    } else if i :| 0 <= i < |es| && es[i].node !in sight.nodes && es[i].phase == PhaseReady {
      MergedEntryIsReady(es, mid, sight, i);
    } else {
      forall i | 0 <= i < |mid| ensures mid[i].phase != PhaseReady { MergedEntryIsReady(es, mid, sight, i); }
    }
  }

  /** With every entry telling its node's last report: a listed node is ready exactly if it was seen
      as ready and that report named a ready class. */
  lemma RecheckedByReports(es: seq<Entry>, es': seq<Entry>, events: seq<Event>, sight: Sight, i: nat)
    requires Faithful(es, events) && Rechecked(es, es', sight) && i < |es'| && es'[i].node in sight.nodes
    ensures es'[i].phase == PhaseReady <==>
            && SeenAs(sight, es'[i].node, PodRunning) && Latest(events, es'[i].node).Some?
            && exists c :: c in Latest(events, es'[i].node).value.successes && c.state == Ready
  {
    if i >= |es| { assert Latest(events, es'[i].node).None?; }
  }

  class Cluster {
    var entries: seq<Entry>
    var phase: Phase

    constructor ()
      ensures entries == [] && phase == Unsaid
    {
      entries, phase := [], Unsaid;
    }

    /** A node's report; `written` says whether the write succeeds. */
    method UpdateStatus(state: Entry, written: bool)
      modifies this`entries
      ensures if written then Placed(old(entries), entries, state) else entries == old(entries)
    {
      var list, nodeFound := entries, false;
      for i := 0 to |list|
        invariant !nodeFound && list == entries && !Named(list[..i], state.node)
      {
        NamedSnoc(list, i, state.node);
        if list[i].node == state.node {
          nodeFound := true;
          list := list[i := state];
          assert list == entries[i := state];
          break;
        }
      }
      if !nodeFound {
        assert entries[..|entries|] == entries;
        list := list + [state];
      }
      if written { entries := list; }
    }

    /** One round of the checker; nothing is written if nothing changed. `events` is what
        happened to the cluster before. */
    method CheckStatus(sight: Sight, written: bool, ghost events: seq<Event>) returns (ghost mid: seq<Entry>)
      modifies this
      ensures Merged(old(entries), mid, Health(sight), Health(sight).Keys)
      ensures if written then entries == AllDemoted(mid) && phase == ClusterPhase(mid)
              else entries == old(entries) && phase == old(phase)
      ensures written ==> Rechecked(old(entries), entries, sight) && ClusterTells(phase, old(entries), sight)
      ensures written && Faithful(old(entries), events) ==>
          forall i :: 0 <= i < |entries| && entries[i].node in sight.nodes ==>
            (entries[i].phase == PhaseReady <==>
               SeenAs(sight, entries[i].node, PodRunning)
               && Latest(events, entries[i].node).Some?
               && exists c :: c in Latest(events, entries[i].node).value.successes && c.state == Ready)
      ensures written && Faithful(old(entries), events) ==>
          (phase == PhaseReady && !SomeReady(entries) <==> Misleading(old(entries), events, sight))
    {
      var health := NodesStatus(sight);
      var merged := Merge(entries, health);
      mid := merged;
      MergedIsRechecked(entries, mid, sight);
      MergedPhaseTells(entries, mid, sight);
      if Faithful(entries, events) {
        PhaseMisleadsIff(entries, mid, events, sight);
        forall i | 0 <= i < |mid| && mid[i].node in sight.nodes
          ensures AllDemoted(mid)[i].phase == PhaseReady <==>
                    SeenAs(sight, mid[i].node, PodRunning) && Latest(events, mid[i].node).Some?
                    && exists c :: c in Latest(events, mid[i].node).value.successes && c.state == Ready
        {
          RecheckedByReports(entries, AllDemoted(mid), events, sight, i);
        }
      }
      var es', phase' := Judge(merged);
      if entries == es' && phase == phase' { return; }
      if written { entries, phase := es', phase'; }
    }

    /** Any interleaving of reports and checks, from a new cluster. */
    method Run(events: seq<Event>)
      requires entries == []
      modifies this
      ensures Faithful(entries, events)
    {
      for i := 0 to |events|
        invariant Faithful(entries, events[..i])
      {
        ghost var es := entries;
        assert events[..i + 1] == events[..i] + [events[i]];
        match events[i] {
          case Report(state, written) =>
            UpdateStatus(state, written);
            if written {
              ReportKeepsFaithful(es, entries, events[..i], state);
            } else {
              UnwrittenKeepsFaithful(es, events[..i], events[i]);
            }
          case Check(sight, written) =>
            ghost var mid := CheckStatus(sight, written, events[..i]);
            if written {
              CheckKeepsFaithful(es, mid, events[..i], Health(sight), events[i]);
            } else {
              UnwrittenKeepsFaithful(es, events[..i], events[i]);
            }
        }
      }
      assert events[..|events|] == events;
    }
  }
}
