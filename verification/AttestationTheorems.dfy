/** What every run of proposals and attestations keeps, and what distribution may rely on. */
module AttestationTheorems {
  import opened Collections
  import opened FixedPoint
  import opened ConsensusScores
  import opened Network
  import opened Attestation

  /** A call together with what the pallet reads when it is made. */
  datatype Event = Event(view: View, call: Call)

  ghost predicate EventsOk(events: seq<Event>) {
    forall k :: 0 <= k < |events| ==> events[k].view.Ok()
  }

  function Run(curves: Curves, s: Store, events: seq<Event>): Store
  {
    if events == [] then s
    else Step(curves, events[|events| - 1].view, Run(curves, s, events[..|events| - 1]), events[|events| - 1].call).0
  }

  function ErrorAt(curves: Curves, s: Store, events: seq<Event>, k: nat): Option<Attestation.Error>
    requires k < |events|
  {
    Step(curves, events[k].view, Run(curves, s, events[..k]), events[k].call).1
  }

  // ---- the queue requests ----

  /** A node in the queue whose removal the check admits. */
  ghost predicate Admitted(v: View, id: NodeId) {
    exists n :: n in v.queue && n.id == id && PassesCheck(v, n)
  }

  predicate Immune(v: View, n: SubnetNode) {
    v.epoch < n.classification.startEpoch + v.immunityEpochs
  }

  /** A node in the queue whose immunity is over. */
  ghost predicate PastImmunity(v: View, id: NodeId) {
    exists n :: n in v.queue && n.id == id && !Immune(v, n)
  }

  /** The last epoch of a node's immunity is a 32-bit number. */
  predicate ImmunityFits(v: View, n: SubnetNode) {
    n.classification.startEpoch + v.immunityEpochs < U32_RANGE
  }

  ghost predicate ImmunityFitsFor(v: View, id: NodeId) {
    forall n :: n in v.queue && n.id == id ==> ImmunityFits(v, n)
  }

  lemma {:induction false} ScanMeaning(v: View, prioritize: Option<NodeId>, remove: Option<NodeId>, scan: Scan, queue: seq<SubnetNode>)
    requires prioritize.None? ==> scan.prioritizeExists
    requires remove.None? ==> scan.removeAllowed
    ensures var r := ScanQueue(v, prioritize, remove, scan, queue);
            && (r.prioritizeExists ==> scan.prioritizeExists || exists n :: n in queue && prioritize == Some(n.id))
            && (r.removeAllowed ==> scan.removeAllowed || exists n :: n in queue && remove == Some(n.id) && PassesCheck(v, n))
    decreases queue
  {
    if queue != [] {
      assert queue == [queue[0]] + queue[1..];
      ScanMeaning(v, prioritize, remove, ScanNode(v, prioritize, remove, scan, queue[0]), queue[1..]);
    }
  }

  lemma {:induction false} ScanFindsPrioritized(v: View, prioritize: Option<NodeId>, remove: Option<NodeId>, scan: Scan, queue: seq<SubnetNode>)
    requires scan.prioritizeExists || exists n :: n in queue && prioritize == Some(n.id)
    ensures ScanQueue(v, prioritize, remove, scan, queue).prioritizeExists
    decreases queue
  {
    if queue != [] {
      assert queue == [queue[0]] + queue[1..];
      var scan' := ScanNode(v, prioritize, remove, scan, queue[0]);
      if !(scan'.prioritizeExists && scan'.removeAllowed) {
        ScanFindsPrioritized(v, prioritize, remove, scan', queue[1..]);
      }
    }
  }

  lemma TailIsDistinct(queue: seq<SubnetNode>)
    requires DistinctNodes(queue) && queue != []
    ensures DistinctNodes(queue[1..]) && forall n :: n in queue[1..] ==> n.id != queue[0].id
  {
    forall n | n in queue[1..]
      ensures n.id != queue[0].id
    {
      var i :| 0 <= i < |queue[1..]| && queue[1..][i] == n;
      assert queue[i + 1] == n;
    }
  }

  /** Without repetitions in the queue no later node revokes what an earlier one allowed. */
  lemma {:induction false} ScanFindsRemovable(v: View, prioritize: Option<NodeId>, id: NodeId, scan: Scan, queue: seq<SubnetNode>)
    requires DistinctNodes(queue)
    requires (exists n :: n in queue && n.id == id && PassesCheck(v, n))
             || (scan.removeAllowed && forall n :: n in queue ==> n.id != id)
    ensures ScanQueue(v, prioritize, Some(id), scan, queue).removeAllowed
    decreases queue
  {
    if queue != [] {
      assert queue == [queue[0]] + queue[1..];
      TailIsDistinct(queue);
      var scan' := ScanNode(v, prioritize, Some(id), scan, queue[0]);
      if !(scan'.prioritizeExists && scan'.removeAllowed) {
        ScanFindsRemovable(v, prioritize, id, scan', queue[1..]);
      }
    }
  }

  /** The scan without its early exit. */
  function WholeScan(v: View, prioritize: Option<NodeId>, remove: Option<NodeId>, scan: Scan, queue: seq<SubnetNode>): Scan
    decreases queue
  {
    if queue == [] then scan else WholeScan(v, prioritize, remove, ScanNode(v, prioritize, remove, scan, queue[0]), queue[1..])
  }

  lemma {:induction false} NothingMoreToFind(v: View, prioritize: Option<NodeId>, remove: Option<NodeId>, queue: seq<SubnetNode>)
    requires forall n :: n in queue ==> Some(n.id) != remove
    ensures WholeScan(v, prioritize, remove, Scan(true, true), queue) == Scan(true, true)
  {
    if queue != [] {
      assert queue[0] in queue && forall n :: n in queue[1..] ==> n in queue;
      NothingMoreToFind(v, prioritize, remove, queue[1..]);
    }
  }

  /** Stopping early decides both requests as the whole scan would, when the queue holds no node twice. */
  lemma {:induction false} EarlyExitLosesNothing(v: View, prioritize: Option<NodeId>, remove: Option<NodeId>, scan: Scan, queue: seq<SubnetNode>)
    requires DistinctNodes(queue)
    requires scan.removeAllowed ==> forall n :: n in queue ==> Some(n.id) != remove
    ensures ScanQueue(v, prioritize, remove, scan, queue) == WholeScan(v, prioritize, remove, scan, queue)
    decreases queue
  {
    if queue != [] {
      assert queue == [queue[0]] + queue[1..];
      TailIsDistinct(queue);
      var scan' := ScanNode(v, prioritize, remove, scan, queue[0]);
      if scan'.prioritizeExists && scan'.removeAllowed {
        NothingMoreToFind(v, prioritize, remove, queue[1..]);
      } else {
        EarlyExitLosesNothing(v, prioritize, remove, scan', queue[1..]);
      }
    }
  }

  lemma RequestsByWholeScan(v: View, prioritize: Option<NodeId>, remove: Option<NodeId>)
    requires DistinctNodes(v.queue)
    ensures var scan := WholeScan(v, prioritize, remove, Scan(prioritize.None?, remove.None?), v.queue);
            KeptRequests(v, prioritize, remove)
            == (if scan.prioritizeExists then prioritize else None, if scan.removeAllowed then remove else None)
  {
    EarlyExitLosesNothing(v, prioritize, remove, Scan(prioritize.None?, remove.None?), v.queue);
  }

  /** A removal request survives the proposal only for a queued node that the check admits at the epoch
      of the proposal, and a request to prioritize only for a queued node; when the queue holds no node
      twice, those are exactly the requests that survive. Whoever is admitted is past its immunity,
      unless that ends beyond 32 bits. */
  lemma QueueRequestsKept(v: View, prioritize: Option<NodeId>, remove: Option<NodeId>)
    ensures var (p, r) := KeptRequests(v, prioritize, remove);
            && (p.Some? ==> p == prioritize && exists n :: n in v.queue && n.id == p.value)
            && (r.Some? ==> r == remove && Admitted(v, r.value) && (ImmunityFitsFor(v, r.value) ==> PastImmunity(v, r.value)))
            && (DistinctNodes(v.queue) ==>
                  && (prioritize.Some? && (exists n :: n in v.queue && n.id == prioritize.value) ==> p == prioritize)
                  && (remove.Some? && Admitted(v, remove.value) ==> r == remove))
  {
    var scan := Scan(prioritize.None?, remove.None?);
    ScanMeaning(v, prioritize, remove, scan, v.queue);
    if prioritize.Some? && exists n :: n in v.queue && n.id == prioritize.value {
      ScanFindsPrioritized(v, prioritize, remove, scan, v.queue);
    }
    if DistinctNodes(v.queue) && remove.Some? && Admitted(v, remove.value) {
      ScanFindsRemovable(v, prioritize, remove.value, scan, v.queue);
    }
  }

  lemma SameNode(queue: seq<SubnetNode>, n: SubnetNode, m: SubnetNode)
    requires DistinctNodes(queue) && n in queue && m in queue && n.id == m.id
    ensures n == m
  {
  }

  /** When exactly a still immune node is protected at one epoch: the removal is refused unless the sum
      passes 32 bits and what is left of it has been reached. */
  lemma ImmuneNodeIsKeptIff(v: View, prioritize: Option<NodeId>, n: SubnetNode)
    requires DistinctNodes(v.queue) && n in v.queue && Immune(v, n)
    ensures KeptRequests(v, prioritize, Some(n.id)).1.None?
            <==> n.classification.startEpoch + v.immunityEpochs < U32_RANGE
                 || n.classification.startEpoch + v.immunityEpochs - U32_RANGE > v.epoch
  {
    QueueRequestsKept(v, prioritize, Some(n.id));
    if Admitted(v, n.id) {
      var m :| m in v.queue && m.id == n.id && PassesCheck(v, m);
      SameNode(v.queue, n, m);
    }
    assert PassesCheck(v, n) ==> Admitted(v, n.id);
  }

  ghost predicate AlwaysProtected(v: View, prioritize: Option<NodeId>, n: SubnetNode) {
    forall e: Epoch :: Immune(v.(epoch := e), n) ==> KeptRequests(v.(epoch := e), prioritize, Some(n.id)).1.None?
  }

  /** A queued node is protected through all of its immunity exactly when that ends within 32 bits. The
      owner of a subnet can set any number of immunity epochs. */
  lemma ProtectedIffImmunityFits(v: View, prioritize: Option<NodeId>, n: SubnetNode)
    requires DistinctNodes(v.queue) && n in v.queue
    ensures AlwaysProtected(v, prioritize, n) <==> ImmunityFits(v, n)
  {
    if ImmunityFits(v, n) {
      forall e: Epoch | Immune(v.(epoch := e), n)
        ensures KeptRequests(v.(epoch := e), prioritize, Some(n.id)).1.None?
      {
        ImmuneNodeIsKeptIff(v.(epoch := e), prioritize, n);
      }
    } else {
      var e: Epoch := n.classification.startEpoch + v.immunityEpochs - U32_RANGE;
      ImmuneNodeIsKeptIff(v.(epoch := e), prioritize, n);
    }
  }

  /** For example: the longest immunity there is protects a node that starts in epoch 1 in no epoch at
      all. */
  lemma LongestImmunityProtectsNobody(v: View, n: SubnetNode)
    requires v.queue == [n] && n.classification.startEpoch == 1 && v.immunityEpochs == U32_RANGE - 1
    ensures Immune(v, n) && KeptRequests(v, None, Some(n.id)).1 == Some(n.id)
  {
    ImmuneNodeIsKeptIff(v, None, n);
    QueueRequestsKept(v, None, Some(n.id));
  }

  // ---- stored submissions ----

  ghost predicate AttestsOk(d: ConsensusData) {
    && d.proposer in d.attests
    && (forall a :: a in d.attests ==> (a in d.attestors || a == d.proposer) && d.attests[a].rewardFactor <= ONE)
    && (forall i, j :: 0 <= i < j < |d.attestors| ==> d.attestors[i] < d.attestors[j])
    && d.proposerFactor <= ONE
  }

  ghost predicate NodesOk(nodes: seq<SubnetNode>) {
    DistinctNodes(nodes) && forall n :: n in nodes ==> n.classification.nodeClass != Registered
  }

  /** Scores are canonical, and only nodes of the snapshot that are at least Included have one. */
  ghost predicate DataOk(data: seq<Score>, nodes: seq<SubnetNode>) {
    && StrictlyAscending(data)
    && Sum(data) <= U128_MAX
    && Canonical(data) == Ok((data, Sum(data)))
    && (forall e :: e in data ==> exists n :: n in nodes && n.id == e.node && n.classification.nodeClass.Rank() >= Included.Rank())
  }

  /** What every stored submission satisfies. */
  ghost predicate WellFormed(d: ConsensusData) {
    AttestsOk(d) && NodesOk(d.nodes) && DataOk(d.data, d.nodes)
  }

  lemma FilterDistinctNodes(nodes: seq<SubnetNode>, keep: SubnetNode -> bool)
    requires DistinctNodes(nodes)
    ensures DistinctNodes(Filter(nodes, keep))
  {
    if nodes != [] {
      var front, last := nodes[..|nodes| - 1], nodes[|nodes| - 1];
      LastIsNew(nodes);
      FilterDistinctNodes(front, keep);
      FilterMembers(front, keep);
    }
  }

  lemma SnapshotOk(v: View)
    requires v.Ok()
    ensures NodesOk(Filter(v.active, IsActive(v)))
  {
    FilterDistinctNodes(v.active, IsActive(v));
    FilterMembers(v.active, IsActive(v));
  }

  lemma CanonicalDataOk(v: View, data: seq<Score>)
    requires Canonical(Filter(data, Eligible(v))).Ok?
    ensures DataOk(Canonical(Filter(data, Eligible(v))).value.0, Filter(v.active, IsActive(v)))
  {
    var eligible := Filter(data, Eligible(v));
    var entries := Canonical(eligible).value.0;
    CanonicalMeaning(eligible, entries);
    CanonicalIsIdempotent(eligible);
    forall e | e in entries
      ensures exists n :: n in Filter(v.active, IsActive(v)) && n.id == e.node && n.classification.nodeClass.Rank() >= Included.Rank()
    {
      assert IsLowest(eligible, e.node, e.score);
      FilterMembers(data, Eligible(v));
      FilterMembers(v.active, IsActive(v));
      var n := FindNode(v.active, e.node).value;
      assert n in Filter(v.active, IsActive(v));
    }
  }

  lemma StepWellFormed(curves: Curves, v: View, s: Store, call: Call, e: Epoch)
    requires v.Ok() && e in Step(curves, v, s, call).0 && (e in s ==> WellFormed(s[e]))
    ensures WellFormed(Step(curves, v, s, call).0[e])
  {
    var d := Step(curves, v, s, call).0[e];
    if call.Propose? && e !in s {
      SnapshotOk(v);
      CanonicalDataOk(v, call.data);
      CanonicalIdsMeaning(if v.emergency.Some? then v.emergency.value else v.slots);
      assert AttestsOk(d);
    }
  }

  /** `d'` is `d`, with possibly more attestations. */
  ghost predicate Extends(d: ConsensusData, d': ConsensusData) {
    && d' == d.(attests := d'.attests)
    && forall a :: a in d.attests ==> a in d'.attests && d'.attests[a] == d.attests[a]
  }

  lemma StepExtends(curves: Curves, v: View, s: Store, call: Call, e: Epoch)
    requires e in s
    ensures e in Step(curves, v, s, call).0 && Extends(s[e], Step(curves, v, s, call).0[e])
  {
  }

  /** Over any run of calls a stored submission is never replaced or dropped: its attestations only
      accumulate and are never overwritten, and nothing else about it changes. */
  lemma {:induction false} SubmissionsOnlyGrow(curves: Curves, s: Store, events: seq<Event>, n: nat, e: Epoch)
    requires n <= |events| && e in Run(curves, s, events[..n])
    ensures e in Run(curves, s, events) && Extends(Run(curves, s, events[..n])[e], Run(curves, s, events)[e])
  {
    if n == |events| {
      assert events[..n] == events;
    } else {
      var front, last := events[..|events| - 1], events[|events| - 1];
      assert front[..n] == events[..n];
      SubmissionsOnlyGrow(curves, s, front, n, e);
      StepExtends(curves, last.view, Run(curves, s, front), last.call, e);
    }
  }

  /** Every submission stored by a run is well formed; in particular everyone who attests belongs to
      the list that was frozen with the proposal, or made the proposal. */
  lemma {:induction false} StoredIsWellFormed(curves: Curves, events: seq<Event>, e: Epoch)
    requires EventsOk(events) && e in Run(curves, map[], events)
    ensures WellFormed(Run(curves, map[], events)[e])
  {
    var front, last := events[..|events| - 1], events[|events| - 1];
    if e in Run(curves, map[], front) {
      StoredIsWellFormed(curves, front, e);
    }
    StepWellFormed(curves, last.view, Run(curves, map[], front), last.call, e);
  }

  /** What a successful call leaves in storage, and what makes storage refuse a call. */
  ghost predicate Taken(s: Store, epoch: Epoch, call: Call) {
    epoch in s && (call.Attest? ==> call.node in s[epoch].attests)
  }

  lemma SuccessTakes(curves: Curves, v: View, s: Store, call: Call)
    requires Step(curves, v, s, call).1.None?
    ensures Taken(Step(curves, v, s, call).0, v.epoch, call)
  {
  }

  lemma TakenIsRefused(curves: Curves, v: View, s: Store, call: Call)
    requires Taken(s, v.epoch, call)
    ensures Step(curves, v, s, call).1.Some? && Step(curves, v, s, call).0 == s
  {
  }

  lemma TakenStays(curves: Curves, s: Store, events: seq<Event>, n: nat, epoch: Epoch, call: Call)
    requires n <= |events| && Taken(Run(curves, s, events[..n]), epoch, call)
    ensures Taken(Run(curves, s, events), epoch, call)
  {
    SubmissionsOnlyGrow(curves, s, events, n, epoch);
  }

  lemma RunUnfolds(curves: Curves, s: Store, events: seq<Event>, k: nat)
    requires k < |events|
    ensures Run(curves, s, events[..k + 1]) == Step(curves, events[k].view, Run(curves, s, events[..k]), events[k].call).0
  {
    assert events[..k + 1][..k] == events[..k];
  }

  /** A second proposal for an epoch is refused, and so is a second attestation by the same node; both
      leave storage as it was, although attesting writes before it looks. */
  lemma OneProposalOneAttestation(curves: Curves, s: Store, events: seq<Event>, n: nat, m: nat)
    requires n < m < |events| && events[n].view.epoch == events[m].view.epoch
    requires ErrorAt(curves, s, events, n).None?
    requires events[n].call.Propose? == events[m].call.Propose?
    requires events[n].call.Propose? || events[n].call.node == events[m].call.node
    ensures ErrorAt(curves, s, events, m).Some?
    ensures Run(curves, s, events[..m + 1]) == Run(curves, s, events[..m])
  {
    var epoch, before := events[n].view.epoch, Run(curves, s, events[..m]);
    assert Taken(before, epoch, events[n].call) by {
      RunUnfolds(curves, s, events, n);
      SuccessTakes(curves, events[n].view, Run(curves, s, events[..n]), events[n].call);
      assert events[..m][..n + 1] == events[..n + 1];
      TakenStays(curves, s, events[..m], n + 1, epoch, events[n].call);
    }
    assert Taken(before, epoch, events[m].call);
    TakenIsRefused(curves, events[m].view, before, events[m].call);
    RunUnfolds(curves, s, events, m);
  }

  /** Every stored submission was put there by one proposal, whose requests on the queue were checked
      against the queue of that moment. */
  lemma {:induction false} StoredRequestsWereChecked(curves: Curves, events: seq<Event>, epoch: Epoch) returns (i: nat)
    requires epoch in Run(curves, map[], events)
    ensures i < |events| && events[i].call.Propose? && ErrorAt(curves, map[], events, i).None? && events[i].view.epoch == epoch
    ensures var d := Run(curves, map[], events)[epoch];
            && (d.remove.Some? ==>
                  && d.remove == events[i].call.remove && Admitted(events[i].view, d.remove.value)
                  && (ImmunityFitsFor(events[i].view, d.remove.value) ==> PastImmunity(events[i].view, d.remove.value)))
            && (d.prioritize.Some? ==> exists n :: n in events[i].view.queue && n.id == d.prioritize.value)
  {
    var n := |events| - 1;
    var front, last := events[..n], events[n];
    var before := Run(curves, map[], front);
    if epoch in before {
      i := StoredRequestsWereChecked(curves, front, epoch);
      assert front[..i] == events[..i];
      StepExtends(curves, last.view, before, last.call, epoch);
    } else {
      i := n;
      QueueRequestsKept(last.view, last.call.prioritize, last.call.remove);
    }
  }

  // ---- what distribution receives ----

  /** A count as a 128-bit number. */
  function Width(n: nat): u128 {
    Min(n, U128_MAX)
  }

  function Precheck(d: ConsensusData): Option<Submission> {
    match Canonical(d.data)
    case Err(_) => None
    case Ok((data, weightSum)) =>
      Some(Submission(d.proposer, d.proposerFactor,
                      Min(PercentDiv(Width(|d.attests|), Width(|CanonicalIds(d.attestors)|)), ONE),
                      weightSum, data, d.attests, d.nodes, d.prioritize, d.remove))
  }

  /** What distribution relies on. */
  ghost predicate Sound(sub: Submission) {
    && DistinctNodes(sub.nodes)
    && (forall n :: n in sub.nodes ==> n.classification.nodeClass != Registered)
    && StrictlyAscending(sub.data)
    && sub.weightSum == Sum(sub.data)
    && (forall e :: e in sub.data ==> exists n :: n in sub.nodes && n.id == e.node)
    && (forall a :: a in sub.attests ==> sub.attests[a].rewardFactor <= ONE)
    && sub.proposerFactor <= ONE
    && sub.attestationRatio <= ONE
  }

  /** Whatever was stored by a run reaches distribution unchanged, with the sum of its scores; the
      submission is never lost to an overflow the second time. When the proposer is itself among the
      attestors, the ratio needs no clamping. */
  lemma DistributionReceivesWhatWasStored(curves: Curves, events: seq<Event>, epoch: Epoch)
    requires EventsOk(events) && epoch in Run(curves, map[], events)
    ensures var d := Run(curves, map[], events)[epoch];
            && Precheck(d).Some?
            && Sound(Precheck(d).value)
            && Precheck(d).value == Submission(d.proposer, d.proposerFactor, Precheck(d).value.attestationRatio, Precheck(d).value.weightSum,
                                               d.data, d.attests, d.nodes, d.prioritize, d.remove)
            && Precheck(d).value.attestationRatio == Min(PercentDiv(Width(|d.attests|), Width(|d.attestors|)), ONE)
            && (d.proposer in d.attestors ==>
                  |d.attests| <= |d.attestors|
                  && Precheck(d).value.attestationRatio == PercentDiv(Width(|d.attests|), Width(|d.attestors|)))
  {
    StoredIsWellFormed(curves, events, epoch);
    var d := Run(curves, map[], events)[epoch];
    CanonicalIdsMeaning(d.attestors);
    DistinctSize(d.attestors);
    if d.proposer in d.attestors {
      SubsetSize(d.attests.Keys, Elements(d.attestors));
      PercentDivShare(Width(|d.attests|), Width(|d.attestors|));
    }
  }

  // ---- when calls succeed, and what they store ----

  /** `p` is how much of `whole` has elapsed, rounded down, and 1.0 once all of it has. */
  predicate IsProgress(elapsed: nat, whole: nat, p: u128) {
    if elapsed >= whole then p == ONE else p * whole <= elapsed * ONE < (p + 1) * whole
  }

  /** How many blocks of its epoch have passed by block `b`. */
  function IntoEpoch(v: View, b: Block): nat {
    (if b < v.slot then 0 else b - v.slot) % v.epochLength
  }

  lemma AttestorProgressMeaning(v: View, proposed: Block)
    ensures AttestorProgress(v, proposed).Some? <==> proposed <= v.block
    ensures proposed <= v.block ==>
              IsProgress(v.block - proposed, v.epochLength - IntoEpoch(v, proposed), AttestorProgress(v, proposed).value)
  {
    if proposed <= v.block {
      var elapsed, whole := v.block - proposed, v.epochLength - IntoEpoch(v, proposed);
      if elapsed < whole { PercentDivShare(elapsed, whole); }
    }
  }

  lemma EpochProgressMeaning(v: View)
    ensures IsProgress(IntoEpoch(v, v.block), v.epochLength, EpochProgress(v))
  {
    PercentDivShare(IntoEpoch(v, v.block), v.epochLength);
  }

  /** An active node of at least this class by the epoch of the call. */
  ghost predicate ActiveAs(v: View, id: NodeId, required: NodeClass) {
    exists n :: n in v.active && n.id == id && n.classification.nodeClass.Rank() >= required.Rank() && n.classification.startEpoch <= v.epoch
  }

  lemma FoundActive(v: View, id: NodeId, required: NodeClass)
    requires v.Ok()
    ensures FindNode(v.active, id).Some? && FindNode(v.active, id).value.Has(required, v.epoch) <==> ActiveAs(v, id, required)
  {
    if ActiveAs(v, id, required) {
      var n :| n in v.active && n.id == id && n.Has(required, v.epoch);
      SameNode(v.active, n, FindNode(v.active, id).value);
    }
  }

  /** An attestation is accepted exactly when nothing refuses the caller's keys, its node is an active
      validator, the epoch has a submission whose frozen list holds the node, the submission is not from a
      later block, and the node has not attested to it. Exactly its entry is then added, with the block,
      the share of the time from the proposal to the end of its epoch that has passed, and the clamped
      reward factor for that; else storage stays as it was. */
  lemma AttestMeaning(curves: Curves, v: View, s: Store, node: NodeId)
    requires v.Ok()
    ensures var (s', error) := AttestStep(curves, v, s, node);
            && (error.None? <==>
                  && v.refused.None? && ActiveAs(v, node, NodeClass.Validator) && v.epoch in s
                  && node in s[v.epoch].attestors && s[v.epoch].block <= v.block && node !in s[v.epoch].attests)
            && (error.None? ==>
                  && v.epoch in s' && node in s'[v.epoch].attests
                  && var (d, entry) := (s[v.epoch], s'[v.epoch].attests[node]);
                     && s' == s[v.epoch := d.(attests := d.attests[node := entry])]
                     && entry.block == v.block
                     && IsProgress(v.block - d.block, v.epochLength - IntoEpoch(v, d.block), entry.progress)
                     && entry.rewardFactor == Min(curves.attestor(entry.progress), ONE))
            && (error.Some? ==> s' == s)
  {
    FoundActive(v, node, NodeClass.Validator);
    if v.epoch in s { AttestorProgressMeaning(v, s[v.epoch].block); }
  }

  /** What a proposal's record says, in terms of the call and of what storage held. */
  ghost predicate Records(curves: Curves, v: View, d: ConsensusData, node: NodeId, data: seq<Score>, prioritize: Option<NodeId>,
                          remove: Option<NodeId>)
  {
    && d.proposer == node && d.block == v.block && d.attests == map[node := AttestEntry(v.block, 0, ONE)]
    && (exists p :: IsProgress(IntoEpoch(v, v.block), v.epochLength, p) && d.proposerFactor == Min(curves.proposer(p), ONE))
    && (forall i, j :: 0 <= i < j < |d.attestors| ==> d.attestors[i] < d.attestors[j])
    && (forall a :: a in d.attestors <==> a in Expected(v))
    && (forall n :: n in d.nodes <==> n in v.active && n.classification.nodeClass != Registered && n.classification.startEpoch <= v.epoch)
    && (d.prioritize, d.remove) == KeptRequests(v, prioritize, remove)
    && ListsLowest(d.data, Filter(data, Eligible(v)))
  }

  /** The entries of a proposal that count are those of active nodes that are at least Included. */
  lemma EligibleMeaning(v: View, data: seq<Score>, e: Score)
    requires v.Ok()
    ensures e in Filter(data, Eligible(v)) <==> e in data && ActiveAs(v, e.node, Included)
  {
    FilterMembers(data, Eligible(v));
    FoundActive(v, e.node, Included);
  }

  ghost predicate ScoresFit(data: seq<Score>) {
    exists lowest :: ListsLowest(lowest, data) && Sum(lowest) <= U128_MAX
  }

  lemma RecordIsMade(curves: Curves, v: View, d: ConsensusData, node: NodeId, data: seq<Score>, prioritize: Option<NodeId>,
                     remove: Option<NodeId>)
    requires Canonical(Filter(data, Eligible(v))).Ok?
    requires d == ConsensusData(node, v.block, Min(curves.proposer(EpochProgress(v)), ONE), Attestors(v),
                                map[node := AttestEntry(v.block, 0, ONE)], Filter(v.active, IsActive(v)),
                                KeptRequests(v, prioritize, remove).0, KeptRequests(v, prioritize, remove).1,
                                Canonical(Filter(data, Eligible(v))).value.0)
    ensures Records(curves, v, d, node, data, prioritize, remove)
  {
    EpochProgressMeaning(v);
    CanonicalIdsMeaning(Expected(v));
    FilterMembers(v.active, IsActive(v));
    CanonicalMeaning(Filter(data, Eligible(v)), d.data);
  }

  /** A proposal is accepted exactly when nothing refuses the caller's keys, its node is the elected one,
      the epoch has no submission, and the lowest eligible scores fit in 128 bits together. It is then
      recorded; else storage stays as it was. */
  lemma ProposalMeaning(curves: Curves, v: View, s: Store, node: NodeId, data: seq<Score>, prioritize: Option<NodeId>, remove: Option<NodeId>)
    ensures var (s', error) := ProposeStep(curves, v, s, node, data, prioritize, remove);
            && (error.None? <==>
                  v.refused.None? && v.elected == Some(node) && v.epoch !in s && ScoresFit(Filter(data, Eligible(v))))
            && (error.None? ==>
                  && v.epoch in s' && s' == s[v.epoch := s'[v.epoch]]
                  && Records(curves, v, s'[v.epoch], node, data, prioritize, remove))
            && (error.Some? ==> s' == s)
  {
    FitsIffCanonical(Filter(data, Eligible(v)));
    var (s', error) := ProposeStep(curves, v, s, node, data, prioritize, remove);
    if error.None? { RecordIsMade(curves, v, s'[v.epoch], node, data, prioritize, remove); }
  }

  lemma FitsIffCanonical(data: seq<Score>)
    ensures ScoresFit(data) <==> Canonical(data).Ok?
  {
    CanonicalMeaning(data, []);
    var lowest :| ListsLowest(lowest, data);
    CanonicalMeaning(data, lowest);
    if ScoresFit(data) {
      var l :| ListsLowest(l, data) && Sum(l) <= U128_MAX;
      CanonicalMeaning(data, l);
    }
  }

  // ---- runs of one proposal ----

  /** A validator that has been active since epoch 2. */
  function Veteran(id: NodeId, validator: ValidatorId): SubnetNode {
    SubnetNode(id, validator, Classification(NodeClass.Validator, 2))
  }

  /** Block 510, in epoch 5, with node 1 elected. */
  function ViewOfSubnet(active: seq<SubnetNode>, slots: seq<NodeId>, emergency: Option<seq<NodeId>>): View {
    View(None, 5, 510, 3, 100, active, [], 0, slots, emergency, Some(1))
  }

  function Expected(v: View): seq<NodeId> {
    if v.emergency.Some? then v.emergency.value else v.slots
  }

  function SoloData(curves: Curves, v: View, entries: seq<Score>, remove: Option<NodeId>): ConsensusData {
    ConsensusData(1, v.block, Min(curves.proposer(EpochProgress(v)), ONE), Attestors(v), map[1 := AttestEntry(v.block, 0, ONE)],
                  Filter(v.active, IsActive(v)), None, KeptRequests(v, None, remove).1, entries)
  }

  function OneProposal(v: View, data: seq<Score>, remove: Option<NodeId>): seq<Event> {
    [Event(v, Propose(1, data, None, remove))]
  }

  lemma OneProposalStores(curves: Curves, v: View, data: seq<Score>, remove: Option<NodeId>)
    requires v.refused.None? && v.elected == Some(1) && Canonical(Filter(data, Eligible(v))).Ok?
    ensures Run(curves, map[], OneProposal(v, data, remove))
            == map[v.epoch := SoloData(curves, v, Canonical(Filter(data, Eligible(v))).value.0, remove)]
  {
    var events := OneProposal(v, data, remove);
    assert events[..0] == [] && Run(curves, map[], []) == map[];
    QueueRequestsKept(v, None, remove);
  }

  /** A proposal by node 1 that nobody else attests to is stored and reaches distribution, with a ratio of
      one in the number of expected attestors, or of 0 when none are. */
  lemma SoloProposal(curves: Curves, v: View, data: seq<Score>, remove: Option<NodeId>) returns (sub: Submission)
    requires v.Ok() && v.refused.None? && v.elected == Some(1) && Canonical(Filter(data, Eligible(v))).Ok?
    ensures Submitted(curves, OneProposal(v, data, remove), v.epoch, sub) && Sound(sub)
    ensures sub.proposer == 1 && sub.attests == map[1 := AttestEntry(v.block, 0, ONE)]
    ensures (sub.data, sub.weightSum) == Canonical(Filter(data, Eligible(v))).value
    ensures sub.nodes == Filter(v.active, IsActive(v))
    ensures sub.prioritize == None && sub.remove == KeptRequests(v, None, remove).1
    ensures sub.attestationRatio == Min(PercentDiv(1, Width(|Elements(Expected(v))|)), ONE)
  {
    var events := OneProposal(v, data, remove);
    var eligible := Filter(data, Eligible(v));
    var d := SoloData(curves, v, Canonical(eligible).value.0, remove);
    OneProposalStores(curves, v, data, remove);
    DistributionReceivesWhatWasStored(curves, events, v.epoch);
    CanonicalIsIdempotent(eligible);
    CanonicalIdsMeaning(Expected(v));
    CanonicalIdsMeaning(d.attestors);
    assert Elements(d.attestors) == Elements(Expected(v));
    assert d.attests.Keys == {1};
    sub := Precheck(d).value;
  }

  /** A run of proposals and attestations stores what reaches distribution as `sub`. */
  ghost predicate Submitted(curves: Curves, events: seq<Event>, epoch: Epoch, sub: Submission) {
    EventsOk(events) && epoch in Run(curves, map[], events) && Precheck(Run(curves, map[], events)[epoch]) == Some(sub)
  }

  lemma AloneIsAll()
    ensures Min(PercentDiv(1, Width(|Elements<NodeId>([1])|)), ONE) == ONE
  {
    DistinctSize<NodeId>([1]);
    assert PercentDiv(1, 1) == ONE;
  }

  /** The only expected attestor proposes a score for itself. */
  lemma SelfScored(curves: Curves, v: View) returns (sub: Submission)
    requires v.Ok() && v.refused.None? && v.elected == Some(1) && Expected(v) == [1]
    requires Eligible(v)(Score(1, 1))
    ensures Submitted(curves, OneProposal(v, [Score(1, 1)], None), v.epoch, sub) && Sound(sub)
    ensures sub.proposer == 1 && sub.attests == map[1 := AttestEntry(v.block, 0, ONE)] && sub.attestationRatio == ONE
    ensures sub.data == [Score(1, 1)] && sub.weightSum == 1
    ensures sub.nodes == Filter(v.active, IsActive(v)) && sub.prioritize == None && sub.remove == None
  {
    CanonicalOfOne(Score(1, 1));
    assert Filter<Score>([], Eligible(v)) == [] && [Score(1, 1)][..0] == [];
    assert Filter([Score(1, 1)], Eligible(v)) == [Score(1, 1)];
    AloneIsAll();
    QueueRequestsKept(v, None, None);
    sub := SoloProposal(curves, v, [Score(1, 1)], None);
  }
}
