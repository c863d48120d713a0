/** What consensus does to the registration queue. */
module QueueTheorems {
  import opened Collections
  import opened FixedPoint
  import opened ConsensusScores
  import opened Network
  import opened Rewards
  import opened RewardLocality
  import opened RewardEmission
  import opened RewardOutcomes
  import opened Attestation
  import opened AttestationTheorems

  function Unprioritized(sub: Submission): SubnetNode -> bool {
    (n: SubnetNode) => Some(n.id) != sub.prioritize
  }

  /** The nodes that a submission asks nothing about. */
  function Unmentioned(sub: Submission): SubnetNode -> bool {
    (n: SubnetNode) => Some(n.id) != sub.prioritize && Some(n.id) != sub.remove
  }

  ghost predicate Queued(queue: seq<SubnetNode>, request: Option<NodeId>) {
    exists n :: n in queue && Some(n.id) == request
  }

  ghost predicate InFront(queue: seq<SubnetNode>, request: Option<NodeId>) {
    queue != [] && Some(queue[0].id) == request
  }

  // ---- moving a node to the front ----

  lemma DroppedAnywhere(front: seq<SubnetNode>, node: SubnetNode, back: seq<SubnetNode>, keep: SubnetNode -> bool)
    requires !keep(node)
    ensures Filter([node] + front + back, keep) == Filter(front + [node] + back, keep)
  {
    FilterConcat(front + [node], back, keep);
    FilterConcat(front, [node], keep);
    FilterConcat([node] + front, back, keep);
    FilterConcat([node], front, keep);
    assert Filter([node], keep) == [];
  }

  lemma Cut(queue: seq<SubnetNode>, i: nat)
    requires i < |queue|
    ensures queue == queue[..i] + [queue[i]] + queue[i + 1..]
  {
  }

  lemma MovedKeepsOrder(queue: seq<SubnetNode>, i: nat, keep: SubnetNode -> bool)
    requires i < |queue| && !keep(queue[i])
    ensures Filter([queue[i]] + queue[..i] + queue[i + 1..], keep) == Filter(queue, keep)
  {
    Cut(queue, i);
    DroppedAnywhere(queue[..i], queue[i], queue[i + 1..], keep);
  }

  lemma MovedKeepsNodes(queue: seq<SubnetNode>, i: nat)
    requires i < |queue|
    ensures multiset([queue[i]] + queue[..i] + queue[i + 1..]) == multiset(queue)
  {
    Cut(queue, i);
  }

  lemma ToFrontMeaning(queue: seq<SubnetNode>, sub: Submission)
    ensures multiset(ToFront(queue, sub.prioritize)) == multiset(queue)
    ensures Queued(queue, sub.prioritize) ==> InFront(ToFront(queue, sub.prioritize), sub.prioritize)
    ensures Filter(ToFront(queue, sub.prioritize), Unprioritized(sub)) == Filter(queue, Unprioritized(sub))
    ensures Filter(ToFront(queue, sub.prioritize), Unmentioned(sub)) == Filter(queue, Unmentioned(sub))
  {
    if sub.prioritize.Some? && IndexOf(queue, sub.prioritize.value).Some? {
      var i := IndexOf(queue, sub.prioritize.value).value;
      MovedKeepsOrder(queue, i, Unprioritized(sub));
      MovedKeepsOrder(queue, i, Unmentioned(sub));
      MovedKeepsNodes(queue, i);
    }
  }

  // ---- both requests ----

  /** Whether the request to remove a node is granted. */
  ghost predicate Removes(rd: Round, r: Roster) {
    && rd.sub.attestationRatio >= rd.params.superMajority
    && Queued(r.queue, rd.sub.remove) && rd.sub.remove.value in r.registered && rd.gate(rd.sub.remove.value)
  }

  lemma SameNodes(q: seq<SubnetNode>, q': seq<SubnetNode>, n: SubnetNode)
    requires multiset(q) == multiset(q')
    ensures n in q <==> n in q'
  {
    assert n in multiset(q) <==> n in multiset(q');
  }

  lemma {:induction false} KeepsFirst(s: seq<SubnetNode>, keep: SubnetNode -> bool)
    ensures s != [] && keep(s[0]) ==> Filter(s, keep) != [] && Filter(s, keep)[0] == s[0]
  {
    if |s| > 1 { KeepsFirst(s[..|s| - 1], keep); }
  }

  lemma RemovalMeaning(front: seq<SubnetNode>, sub: Submission)
    requires sub.remove.Some?
    ensures var q' := Filter(front, OtherNodes(sub.remove.value));
            && Filter(q', Unprioritized(sub)) == Filter(front, Unmentioned(sub))
            && (forall n :: n in q' <==> n in front && Some(n.id) != sub.remove)
            && (InFront(front, sub.prioritize) && sub.prioritize != sub.remove ==> InFront(q', sub.prioritize))
  {
    var others := OtherNodes(sub.remove.value);
    FilterTwice(front, others, Unprioritized(sub), Unmentioned(sub));
    FilterMembers(front, others);
    KeepsFirst(front, others);
  }

  lemma FoundIffQueued(queue: seq<SubnetNode>, sub: Submission, id: NodeId)
    ensures IndexOf(ToFront(queue, sub.prioritize), id).Some? <==> Queued(queue, Some(id))
  {
    var front := ToFront(queue, sub.prioritize);
    ToFrontMeaning(queue, sub);
    forall n ensures n in front <==> n in queue { SameNodes(front, queue, n); }
    match IndexOf(front, id) {
      case None =>
      case Some(i) => assert front[i] in front;
    }
  }

  lemma QueueConsensusIs(rd: Round, r: Roster)
    ensures QueueConsensus(rd, r).queue ==
            if rd.sub.attestationRatio < rd.params.superMajority then r.queue
            else if Removes(rd, r) then Filter(ToFront(r.queue, rd.sub.prioritize), OtherNodes(rd.sub.remove.value))
            else ToFront(r.queue, rd.sub.prioritize)
  {
    if rd.sub.remove.Some? { FoundIffQueued(r.queue, rd.sub, rd.sub.remove.value); }
  }

  /** By consensus, the queue after a round is the old one with the prioritized node in front and, if its
      removal is granted, the removed node gone; all others keep their order, and nothing else leaves or
      enters. */
  lemma QueueAfterConsensus(rd: Round, r: Roster)
    ensures var (q, q') := (r.queue, QueueConsensus(rd, r).queue);
            && (rd.sub.attestationRatio < rd.params.superMajority ==> q' == q)
            && Filter(q', Unprioritized(rd.sub)) == Filter(q, if Removes(rd, r) then Unmentioned(rd.sub) else Unprioritized(rd.sub))
            && (rd.sub.attestationRatio >= rd.params.superMajority && Queued(q, rd.sub.prioritize) && rd.sub.prioritize != rd.sub.remove
                ==> InFront(q', rd.sub.prioritize))
            && (!Removes(rd, r) ==> multiset(q') == multiset(q))
            && (Removes(rd, r) ==> forall n :: n in q' <==> n in q && Some(n.id) != rd.sub.remove)
  {
    QueueConsensusIs(rd, r);
    ToFrontMeaning(r.queue, rd.sub);
    if Removes(rd, r) {
      RemovalMeaning(ToFront(r.queue, rd.sub.prioritize), rd.sub);
      forall n ensures n in ToFront(r.queue, rd.sub.prioritize) <==> n in r.queue {
        SameNodes(ToFront(r.queue, rd.sub.prioritize), r.queue, n);
      }
    }
  }

  /** The queue of a whole distribution. */
  lemma QueueAfterRound(rd: Round, s: State)
    ensures Distribute(rd, s).0.roster.queue == if InConsensus(rd) then QueueConsensus(rd, s.roster).queue else s.roster.queue
  {
    QueueConsensusIs(rd, s.roster);
    QueueConsensusIs(rd, CountForkEpoch(s.roster));
    if !InConsensus(rd) {
      NonConsensusOnlyTakes(rd, s);
    } else if Paying(rd) {
      LoopKeepsQueue(rd, ForkedIds(s.roster), LoopStart(rd, Begun(rd, s)), |rd.sub.nodes|);
    }
  }

  /** A granted removal takes the node off the registered ones and forgets its reputation and counters;
      without one, nothing but the order of the queue changes. */
  lemma RemovalFromQueueMeaning(rd: Round, r: Roster, other: NodeId)
    ensures var r' := QueueConsensus(rd, r);
            && (!Removes(rd, r) ==> r' == r.(queue := r'.queue))
            && (Removes(rd, r) ==>
                  var id := rd.sub.remove.value;
                  && r'.registered == r.registered - {id} && r'.nodes == r.nodes
                  && id !in r'.reputation && id !in r'.idleEpochs && id !in r'.includedEpochs
                  && (other != id ==> ViewOf(r', other) == ViewOf(r, other)))
  {
    if rd.sub.remove.Some? { FoundIffQueued(r.queue, rd.sub, rd.sub.remove.value); }
  }

  lemma LeavingMeansRemoved(rd: Round, s: State, n: SubnetNode)
    requires n in s.roster.queue && n !in Distribute(rd, s).0.roster.queue
    ensures Removes(rd, s.roster) && rd.sub.remove == Some(n.id)
  {
    QueueAfterRound(rd, s);
    QueueAfterConsensus(rd, s.roster);
    if !Removes(rd, s.roster) { SameNodes(s.roster.queue, QueueConsensus(rd, s.roster).queue, n); }
  }

  /** Whatever a distribution takes off the queue is a node whose removal was proposed and passed the
      immunity check at that time; no node leaves before its immunity is over, provided that ends within
      32 bits. */
  lemma NeverRemovedWhileImmune(curves: Curves, events: seq<Event>, epoch: Epoch, rd: Round, s: State, n: SubnetNode) returns (i: nat)
    requires epoch in Run(curves, map[], events) && Precheck(Run(curves, map[], events)[epoch]) == Some(rd.sub)
    requires n in s.roster.queue && n !in Distribute(rd, s).0.roster.queue
    ensures i < |events| && events[i].call.Propose? && events[i].view.epoch == epoch
    ensures events[i].call.remove == Some(n.id) && Admitted(events[i].view, n.id)
    ensures ImmunityFitsFor(events[i].view, n.id) ==> PastImmunity(events[i].view, n.id)
  {
    i := StoredRequestsWereChecked(curves, events, epoch);
    LeavingMeansRemoved(rd, s, n);
  }

  // ---- an immunity beyond 32 bits ----

  const WAITING := SubnetNode(9, 0, Classification(NodeClass.Registered, 1))

  lemma RemovedFromQueue(rd: Round, s: State)
    requires InConsensus(rd) && s.roster.queue == [WAITING] && rd.sub.remove == Some(WAITING.id) && Removes(rd, s.roster)
    ensures Distribute(rd, s).0.roster.queue == []
  {
    QueueAfterRound(rd, s);
    QueueAfterConsensus(rd, s.roster);
  }

  /** Its only validator asks for the removal of a node under the longest immunity there is. */
  function LongestImmunity(): View {
    ViewOfSubnet([Veteran(1, 1)], [1], None).(queue := [WAITING], immunityEpochs := U32_RANGE - 1)
  }

  /** Then a distribution takes a node off the queue while it is immune, however high the bars for
      consensus are. */
  lemma ImmuneNodeCanBeRemoved(curves: Curves, rd0: Round, s: State) returns (rd: Round)
    requires rd0.params.superMajority <= ONE && rd0.params.minAttestation <= ONE && rd0.gate(WAITING.id)
    requires s.roster.queue == [WAITING] && WAITING.id in s.roster.registered
    ensures Submitted(curves, OneProposal(LongestImmunity(), [], Some(WAITING.id)), 5, rd.sub) && rd == rd0.(sub := rd.sub)
    ensures LongestImmunity().queue == [WAITING] && Immune(LongestImmunity(), WAITING)
    ensures Distribute(rd, s).0.roster.queue == []
  {
    var v := LongestImmunity();
    LongestImmunityProtectsNobody(v, WAITING);
    AloneIsAll();
    assert Canonical([]) == Ok(([], 0));
    var sub := SoloProposal(curves, v, [], Some(WAITING.id));
    rd := rd0.(sub := sub);
    assert WAITING in s.roster.queue;
    RemovedFromQueue(rd, s);
  }
}
