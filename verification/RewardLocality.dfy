/** A paying round treats every node by itself: what it does to one leaves the others as they are. */
module RewardLocality {
  import opened Collections
  import opened FixedPoint
  import opened ConsensusScores
  import opened Network
  import opened RewardShares
  import opened Rewards

  /** What storage says about one node. */
  datatype NodeView = NodeView(classification: Option<Classification>, reputation: Option<u128>, idle: nat, included: nat,
                               validator: Option<ValidatorId>, slotted: bool)

  function ViewOf(r: Roster, id: NodeId): NodeView {
    NodeView(Lookup(r.nodes, id), Lookup(r.reputation, id), Get(r.idleEpochs, id), Get(r.includedEpochs, id), Lookup(r.validatorOf, id),
             id in r.slots)
  }

  /** Nothing about `other`, or about the queue, differs. */
  predicate Spares(r: Roster, r': Roster, other: NodeId) {
    ViewOf(r', other) == ViewOf(r, other) && r'.queue == r.queue
  }

  lemma RemovalSpares(r: Roster, id: NodeId, gate: bool, other: NodeId)
    requires id != other
    ensures Spares(r, RemoveForReputation(r, id, gate), other)
  {
    WithoutKeepsOthers(r.slots, id, other);
  }

  lemma SetSpares(r: Roster, id: NodeId, reputation: u128, other: NodeId)
    requires id != other
    ensures Spares(r, SetReputation(r, id, reputation), other)
  {
  }

  lemma GraduationSpares(r: Roster, id: NodeId, reputation: u128, p: Params, other: NodeId)
    requires id != other
    ensures Spares(r, IdleRound(r, id, p), other) && Spares(r, IncludedRound(r, id, reputation, p), other)
  {
  }

  lemma AbsentSpares(rd: Round, r: Roster, node: SubnetNode, other: NodeId)
    requires node.id != other && node.id in r.reputation
    ensures Spares(r, JudgeAbsent(rd, r, node), other)
  {
  }

  lemma ScoredSpares(rd: Round, forked: Option<set<NodeId>>, r: Roster, node: SubnetNode, score: u128, other: NodeId)
    requires node.id != other && node.id in r.reputation
    ensures Spares(r, JudgeScored(rd, forked, r, node, score).0, other)
  {
    var id, raised := node.id, Raise(rd.params, r.reputation[node.id], rd.params.factors.included);
    if node.classification.nodeClass == Included && forked.None? {
      SetSpares(r, id, raised, other);
      GraduationSpares(SetReputation(r, id, raised), id, raised, rd.params, other);
    } else {
      var settled := ScoredReputation(rd, forked, id, PercentDiv(score, rd.sub.weightSum), raised);
      SetSpares(r, id, settled, other);
      RemovalSpares(SetReputation(r, id, settled), id, rd.gate(id), other);
    }
  }

  lemma JudgeSpares(rd: Round, forked: Option<set<NodeId>>, r: Roster, node: SubnetNode, other: NodeId)
    requires node.id != other
    ensures Spares(r, Judge(rd, forked, r, node).0, other)
  {
    var id := node.id;
    RemovalSpares(r, id, rd.gate(id), other);
    GraduationSpares(r, id, 0, rd.params, other);
    if id in r.reputation {
      match FindScore(rd.sub.data, id) {
        case None => AbsentSpares(rd, r, node, other);
        case Some(score) => ScoredSpares(rd, forked, r, node, score, other);
      }
    }
  }

  /** Where node `j` of the snapshot stands after its turn. */
  function TurnOf(rd: Round, forked: Option<set<NodeId>>, st: Loop, j: nat): Roster
    requires j < |rd.sub.nodes|
  {
    Judge(rd, forked, After(rd, forked, st, j).roster, rd.sub.nodes[j]).0
  }

  function ViewIn(id: NodeId): Loop -> NodeView {
    (st: Loop) => ViewOf(st.roster, id)
  }

  /** Up to its own turn a node is as it was before the loop; after it, as its turn left it. */
  lemma OneTurn(rd: Round, forked: Option<set<NodeId>>, st: Loop, k: nat, j: nat)
    requires DistinctNodes(rd.sub.nodes) && j < |rd.sub.nodes| && k <= |rd.sub.nodes|
    ensures k <= j ==> ViewOf(After(rd, forked, st, k).roster, rd.sub.nodes[j].id) == ViewOf(st.roster, rd.sub.nodes[j].id)
    ensures k > j ==> ViewOf(After(rd, forked, st, k).roster, rd.sub.nodes[j].id) == ViewOf(TurnOf(rd, forked, st, j), rd.sub.nodes[j].id)
  {
    var nodes, step, part := rd.sub.nodes, Processing(rd, forked), ViewIn(rd.sub.nodes[j].id);
    forall s: Loop, i | 0 <= i < |nodes| && i != j
      ensures part(step(s, nodes[i])) == part(s)
    {
      assert nodes[i].id != nodes[j].id;
      JudgeSpares(rd, forked, s.roster, nodes[i], nodes[j].id);
    }
    FoldTouchesOnce(step, st, nodes, k, part, j);
  }

  /** A node that is not in the snapshot is not touched. */
  lemma NoTurn(rd: Round, forked: Option<set<NodeId>>, st: Loop, k: nat, id: NodeId)
    requires k <= |rd.sub.nodes| && !HasId(rd.sub.nodes, id)
    ensures ViewOf(After(rd, forked, st, k).roster, id) == ViewOf(st.roster, id)
  {
    var nodes, step, part := rd.sub.nodes, Processing(rd, forked), ViewIn(id);
    forall s: Loop, i | 0 <= i < |nodes|
      ensures part(step(s, nodes[i])) == part(s)
    {
      JudgeSpares(rd, forked, s.roster, nodes[i], id);
    }
    FoldTouchesOnce(step, st, nodes, k, part, |nodes|);
  }

  lemma LoopKeepsQueue(rd: Round, forked: Option<set<NodeId>>, st: Loop, k: nat)
    requires k <= |rd.sub.nodes|
    ensures After(rd, forked, st, k).roster.queue == st.roster.queue
  {
    var nodes, step, part := rd.sub.nodes, Processing(rd, forked), (st: Loop) => st.roster.queue;
    forall s: Loop, i | 0 <= i < |nodes|
      ensures part(step(s, nodes[i])) == part(s)
    {
      JudgeSpares(rd, forked, s.roster, nodes[i], nodes[i].id + 1);
    }
    FoldTouchesOnce(step, st, nodes, k, part, |nodes|);
  }

  // ---- the verdict on one node ----

  /** Whether a node with this reputation is paid what its score earns. One that has left the subnet
      is; one that is registered must be past its apprenticeship, or the subnet forked, and must have
      at least the least reputation both before the round and after it. */
  predicate Pays(rd: Round, forked: Option<set<NodeId>>, reputation: Option<u128>, node: SubnetNode) {
    var score := FindScore(rd.sub.data, node.id);
    score.Some? && (reputation.Some? ==>
                      && (forked.Some? || node.classification.nodeClass !in {Idle, Included})
                      && reputation.value >= rd.params.minReputation
                      && ReputationAfter(rd, forked, reputation.value, node, score.value) >= rd.params.minReputation)
  }

  function ReputationAfter(rd: Round, forked: Option<set<NodeId>>, reputation: u128, node: SubnetNode, score: u128): u128 {
    ScoredReputation(rd, forked, node.id, PercentDiv(score, rd.sub.weightSum), Raise(rd.params, reputation, rd.params.factors.included))
  }

  function Due(rd: Round, forked: Option<set<NodeId>>, r: Roster): SubnetNode -> nat {
    (node: SubnetNode) => if Pays(rd, forked, Lookup(r.reputation, node.id), node) then GrossOf(rd, forked, node.id) else 0
  }

  lemma JudgeGivesDue(rd: Round, forked: Option<set<NodeId>>, r: Roster, node: SubnetNode)
    ensures Judge(rd, forked, r, node).1 == Due(rd, forked, r)(node)
  {
  }

  /** A node that is paid and stays registered ends its turn with at least the least reputation. */
  lemma PaidKeepsReputation(rd: Round, forked: Option<set<NodeId>>, r: Roster, node: SubnetNode)
    requires Judge(rd, forked, r, node).1 > 0
    ensures var r' := Judge(rd, forked, r, node).0;
            node.id in r'.reputation ==> r'.reputation[node.id] >= rd.params.minReputation
  {
  }
}
