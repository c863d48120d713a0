/** Whoever is elected is a validator: distribution keeps the election slots and the classes in step. */
module ElectionSlots {
  import opened Collections
  import opened FixedPoint
  import opened ConsensusScores
  import opened Network
  import opened RewardShares
  import opened Rewards
  import opened RewardLocality
  import opened RewardEmission

  predicate IsValidator(r: Roster, id: NodeId) {
    id in r.nodes && r.nodes[id].nodeClass == NodeClass.Validator
  }

  /** The slots hold the active nodes of class Validator, each once. */
  ghost predicate SlotsInStep(r: Roster) {
    Distinct(r.slots) && forall id :: id in r.slots <==> IsValidator(r, id)
  }

  /** What the snapshot says about a node that is still active is what storage says. */
  ghost predicate UpToDate(r: Roster, node: SubnetNode) {
    node.id in r.nodes ==> r.nodes[node.id] == node.classification
  }

  ghost predicate SnapshotUpToDate(r: Roster, nodes: seq<SubnetNode>) {
    DistinctNodes(nodes) && forall k :: 0 <= k < |nodes| ==> UpToDate(r, nodes[k])
  }

  // ---- single steps ----

  lemma RemovalKeepsStep(r: Roster, id: NodeId)
    requires SlotsInStep(r)
    ensures SlotsInStep(RemoveActive(r, id))
  {
    WithoutDrops(r.slots, id);
    var r' := RemoveActive(r, id);
    forall x ensures x in r'.slots <==> IsValidator(r', x) {
      assert x in r.slots <==> IsValidator(r, x);
    }
  }

  lemma ReputationKeepsStep(r: Roster, id: NodeId, reputation: u128)
    requires SlotsInStep(r)
    ensures SlotsInStep(SetReputation(r, id, reputation))
    ensures SlotsInStep(RemoveActive(SetReputation(r, id, reputation), id))
  {
    var r' := SetReputation(r, id, reputation);
    assert forall x :: IsValidator(r', x) <==> IsValidator(r, x);
    RemovalKeepsStep(r', id);
  }

  lemma IdleKeepsStep(r: Roster, id: NodeId, p: Params)
    requires SlotsInStep(r) && (id in r.nodes ==> r.nodes[id].nodeClass == Idle)
    ensures SlotsInStep(IdleRound(r, id, p))
  {
    var r' := IdleRound(r, id, p);
    assert forall x :: IsValidator(r', x) <==> IsValidator(r, x);
  }

  lemma IncludedKeepsStep(r: Roster, id: NodeId, reputation: u128, p: Params)
    requires SlotsInStep(r) && (id in r.nodes ==> r.nodes[id].nodeClass == Included)
    ensures SlotsInStep(IncludedRound(r, id, reputation, p))
  {
    var r' := IncludedRound(r, id, reputation, p);
    forall x ensures x in r'.slots <==> IsValidator(r', x) {
      assert x in r.slots <==> IsValidator(r, x);
    }
  }

  lemma ScoredKeepsStep(rd: Round, forked: Option<set<NodeId>>, r: Roster, node: SubnetNode, score: u128)
    requires SlotsInStep(r) && UpToDate(r, node) && node.id in r.reputation
    ensures SlotsInStep(JudgeScored(rd, forked, r, node, score).0)
  {
    var id, raised := node.id, Raise(rd.params, r.reputation[node.id], rd.params.factors.included);
    if node.classification.nodeClass == Included && forked.None? {
      ReputationKeepsStep(r, id, raised);
      IncludedKeepsStep(SetReputation(r, id, raised), id, raised, rd.params);
    } else {
      ReputationKeepsStep(r, id, ScoredReputation(rd, forked, id, PercentDiv(score, rd.sub.weightSum), raised));
    }
  }

  lemma AbsentKeepsStep(rd: Round, r: Roster, node: SubnetNode)
    requires SlotsInStep(r) && node.id in r.reputation
    ensures SlotsInStep(JudgeAbsent(rd, r, node))
  {
    var r' := JudgeAbsent(rd, r, node);
    assert forall x :: IsValidator(r', x) <==> IsValidator(r, x);
  }

  lemma JudgeKeepsStep(rd: Round, forked: Option<set<NodeId>>, r: Roster, node: SubnetNode)
    requires SlotsInStep(r) && UpToDate(r, node)
    ensures SlotsInStep(Judge(rd, forked, r, node).0)
  {
    if node.id in r.reputation {
      if r.reputation[node.id] < rd.params.minReputation {
        RemovalKeepsStep(r, node.id);
      } else if node.classification.nodeClass == Idle && forked.None? {
        IdleKeepsStep(r, node.id, rd.params);
      } else {
        match FindScore(rd.sub.data, node.id) {
          case None => AbsentKeepsStep(rd, r, node);
          case Some(score) => ScoredKeepsStep(rd, forked, r, node, score);
        }
      }
    }
  }

  // ---- the loops ----

  ghost predicate InStepFrom(nodes: seq<SubnetNode>, r: Roster, k: int) {
    SlotsInStep(r) && forall j :: k <= j < |nodes| && 0 <= j ==> UpToDate(r, nodes[j])
  }

  lemma TurnKeepsStep(rd: Round, forked: Option<set<NodeId>>, st: Loop, i: int)
    requires DistinctNodes(rd.sub.nodes) && 0 <= i < |rd.sub.nodes| && InStepFrom(rd.sub.nodes, st.roster, i)
    ensures InStepFrom(rd.sub.nodes, ProcessNode(rd, forked, st, rd.sub.nodes[i]).roster, i + 1)
  {
    var nodes, r := rd.sub.nodes, st.roster;
    var r' := Judge(rd, forked, r, nodes[i]).0;
    assert UpToDate(r, nodes[i]);
    JudgeKeepsStep(rd, forked, r, nodes[i]);
    forall j | i + 1 <= j < |nodes|
      ensures UpToDate(r', nodes[j])
    {
      assert UpToDate(r, nodes[j]) && nodes[i].id != nodes[j].id;
      JudgeSpares(rd, forked, r, nodes[i], nodes[j].id);
      assert ViewOf(r', nodes[j].id).classification == ViewOf(r, nodes[j].id).classification;
    }
  }

  lemma LoopKeepsStep(rd: Round, forked: Option<set<NodeId>>, st: Loop)
    requires SlotsInStep(st.roster) && SnapshotUpToDate(st.roster, rd.sub.nodes)
    ensures SlotsInStep(After(rd, forked, st, |rd.sub.nodes|).roster)
  {
    var nodes, step := rd.sub.nodes, Processing(rd, forked);
    var inv := (st': Loop, k: int) => InStepFrom(nodes, st'.roster, k);
    forall st': Loop, i | 0 <= i < |nodes| && inv(st', i)
      ensures inv(step(st', nodes[i]), i + 1)
    {
      TurnKeepsStep(rd, forked, st', i);
    }
    FoldKeeps(step, st, nodes, |nodes|, inv);
  }

  lemma PenaltyKeepsStep(rd: Round, r: Roster, id: NodeId, factor: u128)
    requires SlotsInStep(r)
    ensures SlotsInStep(Penalize(rd, r, id, factor))
  {
    if id in r.reputation { ReputationKeepsStep(r, id, Lower(r.reputation[id], factor, ONE)); }
  }

  lemma PenaltiesKeepStep(rd: Round, r: Roster, ids: seq<NodeId>, factor: u128)
    requires SlotsInStep(r)
    ensures SlotsInStep(PenalizeAll(rd, r, ids, factor))
  {
    var step, inv := Penalizing(rd, factor), (r': Roster, k: int) => SlotsInStep(r');
    forall r': Roster, i | 0 <= i < |ids| && inv(r', i)
      ensures inv(step(r', ids[i]), i + 1)
    {
      PenaltyKeepsStep(rd, r', ids[i], factor);
    }
    FoldKeeps(step, r, ids, |ids|, inv);
  }

  lemma SlashKeepsStep(rd: Round, r: Roster, shortfall: u128)
    requires SlotsInStep(r)
    ensures SlotsInStep(SlashReputation(rd, r, shortfall))
  {
    var id := rd.sub.proposer;
    if id in r.reputation { ReputationKeepsStep(r, id, Lower(r.reputation[id], rd.params.factors.validatorNonConsensus, shortfall)); }
  }

  // ---- a whole distribution ----

  lemma SameClasses(r: Roster, r': Roster)
    requires SlotsInStep(r) && r'.slots == r.slots && r'.nodes == r.nodes
    ensures SlotsInStep(r')
  {
    assert forall x :: IsValidator(r', x) <==> IsValidator(r, x);
  }

  /** After any distribution of an up-to-date snapshot the election slots are still exactly the active
      nodes of class Validator, each once. */
  lemma DistributionKeepsSlotsInStep(rd: Round, s: State)
    requires SlotsInStep(s.roster) && SnapshotUpToDate(s.roster, rd.sub.nodes)
    ensures SlotsInStep(Distribute(rd, s).0.roster)
  {
    var counted := CountForkEpoch(s.roster);
    SameClasses(s.roster, counted);
    if !InConsensus(rd) {
      SlashKeepsStep(rd, counted, Shortfall(rd));
      PenaltiesKeepStep(rd, SlashReputation(rd, counted, Shortfall(rd)), AscendingIds(rd.sub.attests.Keys),
                        PercentMul(rd.params.factors.nonConsensusAttestor, Shortfall(rd)));
    } else {
      var begun := Begun(rd, s);
      SameClasses(s.roster, begun.roster);
      if rd.sub.weightSum != 0 { PaidOutInStep(rd, s, begun); }
    }
  }

  lemma PaidOutInStep(rd: Round, s: State, begun: State)
    requires SlotsInStep(begun.roster) && begun.roster.nodes == s.roster.nodes && SnapshotUpToDate(s.roster, rd.sub.nodes)
    ensures SlotsInStep(PayOut(rd, ForkedIds(s.roster), begun).0.roster)
  {
    forall k | 0 <= k < |rd.sub.nodes|
      ensures UpToDate(begun.roster, rd.sub.nodes[k])
    {
      assert UpToDate(s.roster, rd.sub.nodes[k]);
    }
    LoopKeepsStep(rd, ForkedIds(s.roster), LoopStart(rd, begun));
  }
}
