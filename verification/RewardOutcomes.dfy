/** What a distribution does to single nodes and to the queue. */
module RewardOutcomes {
  import opened Collections
  import opened FixedPoint
  import opened ConsensusScores
  import opened Network
  import opened RewardShares
  import opened Rewards
  import opened RewardLocality
  import opened RewardEmission

  // ---- who is paid ----

  predicate IsDue(rd: Round, s: State, node: SubnetNode) {
    Due(rd, ForkedIds(s.roster), Begun(rd, s).roster)(node) > 0
  }

  ghost predicate Named(e: Events, id: NodeId) {
    exists p :: p in e.nodeRewards && p.0 == id
  }

  ghost predicate DueBefore(rd: Round, forked: Option<set<NodeId>>, r: Roster, id: NodeId, k: int) {
    exists j :: 0 <= j < k && j < |rd.sub.nodes| && rd.sub.nodes[j].id == id && Due(rd, forked, r)(rd.sub.nodes[j]) > 0
  }

  ghost predicate NamesTheDue(rd: Round, forked: Option<set<NodeId>>, start: Loop, st: Loop, k: int) {
    && 0 <= k <= |rd.sub.nodes|
    && (forall id :: Named(st.events, id) <==> DueBefore(rd, forked, start.roster, id, k))
    && (forall j :: k <= j < |rd.sub.nodes| ==> ViewOf(st.roster, rd.sub.nodes[j].id) == ViewOf(start.roster, rd.sub.nodes[j].id))
  }

  lemma PayNames(rd: Round, node: SubnetNode, l: Ledger, e: Events, gross: u128, id: NodeId)
    ensures Named(Pay(rd, node, l, e, gross).1, id) <==> Named(e, id) || (gross > 0 && id == node.id)
  {
    if gross > 0 {
      var e' := Pay(rd, node, l, e, gross).1;
      var x := e'.nodeRewards[|e.nodeRewards|];
      assert e'.nodeRewards == e.nodeRewards + [x] && x.0 == node.id;
      assert forall p :: p in e.nodeRewards ==> p in e'.nodeRewards;
      assert x in e'.nodeRewards;
    }
  }

  lemma StepNames(rd: Round, forked: Option<set<NodeId>>, start: Loop, st: Loop, i: int)
    requires DistinctNodes(rd.sub.nodes) && 0 <= i < |rd.sub.nodes| && NamesTheDue(rd, forked, start, st, i)
    ensures NamesTheDue(rd, forked, start, ProcessNode(rd, forked, st, rd.sub.nodes[i]), i + 1)
  {
    var nodes, node := rd.sub.nodes, rd.sub.nodes[i];
    var gross, st' := Judge(rd, forked, st.roster, node).1, ProcessNode(rd, forked, st, node);
    JudgeGivesDue(rd, forked, st.roster, node);
    assert ViewOf(st.roster, node.id).reputation == ViewOf(start.roster, node.id).reputation;
    assert gross == Due(rd, forked, start.roster)(node);
    forall id ensures Named(st'.events, id) <==> DueBefore(rd, forked, start.roster, id, i + 1) {
      PayNames(rd, node, st.ledger, st.events, gross, id);
      assert DueBefore(rd, forked, start.roster, id, i + 1) <==> DueBefore(rd, forked, start.roster, id, i) || (id == node.id && gross > 0);
    }
    forall j | i + 1 <= j < |nodes|
      ensures ViewOf(st'.roster, nodes[j].id) == ViewOf(start.roster, nodes[j].id)
    {
      assert nodes[i].id != nodes[j].id;
      JudgeSpares(rd, forked, st.roster, node, nodes[j].id);
    }
  }

  /** The event names exactly the nodes that something is due to. */
  lemma PaidIffDue(rd: Round, s: State, id: NodeId)
    requires DistinctNodes(rd.sub.nodes) && Paying(rd)
    ensures Named(Distribute(rd, s).1, id) <==> exists n :: n in rd.sub.nodes && n.id == id && IsDue(rd, s, n)
  {
    var nodes, forked, start := rd.sub.nodes, ForkedIds(s.roster), LoopStart(rd, Begun(rd, s));
    var step, inv := Processing(rd, forked), (st: Loop, k: int) => NamesTheDue(rd, forked, start, st, k);
    forall st: Loop, i | 0 <= i < |nodes| && inv(st, i)
      ensures inv(step(st, nodes[i]), i + 1)
    {
      StepNames(rd, forked, start, st, i);
    }
    assert inv(start, 0);
    FoldKeeps(step, start, nodes, |nodes|, inv);
    assert NamesTheDue(rd, forked, start, After(rd, forked, start, |nodes|), |nodes|);
    assert Named(Distribute(rd, s).1, id) <==> DueBefore(rd, forked, start.roster, id, |nodes|);
  }

  // ---- the start of a round ----

  lemma RegistrationForgets(r: Roster, id: NodeId, n: NodeId)
    requires n in RemoveRegistered(r, id).reputation
    ensures ViewOf(RemoveRegistered(r, id), n) == ViewOf(r, n)
  {
  }

  lemma QueueSpares(rd: Round, r: Roster, n: NodeId)
    requires n in QueueConsensus(rd, r).reputation
    ensures ViewOf(QueueConsensus(rd, r), n) == ViewOf(r, n)
  {
    var r' := r.(queue := ToFront(r.queue, rd.sub.prioritize));
    assert ViewOf(r', n) == ViewOf(r, n);
    if rd.sub.remove.Some? && n in RemoveRegistered(r', rd.sub.remove.value).reputation {
      RegistrationForgets(r', rd.sub.remove.value, n);
    }
  }

  /** The queue's removals do not concern a node that is registered afterwards. */
  lemma BegunAsBefore(rd: Round, s: State, n: NodeId)
    requires n in Begun(rd, s).roster.reputation
    ensures ViewOf(Begun(rd, s).roster, n) == ViewOf(s.roster, n)
  {
    QueueSpares(rd, CountForkEpoch(s.roster), n);
  }

  // ---- what becomes of one node ----

  /** Where a paying round leaves a node: as its own turn, taken from where the round began, leaves it;
      or, when it is not in the snapshot, where it was. */
  lemma NodeAfterRound(rd: Round, s: State, j: nat) returns (r: Roster)
    requires DistinctNodes(rd.sub.nodes) && Paying(rd) && j < |rd.sub.nodes|
    ensures ViewOf(r, rd.sub.nodes[j].id) == ViewOf(Begun(rd, s).roster, rd.sub.nodes[j].id)
    ensures ViewOf(Distribute(rd, s).0.roster, rd.sub.nodes[j].id)
            == ViewOf(Judge(rd, ForkedIds(s.roster), r, rd.sub.nodes[j]).0, rd.sub.nodes[j].id)
  {
    var forked, start := ForkedIds(s.roster), LoopStart(rd, Begun(rd, s));
    r := After(rd, forked, start, j).roster;
    OneTurn(rd, forked, start, j, j);
    OneTurn(rd, forked, start, |rd.sub.nodes|, j);
  }

  lemma OutsiderAfterRound(rd: Round, s: State, id: NodeId)
    requires Paying(rd) && !HasId(rd.sub.nodes, id)
    ensures ViewOf(Distribute(rd, s).0.roster, id) == ViewOf(Begun(rd, s).roster, id)
  {
    NoTurn(rd, ForkedIds(s.roster), LoopStart(rd, Begun(rd, s)), |rd.sub.nodes|, id);
  }

  /** Whoever is paid from the node rewards and is still registered after the round has at least the
      least reputation then. */
  lemma PaidImpliesReputable(rd: Round, s: State, id: NodeId)
    requires DistinctNodes(rd.sub.nodes) && Paying(rd)
    requires Named(Distribute(rd, s).1, id)
    ensures var r' := Distribute(rd, s).0.roster;
            id in r'.reputation ==> r'.reputation[id] >= rd.params.minReputation
  {
    PaidIffDue(rd, s, id);
    var node :| node in rd.sub.nodes && node.id == id && IsDue(rd, s, node);
    var j :| 0 <= j < |rd.sub.nodes| && rd.sub.nodes[j] == node;
    var r := NodeAfterRound(rd, s, j);
    JudgeGivesDue(rd, ForkedIds(s.roster), r, node);
    assert ViewOf(r, id).reputation == ViewOf(Begun(rd, s).roster, id).reputation;
    PaidKeepsReputation(rd, ForkedIds(s.roster), r, node);
    assert ViewOf(Distribute(rd, s).0.roster, id).reputation == ViewOf(Judge(rd, ForkedIds(s.roster), r, node).0, id).reputation;
  }

  // ---- a round out of consensus only takes ----

  /** Nodes may be gone and reputations lower; everything else about the rest is the same. */
  ghost predicate Lessened(r: Roster, r': Roster) {
    && (forall id :: id in r'.nodes ==> id in r.nodes && r'.nodes[id] == r.nodes[id])
    && (forall id :: id in r'.reputation ==> id in r.reputation && r'.reputation[id] <= r.reputation[id])
    && (forall id :: id in r'.reputation ==>
          Get(r'.idleEpochs, id) == Get(r.idleEpochs, id) && Get(r'.includedEpochs, id) == Get(r.includedEpochs, id))
    && (forall id :: id in r'.reputation ==> (id in r'.slots <==> id in r.slots))
    && r'.queue == r.queue && r'.registered == r.registered && r'.validatorOf == r.validatorOf
  }

  lemma RemovalLessens(r: Roster, id: NodeId)
    ensures Lessened(r, RemoveActive(r, id))
  {
    forall x: NodeId | x != id
      ensures x in Without(r.slots, id) <==> x in r.slots
    {
      WithoutKeepsOthers(r.slots, id, x);
    }
  }

  lemma LowerLessens(r: Roster, id: NodeId, reputation: u128)
    requires id in r.reputation && reputation <= r.reputation[id]
    ensures Lessened(r, SetReputation(r, id, reputation)) && Lessened(r, RemoveActive(SetReputation(r, id, reputation), id))
  {
    RemovalLessens(SetReputation(r, id, reputation), id);
  }

  lemma PenalizeLessens(rd: Round, r: Roster, id: NodeId, factor: u128)
    ensures Lessened(r, Penalize(rd, r, id, factor))
  {
    if id in r.reputation { LowerLessens(r, id, Lower(r.reputation[id], factor, ONE)); }
  }

  lemma SlashLessens(rd: Round, r: Roster, shortfall: u128)
    ensures Lessened(r, SlashReputation(rd, r, shortfall))
  {
    var id := rd.sub.proposer;
    if id in r.reputation { LowerLessens(r, id, Lower(r.reputation[id], rd.params.factors.validatorNonConsensus, shortfall)); }
  }

  lemma PenaltiesLessen(rd: Round, r: Roster, ids: seq<NodeId>, factor: u128)
    ensures Lessened(r, PenalizeAll(rd, r, ids, factor))
  {
    var step, inv := Penalizing(rd, factor), (r': Roster, k: int) => Lessened(r, r');
    forall r': Roster, i | 0 <= i < |ids| && inv(r', i)
      ensures inv(step(r', ids[i]), i + 1)
    {
      PenalizeLessens(rd, r', ids[i], factor);
    }
    FoldKeeps(step, r, ids, |ids|, inv);
  }

  /** Out of consensus nobody gains anything: reputations and the proposer's stake can only fall, no
      class, counter, queue or other balance changes, and the capacitor stays as it is. */
  lemma NonConsensusOnlyTakes(rd: Round, s: State)
    requires !InConsensus(rd)
    ensures var (s', e) := Distribute(rd, s);
            && Lessened(s.roster, s'.roster)
            && s'.ledger == s.ledger.(stake := s'.ledger.stake, totalStake := s'.ledger.totalStake)
            && s'.ledger.totalStake <= s.ledger.totalStake
            && (forall id :: Get(s'.ledger.stake, id) <= Get(s.ledger.stake, id))
            && (forall id :: id != rd.sub.proposer ==> Get(s'.ledger.stake, id) == Get(s.ledger.stake, id))
            && Get(s.ledger.stake, rd.sub.proposer) - Get(s'.ledger.stake, rd.sub.proposer) <= rd.params.maxSlash
            && s'.capacitor == s.capacitor
            && s'.subnetReputation <= s.subnetReputation
            && e == NO_EVENTS
  {
    var r := CountForkEpoch(s.roster);
    SlashLessens(rd, r, Shortfall(rd));
    PenaltiesLessen(rd, SlashReputation(rd, r, Shortfall(rd)), AscendingIds(rd.sub.attests.Keys),
                    PercentMul(rd.params.factors.nonConsensusAttestor, Shortfall(rd)));
  }

  // ---- removals and forks ----

  /** Whoever is removed leaves nothing behind but its stake: not its reputation, its counters, its place
      in a fork, or, where slots are not held twice, its election slot; and nobody else is touched. */
  lemma RemovalMeaning(r: Roster, id: NodeId)
    requires id in r.nodes && Distinct(r.slots) && (id in r.slots ==> r.nodes[id].nodeClass == NodeClass.Validator)
    ensures var r' := RemoveActive(r, id);
            && id !in r'.nodes && id !in r'.reputation && id !in r'.idleEpochs && id !in r'.includedEpochs && id !in r'.slots
            && (forall other :: other != id ==> ViewOf(r', other) == ViewOf(r, other))
            && r'.emergency.Some? == r.emergency.Some?
            && (r.emergency.Some? ==> forall x :: x in r'.emergency.value.nodes <==> x in r.emergency.value.nodes && x != id)
  {
    WithoutDrops(r.slots, id);
    if r.emergency.Some? { FilterMembers(r.emergency.value.nodes, Others(id)); }
  }

  /** The same fork, with nodes possibly gone from it. */
  ghost predicate SameFork(before: Option<Emergency>, after: Option<Emergency>) {
    && before.Some? == after.Some?
    && (before.Some? ==>
          && after.value.totalEpochs == before.value.totalEpochs
          && forall x :: x in after.value.nodes ==> x in before.value.nodes)
  }

  lemma RemovalKeepsFork(r: Roster, id: NodeId)
    ensures SameFork(r.emergency, RemoveActive(r, id).emergency)
  {
    if r.emergency.Some? { FilterMembers(r.emergency.value.nodes, Others(id)); }
  }

  lemma ScoredKeepsFork(rd: Round, forked: Option<set<NodeId>>, r: Roster, node: SubnetNode, score: u128)
    requires node.id in r.reputation
    ensures SameFork(r.emergency, JudgeScored(rd, forked, r, node, score).0.emergency)
  {
    var raised := Raise(rd.params, r.reputation[node.id], rd.params.factors.included);
    var settled := ScoredReputation(rd, forked, node.id, PercentDiv(score, rd.sub.weightSum), raised);
    RemovalKeepsFork(SetReputation(r, node.id, settled), node.id);
  }

  lemma JudgeKeepsFork(rd: Round, forked: Option<set<NodeId>>, r: Roster, node: SubnetNode)
    ensures SameFork(r.emergency, Judge(rd, forked, r, node).0.emergency)
  {
    if node.id in r.reputation {
      if r.reputation[node.id] < rd.params.minReputation {
        RemovalKeepsFork(r, node.id);
      } else {
        match FindScore(rd.sub.data, node.id) {
          case None =>
          case Some(score) => ScoredKeepsFork(rd, forked, r, node, score);
        }
      }
    }
  }

  lemma LoopKeepsFork(rd: Round, forked: Option<set<NodeId>>, st: Loop)
    ensures SameFork(st.roster.emergency, After(rd, forked, st, |rd.sub.nodes|).roster.emergency)
  {
    var nodes, step := rd.sub.nodes, Processing(rd, forked);
    var inv := (st': Loop, k: int) => SameFork(st.roster.emergency, st'.roster.emergency);
    forall st': Loop, i | 0 <= i < |nodes| && inv(st', i)
      ensures inv(step(st', nodes[i]), i + 1)
    {
      JudgeKeepsFork(rd, forked, st'.roster, nodes[i]);
    }
    FoldKeeps(step, st, nodes, |nodes|, inv);
  }

  lemma PenaltiesKeepFork(rd: Round, r: Roster, ids: seq<NodeId>, factor: u128)
    ensures SameFork(r.emergency, PenalizeAll(rd, r, ids, factor).emergency)
  {
    var step, inv := Penalizing(rd, factor), (r': Roster, k: int) => SameFork(r.emergency, r'.emergency);
    forall r': Roster, i | 0 <= i < |ids| && inv(r', i)
      ensures inv(step(r', ids[i]), i + 1)
    {
      if ids[i] in r'.reputation {
        RemovalKeepsFork(SetReputation(r', ids[i], Lower(r'.reputation[ids[i]], factor, ONE)), ids[i]);
      }
    }
    FoldKeeps(step, r, ids, |ids|, inv);
  }

  lemma RejectionKeepsFork(rd: Round, r: Roster, shortfall: u128, factor: u128)
    ensures SameFork(r.emergency, PenalizeAll(rd, SlashReputation(rd, r, shortfall), AscendingIds(rd.sub.attests.Keys), factor).emergency)
  {
    var id := rd.sub.proposer;
    if id in r.reputation {
      RemovalKeepsFork(SetReputation(r, id, Lower(r.reputation[id], rd.params.factors.validatorNonConsensus, shortfall)), id);
    }
    PenaltiesKeepFork(rd, SlashReputation(rd, r, shortfall), AscendingIds(rd.sub.attests.Keys), factor);
  }

  lemma QueueKeepsFork(rd: Round, r: Roster)
    ensures QueueConsensus(rd, r).emergency == r.emergency
  {
  }

  lemma ConsensusKeepsFork(rd: Round, s: State)
    requires InConsensus(rd)
    ensures SameFork(CountForkEpoch(s.roster).emergency, Distribute(rd, s).0.roster.emergency)
  {
    QueueKeepsFork(rd, CountForkEpoch(s.roster));
    if rd.sub.weightSum != 0 { LoopKeepsFork(rd, ForkedIds(s.roster), LoopStart(rd, Begun(rd, s))); }
  }

  /** Every distribution counts one more epoch of a fork in force, with saturation; it neither starts nor
      ends one, and no node joins one. */
  lemma ForkIsCounted(rd: Round, s: State)
    ensures var (before, after) := (s.roster.emergency, Distribute(rd, s).0.roster.emergency);
            && before.Some? == after.Some?
            && (before.Some? ==>
                  && after.value.totalEpochs == Min(before.value.totalEpochs + 1, U32_RANGE - 1)
                  && forall x :: x in after.value.nodes ==> x in before.value.nodes)
  {
    if InConsensus(rd) {
      ConsensusKeepsFork(rd, s);
    } else {
      RejectionKeepsFork(rd, CountForkEpoch(s.roster), Shortfall(rd), PercentMul(rd.params.factors.nonConsensusAttestor, Shortfall(rd)));
    }
  }
}
