/** What a distribution does to reputations, and who is removed for theirs. */
module ReputationOutcomes {
  import opened Collections
  import opened FixedPoint
  import opened ConsensusScores
  import opened Network
  import opened RewardShares
  import opened Rewards
  import opened RewardLocality
  import opened RewardEmission
  import opened RewardOutcomes
  import opened BalanceOutcomes

  // ---- in plain arithmetic ----

  /** A reputation less its `factor`, rounded down, and at most 1.0. */
  function Reduced(reputation: nat, factor: nat): nat {
    Min(Deducted(reputation, reputation * factor / ONE), ONE)
  }

  /** A penalty takes the floor of the reputation by the floored product of factor and scale. For a
      reputation and a product of at most 1.0 that is an exact loss, and not nothing as soon as it comes
      to a unit. */
  lemma LowerMeaning(reputation: u128, factor: u128, scale: u128)
    ensures Lower(reputation, factor, scale) == Reduced(reputation, factor * scale / ONE)
    ensures reputation <= ONE && factor * scale / ONE <= ONE ==>
              var loss := reputation * (factor * scale / ONE) / ONE;
              && loss <= reputation && Lower(reputation, factor, scale) == reputation - loss
              && (loss > 0 <==> reputation * (factor * scale / ONE) >= ONE)
  {
    PercentMulIsFloor(factor, scale);
    var k, exact := PercentMul(factor, scale), factor * scale / ONE;
    PercentMulIsFloor(reputation, k);
    if reputation == 0 {
      assert 0 * exact / ONE == 0;
    } else if exact > U128_MAX {
      TakesAll(reputation, k);
      TakesAll(reputation, exact);
    }
    if exact <= ONE {
      MulMono(reputation, exact, reputation, ONE);
      DivMono(reputation * exact, reputation * ONE, ONE);
      DivUnique(reputation * ONE, ONE, reputation);
      DivBounds(reputation * exact, ONE);
    }
  }

  lemma TakesAll(x: nat, factor: nat)
    requires factor >= ONE
    ensures x * factor / ONE >= x
  {
    MulMono(x, ONE, x, factor);
    DivMono(x * ONE, x * factor, ONE);
    DivUnique(x * ONE, ONE, x);
  }

  lemma LowerByFactor(reputation: u128, factor: u128)
    ensures Lower(reputation, factor, ONE) == Reduced(reputation, factor)
  {
    LowerMeaning(reputation, factor, ONE);
    DivUnique(factor * ONE, ONE, factor);
  }

  /** A reputation raised by the pallet's increase, and at most 1.0; one at 1.0 stays. */
  function Risen(p: Params, reputation: u128, factor: u128): u128 {
    if reputation == ONE then ONE else Min(p.raise(reputation, factor), ONE)
  }

  // ---- a node in a paying round ----

  /** During a fork only the fork's validators are expected to attest. */
  predicate ExpectedToAttest(r: Roster, id: NodeId) {
    r.emergency.Some? ==> id in r.emergency.value.nodes
  }

  /** An apprentice of this class, outside a fork. */
  predicate ApprenticeAs(r: Roster, n: SubnetNode, nodeClass: NodeClass) {
    r.emergency.None? && n.classification.nodeClass == nodeClass
  }

  /** Raised for its score, then reduced for a weight below the minimum, then for a missing attestation
      when a super majority attested. */
  function WithScore(rd: Round, r: Roster, id: NodeId, score: u128, reputation: u128): nat
    requires rd.sub.weightSum > 0
  {
    var raised := Risen(rd.params, reputation, rd.params.factors.included);
    var weighed := if score * ONE / rd.sub.weightSum < rd.params.minWeight then Reduced(raised, rd.params.factors.belowMinWeight) else raised;
    if ExpectedToAttest(r, id) && id !in rd.sub.attests && rd.sub.attestationRatio >= rd.params.superMajority
    then Reduced(weighed, rd.params.factors.nonAttestor) else weighed
  }

  /** The reputation that the round leaves a node that stays registered. */
  function NewReputation(rd: Round, r: Roster, n: SubnetNode, reputation: u128): nat
    requires rd.sub.weightSum > 0
  {
    if reputation < rd.params.minReputation || ApprenticeAs(r, n, Idle) then reputation
    else
      match FindScore(rd.sub.data, n.id)
      case None => Reduced(reputation, rd.params.factors.absent)
      case Some(score) =>
        if ApprenticeAs(r, n, Included) then Risen(rd.params, reputation, rd.params.factors.included)
        else WithScore(rd, r, n.id, score, reputation)
  }

  /** Whether the round finds the reputation too low: at its start, or, for a node that is not an
      apprentice, once its score has been looked at. */
  predicate TooLow(rd: Round, r: Roster, n: SubnetNode, reputation: u128)
    requires rd.sub.weightSum > 0
  {
    || reputation < rd.params.minReputation
    || (!ApprenticeAs(r, n, Idle) && !ApprenticeAs(r, n, Included) && FindScore(rd.sub.data, n.id).Some?
        && NewReputation(rd, r, n, reputation) < rd.params.minReputation)
  }

  lemma SettledIsPlain(rd: Round, r: Roster, id: NodeId, score: u128, reputation: u128)
    requires rd.sub.weightSum > 0
    ensures ScoredReputation(rd, ForkedIds(r), id, PercentDiv(score, rd.sub.weightSum), Raise(rd.params, reputation, rd.params.factors.included))
            == WithScore(rd, r, id, score, reputation)
  {
    var raised := Raise(rd.params, reputation, rd.params.factors.included);
    PercentDivIsFloor(score, rd.sub.weightSum);
    LowerByFactor(raised, rd.params.factors.belowMinWeight);
    var lowered := Lower(raised, rd.params.factors.belowMinWeight, ONE);
    LowerByFactor(raised, rd.params.factors.nonAttestor);
    LowerByFactor(lowered, rd.params.factors.nonAttestor);
  }

  /** Whether a removal of the node can be carried out. */
  predicate CanGo(rd: Round, r: Roster, id: NodeId) {
    id in r.nodes && id in r.validatorOf && rd.gate(id)
  }

  /** What is left of a node: nothing, or all of it with this reputation. */
  ghost predicate LeftWith(r: Roster, r': Roster, id: NodeId, gone: bool, reputation: nat) {
    && (id in r'.reputation <==> !gone)
    && (id in r'.nodes <==> id in r.nodes && !gone)
    && (!gone ==> r'.reputation[id] == reputation)
  }

  lemma RemovalLeaves(rd: Round, r: Roster, id: NodeId, reputation: u128, low: bool)
    requires id in r.reputation && r.reputation[id] == reputation
    ensures LeftWith(r, if low then RemoveForReputation(r, id, rd.gate(id)) else r, id, low && CanGo(rd, r, id), reputation)
  {
  }

  lemma GraduationLeaves(r: Roster, id: NodeId, raised: u128, p: Params)
    requires id in r.reputation
    ensures LeftWith(r, IdleRound(r, id, p), id, false, r.reputation[id])
    ensures LeftWith(r, IncludedRound(SetReputation(r, id, raised), id, raised, p), id, false, raised)
  {
  }

  lemma ScoredLeaves(rd: Round, r: Roster, s: Roster, node: SubnetNode, score: u128)
    requires rd.sub.weightSum > 0 && node.id in r.reputation && r.reputation[node.id] >= rd.params.minReputation
    requires FindScore(rd.sub.data, node.id) == Some(score) && !ApprenticeAs(s, node, Idle)
    ensures var reputation := r.reputation[node.id];
            LeftWith(r, JudgeScored(rd, ForkedIds(s), r, node, score).0, node.id,
                     TooLow(rd, s, node, reputation) && CanGo(rd, r, node.id), NewReputation(rd, s, node, reputation))
  {
    var id, reputation := node.id, r.reputation[node.id];
    var raised := Raise(rd.params, reputation, rd.params.factors.included);
    if ApprenticeAs(s, node, Included) {
      GraduationLeaves(r, id, raised, rd.params);
    } else {
      SettledIsPlain(rd, s, id, score, reputation);
      var settled := ScoredReputation(rd, ForkedIds(s), id, PercentDiv(score, rd.sub.weightSum), raised);
      RemovalLeaves(rd, SetReputation(r, id, settled), id, settled, settled < rd.params.minReputation);
    }
  }

  lemma JudgeLeaves(rd: Round, r: Roster, s: Roster, node: SubnetNode)
    requires rd.sub.weightSum > 0 && node.id in r.reputation
    ensures var reputation := r.reputation[node.id];
            LeftWith(r, Judge(rd, ForkedIds(s), r, node).0, node.id,
                     TooLow(rd, s, node, reputation) && CanGo(rd, r, node.id), NewReputation(rd, s, node, reputation))
  {
    var id, reputation := node.id, r.reputation[node.id];
    if reputation < rd.params.minReputation {
      RemovalLeaves(rd, r, id, reputation, true);
    } else if ApprenticeAs(s, node, Idle) {
      GraduationLeaves(r, id, reputation, rd.params);
    } else {
      match FindScore(rd.sub.data, id) {
        case None => LowerByFactor(reputation, rd.params.factors.absent);
        case Some(score) => ScoredLeaves(rd, r, s, node, score);
      }
    }
  }

  /** In a paying round a node of the snapshot that its queue requests have not removed ends with exactly
      the reputation the rules give it; it is removed exactly when its reputation is found too low, it is
      active and has a validator, and the block has room for the removal. */
  lemma ReputationAfterRound(rd: Round, s: State, j: nat)
    requires DistinctNodes(rd.sub.nodes) && Paying(rd) && j < |rd.sub.nodes|
    requires rd.sub.nodes[j].id in Begun(rd, s).roster.reputation
    ensures var n := rd.sub.nodes[j];
            && n.id in s.roster.reputation
            && var reputation := s.roster.reputation[n.id];
               LeftWith(s.roster, Distribute(rd, s).0.roster, n.id,
                        TooLow(rd, s.roster, n, reputation) && CanGo(rd, s.roster, n.id), NewReputation(rd, s.roster, n, reputation))
  {
    var n := rd.sub.nodes[j];
    BegunAsBefore(rd, s, n.id);
    var r := NodeAfterRound(rd, s, j);
    var begun, after, r' := Begun(rd, s).roster, Distribute(rd, s).0.roster, Judge(rd, ForkedIds(s.roster), r, n).0;
    assert ViewOf(r, n.id) == ViewOf(s.roster, n.id);
    assert ViewOf(r, n.id).reputation == ViewOf(s.roster, n.id).reputation && ViewOf(r, n.id).classification == ViewOf(s.roster, n.id).classification
           && ViewOf(r, n.id).validator == ViewOf(s.roster, n.id).validator;
    JudgeLeaves(rd, r, s.roster, n);
    assert ViewOf(after, n.id).reputation == ViewOf(r', n.id).reputation && ViewOf(after, n.id).classification == ViewOf(r', n.id).classification;
  }

  // ---- a node in a round out of consensus ----

  lemma {:induction false} AscendingOnce(s: set<nat>, i: int, j: int)
    requires 0 <= i < j < |AscendingIds(s)|
    ensures AscendingIds(s)[i] != AscendingIds(s)[j]
  {
    var k := Least(s);
    if i == 0 {
      assert AscendingIds(s)[j] in AscendingIds(s - {k});
    } else {
      AscendingOnce(s - {k}, i - 1, j - 1);
    }
  }

  lemma PenaltySpares(rd: Round, r: Roster, id: NodeId, factor: u128, other: NodeId)
    requires id != other
    ensures ViewOf(Penalize(rd, r, id, factor), other) == ViewOf(r, other)
  {
    if id in r.reputation {
      var lowered := Lower(r.reputation[id], factor, ONE);
      SetSpares(r, id, lowered, other);
      RemovalSpares(SetReputation(r, id, lowered), id, rd.gate(id), other);
    }
  }

  lemma SlashSpares(rd: Round, r: Roster, shortfall: u128, other: NodeId)
    requires rd.sub.proposer != other
    ensures ViewOf(SlashReputation(rd, r, shortfall), other) == ViewOf(r, other)
  {
    var id := rd.sub.proposer;
    if id in r.reputation {
      var lowered := Lower(r.reputation[id], rd.params.factors.validatorNonConsensus, shortfall);
      SetSpares(r, id, lowered, other);
      RemovalSpares(SetReputation(r, id, lowered), id, true, other);
    }
  }

  /** The turn of `id` in the loop over the attesters, if it has one, is the only one that matters to it,
      and finds it as it was before the loop. */
  lemma OwnPenalty(rd: Round, r: Roster, factor: u128, id: NodeId) returns (x: Roster)
    ensures ViewOf(x, id) == ViewOf(r, id)
    ensures ViewOf(PenalizeAll(rd, r, AscendingIds(rd.sub.attests.Keys), factor), id)
            == if id in rd.sub.attests then ViewOf(Penalize(rd, x, id, factor), id) else ViewOf(r, id)
  {
    var ids, step, part := AscendingIds(rd.sub.attests.Keys), Penalizing(rd, factor), (y: Roster) => ViewOf(y, id);
    var j := |ids|;
    if id in rd.sub.attests { j :| 0 <= j < |ids| && ids[j] == id; }
    forall y: Roster, i | 0 <= i < |ids| && i != j
      ensures part(step(y, ids[i])) == part(y)
    {
      if id in rd.sub.attests { if i < j { AscendingOnce(rd.sub.attests.Keys, i, j); } else { AscendingOnce(rd.sub.attests.Keys, j, i); } }
      PenaltySpares(rd, y, ids[i], factor, id);
    }
    FoldTouchesOnce(step, r, ids, |ids|, part, j);
    FoldTouchesOnce(step, r, ids, j, part, j);
    x := Fold(step, r, ids, j);
  }

  /** What the proposer of a rejected submission, and anybody else, has left before the attesters' turn. */
  function AfterProposing(rd: Round, id: NodeId, reputation: u128): nat
    requires rd.params.minAttestation > 0
  {
    if id == rd.sub.proposer then Reduced(reputation, rd.params.factors.validatorNonConsensus * PlainShortfall(rd) / ONE) else reputation
  }

  /** And after it: attesting to a rejected submission is penalized as well. */
  function AfterAttesting(rd: Round, id: NodeId, reputation: u128): nat
    requires rd.params.minAttestation > 0
  {
    var left := AfterProposing(rd, id, reputation);
    if id in rd.sub.attests then Reduced(left, rd.params.factors.nonConsensusAttestor * PlainShortfall(rd) / ONE) else left
  }

  /** The proposer goes whether or not the block has room. */
  predicate ProposerGoes(rd: Round, r: Roster, id: NodeId, reputation: u128)
    requires rd.params.minAttestation > 0
  {
    && id == rd.sub.proposer && AfterProposing(rd, id, reputation) < rd.params.minReputation
    && id in r.nodes && id in r.validatorOf
  }

  predicate AttesterGoes(rd: Round, r: Roster, id: NodeId, reputation: u128)
    requires rd.params.minAttestation > 0
  {
    id in rd.sub.attests && AfterAttesting(rd, id, reputation) < rd.params.minReputation && CanGo(rd, r, id)
  }

  lemma SlashLeaves(rd: Round, r: Roster, id: NodeId)
    requires rd.params.minAttestation > 0 && id in r.reputation
    ensures LeftWith(r, SlashReputation(rd, r, Shortfall(rd)), id, ProposerGoes(rd, r, id, r.reputation[id]),
                     AfterProposing(rd, id, r.reputation[id]))
    ensures SlashReputation(rd, r, Shortfall(rd)).validatorOf == r.validatorOf
  {
    if id == rd.sub.proposer {
      ShortfallIsPlain(rd);
      LowerMeaning(r.reputation[id], rd.params.factors.validatorNonConsensus, Shortfall(rd));
      ProposerLeaves(rd, r, Lower(r.reputation[id], rd.params.factors.validatorNonConsensus, Shortfall(rd)));
    } else {
      SlashSpares(rd, r, Shortfall(rd), id);
      PresentIn(SlashReputation(rd, r, Shortfall(rd)), r, id);
    }
  }

  lemma ProposerLeaves(rd: Round, r: Roster, lowered: u128)
    requires rd.sub.proposer in r.reputation
    ensures var id, low := rd.sub.proposer, rd.sub.proposer in r.validatorOf && lowered < rd.params.minReputation;
            var r' := SetReputation(r, id, lowered);
            LeftWith(r, if low then RemoveActive(r', id) else r', id, low && id in r.nodes, lowered)
  {
  }

  lemma PenaltyLeaves(rd: Round, r: Roster, id: NodeId, factor: u128)
    requires id in r.reputation
    ensures var left := Reduced(r.reputation[id], factor);
            LeftWith(r, Penalize(rd, r, id, factor), id, left < rd.params.minReputation && CanGo(rd, r, id), left)
  {
    LowerByFactor(r.reputation[id], factor);
    var left := Lower(r.reputation[id], factor, ONE);
    RemovalLeaves(rd, SetReputation(r, id, left), id, left, left < rd.params.minReputation);
  }

  lemma AttestorFactorIsPlain(rd: Round)
    requires rd.params.minAttestation > 0
    ensures PercentMul(rd.params.factors.nonConsensusAttestor, Shortfall(rd)) == rd.params.factors.nonConsensusAttestor * PlainShortfall(rd) / ONE
  {
    ShortfallIsPlain(rd);
    PercentMulShrinks(rd.params.factors.nonConsensusAttestor, Shortfall(rd));
  }

  /** Out of consensus the proposer and the attesters, and nobody else, lose exactly their part of the
      shortfall from their reputations, the proposer first; whoever falls below the minimum is removed,
      attesters only when the block has room. */
  lemma ReputationAfterRejection(rd: Round, s: State, id: NodeId)
    requires !InConsensus(rd) && id in s.roster.reputation
    ensures var reputation := s.roster.reputation[id];
            LeftWith(s.roster, Distribute(rd, s).0.roster, id,
                     ProposerGoes(rd, s.roster, id, reputation) || AttesterGoes(rd, s.roster, id, reputation),
                     AfterAttesting(rd, id, reputation))
  {
    var counted := CountForkEpoch(s.roster);
    var slashed := SlashReputation(rd, counted, Shortfall(rd));
    var factor := PercentMul(rd.params.factors.nonConsensusAttestor, Shortfall(rd));
    SlashLeaves(rd, counted, id);
    AttestorFactorIsPlain(rd);
    var x := OwnPenalty(rd, slashed, factor, id);
    var after := Distribute(rd, s).0.roster;
    assert after == PenalizeAll(rd, slashed, AscendingIds(rd.sub.attests.Keys), factor);
    PresentIn(x, slashed, id);
    if id in rd.sub.attests {
      PresentIn(after, Penalize(rd, x, id, factor), id);
      if id in x.reputation { PenaltyLeaves(rd, x, id, factor); }
    } else {
      PresentIn(after, slashed, id);
    }
  }

  lemma PresentIn(r: Roster, r': Roster, id: NodeId)
    requires ViewOf(r, id) == ViewOf(r', id)
    ensures (id in r.reputation <==> id in r'.reputation) && (id in r.nodes <==> id in r'.nodes) && (id in r.validatorOf <==> id in r'.validatorOf)
    ensures id in r.reputation ==> r.reputation[id] == r'.reputation[id]
  {
    assert ViewOf(r, id).reputation == ViewOf(r', id).reputation && ViewOf(r, id).classification == ViewOf(r', id).classification
           && ViewOf(r, id).validator == ViewOf(r', id).validator;
  }

  // ---- the subnet ----

  /** The subnet's own reputation: reduced by the shortfall out of consensus, and in consensus raised
      when enough nodes have a score. */
  lemma SubnetReputationAfter(rd: Round, s: State)
    ensures !InConsensus(rd) ==>
              Distribute(rd, s).0.subnetReputation == Reduced(s.subnetReputation, rd.params.notInConsensusFactor * PlainShortfall(rd) / ONE)
    ensures InConsensus(rd) ==>
              Distribute(rd, s).0.subnetReputation
              == if |rd.sub.data| >= rd.params.minSubnetNodes
                 then Risen(rd.params, s.subnetReputation, Min(rd.params.inConsensusFactor * rd.sub.attestationRatio / ONE, U128_MAX))
                 else s.subnetReputation
  {
    PercentMulIsFloor(rd.params.inConsensusFactor, rd.sub.attestationRatio);
    if !InConsensus(rd) {
      ShortfallIsPlain(rd);
      LowerMeaning(s.subnetReputation, rd.params.notInConsensusFactor, Shortfall(rd));
    }
  }
}
