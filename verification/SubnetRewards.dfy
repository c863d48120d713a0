/** Distribution as the pallet carries it out, one storage write at a time. */
module SubnetRewards {
  import opened Collections
  import opened FixedPoint
  import opened ConsensusScores
  import opened Network
  import opened RewardShares
  import opened Rewards

  /** The nodes of a subnet. */
  class NodeTable {
    var nodes: map<NodeId, Classification>
    var validatorOf: map<NodeId, ValidatorId>
    var reputation: map<NodeId, u128>
    var idleEpochs: map<NodeId, nat>
    var includedEpochs: map<NodeId, nat>
    var slots: seq<NodeId>
    var emergency: Option<Emergency>
    var queue: seq<SubnetNode>
    var registered: set<NodeId>

    ghost function AsRoster(): Roster
      reads this
    {
      Roster(nodes, validatorOf, reputation, idleEpochs, includedEpochs, slots, emergency, queue, registered)
    }

    // ---- reputation ----

    method StoreReputation(id: NodeId, updated: u128)
      modifies this
      ensures AsRoster() == SetReputation(old(AsRoster()), id, updated)
    {
      if id in reputation {
        reputation := reputation[id := updated];
      }
    }

    method IncreaseReputation(p: Params, id: NodeId, current: u128, factor: u128) returns (updated: u128)
      modifies this
      ensures updated == if id in old(reputation) then Raise(p, current, factor) else current
      ensures AsRoster() == SetReputation(old(AsRoster()), id, updated)
    {
      if id !in reputation {
        return current;
      }
      updated := Raise(p, current, factor);
      StoreReputation(id, updated);
    }

    method DecreaseReputation(id: NodeId, current: u128, factor: u128, scale: u128) returns (updated: u128)
      modifies this
      ensures updated == if id in old(reputation) then Lower(current, factor, scale) else current
      ensures updated <= current
      ensures AsRoster() == SetReputation(old(AsRoster()), id, updated)
    {
      if id !in reputation {
        return current;
      }
      updated := Lower(current, factor, scale);
      StoreReputation(id, updated);
    }

    // ---- removals ----

    method RemoveNodeElements(id: NodeId)
      modifies this
      ensures AsRoster() == ForgetNode(old(AsRoster()), id)
    {
      reputation := reputation - {id};
      idleEpochs := idleEpochs - {id};
      includedEpochs := includedEpochs - {id};
    }

    method RemoveFromElectionSlots(id: NodeId)
      modifies this
      ensures AsRoster() == old(AsRoster()).(slots := Without(old(slots), id))
    {
      var pos := Position(slots, id);
      if pos.Some? {
        slots := SwapRemove(slots, pos.value);
      }
    }

    method RemoveActiveNode(id: NodeId)
      modifies this
      ensures AsRoster() == RemoveActive(old(AsRoster()), id)
    {
      if id !in nodes {
        return;
      }
      var classification := nodes[id];
      nodes := nodes - {id};
      RemoveNodeElements(id);
      if classification.nodeClass == NodeClass.Validator {
        RemoveFromElectionSlots(id);
      }
      if emergency.Some? {
        emergency := Some(emergency.value.(nodes := Filter(emergency.value.nodes, Others(id))));
      }
    }

    method RemoveRegisteredNode(id: NodeId)
      modifies this
      ensures AsRoster() == RemoveRegistered(old(AsRoster()), id)
    {
      if id !in registered {
        return;
      }
      registered := registered - {id};
      RemoveNodeElements(id);
      queue := Filter(queue, OtherNodes(id));
    }

    method ConsensusRemoveActiveNode(id: NodeId, canConsume: bool)
      modifies this
      ensures AsRoster() == RemoveForReputation(old(AsRoster()), id, canConsume)
    {
      if id in validatorOf {
        if canConsume {
          RemoveActiveNode(id);
        }
      }
    }

    // ---- graduation ----

    method GraduateClass(id: NodeId, epoch: Epoch) returns (graduated: bool)
      modifies this
      ensures graduated == (id in old(nodes))
      ensures AsRoster() == if graduated then Promote(old(AsRoster()), id, epoch) else old(AsRoster())
    {
      graduated := id in nodes;
      if graduated {
        nodes := nodes[id := Classification(nodes[id].nodeClass.Next(), epoch)];
      }
    }

    method GraduateToValidatorClass(id: NodeId, epoch: Epoch) returns (graduated: bool)
      modifies this
      ensures graduated == (id !in old(slots) && id in old(nodes))
      ensures AsRoster() == if graduated then Promote(old(AsRoster()), id, epoch).(slots := old(slots) + [id]) else old(AsRoster())
    {
      if id in slots {
        return false;
      }
      graduated := GraduateClass(id, epoch);
      if graduated {
        slots := slots + [id];
      }
    }

    method HandleIdleNode(id: NodeId, p: Params)
      modifies this
      ensures AsRoster() == IdleRound(old(AsRoster()), id, p)
    {
      var n := Get(idleEpochs, id) + 1;
      idleEpochs := idleEpochs[id := n];
      if n >= p.idleEpochs {
        var graduated := GraduateClass(id, p.epoch);
        if graduated {
          idleEpochs := idleEpochs - {id};
          assert idleEpochs == old(idleEpochs) - {id};
        }
      }
    }

    method HandleIncludedNode(id: NodeId, rep: u128, p: Params)
      modifies this
      ensures AsRoster() == IncludedRound(old(AsRoster()), id, rep, p)
    {
      var n := Get(includedEpochs, id) + 1;
      includedEpochs := includedEpochs[id := n];
      if rep >= ONE && n >= p.includedEpochs {
        var graduated := GraduateToValidatorClass(id, p.epoch);
        if graduated {
          includedEpochs := includedEpochs - {id};
          assert includedEpochs == old(includedEpochs) - {id};
        }
      }
    }

    // ---- the queue ----

    method HandleNodeQueueConsensus(rd: Round)
      modifies this
      ensures AsRoster() == QueueConsensus(rd, old(AsRoster()))
    {
      if rd.sub.attestationRatio >= rd.params.superMajority {
        if rd.sub.prioritize.Some? {
          var index := IndexOf(queue, rd.sub.prioritize.value);
          if index.Some? {
            var node := queue[index.value];
            queue := queue[..index.value] + queue[index.value + 1..];
            queue := [node] + queue;
            assert queue == ToFront(old(queue), rd.sub.prioritize);
          }
        }
        if rd.sub.remove.Some? {
          var index := IndexOf(queue, rd.sub.remove.value);
          if index.Some? && rd.gate(rd.sub.remove.value) {
            RemoveRegisteredNode(rd.sub.remove.value);
          }
        }
      }
    }

    // ---- one node of a paying round ----

    /** Lowers a reputation for a low weight or a missing attestation, and tells the reward factor. */
    method SettleNode(rd: Round, forked: Option<set<NodeId>>, id: NodeId, weight: u128, raised: u128)
      returns (rewardFactor: u128, settled: u128)
      requires id in reputation ==> reputation[id] == raised
      modifies this
      ensures rewardFactor == FactorOf(rd, forked, id)
      ensures id in old(reputation) ==> settled == ScoredReputation(rd, forked, id, weight, raised)
      ensures AsRoster() == SetReputation(old(AsRoster()), id, settled)
    {
      var p, nodeExists := rd.params, id in reputation;
      assert nodeExists ==> reputation[id := raised] == reputation;
      settled := raised;
      if nodeExists && weight < p.minWeight {
        settled := DecreaseReputation(id, settled, p.factors.belowMinWeight, ONE);
      }
      rewardFactor := ONE;
      if forked.None? || id in forked.value {
        if id in rd.sub.attests {
          rewardFactor := rd.sub.attests[id].rewardFactor;
        } else if nodeExists && rd.sub.attestationRatio >= p.superMajority {
          settled := DecreaseReputation(id, settled, p.factors.nonAttestor, ONE);
        }
      }
    }

    /** The reputation changes, graduations and removals of one node, up to its gross reward. */
    method JudgeNode(rd: Round, forked: Option<set<NodeId>>, node: SubnetNode) returns (gross: u128)
      modifies this
      ensures (AsRoster(), gross) == Judge(rd, forked, old(AsRoster()), node)
    {
      var id, p, nodeExists := node.id, rd.params, node.id in reputation;
      var rep := if nodeExists then reputation[id] else 0;
      if nodeExists && rep < p.minReputation {
        ConsensusRemoveActiveNode(id, rd.gate(id));
        return 0;
      }
      if nodeExists && node.classification.nodeClass == Idle && forked.None? {
        HandleIdleNode(id, p);
        return 0;
      }
      var found := FindScore(rd.sub.data, id);
      if found.None? {
        if nodeExists {
          rep := DecreaseReputation(id, rep, p.factors.absent, ONE);
          if node.classification.nodeClass == Included {
            includedEpochs := includedEpochs[id := 0];
          }
        }
        return 0;
      }
      assert nodeExists ==> reputation[id := rep] == reputation;
      if nodeExists && rep != ONE {
        rep := IncreaseReputation(p, id, rep, p.factors.included);
      }
      if nodeExists && node.classification.nodeClass == Included && forked.None? {
        HandleIncludedNode(id, rep, p);
        return 0;
      }
      var weight, rewardFactor := PercentDiv(found.value, rd.sub.weightSum), ONE;
      rewardFactor, rep := SettleNode(rd, forked, id, weight, rep);
      assert reputation == if nodeExists then old(reputation)[id := rep] else old(reputation);
      if nodeExists && rep < p.minReputation {
        ConsensusRemoveActiveNode(id, rd.gate(id));
        return 0;
      }
      gross := AccountReward(rd, weight, rewardFactor);
    }

    method AccountReward(rd: Round, weight: u128, rewardFactor: u128) returns (accountReward: u128)
      ensures accountReward == Gross(rd, weight, rewardFactor)
    {
      if rewardFactor == 0 {
        return 0;
      }
      if weight == 0 {
        return 0;
      }
      accountReward := PercentMul(weight, rd.rewards.nodes);
      accountReward := PercentMul(accountReward, rewardFactor);
    }

    // ---- a round out of consensus ----

    method PenalizeProposer(rd: Round, attestationDelta: u128)
      modifies this
      ensures AsRoster() == SlashReputation(rd, old(AsRoster()), attestationDelta)
    {
      var id, p := rd.sub.proposer, rd.params;
      if id in reputation {
        var rep := DecreaseReputation(id, reputation[id], p.factors.validatorNonConsensus, attestationDelta);
        if id in validatorOf && rep < p.minReputation {
          RemoveActiveNode(id);
        }
      }
    }

    method PenalizeAttestor(rd: Round, id: NodeId, factor: u128)
      modifies this
      ensures AsRoster() == Penalize(rd, old(AsRoster()), id, factor)
    {
      if id in reputation {
        var rep := DecreaseReputation(id, reputation[id], factor, ONE);
        if rep < rd.params.minReputation {
          ConsensusRemoveActiveNode(id, rd.gate(id));
        }
      }
    }

    method PenalizeAttestors(rd: Round, factor: u128)
      modifies this
      ensures AsRoster() == PenalizeAll(rd, old(AsRoster()), AscendingIds(rd.sub.attests.Keys), factor)
    {
      var ids := AscendingIds(rd.sub.attests.Keys);
      ghost var start := AsRoster();
      for k := 0 to |ids|
        invariant AsRoster() == Fold(Penalizing(rd, factor), start, ids, k)
      {
        PenalizeAttestor(rd, ids[k], factor);
      }
    }

    // ---- forks ----

    method MaybeGetForkedNodeIds() returns (forked: Option<set<NodeId>>)
      modifies this
      ensures forked == ForkedIds(old(AsRoster()))
      ensures AsRoster() == CountForkEpoch(old(AsRoster()))
    {
      if emergency.None? {
        return None;
      }
      var data := emergency.value;
      emergency := Some(data.(totalEpochs := Min(data.totalEpochs + 1, U32_RANGE - 1)));
      return Some(Elements(data.nodes));
    }
  }

  /** The balances of a subnet's nodes and of those who delegate to them. */
  class Bank {
    var stake: map<NodeId, u128>
    var totalStake: u128
    var poolShares: map<ValidatorId, u128>
    var poolBalance: map<ValidatorId, u128>
    var totalPools: u128
    var accounts: map<Account, u128>
    var totalAccounts: u128
    var subnetPool: u128
    var subnetPoolShares: u128
    var owner: Option<u128>

    ghost function AsLedger(): Ledger
      reads this
    {
      Ledger(stake, totalStake, poolShares, poolBalance, totalPools, accounts, totalAccounts, subnetPool, subnetPoolShares, owner)
    }

    method IncreaseNodeStake(id: NodeId, amount: u128)
      modifies this
      ensures AsLedger() == AddStake(old(AsLedger()), id, amount)
    {
      stake := stake[id := SatAdd(Get(stake, id), amount)];
      totalStake := SatAdd(totalStake, amount);
    }

    method DecreaseNodeStake(id: NodeId, amount: u128)
      modifies this
      ensures AsLedger() == TakeStake(old(AsLedger()), id, amount)
    {
      stake := stake[id := SatSub(Get(stake, id), amount)];
      totalStake := SatSub(totalStake, amount);
    }

    method IncreaseValidatorDelegateStake(v: ValidatorId, amount: u128)
      modifies this
      ensures AsLedger() == AddToPool(old(AsLedger()), v, amount)
    {
      if Get(poolBalance, v) == 0 || Get(poolShares, v) == 0 {
        poolShares := poolShares[v := SatAdd(Get(poolShares, v), MIN_LIQUIDITY)];
      }
      poolBalance := poolBalance[v := SatAdd(Get(poolBalance, v), amount)];
      totalPools := SatAdd(totalPools, amount);
    }

    method IncreaseDelegateAccountBalance(a: Account, amount: u128)
      modifies this
      ensures AsLedger() == AddToAccount(old(AsLedger()), a, amount)
    {
      accounts := accounts[a := SatAdd(Get(accounts, a), amount)];
      totalAccounts := SatAdd(totalAccounts, amount);
    }

    method IncreaseDelegateStake(amount: u128)
      modifies this
      ensures AsLedger() == AddToSubnetPool(old(AsLedger()), amount)
    {
      if amount != 0 {
        if subnetPool == 0 || subnetPoolShares == 0 {
          subnetPoolShares := SatAdd(subnetPoolShares, MIN_LIQUIDITY);
        }
        subnetPool := SatAdd(subnetPool, amount);
      }
    }

    method HandleSubnetOwnerReward(amount: u128)
      modifies this
      ensures AsLedger() == PayOwner(old(AsLedger()), amount)
    {
      if owner.Some? {
        owner := Some(SatAdd(owner.value, amount));
      }
    }

    /** What follows a reward: delegates first, the node last. */
    method PayNode(rd: Round, node: SubnetNode, gross: u128, events: Events) returns (events': Events)
      modifies this
      ensures (AsLedger(), events') == Pay(rd, node, old(AsLedger()), events, gross)
    {
      if gross == 0 {
        return events;
      }
      var accountReward := gross;
      events' := events;
      if node.validatorId in rd.validators {
        var validator := rd.validators[node.validatorId];
        if validator.delegateRewardRate != 0 && Get(poolShares, node.validatorId) != 0 {
          var poolReward := PercentMul(accountReward, validator.delegateRewardRate);
          accountReward := SatSub(accountReward, poolReward);
          IncreaseValidatorDelegateStake(node.validatorId, poolReward);
          events' := events'.(poolRewards := events'.poolRewards + [(node.validatorId, poolReward)]);
        }
        if validator.delegateAccount.Some? {
          var a := validator.delegateAccount.value;
          var deposit := PercentMul(accountReward, a.rate);
          accountReward := SatSub(accountReward, deposit);
          IncreaseDelegateAccountBalance(a.account, deposit);
          events' := events'.(accountRewards := events'.accountRewards + [(node.id, (a.account, deposit))]);
        }
      }
      IncreaseNodeStake(node.id, accountReward);
      events' := events'.(nodeRewards := events'.nodeRewards + [(node.id, accountReward)]);
    }

    method SlashStakeOf(id: NodeId, p: Params, attestationDelta: u128)
      modifies this
      ensures AsLedger() == SlashStake(p, old(AsLedger()), id, attestationDelta)
    {
      var amount := GetSlashAmount(p, Get(stake, id), attestationDelta);
      if amount > 0 {
        DecreaseNodeStake(id, amount);
      }
    }

    method GetSlashAmount(p: Params, balance: u128, attestationDelta: u128) returns (amount: u128)
      ensures amount == SlashAmount(p, balance, attestationDelta)
      ensures amount <= p.maxSlash
      ensures p.baseSlash <= ONE && attestationDelta <= ONE ==> amount <= balance
    {
      if p.baseSlash <= ONE && attestationDelta <= ONE {
        PercentMulShrinks(balance, p.baseSlash);
        PercentMulShrinks(PercentMul(balance, p.baseSlash), attestationDelta);
      }
      amount := PercentMul(PercentMul(balance, p.baseSlash), attestationDelta);
      if amount > p.maxSlash {
        amount := p.maxSlash;
      }
    }
  }

  class Subnet {
    const table: NodeTable
    const bank: Bank
    var capacitor: u128
    var subnetReputation: u128

    constructor (table: NodeTable, bank: Bank, capacitor: u128, subnetReputation: u128)
      ensures this.table == table && this.bank == bank
      ensures AsState() == State(table.AsRoster(), bank.AsLedger(), capacitor, subnetReputation)
    {
      this.table, this.bank, this.capacitor, this.subnetReputation := table, bank, capacitor, subnetReputation;
    }

    ghost function AsState(): State
      reads this, table, bank
    {
      State(table.AsRoster(), bank.AsLedger(), capacitor, subnetReputation)
    }

    method HandleNonConsensus(rd: Round)
      modifies this, table, bank
      ensures AsState() == NonConsensus(rd, old(AsState()))
    {
      bank.SlashStakeOf(rd.sub.proposer, rd.params, Shortfall(rd));
      table.PenalizeProposer(rd, Shortfall(rd));
      subnetReputation := Lower(subnetReputation, rd.params.notInConsensusFactor, Shortfall(rd));
      table.PenalizeAttestors(rd, PercentMul(rd.params.factors.nonConsensusAttestor, Shortfall(rd)));
    }

    method HandleValidatorReward(rd: Round)
      modifies bank
      ensures bank.AsLedger() == RewardProposer(rd, table.AsRoster(), old(bank.AsLedger()))
    {
      if rd.sub.proposer in table.validatorOf {
        bank.IncreaseNodeStake(rd.sub.proposer, ValidatorReward(rd));
      }
    }

    method IncreaseSubnetReputation(rd: Round)
      modifies this`subnetReputation
      ensures subnetReputation == RaiseSubnet(rd, old(subnetReputation))
    {
      if subnetReputation != ONE && |rd.sub.data| >= rd.params.minSubnetNodes {
        subnetReputation := Raise(rd.params, subnetReputation, PercentMul(rd.params.inConsensusFactor, rd.sub.attestationRatio));
      }
    }

    /** What every round in consensus does first. */
    method OpenRound(rd: Round)
      modifies this`subnetReputation, table, bank
      ensures AsState() == Opened(rd, old(AsState()))
    {
      HandleValidatorReward(rd);
      table.HandleNodeQueueConsensus(rd);
      IncreaseSubnetReputation(rd);
    }

    method ProcessOne(rd: Round, forked: Option<set<NodeId>>, node: SubnetNode, events: Events) returns (events': Events)
      modifies table, bank
      ensures Loop(table.AsRoster(), bank.AsLedger(), events')
              == ProcessNode(rd, forked, Loop(old(table.AsRoster()), old(bank.AsLedger()), events), node)
    {
      var gross := table.JudgeNode(rd, forked, node);
      events' := bank.PayNode(rd, node, gross, events);
    }

    method RewardNodes(rd: Round, forked: Option<set<NodeId>>) returns (events: Events)
      modifies table, bank
      ensures Loop(table.AsRoster(), bank.AsLedger(), events)
              == After(rd, forked, Loop(old(table.AsRoster()), old(bank.AsLedger()), NO_EVENTS), |rd.sub.nodes|)
    {
      events := NO_EVENTS;
      ghost var start := Loop(table.AsRoster(), bank.AsLedger(), NO_EVENTS);
      for k := 0 to |rd.sub.nodes|
        invariant Loop(table.AsRoster(), bank.AsLedger(), events) == After(rd, forked, start, k)
      {
        events := ProcessOne(rd, forked, rd.sub.nodes[k], events);
      }
    }

    /** A round in consensus on some scores. */
    method PayOutRewards(rd: Round, forked: Option<set<NodeId>>) returns (events: Events)
      modifies this`capacitor, table, bank
      ensures (AsState(), events) == PayOut(rd, forked, old(AsState()))
    {
      capacitor := 0;
      bank.HandleSubnetOwnerReward(rd.rewards.owner);
      events := RewardNodes(rd, forked);
      bank.IncreaseDelegateStake(rd.rewards.delegateStake);
    }

    method DistributeRewards(rd: Round) returns (events: Events)
      modifies this, table, bank
      ensures (AsState(), events) == Distribute(rd, old(AsState()))
    {
      var forked := table.MaybeGetForkedNodeIds();
      if rd.sub.attestationRatio < rd.params.minAttestation {
        HandleNonConsensus(rd);
        return NO_EVENTS;
      }
      OpenRound(rd);
      if rd.sub.weightSum == 0 {
        capacitor := SatAdd(capacitor, rd.rewards.overall);
        return NO_EVENTS;
      }
      events := PayOutRewards(rd, forked);
    }
  }
}
