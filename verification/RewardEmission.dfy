/** What a distribution credits, all in all: never more than there was to distribute, nothing lost in
    the splitting, and little lost in the rounding. */
module RewardEmission {
  import opened Collections
  import opened FixedPoint
  import opened ConsensusScores
  import opened Network
  import opened RewardShares
  import opened Rewards
  import opened RewardLocality
  import opened Attestation
  import opened AttestationTheorems

  // ---- splitting one reward ----

  /** The rates under which no part of a split exceeds what is left to split. */
  predicate RatesFit(v: Option<ValidatorData>, shares: u128) {
    v.Some? ==>
      && (shares != 0 ==> v.value.delegateRewardRate <= ONE)
      && (v.value.delegateAccount.Some? ==>
            v.value.delegateAccount.value.rate <= ONE || (shares != 0 && v.value.delegateRewardRate == ONE))
  }

  function OrZero(o: Option<u128>): u128 {
    if o.Some? then o.value else 0
  }

  predicate SplitsExactly(v: Option<ValidatorData>, shares: u128, gross: u128) {
    var split := SplitReward(v, shares, gross);
    split.node + OrZero(split.pool) + OrZero(split.account) == gross
  }

  /** What is left after a rate below 1.0 of a large amount is still large. */
  lemma LargeRest(gross: u128, rate: u128)
    requires rate < ONE && gross >= ONE * ONE
    ensures SatSub(gross, PercentMul(gross, rate)) >= ONE
  {
    PercentMulShrinks(gross, rate);
    var pool := PercentMul(gross, rate);
    var spared := gross - pool;
    MulMono(gross, rate, gross, ONE - 1);
    assert gross * (ONE - 1) == gross * ONE - gross;
    Distributes(pool, spared, ONE);
    MulCancel(ONE, spared, ONE);
  }

  lemma EnlargedByMore(x: u128, rate: u128)
    requires rate > ONE && ONE <= x < U128_MAX
    ensures PercentMul(x, rate) > x
  {
    PercentMulIsFloor(x, rate);
    MulMono(x, ONE + 1, x, rate);
    assert x * (ONE + 1) == x * ONE + x;
    assert (x + 1) * ONE <= x * rate by { Distributes(x, 1, ONE); }
    DivMono((x + 1) * ONE, x * rate, ONE);
    DivUnique((x + 1) * ONE, ONE, x + 1);
  }

  lemma SplitsExactlyWhen(v: Option<ValidatorData>, shares: u128, gross: u128)
    requires RatesFit(v, shares)
    ensures SplitsExactly(v, shares, gross)
  {
    if v.Some? {
      var rate := v.value.delegateRewardRate;
      var pooled := rate != 0 && shares != 0;
      if pooled { PercentMulShrinks(gross, rate); }
      var rest := if pooled then SatSub(gross, PercentMul(gross, rate)) else gross;
      if v.value.delegateAccount.Some? {
        if pooled && rate == ONE { ScaledByOne(gross); } else { PercentMulShrinks(rest, v.value.delegateAccount.value.rate); }
      }
    }
  }

  /** Rates that do not fit make the parts of some reward exceed it. */
  lemma UnfitSplitExceeds(v: Option<ValidatorData>, shares: u128) returns (gross: u128)
    requires !RatesFit(v, shares)
    ensures var split := SplitReward(v, shares, gross);
            gross > 0 && split.node + OrZero(split.pool) + OrZero(split.account) > gross
  {
    var rate := v.value.delegateRewardRate;
    if shares != 0 && rate > ONE {
      gross := ONE;
      PercentMulComm(ONE, rate);
      ScaledByOne(rate);
    } else {
      gross := U128_MAX - 1;
      var pooled := rate != 0 && shares != 0;
      if pooled { LargeRest(gross, rate); }
      var rest := if pooled then SatSub(gross, PercentMul(gross, rate)) else gross;
      EnlargedByMore(rest, v.value.delegateAccount.value.rate);
      if pooled { PercentMulShrinks(gross, rate); }
    }
  }

  /** Every reward is split into a pool part, an account part and a node part without loss or excess
      exactly when the rates fit. A validator's first delegate reward rate is stored unchecked. */
  lemma SplitsExactlyIff(v: Option<ValidatorData>, shares: u128)
    ensures (forall gross: u128 :: SplitsExactly(v, shares, gross)) <==> RatesFit(v, shares)
  {
    if RatesFit(v, shares) {
      forall gross: u128 ensures SplitsExactly(v, shares, gross) { SplitsExactlyWhen(v, shares, gross); }
    } else {
      var gross := UnfitSplitExceeds(v, shares);
      assert !SplitsExactly(v, shares, gross);
    }
  }

  // ---- what is credited, in the event and in storage ----

  function SecondOf(p: (nat, u128)): nat { p.1 }

  function AllocationOf(p: (NodeId, (Account, u128))): nat { p.1.1 }

  /** The sum of the lists in the event. */
  function Paid(e: Events): nat {
    SumOf(e.nodeRewards, SecondOf) + SumOf(e.poolRewards, SecondOf) + SumOf(e.accountRewards, AllocationOf)
  }

  ghost function Wealth(l: Ledger): nat {
    Total(l.stake) + Total(l.poolBalance) + Total(l.accounts) + l.subnetPool + OrZero(l.owner)
  }

  /** The totals that storage keeps are the sums of their entries. */
  ghost predicate TotalsAgree(l: Ledger) {
    Total(l.stake) == l.totalStake && Total(l.poolBalance) == l.totalPools && Total(l.accounts) == l.totalAccounts
  }

  /** `after` is `before` with `amount` added and its totals still agree, unless a balance has reached
      the limit of its type. */
  ghost predicate Grows(before: Ledger, after: Ledger, amount: nat) {
    && Wealth(after) <= Wealth(before) + amount
    && (Wealth(before) + amount <= U128_MAX ==>
          Wealth(after) == Wealth(before) + amount && (TotalsAgree(before) ==> TotalsAgree(after)))
  }

  lemma {:induction false} EntryAtMostTotal<K>(m: map<K, nat>, k: K)
    ensures Get(m, k) <= Total(m)
  {
    if k in m { SumTakeOut(m, (v: nat) => v, k); }
  }

  /** An entry and the total that both grow with saturation keep in step exactly when the total does not
      saturate, or there is no other entry. */
  lemma PutGrows<K>(m: map<K, nat>, k: K, amount: nat)
    requires Get(m, k) <= U128_MAX
    ensures var m' := m[k := Min(Get(m, k) + amount, U128_MAX)];
            && Total(m') <= Total(m) + amount
            && (Total(m') == Min(Total(m) + amount, U128_MAX) <==> Total(m) + amount <= U128_MAX || Total(m) == Get(m, k))
  {
    EntryAtMostTotal(m, k);
    TotalPut(m, k, Min(Get(m, k) + amount, U128_MAX));
  }

  lemma StakeGrows(l: Ledger, id: NodeId, amount: u128)
    ensures Grows(l, AddStake(l, id, amount), amount)
  {
    PutGrows(l.stake, id, amount);
  }

  lemma PoolGrows(l: Ledger, v: ValidatorId, amount: u128)
    ensures Grows(l, AddToPool(l, v, amount), amount)
  {
    PutGrows(l.poolBalance, v, amount);
  }

  lemma AccountGrows(l: Ledger, a: Account, amount: u128)
    ensures Grows(l, AddToAccount(l, a, amount), amount)
  {
    PutGrows(l.accounts, a, amount);
  }

  lemma GrowsTwice(a: Ledger, b: Ledger, c: Ledger, m: nat, n: nat)
    requires Grows(a, b, m) && Grows(b, c, n)
    ensures Grows(a, c, m + n)
  {
  }

  lemma PoolPays(l: Ledger, e: Events, v: ValidatorId, amount: Option<u128>)
    ensures Grows(l, PayPool(l, e, v, amount).0, OrZero(amount))
    ensures Paid(PayPool(l, e, v, amount).1) == Paid(e) + OrZero(amount)
  {
    if amount.Some? {
      PoolGrows(l, v, amount.value);
      SumOfAppend(e.poolRewards, (v, amount.value), SecondOf);
    }
  }

  lemma AccountPays(l: Ledger, e: Events, id: NodeId, a: Account, amount: Option<u128>)
    ensures Grows(l, PayAccount(l, e, id, a, amount).0, OrZero(amount))
    ensures Paid(PayAccount(l, e, id, a, amount).1) == Paid(e) + OrZero(amount)
  {
    if amount.Some? {
      AccountGrows(l, a, amount.value);
      SumOfAppend(e.accountRewards, (id, (a, amount.value)), AllocationOf);
    }
  }

  lemma StakePays(l: Ledger, e: Events, id: NodeId, amount: u128)
    ensures Grows(l, PayStake(l, e, id, amount).0, amount)
    ensures Paid(PayStake(l, e, id, amount).1) == Paid(e) + amount
  {
    StakeGrows(l, id, amount);
    SumOfAppend(e.nodeRewards, (id, amount), SecondOf);
  }

  /** Paying a node credits exactly its gross reward, in storage and in the event. */
  lemma PayConserves(rd: Round, node: SubnetNode, l: Ledger, e: Events, gross: u128)
    requires RatesFit(ValidatorOf(rd, node), Get(l.poolShares, node.validatorId))
    ensures Grows(l, Pay(rd, node, l, e, gross).0, gross)
    ensures Paid(Pay(rd, node, l, e, gross).1) == Paid(e) + gross
  {
    if gross != 0 {
      var v := ValidatorOf(rd, node);
      var split := SplitReward(v, Get(l.poolShares, node.validatorId), gross);
      SplitsExactlyWhen(v, Get(l.poolShares, node.validatorId), gross);
      PayParts(node, l, e, split, AccountOf(v));
    }
  }

  lemma PayParts(node: SubnetNode, l: Ledger, e: Events, split: Split, a: Account)
    ensures var (l1, e1) := PayPool(l, e, node.validatorId, split.pool);
            var (l2, e2) := PayAccount(l1, e1, node.id, a, split.account);
            var (l3, e3) := PayStake(l2, e2, node.id, split.node);
            var amount := OrZero(split.pool) + OrZero(split.account) + split.node;
            Grows(l, l3, amount) && Paid(e3) == Paid(e) + amount
  {
    var (l1, e1) := PayPool(l, e, node.validatorId, split.pool);
    var (l2, e2) := PayAccount(l1, e1, node.id, a, split.account);
    PoolPays(l, e, node.validatorId, split.pool);
    AccountPays(l1, e1, node.id, a, split.account);
    StakePays(l2, e2, node.id, split.node);
  }

  // ---- the loop ----

  /** The rates of the validators of the snapshot's nodes fit, at the shares their pools have. */
  predicate RatesFitIn(rd: Round, l: Ledger) {
    forall n :: n in rd.sub.nodes ==> RatesFit(ValidatorOf(rd, n), Get(l.poolShares, n.validatorId))
  }

  /** The same pools have shares. */
  ghost predicate SamePools(l: Ledger, l': Ledger) {
    forall v :: Get(l'.poolShares, v) == 0 <==> Get(l.poolShares, v) == 0
  }

  lemma PayKeepsPools(rd: Round, node: SubnetNode, l: Ledger, e: Events, gross: u128)
    ensures SamePools(l, Pay(rd, node, l, e, gross).0)
  {
  }

  /** What the snapshot's nodes are due, judged on the reputations at the start. */
  function TotalDue(rd: Round, forked: Option<set<NodeId>>, r: Roster): nat {
    SumOf(rd.sub.nodes, Due(rd, forked, r))
  }

  ghost predicate LoopInv(rd: Round, forked: Option<set<NodeId>>, start: Loop, st: Loop, k: int) {
    && 0 <= k <= |rd.sub.nodes|
    && Paid(st.events) == Paid(start.events) + SumOf(rd.sub.nodes[..k], Due(rd, forked, start.roster))
    && Grows(start.ledger, st.ledger, SumOf(rd.sub.nodes[..k], Due(rd, forked, start.roster)))
    && (forall j :: k <= j < |rd.sub.nodes| ==> ViewOf(st.roster, rd.sub.nodes[j].id) == ViewOf(start.roster, rd.sub.nodes[j].id))
    && SamePools(start.ledger, st.ledger)
  }

  lemma StepKeepsInv(rd: Round, forked: Option<set<NodeId>>, start: Loop, st: Loop, i: int)
    requires DistinctNodes(rd.sub.nodes) && RatesFitIn(rd, start.ledger)
    requires 0 <= i < |rd.sub.nodes| && LoopInv(rd, forked, start, st, i)
    ensures LoopInv(rd, forked, start, ProcessNode(rd, forked, st, rd.sub.nodes[i]), i + 1)
  {
    var nodes := rd.sub.nodes;
    var node, due := nodes[i], Due(rd, forked, start.roster);
    var gross, st' := Judge(rd, forked, st.roster, node).1, ProcessNode(rd, forked, st, node);
    JudgeGivesDue(rd, forked, st.roster, node);
    assert gross == due(node) by {
      assert ViewOf(st.roster, node.id).reputation == ViewOf(start.roster, node.id).reputation;
    }
    assert RatesFit(ValidatorOf(rd, node), Get(st.ledger.poolShares, node.validatorId)) by { assert node in nodes; }
    PayConserves(rd, node, st.ledger, st.events, gross);
    PayKeepsPools(rd, node, st.ledger, st.events, gross);
    SumOfPrefix(nodes, i, due);
    GrowsTwice(start.ledger, st.ledger, st'.ledger, SumOf(nodes[..i], due), gross);
    forall j | i + 1 <= j < |nodes|
      ensures ViewOf(st'.roster, nodes[j].id) == ViewOf(start.roster, nodes[j].id)
    {
      assert nodes[i].id != nodes[j].id;
      JudgeSpares(rd, forked, st.roster, node, nodes[j].id);
    }
  }

  /** The loop credits every node what it was due at the start: no node's turn changes what another
      one gets. */
  lemma LoopPaysTheDue(rd: Round, forked: Option<set<NodeId>>, start: Loop)
    requires DistinctNodes(rd.sub.nodes) && RatesFitIn(rd, start.ledger)
    ensures var end := After(rd, forked, start, |rd.sub.nodes|);
            && Paid(end.events) == Paid(start.events) + TotalDue(rd, forked, start.roster)
            && Grows(start.ledger, end.ledger, TotalDue(rd, forked, start.roster))
  {
    var nodes, step := rd.sub.nodes, Processing(rd, forked);
    var inv := (st: Loop, k: int) => LoopInv(rd, forked, start, st, k);
    forall st: Loop, i | 0 <= i < |nodes| && inv(st, i)
      ensures inv(step(st, nodes[i]), i + 1)
    {
      StepKeepsInv(rd, forked, start, st, i);
    }
    FoldKeeps(step, start, nodes, |nodes|, inv);
    assert nodes[..|nodes|] == nodes;
  }

  // ---- how much that is ----

  lemma DueAtMostEarned(rd: Round, forked: Option<set<NodeId>>, r: Roster, node: SubnetNode)
    requires Sound(rd.sub)
    ensures Due(rd, forked, r)(node) <= Part(rd.sub.data, Earned(rd.sub.weightSum, rd.rewards.nodes), node.id)
  {
    var score := FindScore(rd.sub.data, node.id);
    if score.Some? {
      PercentMulShrinks(PercentMul(PercentDiv(score.value, rd.sub.weightSum), rd.rewards.nodes), FactorOf(rd, forked, node.id));
    }
  }

  /** A node whose score is paid in full. */
  predicate PaidInFull(rd: Round, forked: Option<set<NodeId>>, r: Roster, node: SubnetNode) {
    FindScore(rd.sub.data, node.id).Some? ==>
      Pays(rd, forked, Lookup(r.reputation, node.id), node) && FactorOf(rd, forked, node.id) == ONE
  }

  lemma DueIsEarned(rd: Round, forked: Option<set<NodeId>>, r: Roster, node: SubnetNode)
    requires PaidInFull(rd, forked, r, node)
    ensures Due(rd, forked, r)(node) == Part(rd.sub.data, Earned(rd.sub.weightSum, rd.rewards.nodes), node.id)
  {
    var score := FindScore(rd.sub.data, node.id);
    if score.Some? {
      ScaledByOne(PercentMul(PercentDiv(score.value, rd.sub.weightSum), rd.rewards.nodes));
    }
  }

  lemma {:induction false} TotalDueBounds(rd: Round, forked: Option<set<NodeId>>, r: Roster, nodes: seq<SubnetNode>)
    requires Sound(rd.sub)
    ensures SumOf(nodes, Due(rd, forked, r)) <= SumOver(nodes, rd.sub.data, Earned(rd.sub.weightSum, rd.rewards.nodes))
    ensures (forall n :: n in nodes ==> PaidInFull(rd, forked, r, n)) ==>
              SumOf(nodes, Due(rd, forked, r)) == SumOver(nodes, rd.sub.data, Earned(rd.sub.weightSum, rd.rewards.nodes))
  {
    if nodes != [] {
      var front, last := nodes[..|nodes| - 1], nodes[|nodes| - 1];
      assert nodes == front + [last];
      TotalDueBounds(rd, forked, r, front);
      DueAtMostEarned(rd, forked, r, last);
      if forall n :: n in nodes ==> PaidInFull(rd, forked, r, n) { DueIsEarned(rd, forked, r, last); }
    }
  }

  // ---- a whole round ----

  /** Where a round in consensus stands when it comes to the scores. */
  function Begun(rd: Round, s: State): State {
    Opened(rd, s.(roster := CountForkEpoch(s.roster)))
  }

  function ToProposer(rd: Round, s: State): u128 {
    if rd.sub.proposer in s.roster.validatorOf then ValidatorReward(rd) else 0
  }

  function ToOwner(rd: Round, s: State): u128 {
    if s.ledger.owner.Some? then rd.rewards.owner else 0
  }

  /** A paying round credits the nodes and their delegates, all together, exactly what the nodes are
      due, which is at most the node rewards; and everything it credits, owner, proposer and the
      subnet's delegators included, is found in the balances afterwards. */
  lemma RoundCreditsTheDue(rd: Round, s: State)
    requires Sound(rd.sub) && RatesFitIn(rd, s.ledger) && Paying(rd)
    ensures var (s', e) := Distribute(rd, s);
            && Paid(e) == TotalDue(rd, ForkedIds(s.roster), Begun(rd, s).roster) <= rd.rewards.nodes
            && Grows(s.ledger, s'.ledger, ToProposer(rd, s) + ToOwner(rd, s) + Paid(e) + rd.rewards.delegateStake)
  {
    var forked, begun := ForkedIds(s.roster), Begun(rd, s);
    var start := LoopStart(rd, begun);
    LoopPaysTheDue(rd, forked, start);
    TotalDueBounds(rd, forked, begun.roster, rd.sub.nodes);
    SharesAddUp(rd.sub.nodes, rd.sub.data, rd.sub.weightSum, rd.rewards.nodes);
    ProposerGrows(rd, s);
    var due := TotalDue(rd, forked, begun.roster);
    var end := After(rd, forked, start, |rd.sub.nodes|);
    OwnerGrows(begun.ledger, rd.rewards.owner);
    SubnetPoolGrows(end.ledger, rd.rewards.delegateStake);
  }

  lemma ProposerGrows(rd: Round, s: State)
    ensures Grows(s.ledger, Begun(rd, s).ledger, ToProposer(rd, s)) && Begun(rd, s).ledger.owner == s.ledger.owner
  {
    if rd.sub.proposer in s.roster.validatorOf { StakeGrows(s.ledger, rd.sub.proposer, ValidatorReward(rd)); }
  }

  lemma OwnerGrows(l: Ledger, amount: u128)
    ensures Grows(l, PayOwner(l, amount), if l.owner.Some? then amount else 0)
  {
  }

  lemma SubnetPoolGrows(l: Ledger, amount: u128)
    ensures Grows(l, AddToSubnetPool(l, amount), amount)
  {
  }

  /** When every score belongs to a node that is paid in full, less than one unit in 1e18 of the node
      rewards, plus one unit, is lost per score. */
  lemma RoundingLosesLittle(rd: Round, s: State)
    requires Sound(rd.sub) && RatesFitIn(rd, s.ledger) && Paying(rd)
    requires forall n :: n in rd.sub.nodes ==> PaidInFull(rd, ForkedIds(s.roster), Begun(rd, s).roster, n)
    ensures (rd.rewards.nodes - Paid(Distribute(rd, s).1)) * ONE < |rd.sub.data| * (rd.rewards.nodes + ONE)
  {
    RoundCreditsTheDue(rd, s);
    TotalDueBounds(rd, ForkedIds(s.roster), Begun(rd, s).roster, rd.sub.nodes);
    SharesAddUp(rd.sub.nodes, rd.sub.data, rd.sub.weightSum, rd.rewards.nodes);
  }

  // ---- against what there was to distribute ----

  /** The overall reward is the weighted share of what all subnets get and of the capacitor; the owner gets
      its percentage of it, the subnet's delegators theirs of the rest, and the nodes what remains. For
      percentages of at most 1.0 nothing is lost in between. */
  lemma RewardsAddUp(shares: Shares, allSubnets: u128, emissionWeight: u128, capacitor: u128)
    requires shares.ownerPercentage <= ONE && shares.delegatePercentage <= ONE
    ensures var r := CalculateRewards(shares, allSubnets, emissionWeight, capacitor);
            && r.overall == Min(Min(allSubnets + capacitor, U128_MAX) * emissionWeight / ONE, U128_MAX)
            && r.owner == r.overall * shares.ownerPercentage / ONE
            && r.owner + r.subnet == r.overall
            && r.delegateStake == r.subnet * shares.delegatePercentage / ONE
            && r.delegateStake + r.nodes == r.subnet
            && (emissionWeight <= ONE ==> r.overall <= allSubnets + capacitor)
  {
    var r := CalculateRewards(shares, allSubnets, emissionWeight, capacitor);
    PercentMulIsFloor(SatAdd(allSubnets, capacitor), emissionWeight);
    PercentMulShrinks(r.overall, shares.ownerPercentage);
    PercentMulShrinks(r.subnet, shares.delegatePercentage);
    if emissionWeight <= ONE { PercentMulShrinks(SatAdd(allSubnets, capacitor), emissionWeight); }
  }

  /** One epoch of a subnet creates at most its overall reward and one proposer reward, whatever the
      proposal, the attestations and the state of the subnet are. */
  lemma EpochCreatesAtMost(rd: Round, s: State, shares: Shares, allSubnets: u128, emissionWeight: u128)
    requires Sound(rd.sub) && RatesFitIn(rd, s.ledger)
    requires shares.ownerPercentage <= ONE && shares.delegatePercentage <= ONE
    requires rd.rewards == CalculateRewards(shares, allSubnets, emissionWeight, s.capacitor)
    ensures Wealth(Distribute(rd, s).0.ledger) <= Wealth(s.ledger) + rd.rewards.overall + rd.params.baseValidatorReward
  {
    RewardsAddUp(shares, allSubnets, emissionWeight, s.capacitor);
    PercentMulShrinks(rd.params.baseValidatorReward, rd.sub.proposerFactor);
    if Paying(rd) {
      RoundCreditsTheDue(rd, s);
    } else if InConsensus(rd) {
      ProposerGrows(rd, s);
    } else {
      SlashTakes(rd.params, s.ledger, rd.sub.proposer, Shortfall(rd));
    }
  }

  /** The same for whatever the nodes of a subnet have proposed and attested to. */
  lemma SubmittedEpochCreatesAtMost(curves: Curves, events: seq<Event>, epoch: Epoch, rd: Round, s: State, shares: Shares,
                                    allSubnets: u128, emissionWeight: u128)
    requires EventsOk(events) && epoch in Run(curves, map[], events) && Precheck(Run(curves, map[], events)[epoch]) == Some(rd.sub)
    requires RatesFitIn(rd, s.ledger) && shares.ownerPercentage <= ONE && shares.delegatePercentage <= ONE
    requires rd.rewards == CalculateRewards(shares, allSubnets, emissionWeight, s.capacitor)
    ensures Wealth(Distribute(rd, s).0.ledger) <= Wealth(s.ledger) + rd.rewards.overall + rd.params.baseValidatorReward
    ensures Paid(Distribute(rd, s).1) <= rd.rewards.nodes
  {
    DistributionReceivesWhatWasStored(curves, events, epoch);
    EpochCreatesAtMost(rd, s, shares, allSubnets, emissionWeight);
    if Paying(rd) { RoundCreditsTheDue(rd, s); }
  }

  lemma SlashTakes(p: Params, l: Ledger, id: NodeId, shortfall: u128)
    ensures Wealth(SlashStake(p, l, id, shortfall)) <= Wealth(l)
  {
    var amount := SlashAmount(p, Get(l.stake, id), shortfall);
    TotalPut(l.stake, id, SatSub(Get(l.stake, id), amount));
  }

  // ---- without rates that fit ----

  /** Settings that a network could have. */
  function PlainParams(minReputation: u128): Params {
    Params(6, minReputation, 660_000_000_000_000_000, 875_000_000_000_000_000, 4, 4, 1, Factors(0, 0, 0, 0, 0, 0), 1, 0, 0, 0, 0, 0,
           (rep: u128, factor: u128) => rep)
  }

  /** A subnet whose only node belongs to validator `v`. */
  function OneNode(v: ValidatorId): View {
    ViewOfSubnet([Veteran(1, v)], [1], None)
  }

  function OneNodeRound(sub: Submission, vs: map<ValidatorId, ValidatorData>, gross: u128): Round {
    Round(sub, RewardsData(gross, 0, gross, 0, gross), PlainParams(0), vs, (id: NodeId) => false)
  }

  ghost function OneNodeState(v: ValidatorId, shares: map<ValidatorId, u128>): State {
    State(Roster(map[1 := Veteran(1, v).classification], map[1 := v], map[1 := ONE], map[], map[], [1], None, [], {}),
          Ledger(map[], 0, shares, shares, Min(Total(shares), U128_MAX), map[], 0, 0, 0, None), 0, ONE)
  }

  /** The node proposes itself, and is due all of `gross`. */
  ghost predicate IsOneNodeSub(sub: Submission, v: ValidatorId) {
    && sub.nodes == [Veteran(1, v)] && sub.data == [Score(1, 1)] && sub.weightSum == 1
    && 1 in sub.attests && sub.attests[1].rewardFactor == ONE && sub.attestationRatio == ONE
    && sub.prioritize == None && sub.remove == None
  }

  lemma OneNodeSubmits(curves: Curves, v: ValidatorId) returns (sub: Submission)
    ensures Submitted(curves, OneProposal(OneNode(v), [Score(1, 1)], None), 5, sub) && Sound(sub) && IsOneNodeSub(sub, v)
  {
    var view := OneNode(v);
    FilterOne(Veteran(1, v), IsActive(view));
    sub := SelfScored(curves, view);
  }

  lemma OneNodeGross(sub: Submission, v: ValidatorId, vs: map<ValidatorId, ValidatorData>, gross: u128)
    requires IsOneNodeSub(sub, v)
    ensures GrossOf(OneNodeRound(sub, vs, gross), None, 1) == gross
  {
    assert sub.data[..0] == [] && FindScore(sub.data, 1) == Some(1);
    PercentMulComm(ONE, gross);
    ScaledByOne(gross);
  }

  lemma OneNodePays(rd: Round, node: SubnetNode, l: Ledger, gross: u128)
    requires gross > 0
    ensures var split := SplitReward(ValidatorOf(rd, node), Get(l.poolShares, node.validatorId), gross);
            Paid(Pay(rd, node, l, NO_EVENTS, gross).1) == OrZero(split.pool) + OrZero(split.account) + split.node
  {
    var v := ValidatorOf(rd, node);
    PayParts(node, l, NO_EVENTS, SplitReward(v, Get(l.poolShares, node.validatorId), gross), AccountOf(v));
  }

  lemma OneNodeIsDue(sub: Submission, v: ValidatorId, vs: map<ValidatorId, ValidatorData>, gross: u128, r: Roster)
    requires IsOneNodeSub(sub, v) && r.reputation == map[1 := ONE]
    ensures Judge(OneNodeRound(sub, vs, gross), None, r, sub.nodes[0]).1 == gross
  {
    var rd := OneNodeRound(sub, vs, gross);
    OneNodeGross(sub, v, vs, gross);
    assert sub.data[..0] == [] && FindScore(sub.data, 1) == Some(1);
    assert Raise(rd.params, ONE, 0) == ONE && PercentDiv(1, 1) == ONE;
    JudgeGivesDue(rd, None, r, sub.nodes[0]);
  }

  lemma OneNodeLoop(sub: Submission, v: ValidatorId, vs: map<ValidatorId, ValidatorData>, gross: u128, st: Loop)
    requires IsOneNodeSub(sub, v) && st.roster.reputation == map[1 := ONE]
    ensures var rd := OneNodeRound(sub, vs, gross);
            After(rd, None, st, 1).events == Pay(rd, sub.nodes[0], st.ledger, st.events, gross).1
  {
    var rd := OneNodeRound(sub, vs, gross);
    OneNodeIsDue(sub, v, vs, gross, st.roster);
    assert Fold(Processing(rd, None), st, sub.nodes, 0) == st;
  }

  lemma OneNodeStarts(sub: Submission, v: ValidatorId, vs: map<ValidatorId, ValidatorData>, gross: u128, shares: map<ValidatorId, u128>)
    requires IsOneNodeSub(sub, v)
    ensures var rd, s := OneNodeRound(sub, vs, gross), OneNodeState(v, shares);
            var start := LoopStart(rd, Begun(rd, s));
            && Paying(rd) && ForkedIds(s.roster) == None
            && start.roster.reputation == map[1 := ONE] && start.ledger.poolShares == shares && start.events == NO_EVENTS
  {
  }

  lemma OneNodeEvents(sub: Submission, v: ValidatorId, vs: map<ValidatorId, ValidatorData>, gross: u128, s: State)
    requires IsOneNodeSub(sub, v) && s.roster.emergency.None?
    requires LoopStart(OneNodeRound(sub, vs, gross), Begun(OneNodeRound(sub, vs, gross), s)).roster.reputation == map[1 := ONE]
    ensures var rd := OneNodeRound(sub, vs, gross);
            Distribute(rd, s).1 == Pay(rd, sub.nodes[0], LoopStart(rd, Begun(rd, s)).ledger, NO_EVENTS, gross).1
  {
    var rd := OneNodeRound(sub, vs, gross);
    OneNodeLoop(sub, v, vs, gross, LoopStart(rd, Begun(rd, s)));
  }

  /** Rates that do not fit, of whichever validator and for its pool or its account, let some round pay
      out more than the node rewards, on a submission that a run stores. */
  lemma UnfitRatesOverpay(curves: Curves, vs: map<ValidatorId, ValidatorData>, shares: map<ValidatorId, u128>, v: ValidatorId)
    returns (rd: Round, s: State)
    requires v in vs && !RatesFit(Some(vs[v]), Get(shares, v))
    ensures Submitted(curves, OneProposal(OneNode(v), [Score(1, 1)], None), 5, rd.sub) && Sound(rd.sub) && Paying(rd)
    ensures rd.validators == vs && s.ledger.poolShares == shares
    ensures Paid(Distribute(rd, s).1) > rd.rewards.nodes
  {
    var gross := UnfitSplitExceeds(Some(vs[v]), Get(shares, v));
    var sub := OneNodeSubmits(curves, v);
    rd, s := OneNodeRound(sub, vs, gross), OneNodeState(v, shares);
    OneNodeStarts(sub, v, vs, gross, shares);
    OneNodeEvents(sub, v, vs, gross, s);
    OneNodePays(rd, sub.nodes[0], LoopStart(rd, Begun(rd, s)).ledger, gross);
  }

  /** No round under these validators and pools pays out more than the node rewards. */
  ghost predicate RoundsStayWithin(vs: map<ValidatorId, ValidatorData>, shares: map<ValidatorId, u128>) {
    forall rd: Round, s: State ::
      Sound(rd.sub) && Paying(rd) && rd.validators == vs && s.ledger.poolShares == shares
      ==> Paid(Distribute(rd, s).1) <= rd.rewards.nodes
  }

  /** The emission bound holds of all rounds exactly when the rates of all validators fit. */
  lemma RoundsStayWithinIff(vs: map<ValidatorId, ValidatorData>, shares: map<ValidatorId, u128>)
    ensures RoundsStayWithin(vs, shares) <==> forall v :: v in vs ==> RatesFit(Some(vs[v]), Get(shares, v))
  {
    if v :| v in vs && !RatesFit(Some(vs[v]), Get(shares, v)) {
      var rd, s := UnfitRatesOverpay(Curves((x: u128) => ONE, (x: u128) => ONE), vs, shares, v);
    } else {
      forall rd: Round, s: State | Sound(rd.sub) && Paying(rd) && rd.validators == vs && s.ledger.poolShares == shares
        ensures Paid(Distribute(rd, s).1) <= rd.rewards.nodes
      {
        RoundCreditsTheDue(rd, s);
      }
    }
  }
}
