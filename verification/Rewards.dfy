/** Distribution: what a subnet's consensus submission does to its nodes and their balances. */
module Rewards {
  import opened Collections
  import opened FixedPoint
  import opened ConsensusScores
  import opened Network
  import opened RewardShares

  // ---- storage ----

  datatype DelegateAccount = DelegateAccount(account: Account, rate: u128)

  datatype ValidatorData = ValidatorData(delegateRewardRate: u128, delegateAccount: Option<DelegateAccount>)

  /** The validators elected for a temporary fork. */
  datatype Emergency = Emergency(nodes: seq<NodeId>, totalEpochs: u32)

  /** The nodes of one subnet: the active ones, the queue, and their reputations and counters. */
  datatype Roster = Roster(
    nodes: map<NodeId, Classification>, validatorOf: map<NodeId, ValidatorId>, reputation: map<NodeId, u128>,
    idleEpochs: map<NodeId, nat>, includedEpochs: map<NodeId, nat>, slots: seq<NodeId>, emergency: Option<Emergency>,
    queue: seq<SubnetNode>, registered: set<NodeId>)

  /** The balances that distribution credits and slashing debits. */
  datatype Ledger = Ledger(
    stake: map<NodeId, u128>, totalStake: u128, poolShares: map<ValidatorId, u128>, poolBalance: map<ValidatorId, u128>,
    totalPools: u128, accounts: map<Account, u128>, totalAccounts: u128, subnetPool: u128, subnetPoolShares: u128, owner: Option<u128>)

  datatype State = State(roster: Roster, ledger: Ledger, capacitor: u128, subnetReputation: u128)

  // ---- one round ----

  datatype Factors = Factors(absent: u128, included: u128, belowMinWeight: u128, nonAttestor: u128,
                             validatorNonConsensus: u128, nonConsensusAttestor: u128)

  /** The settings that apply. `raise` is the reputation increase before it is capped, which the pallet
      computes in floating point. */
  datatype Params = Params(
    epoch: Epoch, minReputation: u128, minAttestation: u128, superMajority: u128, idleEpochs: nat, includedEpochs: nat,
    minWeight: u128, factors: Factors, minSubnetNodes: nat, inConsensusFactor: u128, notInConsensusFactor: u128,
    baseValidatorReward: u128, baseSlash: u128, maxSlash: u128, raise: (u128, u128) -> u128)

  datatype RewardsData = RewardsData(overall: u128, owner: u128, subnet: u128, delegateStake: u128, nodes: u128)

  /** Everything a distribution is given. `gate` says for which nodes the weight meter still has room
      for a removal. */
  datatype Round = Round(sub: Submission, rewards: RewardsData, params: Params, validators: map<ValidatorId, ValidatorData>,
                         gate: NodeId -> bool)

  /** The lists in the event that a paying round emits. */
  datatype Events = Events(nodeRewards: seq<(NodeId, u128)>, poolRewards: seq<(ValidatorId, u128)>,
                           accountRewards: seq<(NodeId, (Account, u128))>)

  const NO_EVENTS := Events([], [], [])
  const MIN_LIQUIDITY: u128 := 1000

  // ---- reputation ----

  function Raise(p: Params, reputation: u128, factor: u128): u128 {
    if reputation == ONE then reputation else Min(p.raise(reputation, factor), ONE)
  }

  function Lower(reputation: u128, factor: u128, scale: u128): u128 {
    if reputation == 0 then 0 else Min(SatSub(reputation, PercentMul(reputation, PercentMul(factor, scale))), ONE)
  }

  function SetReputation(r: Roster, id: NodeId, reputation: u128): Roster {
    if id in r.reputation then r.(reputation := r.reputation[id := reputation]) else r
  }

  // ---- removals ----

  function ForgetNode(r: Roster, id: NodeId): Roster {
    r.(reputation := r.reputation - {id}, idleEpochs := r.idleEpochs - {id}, includedEpochs := r.includedEpochs - {id})
  }

  function Others(id: NodeId): NodeId -> bool {
    (x: NodeId) => x != id
  }

  function OtherNodes(id: NodeId): SubnetNode -> bool {
    (n: SubnetNode) => n.id != id
  }

  function RemoveActive(r: Roster, id: NodeId): Roster {
    if id !in r.nodes then r
    else
      ForgetNode(r, id).(nodes := r.nodes - {id},
                         slots := if r.nodes[id].nodeClass == NodeClass.Validator then Without(r.slots, id) else r.slots,
                         emergency := match r.emergency
                                      case None => None
                                      case Some(e) => Some(e.(nodes := Filter(e.nodes, Others(id)))))
  }

  function RemoveRegistered(r: Roster, id: NodeId): Roster {
    if id !in r.registered then r
    else ForgetNode(r, id).(registered := r.registered - {id}, queue := Filter(r.queue, OtherNodes(id)))
  }

  function RemoveForReputation(r: Roster, id: NodeId, gate: bool): Roster {
    if id in r.validatorOf && gate then RemoveActive(r, id) else r
  }

  // ---- graduation ----

  function Promote(r: Roster, id: NodeId, epoch: Epoch): Roster
    requires id in r.nodes
  {
    r.(nodes := r.nodes[id := Classification(r.nodes[id].nodeClass.Next(), epoch)])
  }

  function IdleRound(r: Roster, id: NodeId, p: Params): Roster {
    var n := Get(r.idleEpochs, id) + 1;
    if n >= p.idleEpochs && id in r.nodes then Promote(r, id, p.epoch).(idleEpochs := r.idleEpochs - {id})
    else r.(idleEpochs := r.idleEpochs[id := n])
  }

  function IncludedRound(r: Roster, id: NodeId, reputation: u128, p: Params): Roster {
    var n := Get(r.includedEpochs, id) + 1;
    if reputation >= ONE && n >= p.includedEpochs && id !in r.slots && id in r.nodes then
      Promote(r, id, p.epoch).(slots := r.slots + [id], includedEpochs := r.includedEpochs - {id})
    else r.(includedEpochs := r.includedEpochs[id := n])
  }

  // ---- the queue ----

  function IndexOf(queue: seq<SubnetNode>, id: NodeId): (r: Option<nat>)
    ensures r.Some? ==> r.value < |queue| && queue[r.value].id == id
    ensures r.None? ==> forall n :: n in queue ==> n.id != id
  {
    if queue == [] then None
    else if queue[0].id == id then Some(0)
    else
      match IndexOf(queue[1..], id)
      case None => None
      case Some(i) => Some(i + 1)
  }

  function ToFront(queue: seq<SubnetNode>, request: Option<NodeId>): seq<SubnetNode> {
    if request.None? then queue
    else
      match IndexOf(queue, request.value)
      case None => queue
      case Some(i) => [queue[i]] + queue[..i] + queue[i + 1..]
  }

  function QueueConsensus(rd: Round, r: Roster): Roster {
    if rd.sub.attestationRatio < rd.params.superMajority then r
    else
      var r' := r.(queue := ToFront(r.queue, rd.sub.prioritize));
      if rd.sub.remove.Some? && IndexOf(r'.queue, rd.sub.remove.value).Some? && rd.gate(rd.sub.remove.value) then
        RemoveRegistered(r', rd.sub.remove.value)
      else r'
  }

  // ---- balances ----

  function AddStake(l: Ledger, id: NodeId, amount: u128): Ledger {
    l.(stake := l.stake[id := SatAdd(Get(l.stake, id), amount)], totalStake := SatAdd(l.totalStake, amount))
  }

  function TakeStake(l: Ledger, id: NodeId, amount: u128): Ledger {
    l.(stake := l.stake[id := SatSub(Get(l.stake, id), amount)], totalStake := SatSub(l.totalStake, amount))
  }

  function AddToPool(l: Ledger, v: ValidatorId, amount: u128): Ledger {
    l.(poolShares := if Get(l.poolBalance, v) == 0 || Get(l.poolShares, v) == 0
                     then l.poolShares[v := SatAdd(Get(l.poolShares, v), MIN_LIQUIDITY)] else l.poolShares,
       poolBalance := l.poolBalance[v := SatAdd(Get(l.poolBalance, v), amount)],
       totalPools := SatAdd(l.totalPools, amount))
  }

  function AddToAccount(l: Ledger, a: Account, amount: u128): Ledger {
    l.(accounts := l.accounts[a := SatAdd(Get(l.accounts, a), amount)], totalAccounts := SatAdd(l.totalAccounts, amount))
  }

  function AddToSubnetPool(l: Ledger, amount: u128): Ledger {
    if amount == 0 then l
    else
      l.(subnetPoolShares := if l.subnetPool == 0 || l.subnetPoolShares == 0 then SatAdd(l.subnetPoolShares, MIN_LIQUIDITY)
                             else l.subnetPoolShares,
         subnetPool := SatAdd(l.subnetPool, amount))
  }

  function PayOwner(l: Ledger, amount: u128): Ledger {
    match l.owner
    case None => l
    case Some(balance) => l.(owner := Some(SatAdd(balance, amount)))
  }

  // ---- one node of a paying round ----

  /** During a fork only the fork's nodes are expected to attest. */
  predicate MustAttest(forked: Option<set<NodeId>>, id: NodeId) {
    forked.None? || id in forked.value
  }

  function FactorOf(rd: Round, forked: Option<set<NodeId>>, id: NodeId): u128 {
    if MustAttest(forked, id) && id in rd.sub.attests then rd.sub.attests[id].rewardFactor else ONE
  }

  function Gross(rd: Round, weight: u128, factor: u128): u128 {
    if factor == 0 || weight == 0 then 0 else PercentMul(PercentMul(weight, rd.rewards.nodes), factor)
  }

  /** What a node earns unless it is passed over. */
  function GrossOf(rd: Round, forked: Option<set<NodeId>>, id: NodeId): u128 {
    match FindScore(rd.sub.data, id)
    case None => 0
    case Some(score) =>
      Gross(rd, PercentDiv(score, rd.sub.weightSum), FactorOf(rd, forked, id))
  }

  /** What a raised reputation falls to for a low weight and for a missing attestation. */
  function ScoredReputation(rd: Round, forked: Option<set<NodeId>>, id: NodeId, weight: u128, raised: u128): u128 {
    var lowered := if weight < rd.params.minWeight then Lower(raised, rd.params.factors.belowMinWeight, ONE) else raised;
    if MustAttest(forked, id) && id !in rd.sub.attests && rd.sub.attestationRatio >= rd.params.superMajority
    then Lower(lowered, rd.params.factors.nonAttestor, ONE) else lowered
  }

  /** A registered node that has a score. */
  function JudgeScored(rd: Round, forked: Option<set<NodeId>>, r: Roster, node: SubnetNode, score: u128): (Roster, u128)
    requires node.id in r.reputation
  {
    var id, raised := node.id, Raise(rd.params, r.reputation[node.id], rd.params.factors.included);
    if node.classification.nodeClass == Included && forked.None?
    then (IncludedRound(SetReputation(r, id, raised), id, raised, rd.params), 0)
    else
      var settled := ScoredReputation(rd, forked, id, PercentDiv(score, rd.sub.weightSum), raised);
      var r' := SetReputation(r, id, settled);
      if settled < rd.params.minReputation then (RemoveForReputation(r', id, rd.gate(id)), 0)
      else (r', GrossOf(rd, forked, id))
  }

  function JudgeAbsent(rd: Round, r: Roster, node: SubnetNode): Roster
    requires node.id in r.reputation
  {
    var r' := SetReputation(r, node.id, Lower(r.reputation[node.id], rd.params.factors.absent, ONE));
    if node.classification.nodeClass == Included then r'.(includedEpochs := r'.includedEpochs[node.id := 0]) else r'
  }

  /** The roster after a node has been processed, and the gross reward it earns. A node without a
      reputation has left the subnet; it is still paid, but not judged. */
  function Judge(rd: Round, forked: Option<set<NodeId>>, r: Roster, node: SubnetNode): (Roster, u128) {
    var id, p := node.id, rd.params;
    if id !in r.reputation then (r, GrossOf(rd, forked, id))
    else if r.reputation[id] < p.minReputation then (RemoveForReputation(r, id, rd.gate(id)), 0)
    else if node.classification.nodeClass == Idle && forked.None? then (IdleRound(r, id, p), 0)
    else
      match FindScore(rd.sub.data, id)
      case None => (JudgeAbsent(rd, r, node), 0)
      case Some(score) => JudgeScored(rd, forked, r, node, score)
  }

  /** How a gross reward is split: the delegate pool first, then the delegate account, then the node. */
  datatype Split = Split(node: u128, pool: Option<u128>, account: Option<u128>)

  function SplitReward(v: Option<ValidatorData>, shares: u128, gross: u128): Split {
    if v.None? then Split(gross, None, None)
    else
      var rate := v.value.delegateRewardRate;
      var pool := if rate != 0 && shares != 0 then Some(PercentMul(gross, rate)) else None;
      var rest := if pool.Some? then SatSub(gross, pool.value) else gross;
      match v.value.delegateAccount
      case None => Split(rest, pool, None)
      case Some(a) => Split(SatSub(rest, PercentMul(rest, a.rate)), pool, Some(PercentMul(rest, a.rate)))
  }

  function ValidatorOf(rd: Round, node: SubnetNode): Option<ValidatorData> {
    if node.validatorId in rd.validators then Some(rd.validators[node.validatorId]) else None
  }

  datatype Loop = Loop(roster: Roster, ledger: Ledger, events: Events)

  function PayPool(l: Ledger, e: Events, v: ValidatorId, amount: Option<u128>): (Ledger, Events) {
    match amount
    case None => (l, e)
    case Some(x) => (AddToPool(l, v, x), e.(poolRewards := e.poolRewards + [(v, x)]))
  }

  function PayAccount(l: Ledger, e: Events, id: NodeId, a: Account, amount: Option<u128>): (Ledger, Events) {
    match amount
    case None => (l, e)
    case Some(x) => (AddToAccount(l, a, x), e.(accountRewards := e.accountRewards + [(id, (a, x))]))
  }

  function PayStake(l: Ledger, e: Events, id: NodeId, amount: u128): (Ledger, Events) {
    (AddStake(l, id, amount), e.(nodeRewards := e.nodeRewards + [(id, amount)]))
  }

  function AccountOf(v: Option<ValidatorData>): Account {
    if v.Some? && v.value.delegateAccount.Some? then v.value.delegateAccount.value.account else 0
  }

  function Pay(rd: Round, node: SubnetNode, l: Ledger, e: Events, gross: u128): (Ledger, Events) {
    if gross == 0 then (l, e)
    else
      var v := ValidatorOf(rd, node);
      var split := SplitReward(v, Get(l.poolShares, node.validatorId), gross);
      var (l1, e1) := PayPool(l, e, node.validatorId, split.pool);
      var (l2, e2) := PayAccount(l1, e1, node.id, AccountOf(v), split.account);
      PayStake(l2, e2, node.id, split.node)
  }

  function ProcessNode(rd: Round, forked: Option<set<NodeId>>, st: Loop, node: SubnetNode): Loop {
    var (roster, gross) := Judge(rd, forked, st.roster, node);
    var (ledger, events) := Pay(rd, node, st.ledger, st.events, gross);
    Loop(roster, ledger, events)
  }

  function Processing(rd: Round, forked: Option<set<NodeId>>): (Loop, SubnetNode) -> Loop {
    (st: Loop, node: SubnetNode) => ProcessNode(rd, forked, st, node)
  }

  /** The loop after its first `k` nodes. */
  function After(rd: Round, forked: Option<set<NodeId>>, st: Loop, k: nat): Loop
    requires k <= |rd.sub.nodes|
  {
    Fold(Processing(rd, forked), st, rd.sub.nodes, k)
  }

  // ---- a round out of consensus ----

  /** How far an attestation ratio falls short of what consensus takes, as a share of that. */
  function ShortOf(p: Params, attestationRatio: u128): u128 {
    SatSub(ONE, PercentDiv(attestationRatio, p.minAttestation))
  }

  function Shortfall(rd: Round): u128 {
    ShortOf(rd.params, rd.sub.attestationRatio)
  }

  function SlashAmount(p: Params, stake: u128, shortfall: u128): u128 {
    Min(PercentMul(PercentMul(stake, p.baseSlash), shortfall), p.maxSlash)
  }

  function SlashStake(p: Params, l: Ledger, id: NodeId, shortfall: u128): Ledger {
    var amount := SlashAmount(p, Get(l.stake, id), shortfall);
    if amount > 0 then TakeStake(l, id, amount) else l
  }

  /** The weight meter is not asked before the proposer is removed. */
  function SlashReputation(rd: Round, r: Roster, shortfall: u128): Roster {
    var id, p := rd.sub.proposer, rd.params;
    if id !in r.reputation then r
    else
      var lowered := Lower(r.reputation[id], p.factors.validatorNonConsensus, shortfall);
      var r' := SetReputation(r, id, lowered);
      if id in r.validatorOf && lowered < p.minReputation then RemoveActive(r', id) else r'
  }

  function Penalize(rd: Round, r: Roster, id: NodeId, factor: u128): Roster {
    if id !in r.reputation then r
    else
      var lowered := Lower(r.reputation[id], factor, ONE);
      var r' := SetReputation(r, id, lowered);
      if lowered < rd.params.minReputation then RemoveForReputation(r', id, rd.gate(id)) else r'
  }

  function Penalizing(rd: Round, factor: u128): (Roster, NodeId) -> Roster {
    (r: Roster, id: NodeId) => Penalize(rd, r, id, factor)
  }

  function PenalizeAll(rd: Round, r: Roster, ids: seq<NodeId>, factor: u128): Roster {
    Fold(Penalizing(rd, factor), r, ids, |ids|)
  }

  function NonConsensus(rd: Round, s: State): State {
    var shortfall := Shortfall(rd);
    var slashed := SlashReputation(rd, s.roster, shortfall);
    State(PenalizeAll(rd, slashed, AscendingIds(rd.sub.attests.Keys), PercentMul(rd.params.factors.nonConsensusAttestor, shortfall)),
          SlashStake(rd.params, s.ledger, rd.sub.proposer, shortfall),
          s.capacitor,
          Lower(s.subnetReputation, rd.params.notInConsensusFactor, shortfall))
  }

  // ---- a whole distribution ----

  /** The fork in force, whose epoch count goes up. */
  function ForkedIds(r: Roster): Option<set<NodeId>> {
    match r.emergency
    case None => None
    case Some(e) => Some(Elements(e.nodes))
  }

  function CountForkEpoch(r: Roster): Roster {
    match r.emergency
    case None => r
    case Some(e) => r.(emergency := Some(e.(totalEpochs := if e.totalEpochs + 1 < U32_RANGE then e.totalEpochs + 1 else e.totalEpochs)))
  }

  function ValidatorReward(rd: Round): u128 {
    if rd.params.minAttestation > rd.sub.attestationRatio then 0
    else PercentMul(rd.params.baseValidatorReward, rd.sub.proposerFactor)
  }

  function RewardProposer(rd: Round, r: Roster, l: Ledger): Ledger {
    if rd.sub.proposer in r.validatorOf then AddStake(l, rd.sub.proposer, ValidatorReward(rd)) else l
  }

  function RaiseSubnet(rd: Round, reputation: u128): u128 {
    if reputation != ONE && |rd.sub.data| >= rd.params.minSubnetNodes
    then Raise(rd.params, reputation, PercentMul(rd.params.inConsensusFactor, rd.sub.attestationRatio))
    else reputation
  }

  predicate InConsensus(rd: Round) {
    rd.sub.attestationRatio >= rd.params.minAttestation
  }

  predicate Paying(rd: Round) {
    InConsensus(rd) && rd.sub.weightSum != 0
  }

  /** What every round in consensus does before it looks at the scores. */
  function Opened(rd: Round, s: State): State {
    State(QueueConsensus(rd, s.roster), RewardProposer(rd, s.roster, s.ledger), s.capacitor, RaiseSubnet(rd, s.subnetReputation))
  }

  /** Agreeing on no scores holds the rewards back. */
  function Withhold(rd: Round, s: State): State {
    s.(capacitor := SatAdd(s.capacitor, rd.rewards.overall))
  }

  function LoopStart(rd: Round, s: State): Loop {
    Loop(s.roster, PayOwner(s.ledger, rd.rewards.owner), NO_EVENTS)
  }

  function PayOut(rd: Round, forked: Option<set<NodeId>>, s: State): (State, Events) {
    var end := After(rd, forked, LoopStart(rd, s), |rd.sub.nodes|);
    (State(end.roster, AddToSubnetPool(end.ledger, rd.rewards.delegateStake), 0, s.subnetReputation), end.events)
  }

  function Distribute(rd: Round, s: State): (State, Events) {
    var s' := s.(roster := CountForkEpoch(s.roster));
    if !InConsensus(rd) then (NonConsensus(rd, s'), NO_EVENTS)
    else if rd.sub.weightSum == 0 then (Withhold(rd, Opened(rd, s')), NO_EVENTS)
    else PayOut(rd, ForkedIds(s.roster), Opened(rd, s'))
  }

  // ---- what there is to distribute ----

  datatype Shares = Shares(ownerPercentage: u128, delegatePercentage: u128)

  /** The rewards of a subnet for one epoch, from what all subnets get, the subnet's emission weight,
      and what the capacitor holds. */
  function CalculateRewards(shares: Shares, allSubnets: u128, emissionWeight: u128, capacitor: u128): RewardsData {
    var overall := PercentMul(SatAdd(allSubnets, capacitor), emissionWeight);
    var owner := PercentMul(overall, shares.ownerPercentage);
    var subnet := SatSub(overall, owner);
    var delegateStake := PercentMul(subnet, shares.delegatePercentage);
    RewardsData(overall, owner, subnet, delegateStake, SatSub(subnet, delegateStake))
  }
}
