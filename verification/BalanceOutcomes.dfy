/** Whose balance a distribution changes, and by how much. */
module BalanceOutcomes {
  import opened Collections
  import opened FixedPoint
  import opened ConsensusScores
  import opened Network
  import opened RewardShares
  import opened Rewards
  import opened RewardLocality
  import opened RewardEmission
  import opened AttestationTheorems

  /** A balance with `amount` more, as far as its type goes. */
  function Credited(balance: nat, amount: nat): nat {
    Min(balance + amount, U128_MAX)
  }

  function Deducted(balance: nat, amount: nat): nat {
    if amount >= balance then 0 else balance - amount
  }

  // ---- the lists in the event, by recipient ----

  function ToKey(k: nat): ((nat, u128)) -> nat {
    (p: (nat, u128)) => if p.0 == k then p.1 else 0
  }

  function ToAccount(a: Account): ((NodeId, (Account, u128))) -> nat {
    (p: (NodeId, (Account, u128))) => if p.1.0 == a then p.1.1 else 0
  }

  function NodeGets(e: Events, id: NodeId): nat {
    SumOf(e.nodeRewards, ToKey(id))
  }

  function PoolGets(e: Events, v: ValidatorId): nat {
    SumOf(e.poolRewards, ToKey(v))
  }

  function AccountGets(e: Events, a: Account): nat {
    SumOf(e.accountRewards, ToAccount(a))
  }

  /** Every balance is what it was, with what the event lists for its holder. */
  ghost predicate Follows(l: Ledger, l': Ledger, e: Events) {
    && (forall id :: Get(l'.stake, id) == Credited(Get(l.stake, id), NodeGets(e, id)))
    && (forall v :: Get(l'.poolBalance, v) == Credited(Get(l.poolBalance, v), PoolGets(e, v)))
    && (forall a :: Get(l'.accounts, a) == Credited(Get(l.accounts, a), AccountGets(e, a)))
    && l'.owner == l.owner && l'.subnetPool == l.subnetPool && l'.subnetPoolShares == l.subnetPoolShares
  }

  lemma PoolCredited(l0: Ledger, l: Ledger, e: Events, v: ValidatorId, amount: u128, u: ValidatorId)
    requires Get(l.poolBalance, u) == Credited(Get(l0.poolBalance, u), PoolGets(e, u))
    ensures var (l', e') := PayPool(l, e, v, Some(amount));
            Get(l'.poolBalance, u) == Credited(Get(l0.poolBalance, u), PoolGets(e', u))
  {
    SumOfAppend(e.poolRewards, (v, amount), ToKey(u));
  }

  lemma PoolFollows(l0: Ledger, l: Ledger, e: Events, v: ValidatorId, amount: Option<u128>)
    requires Follows(l0, l, e)
    ensures Follows(l0, PayPool(l, e, v, amount).0, PayPool(l, e, v, amount).1)
  {
    if amount.Some? {
      var (l', e') := PayPool(l, e, v, amount);
      forall u ensures Get(l'.poolBalance, u) == Credited(Get(l0.poolBalance, u), PoolGets(e', u)) {
        PoolCredited(l0, l, e, v, amount.value, u);
      }
      assert l'.stake == l.stake && l'.accounts == l.accounts && e'.nodeRewards == e.nodeRewards && e'.accountRewards == e.accountRewards;
      SameNodes(l, l', e, e');
      SameAccounts(l, l', e, e');
    }
  }

  lemma SameNodes(l: Ledger, l': Ledger, e: Events, e': Events)
    requires l'.stake == l.stake && e'.nodeRewards == e.nodeRewards
    ensures forall id :: Get(l'.stake, id) == Get(l.stake, id) && NodeGets(e', id) == NodeGets(e, id)
  {
  }

  lemma SamePoolBalances(l: Ledger, l': Ledger, e: Events, e': Events)
    requires l'.poolBalance == l.poolBalance && e'.poolRewards == e.poolRewards
    ensures forall v :: Get(l'.poolBalance, v) == Get(l.poolBalance, v) && PoolGets(e', v) == PoolGets(e, v)
  {
  }

  lemma SameAccounts(l: Ledger, l': Ledger, e: Events, e': Events)
    requires l'.accounts == l.accounts && e'.accountRewards == e.accountRewards
    ensures forall a :: Get(l'.accounts, a) == Get(l.accounts, a) && AccountGets(e', a) == AccountGets(e, a)
  {
  }

  lemma AccountCredited(l0: Ledger, l: Ledger, e: Events, id: NodeId, a: Account, amount: u128, b: Account)
    requires Get(l.accounts, b) == Credited(Get(l0.accounts, b), AccountGets(e, b))
    ensures var (l', e') := PayAccount(l, e, id, a, Some(amount));
            Get(l'.accounts, b) == Credited(Get(l0.accounts, b), AccountGets(e', b))
  {
    SumOfAppend(e.accountRewards, (id, (a, amount)), ToAccount(b));
  }

  lemma AccountFollows(l0: Ledger, l: Ledger, e: Events, id: NodeId, a: Account, amount: Option<u128>)
    requires Follows(l0, l, e)
    ensures Follows(l0, PayAccount(l, e, id, a, amount).0, PayAccount(l, e, id, a, amount).1)
  {
    if amount.Some? {
      var (l', e') := PayAccount(l, e, id, a, amount);
      forall b ensures Get(l'.accounts, b) == Credited(Get(l0.accounts, b), AccountGets(e', b)) {
        AccountCredited(l0, l, e, id, a, amount.value, b);
      }
      SameNodes(l, l', e, e');
      SamePoolBalances(l, l', e, e');
    }
  }

  lemma StakeFollows(l0: Ledger, l: Ledger, e: Events, id: NodeId, amount: u128)
    requires Follows(l0, l, e)
    ensures Follows(l0, PayStake(l, e, id, amount).0, PayStake(l, e, id, amount).1)
  {
    var (l', e') := PayStake(l, e, id, amount);
    forall x ensures Get(l'.stake, x) == Credited(Get(l0.stake, x), NodeGets(e', x)) {
      SumOfAppend(e.nodeRewards, (id, amount), ToKey(x));
      assert Get(l.stake, x) == Credited(Get(l0.stake, x), NodeGets(e, x));
      CreditedTwice(Get(l0.stake, x), NodeGets(e, x), ToKey(x)((id, amount)));
    }
  }

  lemma PayFollows(rd: Round, node: SubnetNode, l0: Ledger, l: Ledger, e: Events, gross: u128)
    requires Follows(l0, l, e)
    ensures Follows(l0, Pay(rd, node, l, e, gross).0, Pay(rd, node, l, e, gross).1)
  {
    if gross != 0 {
      var v := ValidatorOf(rd, node);
      var split := SplitReward(v, Get(l.poolShares, node.validatorId), gross);
      var (l1, e1) := PayPool(l, e, node.validatorId, split.pool);
      var (l2, e2) := PayAccount(l1, e1, node.id, AccountOf(v), split.account);
      PoolFollows(l0, l, e, node.validatorId, split.pool);
      AccountFollows(l0, l1, e1, node.id, AccountOf(v), split.account);
      StakeFollows(l0, l2, e2, node.id, split.node);
    }
  }

  lemma LoopFollows(rd: Round, forked: Option<set<NodeId>>, start: Loop)
    requires start.events == NO_EVENTS
    ensures var end := After(rd, forked, start, |rd.sub.nodes|); Follows(start.ledger, end.ledger, end.events)
  {
    var nodes, step := rd.sub.nodes, Processing(rd, forked);
    var inv := (st: Loop, k: int) => Follows(start.ledger, st.ledger, st.events);
    forall st: Loop, i | 0 <= i < |nodes| && inv(st, i)
      ensures inv(step(st, nodes[i]), i + 1)
    {
      PayFollows(rd, nodes[i], start.ledger, st.ledger, st.events, Judge(rd, forked, st.roster, nodes[i]).1);
    }
    FoldKeeps(step, start, nodes, |nodes|, inv);
  }

  // ---- a whole round ----

  /** A proposer that still has a validator gets the base reward, scaled by its reward factor. */
  function ProposerGets(rd: Round, s: State, id: NodeId): nat {
    if id == rd.sub.proposer && id in s.roster.validatorOf
    then Min(rd.params.baseValidatorReward * rd.sub.proposerFactor / ONE, U128_MAX) else 0
  }

  lemma ProposerIsPaid(rd: Round, s: State)
    requires InConsensus(rd)
    ensures forall id :: Get(Begun(rd, s).ledger.stake, id) == Credited(Get(s.ledger.stake, id), ProposerGets(rd, s, id))
    ensures Begun(rd, s).ledger == s.ledger.(stake := Begun(rd, s).ledger.stake, totalStake := Begun(rd, s).ledger.totalStake)
  {
    PercentMulIsFloor(rd.params.baseValidatorReward, rd.sub.proposerFactor);
  }

  lemma CreditedTwice(balance: nat, a: nat, b: nat)
    ensures Credited(Credited(balance, a), b) == Credited(balance, a + b)
  {
  }

  /** In a paying round every node's stake grows by exactly what the event lists under it, and the
      proposer's by its reward as well; every pool and every delegate account by exactly what the event
      lists for it; the owner and the subnet's delegators get their shares; and nobody else's balance
      changes. */
  lemma BalancesFollowTheEvent(rd: Round, s: State)
    requires Paying(rd)
    ensures var ((s', e), l) := (Distribute(rd, s), s.ledger);
            && (forall id :: Get(s'.ledger.stake, id) == Credited(Get(l.stake, id), ProposerGets(rd, s, id) + NodeGets(e, id)))
            && (forall v :: Get(s'.ledger.poolBalance, v) == Credited(Get(l.poolBalance, v), PoolGets(e, v)))
            && (forall a :: Get(s'.ledger.accounts, a) == Credited(Get(l.accounts, a), AccountGets(e, a)))
            && s'.ledger.owner == (if l.owner.Some? then Some(Credited(l.owner.value, rd.rewards.owner)) else None)
            && s'.ledger.subnetPool == Credited(l.subnetPool, rd.rewards.delegateStake)
            && s'.ledger.subnetPoolShares
               == (if rd.rewards.delegateStake != 0 && (l.subnetPool == 0 || l.subnetPoolShares == 0) then Credited(l.subnetPoolShares, 1000)
                   else l.subnetPoolShares)
  {
    var begun := Begun(rd, s);
    var start := LoopStart(rd, begun);
    ProposerIsPaid(rd, s);
    LoopFollows(rd, ForkedIds(s.roster), start);
    var end := After(rd, ForkedIds(s.roster), start, |rd.sub.nodes|);
    forall id ensures Get(end.ledger.stake, id) == Credited(Get(s.ledger.stake, id), ProposerGets(rd, s, id) + NodeGets(end.events, id)) {
      CreditedTwice(Get(s.ledger.stake, id), ProposerGets(rd, s, id), NodeGets(end.events, id));
    }
  }

  /** A round that holds the rewards back pays the proposer only. */
  lemma WithholdingPaysTheProposer(rd: Round, s: State)
    requires InConsensus(rd) && rd.sub.weightSum == 0
    ensures var ((s', e), l) := (Distribute(rd, s), s.ledger);
            && e == NO_EVENTS
            && (forall id :: Get(s'.ledger.stake, id) == Credited(Get(l.stake, id), ProposerGets(rd, s, id)))
            && s'.ledger == l.(stake := s'.ledger.stake, totalStake := s'.ledger.totalStake)
            && s'.capacitor == Credited(s.capacitor, rd.rewards.overall)
  {
    ProposerIsPaid(rd, s);
  }

  /** A round out of consensus takes the slash off the proposer's stake, as far as there is any. */
  lemma SlashIsTaken(rd: Round, s: State)
    requires !InConsensus(rd)
    ensures var (l, l', id) := (s.ledger, Distribute(rd, s).0.ledger, rd.sub.proposer);
            var exact := PlainSlash(rd, Get(l.stake, id));
            && Get(l'.stake, id) == Deducted(Get(l.stake, id), exact)
            && l'.totalStake == Deducted(l.totalStake, exact)
            && (forall x :: x != id ==> Get(l'.stake, x) == Get(l.stake, x))
            && l' == l.(stake := l'.stake, totalStake := l'.totalStake)
  {
    SlashIsPlain(rd, Get(s.ledger.stake, rd.sub.proposer));
  }

  /** How far the attestation ratio falls short: 1.0 less its share of what consensus takes. */
  function PlainShortfall(rd: Round): nat
    requires rd.params.minAttestation > 0
  {
    Deducted(ONE, rd.sub.attestationRatio * ONE / rd.params.minAttestation)
  }

  /** The stake by the base slash by the shortfall, rounded down twice, up to the cap. Without a minimum
      attestation no round is out of consensus. */
  function PlainSlash(rd: Round, stake: u128): nat
    requires rd.params.minAttestation > 0
  {
    Min(Min(stake * rd.params.baseSlash / ONE, U128_MAX) * PlainShortfall(rd) / ONE, rd.params.maxSlash)
  }

  lemma ShortfallIsPlain(rd: Round)
    requires rd.params.minAttestation > 0
    ensures Shortfall(rd) == PlainShortfall(rd) <= ONE
  {
    PercentDivIsFloor(rd.sub.attestationRatio, rd.params.minAttestation);
  }

  lemma SlashIsPlain(rd: Round, stake: u128)
    requires rd.params.minAttestation > 0
    ensures SlashAmount(rd.params, stake, Shortfall(rd)) == PlainSlash(rd, stake)
  {
    ShortfallIsPlain(rd);
    PercentMulIsFloor(stake, rd.params.baseSlash);
    PercentMulShrinks(PercentMul(stake, rd.params.baseSlash), Shortfall(rd));
  }

  // ---- how much each node brings to whom ----

  /** The delegate pool gets its rate of the reward, if it has a rate and shares; the delegate account its
      rate of what is left; and the node what remains. */
  lemma SplitMeaning(v: Option<ValidatorData>, shares: u128, gross: u128)
    ensures var split := SplitReward(v, shares, gross);
            var rest := Deducted(gross, OrZero(split.pool));
            && (split.pool.Some? <==> v.Some? && v.value.delegateRewardRate != 0 && shares != 0)
            && (split.pool.Some? ==> split.pool.value == Min(gross * v.value.delegateRewardRate / ONE, U128_MAX))
            && (split.account.Some? <==> v.Some? && v.value.delegateAccount.Some?)
            && (split.account.Some? ==> split.account.value == Min(rest * v.value.delegateAccount.value.rate / ONE, U128_MAX))
            && split.node == Deducted(rest, OrZero(split.account))
  {
    if v.Some? {
      PercentMulIsFloor(gross, v.value.delegateRewardRate);
      var rest := Deducted(gross, OrZero(SplitReward(v, shares, gross).pool));
      if v.value.delegateAccount.Some? { PercentMulIsFloor(rest, v.value.delegateAccount.value.rate); }
    }
  }

  /** A node's own factor counts when it is expected to attest and has; any other node earns at 1.0. */
  function PlainFactor(rd: Round, forked: Option<set<NodeId>>, id: NodeId): nat {
    if id in rd.sub.attests && (forked.Some? ==> id in forked.value) then rd.sub.attests[id].rewardFactor else ONE
  }

  /** A score earns its share of the node rewards, by the node's reward factor, rounded down three times. */
  lemma GrossMeaning(rd: Round, forked: Option<set<NodeId>>, id: NodeId)
    requires Sound(rd.sub) && rd.sub.weightSum > 0
    ensures FindScore(rd.sub.data, id).None? ==> GrossOf(rd, forked, id) == 0
    ensures FindScore(rd.sub.data, id).Some? ==>
              GrossOf(rd, forked, id)
              == FindScore(rd.sub.data, id).value * ONE / rd.sub.weightSum * rd.rewards.nodes / ONE * PlainFactor(rd, forked, id) / ONE
  {
    var score := FindScore(rd.sub.data, id);
    if score.Some? {
      FindScoreMeaning(rd.sub.data, id);
      ScoreAtMostSum(rd.sub.data, Score(id, score.value));
      PercentDivShare(score.value, rd.sub.weightSum);
      var weight := PercentDiv(score.value, rd.sub.weightSum);
      assert weight == score.value * ONE / rd.sub.weightSum by {
        DivUnique(score.value * ONE, rd.sub.weightSum, weight);
      }
      PercentMulComm(weight, rd.rewards.nodes);
      PercentMulShrinks(rd.rewards.nodes, weight);
      assert rd.rewards.nodes * weight == weight * rd.rewards.nodes;
      PercentMulShrinks(PercentMul(weight, rd.rewards.nodes), PlainFactor(rd, forked, id));
    }
  }

  /** How what a node is due at the start of the round is split. */
  function SplitOf(rd: Round, s: State, n: SubnetNode): Split {
    SplitReward(ValidatorOf(rd, n), Get(s.ledger.poolShares, n.validatorId), DueTo(rd, s, n))
  }

  function DueTo(rd: Round, s: State, n: SubnetNode): u128 {
    if Pays(rd, ForkedIds(s.roster), Lookup(Begun(rd, s).roster.reputation, n.id), n) then GrossOf(rd, ForkedIds(s.roster), n.id) else 0
  }

  function NodePart(rd: Round, s: State, id: NodeId): SubnetNode -> nat {
    (n: SubnetNode) => if n.id == id && DueTo(rd, s, n) > 0 then SplitOf(rd, s, n).node else 0
  }

  function PoolPart(rd: Round, s: State, v: ValidatorId): SubnetNode -> nat {
    (n: SubnetNode) => if n.validatorId == v && DueTo(rd, s, n) > 0 then OrZero(SplitOf(rd, s, n).pool) else 0
  }

  function AccountPart(rd: Round, s: State, a: Account): SubnetNode -> nat {
    (n: SubnetNode) => if AccountOf(ValidatorOf(rd, n)) == a && DueTo(rd, s, n) > 0 then OrZero(SplitOf(rd, s, n).account) else 0
  }

  /** What the event lists after the first `k` nodes. */
  ghost predicate Lists(rd: Round, s: State, e: Events, k: nat)
    requires k <= |rd.sub.nodes|
  {
    && (forall id :: NodeGets(e, id) == SumOf(rd.sub.nodes[..k], NodePart(rd, s, id)))
    && (forall v :: PoolGets(e, v) == SumOf(rd.sub.nodes[..k], PoolPart(rd, s, v)))
    && (forall a :: AccountGets(e, a) == SumOf(rd.sub.nodes[..k], AccountPart(rd, s, a)))
  }

  ghost predicate ListsInv(rd: Round, s: State, st: Loop, k: int) {
    && 0 <= k <= |rd.sub.nodes| && Lists(rd, s, st.events, k)
    && SamePools(s.ledger, st.ledger)
    && (forall j :: k <= j < |rd.sub.nodes| ==> ViewOf(st.roster, rd.sub.nodes[j].id) == ViewOf(Begun(rd, s).roster, rd.sub.nodes[j].id))
  }

  /** What paying one node adds to the lists. */
  lemma PayLists(rd: Round, node: SubnetNode, l: Ledger, e: Events, gross: u128, id: NodeId, v: ValidatorId, a: Account)
    ensures var e' := Pay(rd, node, l, e, gross).1;
            var split := SplitReward(ValidatorOf(rd, node), Get(l.poolShares, node.validatorId), gross);
            && NodeGets(e', id) == NodeGets(e, id) + (if gross > 0 && node.id == id then split.node else 0)
            && PoolGets(e', v) == PoolGets(e, v) + (if gross > 0 && node.validatorId == v then OrZero(split.pool) else 0)
            && AccountGets(e', a) == AccountGets(e, a) + (if gross > 0 && AccountOf(ValidatorOf(rd, node)) == a then OrZero(split.account) else 0)
  {
    var split := SplitReward(ValidatorOf(rd, node), Get(l.poolShares, node.validatorId), gross);
    SumOfAppend(e.nodeRewards, (node.id, split.node), ToKey(id));
    SumOfAppend(e.poolRewards, (node.validatorId, OrZero(split.pool)), ToKey(v));
    SumOfAppend(e.accountRewards, (node.id, (AccountOf(ValidatorOf(rd, node)), OrZero(split.account))), ToAccount(a));
  }

  lemma SplitBySamePools(rd: Round, s: State, l: Ledger, n: SubnetNode)
    requires SamePools(s.ledger, l)
    ensures SplitReward(ValidatorOf(rd, n), Get(l.poolShares, n.validatorId), DueTo(rd, s, n)) == SplitOf(rd, s, n)
  {
  }

  lemma StepLists(rd: Round, s: State, st: Loop, i: int)
    requires DistinctNodes(rd.sub.nodes) && 0 <= i < |rd.sub.nodes| && ListsInv(rd, s, st, i)
    ensures ListsInv(rd, s, ProcessNode(rd, ForkedIds(s.roster), st, rd.sub.nodes[i]), i + 1)
  {
    var nodes, node, forked := rd.sub.nodes, rd.sub.nodes[i], ForkedIds(s.roster);
    var gross, st' := Judge(rd, forked, st.roster, node).1, ProcessNode(rd, forked, st, node);
    JudgeGivesDue(rd, forked, st.roster, node);
    assert ViewOf(st.roster, node.id).reputation == ViewOf(Begun(rd, s).roster, node.id).reputation;
    assert gross == DueTo(rd, s, node);
    SplitBySamePools(rd, s, st.ledger, node);
    forall id ensures NodeGets(st'.events, id) == SumOf(nodes[..i + 1], NodePart(rd, s, id)) {
      PayLists(rd, node, st.ledger, st.events, gross, id, 0, 0);
      SumOfPrefix(nodes, i, NodePart(rd, s, id));
    }
    forall v ensures PoolGets(st'.events, v) == SumOf(nodes[..i + 1], PoolPart(rd, s, v)) {
      PayLists(rd, node, st.ledger, st.events, gross, 0, v, 0);
      SumOfPrefix(nodes, i, PoolPart(rd, s, v));
    }
    forall a ensures AccountGets(st'.events, a) == SumOf(nodes[..i + 1], AccountPart(rd, s, a)) {
      PayLists(rd, node, st.ledger, st.events, gross, 0, 0, a);
      SumOfPrefix(nodes, i, AccountPart(rd, s, a));
    }
    PayKeepsPools(rd, node, st.ledger, st.events, gross);
    forall j | i + 1 <= j < |nodes|
      ensures ViewOf(st'.roster, nodes[j].id) == ViewOf(Begun(rd, s).roster, nodes[j].id)
    {
      assert nodes[i].id != nodes[j].id;
      JudgeSpares(rd, forked, st.roster, node, nodes[j].id);
    }
  }

  /** What the event lists for each node, pool and delegate account is the sum of what the snapshot's
      nodes bring it: nothing is listed for anybody else. */
  lemma EventListsTheParts(rd: Round, s: State)
    requires DistinctNodes(rd.sub.nodes) && Paying(rd)
    ensures Lists(rd, s, Distribute(rd, s).1, |rd.sub.nodes|)
  {
    var nodes, forked, start := rd.sub.nodes, ForkedIds(s.roster), LoopStart(rd, Begun(rd, s));
    var step, inv := Processing(rd, forked), (st: Loop, k: int) => ListsInv(rd, s, st, k);
    forall st: Loop, i | 0 <= i < |nodes| && inv(st, i)
      ensures inv(step(st, nodes[i]), i + 1)
    {
      StepLists(rd, s, st, i);
    }
    assert inv(start, 0);
    FoldKeeps(step, start, nodes, |nodes|, inv);
  }

  /** So a node of the snapshot, which is there once, finds its part of what it was due in its stake. */
  lemma {:induction false} OnlyPart(nodes: seq<SubnetNode>, rd: Round, s: State, j: nat)
    requires DistinctNodes(nodes) && j < |nodes|
    ensures SumOf(nodes, NodePart(rd, s, nodes[j].id)) == NodePart(rd, s, nodes[j].id)(nodes[j])
  {
    var front, last := nodes[..|nodes| - 1], nodes[|nodes| - 1];
    LastIsNew(nodes);
    if j < |front| {
      assert front[j] == nodes[j] && front[j] in front;
      OnlyPart(front, rd, s, j);
    } else {
      NoPart(front, rd, s, last.id);
    }
  }

  lemma {:induction false} NoPart(nodes: seq<SubnetNode>, rd: Round, s: State, id: NodeId)
    requires forall n :: n in nodes ==> n.id != id
    ensures SumOf(nodes, NodePart(rd, s, id)) == 0
  {
    if nodes != [] {
      assert nodes[|nodes| - 1] in nodes && forall n :: n in nodes[..|nodes| - 1] ==> n in nodes;
      NoPart(nodes[..|nodes| - 1], rd, s, id);
    }
  }

  /** A node's stake after a paying round. */
  lemma StakeAfterRound(rd: Round, s: State, j: nat)
    requires DistinctNodes(rd.sub.nodes) && Paying(rd) && j < |rd.sub.nodes|
    ensures var n := rd.sub.nodes[j];
            Get(Distribute(rd, s).0.ledger.stake, n.id)
            == Credited(Get(s.ledger.stake, n.id),
                        ProposerGets(rd, s, n.id) + if DueTo(rd, s, n) > 0 then SplitOf(rd, s, n).node else 0)
  {
    BalancesFollowTheEvent(rd, s);
    EventListsTheParts(rd, s);
    OnlyPart(rd.sub.nodes, rd, s, j);
    assert rd.sub.nodes[..|rd.sub.nodes|] == rd.sub.nodes;
  }

  // ---- the shares of delegate pools ----

  /** A pool with a balance keeps its shares; an empty one that is paid gets its first ones. */
  ghost predicate SharesFollow(l: Ledger, l': Ledger, e: Events, v: ValidatorId) {
    && Get(l'.poolShares, v) >= Get(l.poolShares, v)
    && (Get(l.poolBalance, v) != 0 ==> Get(l'.poolShares, v) == Get(l.poolShares, v) && Get(l'.poolBalance, v) != 0)
    && (Get(l.poolBalance, v) == 0 && Listed(e, v) ==>
          Get(l'.poolShares, v) >= Credited(Get(l.poolShares, v), 1000))
    && (Get(l.poolShares, v) == 0 ==> Get(l'.poolShares, v) == 0)
    && (Get(l.poolShares, v) != 0 ==> Get(l'.poolShares, v) != 0)
    && (Get(l.poolBalance, v) == 0 && !Listed(e, v) ==> Get(l'.poolBalance, v) == 0)
  }

  ghost predicate Listed(e: Events, v: ValidatorId) {
    exists p :: p in e.poolRewards && p.0 == v
  }

  lemma PoolShares(l0: Ledger, l: Ledger, e: Events, u: ValidatorId, amount: u128, v: ValidatorId)
    requires SharesFollow(l0, l, e, v) && Get(l.poolShares, u) != 0
    ensures SharesFollow(l0, PayPool(l, e, u, Some(amount)).0, PayPool(l, e, u, Some(amount)).1, v)
  {
    var (l', e') := PayPool(l, e, u, Some(amount));
    assert e'.poolRewards == e.poolRewards + [(u, amount)];
    assert Listed(e', v) <==> Listed(e, v) || u == v by {
      assert (u, amount) in e'.poolRewards;
      assert forall p :: p in e'.poolRewards <==> p in e.poolRewards || p == (u, amount);
    }
  }

  lemma PayShares(rd: Round, node: SubnetNode, l0: Ledger, l: Ledger, e: Events, gross: u128, v: ValidatorId)
    requires SharesFollow(l0, l, e, v)
    ensures SharesFollow(l0, Pay(rd, node, l, e, gross).0, Pay(rd, node, l, e, gross).1, v)
  {
    var split := SplitReward(ValidatorOf(rd, node), Get(l.poolShares, node.validatorId), gross);
    if gross != 0 && split.pool.Some? {
      PoolShares(l0, l, e, node.validatorId, split.pool.value, v);
    }
  }

  lemma PoolSharesAfterRound(rd: Round, s: State, v: ValidatorId)
    requires Paying(rd)
    ensures SharesFollow(s.ledger, Distribute(rd, s).0.ledger, Distribute(rd, s).1, v)
  {
    var nodes, forked, start := rd.sub.nodes, ForkedIds(s.roster), LoopStart(rd, Begun(rd, s));
    var step, inv := Processing(rd, forked), (st: Loop, k: int) => SharesFollow(s.ledger, st.ledger, st.events, v);
    forall st: Loop, i | 0 <= i < |nodes| && inv(st, i)
      ensures inv(step(st, nodes[i]), i + 1)
    {
      PayShares(rd, nodes[i], s.ledger, st.ledger, st.events, Judge(rd, forked, st.roster, nodes[i]).1, v);
    }
    FoldKeeps(step, start, nodes, |nodes|, inv);
  }
}
