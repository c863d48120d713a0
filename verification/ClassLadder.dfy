/** Over whole runs: a node has to wait, and then to take part, before it earns anything. */
module ClassLadder {
  import opened Collections
  import opened FixedPoint
  import opened ConsensusScores
  import opened Network
  import opened RewardShares
  import opened Rewards
  import opened RewardLocality
  import opened RewardEmission
  import opened RewardOutcomes
  import opened Attestation
  import opened AttestationTheorems

  // ---- runs, as one node sees them ----

  /** A distribution, whose snapshot of the nodes was taken in state `taken`; or anything else that
      happens, which may change the node's reputation but not its class or its counters. */
  datatype Turn = Distribution(rd: Round, taken: nat) | Between

  datatype Trace = Trace(states: seq<State>, turns: seq<Turn>)

  ghost predicate Registered(s: State, n: NodeId) {
    n in s.roster.nodes && n in s.roster.reputation
  }

  ghost predicate Quiet(s: State, s': State, n: NodeId) {
    ViewOf(s'.roster, n) == ViewOf(s.roster, n).(reputation := ViewOf(s'.roster, n).reputation)
  }

  ghost predicate Snapshot(nodes: seq<SubnetNode>, s: State, n: NodeId) {
    DistinctNodes(nodes) && forall node :: node in nodes && node.id == n ==> Some(node.classification) == Lookup(s.roster.nodes, n)
  }

  ghost predicate IsTurn(t: Trace, n: NodeId, i: nat)
    requires i < |t.turns| && |t.states| == |t.turns| + 1
  {
    match t.turns[i]
    case Between => Quiet(t.states[i], t.states[i + 1], n)
    case Distribution(rd, taken) =>
      && t.states[i + 1] == Distribute(rd, t.states[i]).0
      && taken <= i && Snapshot(rd.sub.nodes, t.states[taken], n)
      && forall k :: taken <= k < i ==> t.turns[k].Between?
  }

  /** A run throughout which the node is registered and active. */
  ghost predicate IsTrace(t: Trace, n: NodeId) {
    && |t.states| == |t.turns| + 1
    && (forall i :: 0 <= i < |t.states| ==> Registered(t.states[i], n))
    && (forall i :: 0 <= i < |t.turns| ==> IsTurn(t, n, i))
  }

  function ClassOf(s: State, n: NodeId): NodeClass {
    if n in s.roster.nodes then s.roster.nodes[n].nodeClass else NodeClass.Registered
  }

  // ---- what a turn is to the node ----

  datatype Kind = Passed | Waited | TookPart | Missed

  function KindOf(rd: Round, s: State, n: NodeId): Kind {
    var node := FindNode(rd.sub.nodes, n);
    if !Paying(rd) || node.None? || n !in s.roster.reputation || s.roster.reputation[n] < rd.params.minReputation then Passed
    else if node.value.classification.nodeClass == Idle && s.roster.emergency.None? then Waited
    else if FindScore(rd.sub.data, n).None? then Missed
    else if node.value.classification.nodeClass == Included && s.roster.emergency.None? then TookPart
    else Passed
  }

  function KindAt(t: Trace, n: NodeId, i: nat): Kind
    requires i < |t.turns| && |t.states| == |t.turns| + 1
  {
    match t.turns[i]
    case Between => Passed
    case Distribution(rd, _) => KindOf(rd, t.states[i], n)
  }

  /** How many of the turns from `i` to before `k` are of a kind. */
  function Count(t: Trace, n: NodeId, kind: Kind, i: nat, k: nat): nat
    requires i <= k <= |t.turns| && |t.states| == |t.turns| + 1
  {
    if i == k then 0 else Count(t, n, kind, i, k - 1) + (if KindAt(t, n, k - 1) == kind then 1 else 0)
  }

  ghost predicate NeverMissed(t: Trace, n: NodeId, i: nat, k: nat)
    requires i <= k <= |t.turns| && |t.states| == |t.turns| + 1
  {
    forall x :: i <= x < k ==> KindAt(t, n, x) != Missed
  }

  // ---- what a turn does to the node ----

  lemma JudgeAddsNoReputation(rd: Round, forked: Option<set<NodeId>>, r: Roster, node: SubnetNode)
    ensures node.id in Judge(rd, forked, r, node).0.reputation ==> node.id in r.reputation
  {
  }

  /** What each kind of turn does to a node whose class in the snapshot is its class: it graduates
      exactly when its counter reaches the threshold, and from Included only with a full reputation and
      no election slot, which it then gets; the class starts anew in the epoch of the distribution. */
  ghost predicate Moves(rd: Round, kind: Kind, before: NodeView, after: NodeView) {
    && before.classification.Some? && after.reputation.Some?
    && match kind
       case Passed => SameStanding(before, after) && after.included == before.included
       case Missed =>
         && SameStanding(before, after)
         && after.included == if before.classification.value.nodeClass == Included then 0 else before.included
       case Waited =>
         && before.classification.value.nodeClass == Idle && after.included == before.included && after.slotted == before.slotted
         && if before.idle + 1 >= rd.params.idleEpochs
            then after.classification == Some(Classification(Included, rd.params.epoch)) && after.idle == 0
            else after.classification == before.classification && after.idle == before.idle + 1
       case TookPart =>
         && before.classification.value.nodeClass == Included && after.idle == before.idle
         && if before.included + 1 >= rd.params.includedEpochs && after.reputation == Some(ONE) && !before.slotted
            then after.classification == Some(Classification(NodeClass.Validator, rd.params.epoch)) && after.included == 0 && after.slotted
            else after.classification == before.classification && after.included == before.included + 1 && after.slotted == before.slotted
  }

  ghost predicate SameStanding(before: NodeView, after: NodeView) {
    after.classification == before.classification && after.idle == before.idle && after.slotted == before.slotted
  }

  lemma RemovalUnregisters(r: Roster, id: NodeId, gate: bool)
    requires id in r.nodes
    ensures RemoveForReputation(r, id, gate) == r || id !in RemoveForReputation(r, id, gate).reputation
  {
  }

  lemma IdleMoves(rd: Round, r: Roster, id: NodeId)
    requires id in r.nodes && id in r.reputation && r.nodes[id].nodeClass == Idle
    ensures Moves(rd, Waited, ViewOf(r, id), ViewOf(IdleRound(r, id, rd.params), id))
  {
  }

  lemma AbsentMoves(rd: Round, r: Roster, node: SubnetNode)
    requires node.id in r.nodes && node.id in r.reputation && node.classification.nodeClass == r.nodes[node.id].nodeClass
    ensures Moves(rd, Missed, ViewOf(r, node.id), ViewOf(JudgeAbsent(rd, r, node), node.id))
  {
  }

  lemma IncludedMoves(rd: Round, r: Roster, id: NodeId, raised: u128)
    requires id in r.nodes && id in r.reputation && r.nodes[id].nodeClass == Included && raised <= ONE
    ensures Moves(rd, TookPart, ViewOf(r, id), ViewOf(IncludedRound(SetReputation(r, id, raised), id, raised, rd.params), id))
  {
  }

  lemma SettledMoves(rd: Round, r: Roster, id: NodeId, settled: u128)
    requires id in r.nodes && id in r.reputation
    ensures var r' := SetReputation(r, id, settled);
            && Moves(rd, Passed, ViewOf(r, id), ViewOf(r', id))
            && (id in RemoveForReputation(r', id, rd.gate(id)).reputation ==>
                  Moves(rd, Passed, ViewOf(r, id), ViewOf(RemoveForReputation(r', id, rd.gate(id)), id)))
  {
    RemovalUnregisters(SetReputation(r, id, settled), id, rd.gate(id));
  }

  lemma ScoredMoves(rd: Round, forked: Option<set<NodeId>>, r: Roster, node: SubnetNode, score: u128)
    requires node.id in r.nodes && node.id in r.reputation && node.classification.nodeClass == r.nodes[node.id].nodeClass
    requires node.id in JudgeScored(rd, forked, r, node, score).0.reputation
    ensures Moves(rd, if node.classification.nodeClass == Included && forked.None? then TookPart else Passed,
                  ViewOf(r, node.id), ViewOf(JudgeScored(rd, forked, r, node, score).0, node.id))
  {
    var raised := Raise(rd.params, r.reputation[node.id], rd.params.factors.included);
    if node.classification.nodeClass == Included && forked.None? {
      RaisedAtMostOne(rd.params, r.reputation[node.id], rd.params.factors.included);
      IncludedMoves(rd, r, node.id, raised);
    } else {
      SettledMoves(rd, r, node.id, ScoredReputation(rd, forked, node.id, PercentDiv(score, rd.sub.weightSum), raised));
    }
  }

  lemma RaisedAtMostOne(p: Params, reputation: u128, factor: u128)
    ensures Raise(p, reputation, factor) <= ONE
  {
  }

  lemma JudgeMoves(rd: Round, r: Roster, node: SubnetNode, s: State)
    requires node.id in r.nodes && node.id in r.reputation && node.classification.nodeClass == r.nodes[node.id].nodeClass
    requires ViewOf(r, node.id) == ViewOf(s.roster, node.id) && Paying(rd) && FindNode(rd.sub.nodes, node.id) == Some(node)
    requires node.id in Judge(rd, ForkedIds(s.roster), r, node).0.reputation
    ensures Moves(rd, KindOf(rd, s, node.id), ViewOf(r, node.id), ViewOf(Judge(rd, ForkedIds(s.roster), r, node).0, node.id))
  {
    var id, forked := node.id, ForkedIds(s.roster);
    assert r.reputation[id] == s.roster.reputation[id];
    if r.reputation[id] < rd.params.minReputation {
      RemovalUnregisters(r, id, rd.gate(id));
    } else if node.classification.nodeClass == Idle && forked.None? {
      IdleMoves(rd, r, id);
    } else {
      match FindScore(rd.sub.data, id) {
        case None => AbsentMoves(rd, r, node);
        case Some(score) => ScoredMoves(rd, forked, r, node, score);
      }
    }
  }

  lemma DistributionMoves(rd: Round, s: State, n: NodeId)
    requires Snapshot(rd.sub.nodes, s, n) && Registered(s, n) && Registered(Distribute(rd, s).0, n)
    ensures Moves(rd, KindOf(rd, s, n), ViewOf(s.roster, n), ViewOf(Distribute(rd, s).0.roster, n))
  {
    if !InConsensus(rd) {
      NonConsensusOnlyTakes(rd, s);
    } else if !Paying(rd) {
      BegunAsBefore(rd, s, n);
    } else {
      match FindNode(rd.sub.nodes, n) {
        case None => OutsiderMoves(rd, s, n);
        case Some(node) => InsiderMoves(rd, s, node);
      }
    }
  }

  lemma OutsiderMoves(rd: Round, s: State, n: NodeId)
    requires Paying(rd) && FindNode(rd.sub.nodes, n).None? && Registered(s, n) && Registered(Distribute(rd, s).0, n)
    ensures Moves(rd, Passed, ViewOf(s.roster, n), ViewOf(Distribute(rd, s).0.roster, n))
  {
    OutsiderAfterRound(rd, s, n);
    assert ViewOf(Distribute(rd, s).0.roster, n).reputation == ViewOf(Begun(rd, s).roster, n).reputation;
    BegunAsBefore(rd, s, n);
  }

  lemma InsiderMoves(rd: Round, s: State, node: SubnetNode)
    requires Paying(rd) && FindNode(rd.sub.nodes, node.id) == Some(node) && Snapshot(rd.sub.nodes, s, node.id)
    requires Registered(s, node.id) && Registered(Distribute(rd, s).0, node.id)
    ensures Moves(rd, KindOf(rd, s, node.id), ViewOf(s.roster, node.id), ViewOf(Distribute(rd, s).0.roster, node.id))
  {
    var n, forked := node.id, ForkedIds(s.roster);
    var j :| 0 <= j < |rd.sub.nodes| && rd.sub.nodes[j] == node;
    var r := NodeAfterRound(rd, s, j);
    var r' := Judge(rd, forked, r, node).0;
    assert ViewOf(r', n).reputation == ViewOf(Distribute(rd, s).0.roster, n).reputation;
    JudgeAddsNoReputation(rd, forked, r, node);
    assert ViewOf(Begun(rd, s).roster, n).reputation == ViewOf(r, n).reputation;
    BegunAsBefore(rd, s, n);
    assert ViewOf(r, n).classification == ViewOf(s.roster, n).classification;
    JudgeMoves(rd, r, node, s);
  }

  // ---- whole runs ----

  lemma {:induction false} SnapshotHoldsUntil(t: Trace, n: NodeId, nodes: seq<SubnetNode>, taken: nat, i: nat)
    requires IsTrace(t, n) && taken <= i <= |t.turns| && Snapshot(nodes, t.states[taken], n)
    requires forall k :: taken <= k < i ==> t.turns[k].Between?
    ensures Snapshot(nodes, t.states[i], n)
  {
    if taken < i {
      SnapshotHoldsUntil(t, n, nodes, taken, i - 1);
      assert IsTurn(t, n, i - 1);
      assert ViewOf(t.states[i].roster, n).classification == ViewOf(t.states[i - 1].roster, n).classification;
    }
  }

  lemma TurnMoves(t: Trace, n: NodeId, i: nat)
    requires IsTrace(t, n) && i < |t.turns| && t.turns[i].Distribution?
    ensures Moves(t.turns[i].rd, KindAt(t, n, i), ViewOf(t.states[i].roster, n), ViewOf(t.states[i + 1].roster, n))
  {
    assert IsTurn(t, n, i);
    SnapshotHoldsUntil(t, n, t.turns[i].rd.sub.nodes, t.turns[i].taken, i);
    assert Registered(t.states[i + 1], n);
    DistributionMoves(t.turns[i].rd, t.states[i], n);
  }

  /** In turn `a` the node became Included, having waited long enough. */
  ghost predicate BecameIncluded(t: Trace, n: NodeId, a: nat)
    requires |t.states| == |t.turns| + 1
  {
    && a < |t.turns| && t.turns[a].Distribution?
    && ClassOf(t.states[a], n) == Idle && ClassOf(t.states[a + 1], n) == Included
    && Count(t, n, Waited, 0, a + 1) >= t.turns[a].rd.params.idleEpochs
  }

  /** In turn `b` the node became a validator, with a full reputation, having taken part often enough
      since `c` without missing a round. */
  ghost predicate BecameValidator(t: Trace, n: NodeId, c: nat, b: nat)
    requires |t.states| == |t.turns| + 1
  {
    && c <= b < |t.turns| && t.turns[b].Distribution?
    && ClassOf(t.states[b], n) == Included && ClassOf(t.states[b + 1], n) == NodeClass.Validator
    && Lookup(t.states[b + 1].roster.reputation, n) == Some(ONE)
    && NeverMissed(t, n, c, b + 1)
    && Count(t, n, TookPart, c, b + 1) >= t.turns[b].rd.params.includedEpochs
  }

  /** Where the node stands after `k` turns, and how it got there. */
  ghost predicate Stage(t: Trace, n: NodeId, k: nat, a: nat, c: nat, b: nat)
    requires k <= |t.turns| && |t.states| == |t.turns| + 1
  {
    var r := t.states[k].roster;
    match ClassOf(t.states[k], n)
    case Registered => false
    case Idle => Get(r.idleEpochs, n) == Count(t, n, Waited, 0, k) && Get(r.includedEpochs, n) == 0
    case Included =>
      && a < c <= k && BecameIncluded(t, n, a) && NeverMissed(t, n, c, k)
      && Get(r.includedEpochs, n) == Count(t, n, TookPart, c, k)
    case Validator => a < c <= b < k && BecameIncluded(t, n, a) && BecameValidator(t, n, c, b)
  }

  /** At the start the node is new. */
  ghost predicate Fresh(s: State, n: NodeId) {
    ClassOf(s, n) == Idle && Get(s.roster.idleEpochs, n) == 0 && Get(s.roster.includedEpochs, n) == 0
  }

  ghost predicate Moved(t: Trace, n: NodeId, i: nat) {
    && i < |t.turns| && |t.states| == |t.turns| + 1 && t.turns[i].Distribution?
    && Registered(t.states[i], n) && Registered(t.states[i + 1], n)
    && Moves(t.turns[i].rd, KindAt(t, n, i), ViewOf(t.states[i].roster, n), ViewOf(t.states[i + 1].roster, n))
  }

  lemma QuietStage(t: Trace, n: NodeId, i: nat, a: nat, c: nat, b: nat)
    requires i < |t.turns| && |t.states| == |t.turns| + 1 && t.turns[i].Between?
    requires Quiet(t.states[i], t.states[i + 1], n) && Stage(t, n, i, a, c, b)
    ensures Stage(t, n, i + 1, a, c, b)
  {
    assert ViewOf(t.states[i + 1].roster, n).classification == ViewOf(t.states[i].roster, n).classification;
    assert ClassOf(t.states[i + 1], n) == ClassOf(t.states[i], n);
  }

  lemma StageAfterIdle(t: Trace, n: NodeId, i: nat, c: nat, b: nat) returns (a': nat, c': nat)
    requires Moved(t, n, i) && ClassOf(t.states[i], n) == Idle && Stage(t, n, i, 0, 0, 0)
    ensures Stage(t, n, i + 1, a', c', b)
  {
    a', c' := i, i + 1;
  }

  lemma StageAfterIncluded(t: Trace, n: NodeId, i: nat, a: nat, c: nat, b: nat) returns (c': nat, b': nat)
    requires Moved(t, n, i) && ClassOf(t.states[i], n) == Included && Stage(t, n, i, a, c, b)
    ensures Stage(t, n, i + 1, a, c', b')
  {
    c', b' := if KindAt(t, n, i) == Missed then i + 1 else c, i;
  }

  lemma StageAfterValidator(t: Trace, n: NodeId, i: nat, a: nat, c: nat, b: nat)
    requires Moved(t, n, i) && ClassOf(t.states[i], n) == NodeClass.Validator && Stage(t, n, i, a, c, b)
    ensures Stage(t, n, i + 1, a, c, b)
  {
  }

  lemma NextStage(t: Trace, n: NodeId, i: nat, a: nat, c: nat, b: nat) returns (a': nat, c': nat, b': nat)
    requires Moved(t, n, i) && Stage(t, n, i, a, c, b)
    ensures Stage(t, n, i + 1, a', c', b')
  {
    a', c', b' := a, c, b;
    match ClassOf(t.states[i], n) {
      case Registered =>
      case Idle => a', c' := StageAfterIdle(t, n, i, c, b);
      case Included => c', b' := StageAfterIncluded(t, n, i, a, c, b);
      case Validator => StageAfterValidator(t, n, i, a, c, b);
    }
  }

  lemma OneStage(t: Trace, n: NodeId, i: nat, a: nat, c: nat, b: nat) returns (a': nat, c': nat, b': nat)
    requires IsTrace(t, n) && i < |t.turns| && Stage(t, n, i, a, c, b)
    ensures Stage(t, n, i + 1, a', c', b')
  {
    if t.turns[i].Between? {
      assert IsTurn(t, n, i);
      QuietStage(t, n, i, a, c, b);
      a', c', b' := a, c, b;
    } else {
      TurnMoves(t, n, i);
      assert Registered(t.states[i], n) && Registered(t.states[i + 1], n);
      a', c', b' := NextStage(t, n, i, a, c, b);
    }
  }

  lemma FirstStage(t: Trace, n: NodeId)
    requires |t.states| == |t.turns| + 1 && Fresh(t.states[0], n)
    ensures Stage(t, n, 0, 0, 0, 0)
  {
  }

  ghost predicate Climbed(t: Trace, n: NodeId, k: nat)
    requires k <= |t.turns| && |t.states| == |t.turns| + 1
  {
    exists a, c, b :: Stage(t, n, k, a, c, b)
  }

  lemma ClimbsOn(t: Trace, n: NodeId, i: nat)
    requires IsTrace(t, n) && i < |t.turns| && Climbed(t, n, i)
    ensures Climbed(t, n, i + 1)
  {
    var a, c, b :| Stage(t, n, i, a, c, b);
    a, c, b := OneStage(t, n, i, a, c, b);
  }

  lemma AlwaysClimbed(t: Trace, n: NodeId, k: nat)
    requires IsTrace(t, n) && k <= |t.turns| && Climbed(t, n, 0)
    ensures Climbed(t, n, k)
  {
    var p := (i: int) => 0 <= i <= |t.turns| && |t.states| == |t.turns| + 1 && Climbed(t, n, i);
    forall i | 0 <= i < k && p(i)
      ensures p(i + 1)
    {
      ClimbsOn(t, n, i);
    }
    UpTo(p, k);
  }

  /** A new node that stays registered earns nothing from the node rewards of an unforked round until
      it has waited long enough to become Included, and then has, with a full reputation and without a
      missed round in between, taken part often enough to become a validator. */
  lemma NothingBeforeTheLadder(t: Trace, n: NodeId, i: nat) returns (a: nat, c: nat, b: nat)
    requires IsTrace(t, n) && Fresh(t.states[0], n)
    requires i < |t.turns| && t.turns[i].Distribution? && t.states[i].roster.emergency.None?
    requires Named(Distribute(t.turns[i].rd, t.states[i]).1, n)
    ensures a < c <= b < i && BecameIncluded(t, n, a) && BecameValidator(t, n, c, b)
  {
    var rd, s := t.turns[i].rd, t.states[i];
    FirstStage(t, n);
    AlwaysClimbed(t, n, i);
    a, c, b :| Stage(t, n, i, a, c, b);
    assert IsTurn(t, n, i);
    SnapshotHoldsUntil(t, n, rd.sub.nodes, t.turns[i].taken, i);
    PaidIffDue(rd, s, n);
    var node :| node in rd.sub.nodes && node.id == n && IsDue(rd, s, node);
    assert Registered(t.states[i + 1], n) && Registered(s, n);
    PaidIsPastApprenticeship(rd, s, node);
  }

  lemma PaidIsPastApprenticeship(rd: Round, s: State, node: SubnetNode)
    requires Paying(rd) && node in rd.sub.nodes && IsDue(rd, s, node) && s.roster.emergency.None? && DistinctNodes(rd.sub.nodes)
    requires node.id in Distribute(rd, s).0.roster.reputation
    ensures node.classification.nodeClass !in {Idle, Included}
  {
    var j :| 0 <= j < |rd.sub.nodes| && rd.sub.nodes[j] == node;
    var r := NodeAfterRound(rd, s, j);
    assert ViewOf(Distribute(rd, s).0.roster, node.id).reputation == ViewOf(Judge(rd, ForkedIds(s.roster), r, node).0, node.id).reputation;
    JudgeAddsNoReputation(rd, ForkedIds(s.roster), r, node);
    assert ViewOf(r, node.id).reputation == ViewOf(Begun(rd, s).roster, node.id).reputation;
  }

  /** Being absent breaks the count of an Included node only when its reputation has not already fallen
      below the least one; below it the node is removed or, when the block has no room for that, left
      as it is, count included. */
  lemma AbsenceBreaksTheCount(rd: Round, s: State, n: NodeId)
    requires Paying(rd) && Snapshot(rd.sub.nodes, s, n) && HasId(rd.sub.nodes, n) && FindScore(rd.sub.data, n).None?
    requires Registered(s, n) && Registered(Distribute(rd, s).0, n) && ClassOf(s, n) == Included
    ensures Get(Distribute(rd, s).0.roster.includedEpochs, n)
            == if s.roster.reputation[n] >= rd.params.minReputation then 0 else Get(s.roster.includedEpochs, n)
  {
    DistributionMoves(rd, s, n);
  }

  // ---- an absence that does not break the count ----

  const APPRENTICE := SubnetNode(2, 2, Classification(Included, 3))

  /** A validator and an apprentice; the validator proposes a score for itself only. */
  function Workshop(): View {
    ViewOfSubnet([Veteran(1, 1), APPRENTICE], [1], None)
  }

  function WorkshopRound(sub: Submission): Round {
    Round(sub, RewardsData(0, 0, 0, 0, 0), PlainParams(5), map[], (id: NodeId) => false)
  }

  /** The apprentice has taken part in seven rounds, and its reputation is below the least one. */
  function WorkshopState(): State {
    State(Roster(map[1 := Veteran(1, 1).classification, 2 := APPRENTICE.classification], map[1 := 1, 2 := 2], map[1 := ONE, 2 := 4],
                 map[], map[2 := 7], [1], None, [], {}),
          Ledger(map[], 0, map[], map[], 0, map[], 0, 0, 0, None), 0, ONE)
  }

  lemma WorkshopSubmits(curves: Curves) returns (sub: Submission)
    ensures Submitted(curves, OneProposal(Workshop(), [Score(1, 1)], None), 5, sub) && Sound(sub)
    ensures sub.nodes == Workshop().active && sub.data == [Score(1, 1)] && sub.weightSum == 1 && sub.attestationRatio == ONE
    ensures sub.prioritize == None && sub.remove == None
  {
    var v := Workshop();
    FilterKeepsBoth(Veteran(1, 1), APPRENTICE, IsActive(v));
    sub := SelfScored(curves, v);
  }

  lemma FilterKeepsBoth(a: SubnetNode, b: SubnetNode, keep: SubnetNode -> bool)
    requires keep(a) && keep(b)
    ensures Filter([a, b], keep) == [a, b]
  {
    assert [a, b][..1] == [a];
    FilterOne(a, keep);
  }

  lemma OverlookedTurn(rd: Round, r: Roster)
    requires rd == WorkshopRound(rd.sub) && ViewOf(r, 2).reputation == Some(4)
    ensures Judge(rd, None, r, APPRENTICE).0 == r
  {
  }

  /** So there is an absence that does not break the count: the submission, which a run stores, has no
      score for the apprentice, and the apprentice stays and keeps its count. */
  lemma AbsenceCanBeOverlooked(curves: Curves) returns (rd: Round, s: State)
    ensures Submitted(curves, OneProposal(Workshop(), [Score(1, 1)], None), 5, rd.sub) && Sound(rd.sub) && Paying(rd)
    ensures Snapshot(rd.sub.nodes, s, 2) && HasId(rd.sub.nodes, 2) && FindScore(rd.sub.data, 2).None?
    ensures Registered(s, 2) && ClassOf(s, 2) == Included && Get(s.roster.includedEpochs, 2) == 7
    ensures Registered(Distribute(rd, s).0, 2) && Get(Distribute(rd, s).0.roster.includedEpochs, 2) == 7
  {
    var sub := WorkshopSubmits(curves);
    rd, s := WorkshopRound(sub), WorkshopState();
    assert sub.nodes[1] == APPRENTICE && APPRENTICE in sub.nodes;
    FindScoreMeaning(sub.data, 2);
    var r := NodeAfterRound(rd, s, 1);
    assert ViewOf(Begun(rd, s).roster, 2) == ViewOf(s.roster, 2);
    OverlookedTurn(rd, r);
    assert ViewOf(Distribute(rd, s).0.roster, 2) == ViewOf(s.roster, 2);
  }
}
