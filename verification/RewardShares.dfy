/** How two layers of rounding down share a reward among scores. */
module RewardShares {
  import opened Collections
  import opened FixedPoint
  import opened ConsensusScores
  import opened Network

  /** The first entry for `id`. */
  function FindScore(data: seq<Score>, id: NodeId): Option<u128> {
    if data == [] then None
    else
      var n := |data| - 1;
      match FindScore(data[..n], id)
      case Some(score) => Some(score)
      case None => if data[n].node == id then Some(data[n].score) else None
  }

  /** The share of `weightSum` that a score is. */
  function Weight(weightSum: u128): u128 -> u128 {
    (score: u128) => PercentDiv(score, weightSum)
  }

  /** What a score earns of `reward` at reward factor 1.0. */
  function Earned(weightSum: u128, reward: u128): u128 -> u128 {
    (score: u128) => PercentMul(PercentDiv(score, weightSum), reward)
  }

  ghost function SumBy(data: seq<Score>, f: u128 -> u128): nat {
    if data == [] then 0 else SumBy(data[..|data| - 1], f) + f(data[|data| - 1].score)
  }

  ghost function Part(data: seq<Score>, f: u128 -> u128, id: NodeId): nat {
    match FindScore(data, id)
    case None => 0
    case Some(score) => f(score)
  }

  /** The parts that a list of nodes has in `data`. */
  ghost function SumOver(nodes: seq<SubnetNode>, data: seq<Score>, f: u128 -> u128): nat {
    if nodes == [] then 0 else SumOver(nodes[..|nodes| - 1], data, f) + Part(data, f, nodes[|nodes| - 1].id)
  }

  ghost predicate HasId(nodes: seq<SubnetNode>, id: NodeId) {
    exists n :: n in nodes && n.id == id
  }

  lemma {:induction false} FindScoreMeaning(data: seq<Score>, id: NodeId)
    ensures FindScore(data, id).Some? ==> Score(id, FindScore(data, id).value) in data
    ensures FindScore(data, id).None? <==> forall e :: e in data ==> e.node != id
  {
    if data != [] {
      var front, last := data[..|data| - 1], data[|data| - 1];
      FindScoreMeaning(front, id);
      assert data == front + [last];
    }
  }

  lemma HasOneMore(nodes: seq<SubnetNode>, id: NodeId)
    requires nodes != []
    ensures HasId(nodes, id) <==> HasId(nodes[..|nodes| - 1], id) || nodes[|nodes| - 1].id == id
  {
    assert nodes == nodes[..|nodes| - 1] + [nodes[|nodes| - 1]];
    assert nodes[|nodes| - 1] in nodes;
  }

  /** One entry more in `data` adds its part at most once, and exactly once when it is the only entry
      of a listed node. */
  lemma {:induction false} OneMoreScore(nodes: seq<SubnetNode>, data: seq<Score>, f: u128 -> u128)
    requires DistinctNodes(nodes) && data != []
    ensures var n := |data| - 1;
            && SumOver(nodes, data, f) <= SumOver(nodes, data[..n], f) + (if HasId(nodes, data[n].node) then f(data[n].score) else 0)
            && (FindScore(data[..n], data[n].node).None? ==>
                  SumOver(nodes, data, f) == SumOver(nodes, data[..n], f) + (if HasId(nodes, data[n].node) then f(data[n].score) else 0))
  {
    if nodes != [] {
      var front, last := nodes[..|nodes| - 1], nodes[|nodes| - 1];
      assert nodes == front + [last];
      LastIsNew(nodes);
      OneMoreScore(front, data, f);
      HasOneMore(nodes, data[|data| - 1].node);
    }
  }

  lemma {:induction false} NodesShareAtMost(nodes: seq<SubnetNode>, data: seq<Score>, f: u128 -> u128)
    requires DistinctNodes(nodes)
    ensures SumOver(nodes, data, f) <= SumBy(data, f)
  {
    if data == [] {
      NothingToShare(nodes, f);
    } else {
      NodesShareAtMost(nodes, data[..|data| - 1], f);
      OneMoreScore(nodes, data, f);
    }
  }

  lemma {:induction false} NothingToShare(nodes: seq<SubnetNode>, f: u128 -> u128)
    ensures SumOver(nodes, [], f) == 0
  {
    if nodes != [] { NothingToShare(nodes[..|nodes| - 1], f); }
  }

  lemma {:induction false} NodesShareExactly(nodes: seq<SubnetNode>, data: seq<Score>, f: u128 -> u128)
    requires DistinctNodes(nodes) && StrictlyAscending(data)
    requires forall e :: e in data ==> HasId(nodes, e.node)
    ensures SumOver(nodes, data, f) == SumBy(data, f)
  {
    if data == [] {
      NothingToShare(nodes, f);
    } else {
      var front, last := data[..|data| - 1], data[|data| - 1];
      assert data == front + [last];
      NodesShareExactly(nodes, front, f);
      OneMoreScore(nodes, data, f);
      FindScoreMeaning(front, last.node);
      assert HasId(nodes, last.node);
    }
  }

  lemma {:induction false} ScoreAtMostSum(data: seq<Score>, e: Score)
    requires e in data
    ensures e.score <= Sum(data)
  {
    var front, last := data[..|data| - 1], data[|data| - 1];
    assert data == front + [last];
    if e != last { ScoreAtMostSum(front, e); }
  }

  // ---- rounding, layer by layer ----

  /** Adding one floor to a total of `n` floors. */
  lemma AddFloor(total: nat, exact: nat, n: nat, floor: nat, part: nat, d: nat)
    requires total * d <= exact && floor * d <= part < (floor + 1) * d
    requires if n == 0 then total == 0 && exact == 0 else exact < (total + n) * d
    ensures (total + floor) * d <= exact + part < (total + floor + n + 1) * d
  {
    Distributes(total, floor, d);
    Distributes(total + n, floor + 1, d);
  }

  lemma {:induction false} WeightsRoundDown(data: seq<Score>, weightSum: u128)
    requires weightSum > 0 && forall e :: e in data ==> e.score <= weightSum
    ensures SumBy(data, Weight(weightSum)) * weightSum <= Sum(data) * ONE
    ensures data != [] ==> Sum(data) * ONE < (SumBy(data, Weight(weightSum)) + |data|) * weightSum
  {
    if data != [] {
      var front, last := data[..|data| - 1], data[|data| - 1];
      assert data == front + [last];
      WeightsRoundDown(front, weightSum);
      PercentDivShare(last.score, weightSum);
      AddFloor(SumBy(front, Weight(weightSum)), Sum(front) * ONE, |front|, Weight(weightSum)(last.score), last.score * ONE, weightSum);
      assert Sum(data) * ONE == Sum(front) * ONE + last.score * ONE;
    }
  }

  lemma EarnedIsFloor(score: u128, weightSum: u128, reward: u128)
    requires weightSum > 0 && score <= weightSum
    ensures var w, a := Weight(weightSum)(score), Earned(weightSum, reward)(score);
            a * ONE <= w * reward < (a + 1) * ONE
  {
    PercentDivShare(score, weightSum);
    var w := PercentDiv(score, weightSum);
    PercentMulComm(w, reward);
    PercentMulShrinks(reward, w);
    assert reward * w == w * reward;
  }

  lemma {:induction false} EarningsRoundDown(data: seq<Score>, weightSum: u128, reward: u128)
    requires weightSum > 0 && forall e :: e in data ==> e.score <= weightSum
    ensures SumBy(data, Earned(weightSum, reward)) * ONE <= SumBy(data, Weight(weightSum)) * reward
    ensures data != [] ==>
              SumBy(data, Weight(weightSum)) * reward < (SumBy(data, Earned(weightSum, reward)) + |data|) * ONE
  {
    if data != [] {
      var front, last := data[..|data| - 1], data[|data| - 1];
      assert data == front + [last];
      EarningsRoundDown(front, weightSum, reward);
      EarnedIsFloor(last.score, weightSum, reward);
      var w, a := Weight(weightSum)(last.score), Earned(weightSum, reward)(last.score);
      var ws, earned := SumBy(front, Weight(weightSum)), SumBy(front, Earned(weightSum, reward));
      Distributes(ws, w, reward);
      AddFloor(earned, ws * reward, |front|, a, w * reward, ONE);
    }
  }

  /** Shared by score, rounding down twice, the nodes together earn at most the reward, whoever is
      listed; and when every score belongs to a listed node they earn less than one share in 1e18 of
      the reward plus one unit per node short of it. */
  lemma SharesAddUp(nodes: seq<SubnetNode>, data: seq<Score>, weightSum: u128, reward: u128)
    requires DistinctNodes(nodes) && weightSum > 0 && Sum(data) == weightSum
    ensures SumOver(nodes, data, Earned(weightSum, reward)) <= reward
    ensures StrictlyAscending(data) && (forall e :: e in data ==> HasId(nodes, e.node)) ==>
              (reward - SumOver(nodes, data, Earned(weightSum, reward))) * ONE < |data| * (reward + ONE)
  {
    forall e | e in data ensures e.score <= weightSum { ScoreAtMostSum(data, e); }
    assert data != [];
    WeightsRoundDown(data, weightSum);
    EarningsRoundDown(data, weightSum, reward);
    NodesShareAtMost(nodes, data, Earned(weightSum, reward));
    var n, w, a := |data|, SumBy(data, Weight(weightSum)), SumBy(data, Earned(weightSum, reward));
    MulCancel(w, ONE, weightSum);
    MulMono(w, reward, ONE, reward);
    MulCancel(a, reward, ONE);
    if StrictlyAscending(data) && forall e :: e in data ==> HasId(nodes, e.node) {
      NodesShareExactly(nodes, data, Earned(weightSum, reward));
      MulCancel(ONE, w + n, weightSum);
      MulMono(ONE, reward, w + n, reward);
      Distributes(w, n, reward);
      Distributes(reward, ONE, n);
    }
  }
}
