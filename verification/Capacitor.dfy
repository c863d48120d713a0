/** The capacitor: rewards held back by consensus, and what becomes of them. */
module Capacitor {
  import opened FixedPoint
  import opened ConsensusScores
  import opened Network
  import opened Rewards
  import opened SubnetRewards

  // ---- one epoch ----

  /** What an epoch brings: what all subnets get, this one's weight, and its submission. */
  datatype Epochal = Epochal(allSubnets: u128, emissionWeight: u128, shares: Shares, sub: Submission, params: Params,
                             validators: map<ValidatorId, ValidatorData>, gate: NodeId -> bool)

  function RoundOf(e: Epochal, s: State): Round {
    Round(e.sub, CalculateRewards(e.shares, e.allSubnets, e.emissionWeight, s.capacitor), e.params, e.validators, e.gate)
  }

  method EmissionStep(subnet: Subnet, e: Epochal) returns (events: Events)
    modifies subnet, subnet.table, subnet.bank
    ensures (subnet.AsState(), events) == Distribute(RoundOf(e, old(subnet.AsState())), old(subnet.AsState()))
  {
    var rewards := CalculateRewards(e.shares, e.allSubnets, e.emissionWeight, subnet.capacitor);
    events := subnet.DistributeRewards(Round(e.sub, rewards, e.params, e.validators, e.gate));
  }

  // ---- whole runs ----

  predicate Withholds(rd: Round) {
    InConsensus(rd) && rd.sub.weightSum == 0
  }

  function NextCapacitor(rd: Round, capacitor: u128): u128 {
    if Paying(rd) then 0 else if Withholds(rd) then SatAdd(capacitor, rd.rewards.overall) else capacitor
  }

  lemma CapacitorStep(rd: Round, s: State)
    ensures Distribute(rd, s).0.capacitor == NextCapacitor(rd, s.capacitor)
  {
  }

  ghost predicate Runs(states: seq<State>, epochs: seq<Epochal>, i: int)
    requires 0 <= i < |epochs| && |states| == |epochs| + 1
  {
    states[i + 1].capacitor == Distribute(RoundOf(epochs[i], states[i]), states[i]).0.capacitor
  }

  /** `states[i]` is where epoch `i` finds the subnet. Between epochs anything may change but the
      capacitor. */
  ghost predicate IsRun(states: seq<State>, epochs: seq<Epochal>) {
    |states| == |epochs| + 1 && forall i :: 0 <= i < |epochs| ==> Runs(states, epochs, i)
  }

  function RoundsOf(states: seq<State>, epochs: seq<Epochal>): (rounds: seq<Round>)
    requires |states| == |epochs| + 1
    ensures |rounds| == |epochs| && forall i :: 0 <= i < |epochs| ==> rounds[i] == RoundOf(epochs[i], states[i])
  {
    seq(|epochs|, (i: int) requires 0 <= i < |epochs| && |states| == |epochs| + 1 => RoundOf(epochs[i], states[i]))
  }

  /** The overall rewards of the rounds from `i` to before `k` that agreed on no scores. */
  function Withheld(rounds: seq<Round>, i: nat, k: nat): nat
    requires i <= k <= |rounds|
  {
    if i == k then 0 else Withheld(rounds, i, k - 1) + (if Withholds(rounds[k - 1]) then rounds[k - 1].rewards.overall else 0)
  }

  function CapacitorsOf(states: seq<State>): (capacitors: seq<u128>)
    ensures |capacitors| == |states| && forall i :: 0 <= i < |states| ==> capacitors[i] == states[i].capacitor
  {
    seq(|states|, (i: int) requires 0 <= i < |states| => states[i].capacitor)
  }

  ghost predicate Follow(capacitors: seq<u128>, rounds: seq<Round>) {
    |capacitors| == |rounds| + 1 && forall i :: 0 <= i < |rounds| ==> capacitors[i + 1] == NextCapacitor(rounds[i], capacitors[i])
  }

  lemma RunFollows(states: seq<State>, epochs: seq<Epochal>)
    requires IsRun(states, epochs)
    ensures Follow(CapacitorsOf(states), RoundsOf(states, epochs))
  {
    forall i | 0 <= i < |epochs|
      ensures states[i + 1].capacitor == NextCapacitor(RoundOf(epochs[i], states[i]), states[i].capacitor)
    {
      assert Runs(states, epochs, i);
      CapacitorStep(RoundOf(epochs[i], states[i]), states[i]);
    }
  }

  ghost predicate NonePaid(rounds: seq<Round>, i: nat, k: nat)
    requires i <= k <= |rounds|
  {
    forall x :: i <= x < k ==> !Paying(rounds[x])
  }

  lemma {:induction false} SaturatingSum(capacitors: seq<u128>, rounds: seq<Round>, i: nat, k: nat)
    requires Follow(capacitors, rounds) && i <= k <= |rounds| && NonePaid(rounds, i, k)
    ensures capacitors[k] == Min(capacitors[i] + Withheld(rounds, i, k), U128_MAX)
  {
    if i < k { SaturatingSum(capacitors, rounds, i, k - 1); }
  }

  /** As long as no round pays, the capacitor is the saturating sum of what it held and of the overall
      rewards of the rounds that agreed on no scores; rounds out of consensus leave it alone. */
  lemma CapacitorSums(states: seq<State>, epochs: seq<Epochal>, i: nat, k: nat)
    requires IsRun(states, epochs) && i <= k <= |epochs| && NonePaid(RoundsOf(states, epochs), i, k)
    ensures states[k].capacitor == Min(states[i].capacitor + Withheld(RoundsOf(states, epochs), i, k), U128_MAX)
  {
    var rounds, capacitors := RoundsOf(states, epochs), CapacitorsOf(states);
    assert Follow(capacitors, rounds) by { RunFollows(states, epochs); }
    SaturatingSum(capacitors, rounds, i, k);
    assert capacitors[i] == states[i].capacitor && capacitors[k] == states[k].capacitor;
  }

  lemma SumSincePaying(capacitors: seq<u128>, rounds: seq<Round>, paid: nat, k: nat)
    requires Follow(capacitors, rounds) && paid < k <= |rounds| && Paying(rounds[paid]) && NonePaid(rounds, paid + 1, k)
    ensures capacitors[k] == Min(Withheld(rounds, paid + 1, k), U128_MAX)
  {
    SaturatingSum(capacitors, rounds, paid + 1, k);
  }

  /** Since the last round that paid, it is the saturating sum of the rewards withheld. */
  lemma CapacitorSincePaying(states: seq<State>, epochs: seq<Epochal>, paid: nat, k: nat)
    requires IsRun(states, epochs) && paid < k <= |epochs|
    requires Paying(RoundsOf(states, epochs)[paid]) && NonePaid(RoundsOf(states, epochs), paid + 1, k)
    ensures states[k].capacitor == Min(Withheld(RoundsOf(states, epochs), paid + 1, k), U128_MAX)
  {
    RunFollows(states, epochs);
    SumSincePaying(CapacitorsOf(states), RoundsOf(states, epochs), paid, k);
  }

  // ---- withheld rewards are not simply kept ----

  lemma FloorOfSum(n: nat, m: nat, d: nat)
    requires d > 0
    ensures (n + m) / d >= n / d
    ensures (n + m) / d == n / d <==> n % d + m < d
  {
    DivBounds(n, d);
    DivBounds(n + m, d);
    DivMono(n, n + m, d);
    var q := n / d;
    Distributes(q, 1, d);
    if n % d + m < d { DivUnique(n + m, d, q); }
  }

  /** What an epoch would have without a capacitor. */
  function OwnReward(e: Epochal): u128 {
    PercentMul(e.allSubnets, e.emissionWeight)
  }

  lemma OverallWithCapacitor(e: Epochal, s: State, counted: nat)
    requires e.emissionWeight <= ONE && counted == Min(s.capacitor, U128_MAX - e.allSubnets)
    ensures OwnReward(e) == e.allSubnets * e.emissionWeight / ONE
    ensures RoundOf(e, s).rewards.overall == (e.allSubnets * e.emissionWeight + counted * e.emissionWeight) / ONE
  {
    PercentMulShrinks(e.allSubnets, e.emissionWeight);
    PercentMulShrinks(e.allSubnets + counted, e.emissionWeight);
    Distributes(e.allSubnets, counted, e.emissionWeight);
  }

  /** A withheld reward was computed from the capacitor and is added to it, so that what is held earns
      again: the capacitor grows by just this epoch's own reward exactly when the weighted capacitor
      does not reach the next unit, or nothing more fits in it. */
  lemma WithheldIsNotCompoundedIff(e: Epochal, s: State)
    requires Withholds(RoundOf(e, s)) && e.emissionWeight <= ONE
    ensures var counted := Min(s.capacitor, U128_MAX - e.allSubnets);
            NextCapacitor(RoundOf(e, s), s.capacitor) == SatAdd(s.capacitor, OwnReward(e))
            <==> s.capacitor + OwnReward(e) >= U128_MAX || e.allSubnets * e.emissionWeight % ONE + counted * e.emissionWeight < ONE
  {
    var counted := Min(s.capacitor, U128_MAX - e.allSubnets);
    OverallWithCapacitor(e, s, counted);
    FloorOfSum(e.allSubnets * e.emissionWeight, counted * e.emissionWeight, ONE);
  }

  /** When rewards are paid again the capacitor is emptied, but only its weighted part joins them: what
      is released is the epoch's own reward and all that was held exactly when the capacitor can be
      added in full, and rounding makes up for the rest of what was held, as it does when there is no
      rest. */
  lemma HeldIsReleasedInFullIff(e: Epochal, s: State)
    requires e.emissionWeight <= ONE
    ensures RoundOf(e, s).rewards.overall <= OwnReward(e) + s.capacitor
    ensures RoundOf(e, s).rewards.overall == OwnReward(e) + s.capacitor
            <==> e.allSubnets + s.capacitor <= U128_MAX
                 && s.capacitor * (ONE - e.emissionWeight) <= e.allSubnets * e.emissionWeight % ONE
    ensures Paying(RoundOf(e, s)) ==> NextCapacitor(RoundOf(e, s), s.capacitor) == 0
  {
    var counted := Min(s.capacitor, U128_MAX - e.allSubnets);
    OverallWithCapacitor(e, s, counted);
    WeightedRest(e.allSubnets * e.emissionWeight, counted, e.emissionWeight);
  }

  lemma WeightedRest(n: nat, held: nat, weight: nat)
    requires weight <= ONE
    ensures (n + held * weight) / ONE <= n / ONE + held
    ensures (n + held * weight) / ONE == n / ONE + held <==> held * (ONE - weight) <= n % ONE
  {
    var lost := held * (ONE - weight);
    Distributes(weight, ONE - weight, held);
    RestOf(n, held, lost, n + held * weight);
  }

  lemma RestOf(n: nat, held: nat, lost: nat, total: nat)
    requires total + lost == n + held * ONE
    ensures total / ONE <= n / ONE + held
    ensures total / ONE == n / ONE + held <==> lost <= n % ONE
  {
    var q := n / ONE + held;
    assert n + held * ONE == q * ONE + n % ONE;
    if lost <= n % ONE {
      DivUnique(total, ONE, q);
    } else {
      DivBelow(total, ONE, q);
    }
  }

  /** For example: of 100 for all subnets at weight 0.5 a first epoch withholds 50, and a second makes
      that 125 where two rewards of 50 would be 100. */
  lemma HeldRewardsCompound(e: Epochal, s: State, s': State)
    requires e.allSubnets == 100 && e.emissionWeight == HALF_PERCENT && s.capacitor == 0
    requires Withholds(RoundOf(e, s)) && s'.capacitor == Distribute(RoundOf(e, s), s).0.capacitor
    ensures s'.capacitor == 50 && Distribute(RoundOf(e, s'), s').0.capacitor == 125
  {
    CapacitorStep(RoundOf(e, s), s);
    CapacitorStep(RoundOf(e, s'), s');
    OverallWithCapacitor(e, s, 0);
    OverallWithCapacitor(e, s', 50);
  }

  /** And when the second epoch pays instead, it releases 75 where its own reward and the 50 that were held
      would be 100, and nothing is left in the capacitor. */
  lemma HeldRewardsAreLost(e: Epochal, s: State, paying: Submission, s': State)
    requires e.allSubnets == 100 && e.emissionWeight == HALF_PERCENT && s.capacitor == 0
    requires Withholds(RoundOf(e, s)) && s'.capacitor == Distribute(RoundOf(e, s), s).0.capacitor
    requires Paying(RoundOf(e.(sub := paying), s'))
    ensures s'.capacitor == 50 && OwnReward(e.(sub := paying)) == 50
    ensures RoundOf(e.(sub := paying), s').rewards.overall == 75
    ensures Distribute(RoundOf(e.(sub := paying), s'), s').0.capacitor == 0
  {
    CapacitorStep(RoundOf(e, s), s);
    CapacitorStep(RoundOf(e.(sub := paying), s'), s');
    OverallWithCapacitor(e, s, 0);
    OverallWithCapacitor(e.(sub := paying), s', 50);
  }
}
