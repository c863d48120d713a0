/** How much a proposer can lose for a proposal that was not attested. */
module SlashTheorems {
  import opened Collections
  import opened FixedPoint
  import opened ConsensusScores
  import opened Network
  import opened Rewards
  import opened RewardEmission
  import opened Attestation
  import opened AttestationTheorems

  /** A slash is at most the cap, and with a base slash of at most 1.0 at most the stake. */
  lemma SlashBounds(p: Params, stake: u128, shortfall: u128)
    requires shortfall <= ONE
    ensures SlashAmount(p, stake, shortfall) <= p.maxSlash
    ensures p.baseSlash <= ONE ==> SlashAmount(p, stake, shortfall) <= stake
  {
    PercentMulShrinks(PercentMul(stake, p.baseSlash), shortfall);
    if p.baseSlash <= ONE { PercentMulShrinks(stake, p.baseSlash); }
  }

  /** The better a proposal was attested, the less its proposer loses. */
  lemma SlashFallsWithAttestation(p: Params, stake: u128, ratio: u128, ratio': u128)
    requires ratio <= ratio'
    ensures SlashAmount(p, stake, ShortOf(p, ratio')) <= SlashAmount(p, stake, ShortOf(p, ratio))
  {
    PercentDivMono(ratio, ratio', p.minAttestation);
    var base := PercentMul(stake, p.baseSlash);
    PercentMulMono(base, base, ShortOf(p, ratio'), ShortOf(p, ratio));
  }

  // ---- when a slash exceeds the stake ----

  ghost predicate WithinStake(p: Params, shortfall: u128) {
    forall stake: u128 :: SlashAmount(p, stake, shortfall) <= stake
  }

  /** The base slash is at most `q`, or the cap too low for it to matter. */
  predicate BaseFits(p: Params, q: nat) {
    p.baseSlash <= q * ONE || p.maxSlash == 0 || (p.maxSlash - 1) * (p.baseSlash - q * ONE) < q * ONE
  }

  /** The largest share `q` for which the arithmetic below cannot saturate. */
  const MAX_SHARE: nat := 1_000_000_000

  /** Scaling by the `q`-th part of 1.0 divides by `q`. */
  lemma ScaledByShare(x: u128, share: u128, q: nat)
    requires q > 0 && share * q == ONE
    ensures PercentMul(x, share) == x / q
  {
    assert share <= ONE by { MulMono(share, 1, share, q); }
    PercentMulShrinks(x, share);
    DivBounds(x, q);
    var k := x / q;
    ShareOfBounds(x, k, q, share);
    DivUnique(x * share, ONE, k);
  }

  lemma ShareOfBounds(x: nat, k: nat, q: nat, share: nat)
    requires share * q == ONE && share > 0 && k * q <= x < (k + 1) * q
    ensures k * ONE <= x * share < (k + 1) * ONE
  {
    MulMono(k * q, share, x, share);
    MulMono(x + 1, share, (k + 1) * q, share);
    Distributes(x, 1, share);
    MulAssoc(k, q, share);
    MulAssoc(k + 1, q, share);
    assert q * share == share * q;
  }

  lemma TwoFloors(n: nat, d: nat, q: nat)
    requires d > 0 && q > 0
    ensures n / d / q == n / (q * d)
  {
    var x, k := n / d, n / d / q;
    DivBounds(n, d);
    DivBounds(x, q);
    MulMono(k * q, d, x, d);
    MulMono(x + 1, d, (k + 1) * q, d);
    MulAssoc(k, q, d);
    MulAssoc(k + 1, q, d);
    MulMono(1, 1, q, d);
    DivUnique(n, q * d, k);
  }

  /** Without saturation, a slash before the cap is the floor of the exact amount. */
  lemma SlashIsFloor(p: Params, stake: u128, shortfall: u128, q: nat)
    requires q > 0 && shortfall * q == ONE
    ensures PercentMul(PercentMul(stake, p.baseSlash), shortfall) <= stake * p.baseSlash / (q * ONE)
    ensures stake * p.baseSlash / ONE <= U128_MAX ==>
              PercentMul(PercentMul(stake, p.baseSlash), shortfall) == stake * p.baseSlash / (q * ONE)
  {
    PercentMulIsFloor(stake, p.baseSlash);
    var exact := stake * p.baseSlash / ONE;
    ScaledByShare(PercentMul(stake, p.baseSlash), shortfall, q);
    TwoFloors(stake * p.baseSlash, ONE, q);
    DivMono(PercentMul(stake, p.baseSlash), exact, q);
  }

  lemma SmallExcess(stake: nat, base: nat, unit: nat, excess: nat)
    requires unit > 0 && base == unit + excess
    ensures stake * excess < unit ==> stake * base / unit <= stake
    ensures stake * excess >= unit ==> stake * base / unit > stake
  {
    Distributes(unit, excess, stake);
    Distributes(stake, 1, unit);
    if stake * excess < unit {
      DivBelow(stake * base, unit, stake + 1);
    } else {
      DivMono((stake + 1) * unit, stake * base, unit);
      DivUnique((stake + 1) * unit, unit, stake + 1);
    }
  }

  lemma FitsWithin(p: Params, shortfall: u128, q: nat, stake: u128)
    requires q > 0 && shortfall * q == ONE && BaseFits(p, q)
    ensures SlashAmount(p, stake, shortfall) <= stake
  {
    if stake < p.maxSlash {
      var unit := q * ONE;
      SlashIsFloor(p, stake, shortfall, q);
      if p.baseSlash <= unit {
        MulMono(stake, p.baseSlash, stake, unit);
        DivMono(stake * p.baseSlash, stake * unit, unit);
        DivUnique(stake * unit, unit, stake);
      } else {
        var excess := p.baseSlash - unit;
        MulMono(stake, excess, p.maxSlash - 1, excess);
        SmallExcess(stake, p.baseSlash, unit, excess);
      }
    }
  }

  /** The smallest stake whose slash exceeds it. */
  lemma LeastOverSlashed(unit: nat, excess: nat, top: nat) returns (stake: nat)
    requires excess > 0 && top * excess >= unit > 0
    ensures stake <= top && stake <= unit && unit <= stake * excess < unit + excess
  {
    DivBounds(unit + excess - 1, excess);
    stake := (unit + excess - 1) / excess;
    Distributes(stake, 1, excess);
    Distributes(top, 1, excess);
    Distributes(unit, 1, excess);
    MulMono(unit, 1, unit, excess);
    MulLess(stake, top + 1, excess);
    MulLess(stake, unit + 1, excess);
  }

  lemma DoesNotSaturate(stake: nat, base: nat, unit: nat, excess: nat)
    requires stake <= unit <= MAX_SHARE * ONE && base == unit + excess <= U128_MAX && stake * excess < unit + excess
    ensures stake * base / ONE <= U128_MAX
  {
    assert stake * base == stake * unit + stake * excess;
    MulMono(stake, unit, MAX_SHARE * ONE, MAX_SHARE * ONE);
    DivBelow(stake * base, ONE, U128_MAX + 1);
  }

  lemma ExceedsWhenUnfit(p: Params, shortfall: u128, q: nat) returns (stake: u128)
    requires 0 < q <= MAX_SHARE && shortfall * q == ONE && !BaseFits(p, q)
    ensures SlashAmount(p, stake, shortfall) > stake
  {
    var unit := q * ONE;
    var excess := p.baseSlash - unit;
    MulMono(q, ONE, MAX_SHARE, ONE);
    stake := LeastOverSlashed(unit, excess, p.maxSlash - 1);
    DoesNotSaturate(stake, p.baseSlash, unit, excess);
    SlashIsFloor(p, stake, shortfall, q);
    SmallExcess(stake, p.baseSlash, unit, excess);
  }

  /** At a shortfall of one `q`-th no stake is slashed by more than itself exactly when the base slash is
      at most `q`, or the cap is too low for it to matter. */
  lemma WithinStakeAtShareIff(p: Params, shortfall: u128, q: nat)
    requires 0 < q <= MAX_SHARE && shortfall * q == ONE
    ensures WithinStake(p, shortfall) <==> BaseFits(p, q)
  {
    if BaseFits(p, q) {
      forall stake: u128 ensures SlashAmount(p, stake, shortfall) <= stake { FitsWithin(p, shortfall, q, stake); }
    } else {
      var stake := ExceedsWhenUnfit(p, shortfall, q);
    }
  }

  /** Nothing bounds the base slash percentage where it is set. At no attestation ratio is any stake
      slashed by more than itself exactly when the percentage is at most 1.0, or the cap is too low for
      it to matter. */
  lemma SlashWithinStakeIff(p: Params)
    ensures (forall stake: u128, ratio: u128 :: SlashAmount(p, stake, ShortOf(p, ratio)) <= stake) <==> BaseFits(p, 1)
  {
    assert ShortOf(p, 0) == ONE;
    if BaseFits(p, 1) {
      forall stake: u128, ratio: u128 ensures SlashAmount(p, stake, ShortOf(p, ratio)) <= stake {
        FitsWithin(p, ONE, 1, stake);
        SlashFallsWithAttestation(p, stake, 0, ratio);
      }
    } else {
      var stake := ExceedsWhenUnfit(p, ONE, 1);
      assert SlashAmount(p, stake, ShortOf(p, 0)) > stake;
    }
  }

  // ---- runs that end there ----

  const TWO_THIRDS: u128 := 666_666_666_666_666_666

  lemma HalfShort(p: Params)
    requires p.minAttestation == TWO_THIRDS
    ensures PercentDiv(1, 3) < TWO_THIRDS && ShortOf(p, PercentDiv(1, 3)) == HALF_PERCENT
  {
    assert PercentDiv(1, 3) == 333_333_333_333_333_333;
  }

  lemma ThreeAttestors()
    ensures |Elements<NodeId>([1, 2, 3])| == 3
  {
    DistinctSize<NodeId>([1, 2, 3]);
  }

  lemma ThirdIsShare()
    ensures Min(PercentDiv(1, Width(3)), ONE) == PercentDiv(1, 3)
  {
    PercentDivShare(1, 3);
  }

  /** Three validators, all with election slots. */
  function ThreeValidators(): View {
    ViewOfSubnet([Veteran(1, 1), Veteran(2, 2), Veteran(3, 3)], [1, 2, 3], None)
  }

  lemma OneOfThree(curves: Curves) returns (sub: Submission)
    ensures Submitted(curves, OneProposal(ThreeValidators(), [], None), 5, sub)
    ensures sub.attestationRatio == PercentDiv(1, 3)
  {
    ThreeAttestors();
    ThirdIsShare();
    assert Canonical([]) == Ok(([], 0));
    sub := SoloProposal(curves, ThreeValidators(), [], None);
  }

  /** Where consensus takes two thirds, a proposal that one of three validators stands behind is slashed
      at a shortfall of one half: by more than some stake exactly when the base slash is above 2.0 and
      the cap high enough. */
  lemma OverSlashIsReached(curves: Curves, p: Params) returns (sub: Submission)
    requires p.minAttestation == TWO_THIRDS
    ensures Submitted(curves, OneProposal(ThreeValidators(), [], None), 5, sub)
    ensures sub.attestationRatio < p.minAttestation
    ensures WithinStake(p, ShortOf(p, sub.attestationRatio)) <==> BaseFits(p, 2)
  {
    sub := OneOfThree(curves);
    HalfShort(p);
    WithinStakeAtShareIff(p, HALF_PERCENT, 2);
  }

  /** A fork whose validators have all been removed, with the proposer elected from the slots. */
  function DesertedFork(): View {
    ViewOfSubnet([Veteran(1, 1)], [1], Some([]))
  }

  /** Once a fork has no validators left it takes no more than a base slash above 1.0. */
  lemma OverSlashInDesertedFork(curves: Curves, p: Params) returns (sub: Submission)
    ensures Submitted(curves, OneProposal(DesertedFork(), [], None), 5, sub)
    ensures sub.attestationRatio == 0
    ensures WithinStake(p, ShortOf(p, sub.attestationRatio)) <==> BaseFits(p, 1)
  {
    DistinctSize<NodeId>([]);
    assert Canonical([]) == Ok(([], 0));
    sub := SoloProposal(curves, DesertedFork(), [], None);
    WithinStakeAtShareIff(p, ONE, 1);
  }

  // ---- the total after a slash ----

  /** A slash takes its whole amount off the total, but no more off the stake than there is: after a
      round out of consensus the totals still agree with their entries exactly when the slash is at most
      the stake, or nobody else has any. */
  lemma TotalsAgreeAfterSlashIff(rd: Round, s: State)
    requires !InConsensus(rd) && TotalsAgree(s.ledger)
    ensures TotalsAgree(Distribute(rd, s).0.ledger) <==>
              || SlashAmount(rd.params, Get(s.ledger.stake, rd.sub.proposer), Shortfall(rd)) <= Get(s.ledger.stake, rd.sub.proposer)
              || Total(s.ledger.stake) == Get(s.ledger.stake, rd.sub.proposer)
  {
    var stake := Get(s.ledger.stake, rd.sub.proposer);
    var amount := SlashAmount(rd.params, stake, Shortfall(rd));
    EntryAtMostTotal(s.ledger.stake, rd.sub.proposer);
    TotalPut(s.ledger.stake, rd.sub.proposer, SatSub(stake, amount));
  }
}
