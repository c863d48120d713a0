/** The collective pallet: motions, votes that can be switched, and membership that changes while
    votes are open. */
module Collective {
  import opened Collections

  type Account = nat
  type Hash = nat
  type Block = nat

  datatype Votes = Votes(index: nat, threshold: nat, ayes: seq<Account>, nays: seq<Account>, end: Block)

  /** A call under vote: its encoded length and its dispatch weight. */
  datatype Proposal = Proposal(content: nat, length: nat, weight: nat)

  datatype DefaultVote = PrimeDefaultVote | MoreThanMajorityThenPrimeDefaultVote

  datatype Config = Config(hashOf: Proposal -> Hash, motionDuration: Block, maxProposals: nat, maxMembers: nat,
                           maxProposalWeight: nat, defaultVote: DefaultVote)

  datatype State = State(proposals: seq<Hash>, proposalOf: map<Hash, Proposal>, voting: map<Hash, Votes>,
                         proposalCount: nat, members: seq<Account>, prime: Option<Account>, block: Block)

  datatype Error =
    | NotMember | DuplicateProposal | ProposalMissing | WrongIndex | DuplicateVote | TooEarly
    | TooManyProposals | WrongProposalWeight | WrongProposalLength | PrimeAccountNotMember

  /** `Closed` tells the index of the motion and whether it was approved, hence executed. */
  datatype Outcome =
    | Rejected(error: Error) | Proposed(index: nat) | Executed | Voted(first: bool)
    | Closed(index: nat, approved: bool) | Disapproved | MembersSet | Elsewhere

  /** The calls that need no signed origin. A dispatched proposal, which runs under the collective's
      own origin, can reach only these. */
  datatype RootCall = SetMembers(newMembers: seq<Account>, prime: Option<Account>) | DisapproveProposal(hash: Hash)

  /** The pallet's calls. `effect` is what the dispatched proposal does to this pallet. */
  datatype Call =
    | Execute(who: Account, proposal: Proposal, lengthBound: nat, effect: seq<RootCall>)
    | Propose(who: Account, threshold: nat, proposal: Proposal, lengthBound: nat, effect: seq<RootCall>)
    | Vote(who: Account, hash: Hash, index: nat, approve: bool)
    | Close(hash: Hash, index: nat, weightBound: nat, lengthBound: nat, effect: seq<RootCall>)
    | Root(call: RootCall)
    | NextBlock

  // ---- sorted member lists ----

  /** The members that leave, by the sorted merge of the old list with the new. */
  function Outgoing(renewed: seq<Account>, former: seq<Account>): seq<Account>
    decreases |renewed| + |former|
  {
    if former == [] then []
    else if renewed == [] then former
    else if former[0] == renewed[0] then Outgoing(renewed[1..], former[1..])
    else if former[0] < renewed[0] then [former[0]] + Outgoing(renewed, former[1..])
    else Outgoing(renewed[1..], former)
  }

  /** Whoever is not in the new list is among those leaving, repetitions or not. */
  lemma {:induction false} OutgoingCoversDropped(renewed: seq<Account>, former: seq<Account>, x: Account)
    requires Sorted(renewed) && Sorted(former) && x in former && x !in renewed
    ensures x in Outgoing(renewed, former)
    decreases |renewed| + |former|
  {
    assert former == [former[0]] + former[1..];
    if renewed != [] {
      assert renewed == [renewed[0]] + renewed[1..];
      if former[0] == renewed[0] {
        OutgoingCoversDropped(renewed[1..], former[1..], x);
      } else if former[0] < renewed[0] {
        if x != former[0] { OutgoingCoversDropped(renewed, former[1..], x); }
      } else {
        OutgoingCoversDropped(renewed[1..], former, x);
      }
    }
  }

  /** Binary search for `x`, by halving. */
  predicate SearchFinds(s: seq<Account>, x: Account) {
    if s == [] then false
    else
      var mid := |s| / 2;
      if s[mid] == x then true
      else if s[mid] < x then SearchFinds(s[mid + 1..], x)
      else SearchFinds(s[..mid], x)
  }

  lemma {:induction false} SearchDecidesMembership(s: seq<Account>, x: Account)
    requires Sorted(s)
    ensures SearchFinds(s, x) <==> x in s
  {
    if s != [] {
      var mid := |s| / 2;
      assert s == s[..mid] + [s[mid]] + s[mid + 1..];
      SearchDecidesMembership(s[mid + 1..], x);
      SearchDecidesMembership(s[..mid], x);
    }
  }

  // ---- what each call does ----

  function Staying(outgoing: seq<Account>): Account -> bool {
    (a: Account) => !SearchFinds(Sort(outgoing), a)
  }

  function Purge(v: Votes, outgoing: seq<Account>): Votes {
    v.(ayes := Filter(v.ayes, Staying(outgoing)), nays := Filter(v.nays, Staying(outgoing)))
  }

  function ChangeMembers(s: State, outgoing: seq<Account>, renewed: seq<Account>): State {
    s.(voting := map h | h in s.voting :: if h in s.proposals then Purge(s.voting[h], outgoing) else s.voting[h],
       members := renewed,
       prime := None)
  }

  function SetMembersStep(s: State, newMembers: seq<Account>, prime: Option<Account>): (State, Outcome) {
    if prime.Some? && prime.value !in newMembers then (s, Rejected(PrimeAccountNotMember))
    else
      var renewed := Sort(newMembers);
      (ChangeMembers(s, Outgoing(renewed, s.members), renewed).(prime := prime), MembersSet)
  }

  function WithoutProposal(s: State, hash: Hash): State {
    s.(proposalOf := s.proposalOf - {hash}, voting := s.voting - {hash},
       proposals := Filter(s.proposals, (h: Hash) => h != hash))
  }

  function RootStep(s: State, call: RootCall): (State, Outcome) {
    match call
    case SetMembers(newMembers, prime) => SetMembersStep(s, newMembers, prime)
    case DisapproveProposal(hash) => (WithoutProposal(s, hash), Disapproved)
  }

  function Dispatch(s: State, effect: seq<RootCall>): State {
    if effect == [] then s else RootStep(Dispatch(s, effect[..|effect| - 1]), effect[|effect| - 1]).0
  }

  function ExecuteStep(s: State, who: Account, proposal: Proposal, lengthBound: nat, effect: seq<RootCall>): (State, Outcome) {
    if who !in s.members then (s, Rejected(NotMember))
    else if proposal.length > lengthBound then (s, Rejected(WrongProposalLength))
    else (Dispatch(s, effect), Executed)
  }

  function ProposeStep(cfg: Config, s: State, who: Account, threshold: nat, proposal: Proposal,
                       lengthBound: nat, effect: seq<RootCall>): (State, Outcome)
  {
    var hash := cfg.hashOf(proposal);
    if who !in s.members then (s, Rejected(NotMember))
    else if proposal.length > lengthBound then (s, Rejected(WrongProposalLength))
    else if proposal.weight > cfg.maxProposalWeight then (s, Rejected(WrongProposalWeight))
    else if hash in s.proposalOf then (s, Rejected(DuplicateProposal))
    else if threshold < 2 then (Dispatch(s, effect), Executed)
    else if |s.proposals| >= cfg.maxProposals then (s, Rejected(TooManyProposals))
    else
      (s.(proposals := s.proposals + [hash],
          proposalOf := s.proposalOf[hash := proposal],
          voting := s.voting[hash := Votes(s.proposalCount, threshold, [], [], s.block + cfg.motionDuration)],
          proposalCount := s.proposalCount + 1),
       Proposed(s.proposalCount))
  }

  function VoteStep(s: State, who: Account, hash: Hash, index: nat, approve: bool): (State, Outcome) {
    if who !in s.members then (s, Rejected(NotMember))
    else if hash !in s.voting then (s, Rejected(ProposalMissing))
    else
      var v := s.voting[hash];
      var first := who !in v.ayes && who !in v.nays;
      if v.index != index then (s, Rejected(WrongIndex))
      else if who in (if approve then v.ayes else v.nays) then (s, Rejected(DuplicateVote))
      else if approve then
        (s.(voting := s.voting[hash := v.(ayes := v.ayes + [who], nays := Without(v.nays, who))]), Voted(first))
      else
        (s.(voting := s.voting[hash := v.(nays := v.nays + [who], ayes := Without(v.ayes, who))]), Voted(first))
  }

  function DefaultFor(cfg: Config, primeVote: Option<bool>, yes: nat, len: nat): bool {
    var prime := primeVote.Some? && primeVote.value;
    match cfg.defaultVote
    case PrimeDefaultVote => prime
    case MoreThanMajorityThenPrimeDefaultVote => yes * 2 > len || prime
  }

  predicate EarlyApproved(v: Votes, seats: nat) {
    |v.ayes| >= v.threshold
  }

  predicate EarlyDisapproved(v: Votes, seats: nat) {
    (if seats <= |v.nays| then 0 else seats - |v.nays|) < v.threshold
  }

  function Abstentions(v: Votes, seats: nat): int {
    seats - (|v.ayes| + |v.nays|)
  }

  predicate LateApproved(v: Votes, seats: nat, default: bool) {
    |v.ayes| + (if default then Abstentions(v, seats) else 0) >= v.threshold
  }

  /** Whether closing now would approve the motion; `None` while it is too early to say. */
  function Verdict(cfg: Config, s: State, v: Votes): Option<bool> {
    var seats := |s.members|;
    var primeVote := if s.prime.Some? then Some(s.prime.value in v.ayes) else None;
    if EarlyApproved(v, seats) then Some(true)
    else if EarlyDisapproved(v, seats) then Some(false)
    else if s.block < v.end then None
    else Some(LateApproved(v, seats, DefaultFor(cfg, primeVote, |v.ayes|, seats)))
  }

  function CloseStep(cfg: Config, s: State, hash: Hash, index: nat, weightBound: nat, lengthBound: nat,
                     effect: seq<RootCall>): (State, Outcome)
  {
    if hash !in s.voting then (s, Rejected(ProposalMissing))
    else if s.voting[hash].index != index then (s, Rejected(WrongIndex))
    else
      match Verdict(cfg, s, s.voting[hash])
      case None => (s, Rejected(TooEarly))
      case Some(false) => (WithoutProposal(s, hash), Closed(index, false))
      case Some(true) =>
        if hash !in s.proposalOf then (s, Rejected(ProposalMissing))
        else if s.proposalOf[hash].length > lengthBound then (s, Rejected(WrongProposalLength))
        else if s.proposalOf[hash].weight > weightBound then (s, Rejected(WrongProposalWeight))
        else (WithoutProposal(Dispatch(s, effect), hash), Closed(index, true))
  }

  function Step(cfg: Config, s: State, call: Call): (State, Outcome) {
    match call
    case Execute(who, proposal, lengthBound, effect) => ExecuteStep(s, who, proposal, lengthBound, effect)
    case Propose(who, threshold, proposal, lengthBound, effect) =>
      ProposeStep(cfg, s, who, threshold, proposal, lengthBound, effect)
    case Vote(who, hash, index, approve) => VoteStep(s, who, hash, index, approve)
    case Close(hash, index, weightBound, lengthBound, effect) =>
      CloseStep(cfg, s, hash, index, weightBound, lengthBound, effect)
    case Root(rootCall) => RootStep(s, rootCall)
    case NextBlock => (s.(block := s.block + 1), Elsewhere)
  }

  // ---- the pallet, as it updates its storage ----

  class Pallet {
    const cfg: Config
    var proposals: seq<Hash>
    var proposalOf: map<Hash, Proposal>
    var voting: map<Hash, Votes>
    var proposalCount: nat
    var members: seq<Account>
    var prime: Option<Account>
    var block: Block

    ghost function Storage(): State
      reads this
    {
      State(proposals, proposalOf, voting, proposalCount, members, prime, block)
    }

    constructor (cfg: Config, members: seq<Account>, block: Block)
      ensures this.cfg == cfg
      ensures Storage() == State([], map[], map[], 0, Sort(members), None, block)
    {
      this.cfg, this.members, this.block := cfg, Sort(members), block;
      proposals, proposalOf, voting, proposalCount, prime := [], map[], map[], 0, None;
    }

    /** Drops the votes of the leaving accounts from every open motion. */
    method ChangeMembersSorted(outgoing: seq<Account>, renewed: seq<Account>)
      modifies this`voting, this`members, this`prime
      ensures Storage() == ChangeMembers(old(Storage()), outgoing, renewed)
    {
      var k := 0;
      while k < |proposals|
        invariant 0 <= k <= |proposals|
        invariant voting.Keys == old(voting).Keys
        invariant forall h :: h in voting ==>
                    voting[h] == if h in proposals[..k] then Purge(old(voting)[h], outgoing) else old(voting)[h]
      {
        var h := proposals[k];
        if h in voting && h !in proposals[..k] {
          var votes := voting[h];
          votes := votes.(ayes := Filter(votes.ayes, Staying(outgoing)));
          votes := votes.(nays := Filter(votes.nays, Staying(outgoing)));
          voting := voting[h := votes];
        }
        k := k + 1;
      }
      assert proposals[..k] == proposals;
      members := renewed;
      prime := None;
    }

    method SetMembers(newMembers: seq<Account>, newPrime: Option<Account>) returns (outcome: Outcome)
      modifies this`voting, this`members, this`prime
      ensures (Storage(), outcome) == SetMembersStep(old(Storage()), newMembers, newPrime)
    {
      if newPrime.Some? && newPrime.value !in newMembers {
        return Rejected(PrimeAccountNotMember);
      }
      var renewed := Sort(newMembers);
      ChangeMembersSorted(Outgoing(renewed, members), renewed);
      prime := newPrime;
      return MembersSet;
    }

    method RemoveProposal(hash: Hash)
      modifies this`proposals, this`proposalOf, this`voting
      ensures Storage() == WithoutProposal(old(Storage()), hash)
    {
      proposalOf := proposalOf - {hash};
      voting := voting - {hash};
      proposals := Filter(proposals, (h: Hash) => h != hash);
    }

    method DispatchEffect(effect: seq<RootCall>)
      modifies this`proposals, this`proposalOf, this`voting, this`members, this`prime
      ensures Storage() == Dispatch(old(Storage()), effect)
    {
      var k := 0;
      while k < |effect|
        invariant 0 <= k <= |effect|
        invariant Storage() == Dispatch(old(Storage()), effect[..k])
      {
        match effect[k] {
          case SetMembers(newMembers, newPrime) => var _ := SetMembers(newMembers, newPrime);
          case DisapproveProposal(hash) => RemoveProposal(hash);
        }
        assert effect[..k + 1][..k] == effect[..k];
        k := k + 1;
      }
      assert effect[..k] == effect;
    }

    method ExecuteProposal(who: Account, proposal: Proposal, lengthBound: nat, effect: seq<RootCall>) returns (outcome: Outcome)
      modifies this
      ensures (Storage(), outcome) == ExecuteStep(old(Storage()), who, proposal, lengthBound, effect)
    {
      if who !in members {
        return Rejected(NotMember);
      }
      if proposal.length > lengthBound {
        return Rejected(WrongProposalLength);
      }
      DispatchEffect(effect);
      return Executed;
    }

    method ProposeMotion(who: Account, threshold: nat, proposal: Proposal, lengthBound: nat, effect: seq<RootCall>)
      returns (outcome: Outcome)
      modifies this
      ensures (Storage(), outcome) == ProposeStep(cfg, old(Storage()), who, threshold, proposal, lengthBound, effect)
    {
      if who !in members {
        return Rejected(NotMember);
      }
      if proposal.length > lengthBound {
        return Rejected(WrongProposalLength);
      }
      if proposal.weight > cfg.maxProposalWeight {
        return Rejected(WrongProposalWeight);
      }
      var hash := cfg.hashOf(proposal);
      if hash in proposalOf {
        return Rejected(DuplicateProposal);
      }
      if threshold < 2 {
        DispatchEffect(effect);
        return Executed;
      }
      if |proposals| >= cfg.maxProposals {
        return Rejected(TooManyProposals);
      }
      proposals := proposals + [hash];
      var index := proposalCount;
      proposalCount := proposalCount + 1;
      proposalOf := proposalOf[hash := proposal];
      voting := voting[hash := Votes(index, threshold, [], [], block + cfg.motionDuration)];
      return Proposed(index);
    }

    method CastVote(who: Account, hash: Hash, index: nat, approve: bool) returns (outcome: Outcome)
      modifies this`voting
      ensures (Storage(), outcome) == VoteStep(old(Storage()), who, hash, index, approve)
    {
      if who !in members {
        return Rejected(NotMember);
      }
      if hash !in voting {
        return Rejected(ProposalMissing);
      }
      var votes := voting[hash];
      if votes.index != index {
        return Rejected(WrongIndex);
      }
      var positionYes, positionNo := Position(votes.ayes, who), Position(votes.nays, who);
      var first := positionYes.None? && positionNo.None?;
      if approve {
        if positionYes.Some? {
          return Rejected(DuplicateVote);
        }
        votes := votes.(ayes := votes.ayes + [who]);
        if positionNo.Some? {
          votes := votes.(nays := SwapRemove(votes.nays, positionNo.value));
        }
      } else {
        if positionNo.Some? {
          return Rejected(DuplicateVote);
        }
        votes := votes.(nays := votes.nays + [who]);
        if positionYes.Some? {
          votes := votes.(ayes := SwapRemove(votes.ayes, positionYes.value));
        }
      }
      voting := voting[hash := votes];
      return Voted(first);
    }

    method CloseMotion(hash: Hash, index: nat, weightBound: nat, lengthBound: nat, effect: seq<RootCall>)
      returns (outcome: Outcome)
      modifies this
      ensures (Storage(), outcome) == CloseStep(cfg, old(Storage()), hash, index, weightBound, lengthBound, effect)
    {
      if hash !in voting {
        return Rejected(ProposalMissing);
      }
      var votes := voting[hash];
      if votes.index != index {
        return Rejected(WrongIndex);
      }
      var no, yes, seats := |votes.nays|, |votes.ayes|, |members|;
      var approved := yes >= votes.threshold;
      var disapproved := (if seats <= no then 0 else seats - no) < votes.threshold;
      if !approved && !disapproved {
        if block < votes.end {
          return Rejected(TooEarly);
        }
        var primeVote := if prime.Some? then Some(prime.value in votes.ayes) else None;
        var default := DefaultFor(cfg, primeVote, yes, seats);
        var abstentions: int := seats - (yes + no);
        var total := if default then yes + abstentions else yes;
        approved := total >= votes.threshold;
      }
      if !approved {
        RemoveProposal(hash);
        return Closed(index, false);
      }
      if hash !in proposalOf {
        return Rejected(ProposalMissing);
      }
      if proposalOf[hash].length > lengthBound {
        return Rejected(WrongProposalLength);
      }
      if proposalOf[hash].weight > weightBound {
        return Rejected(WrongProposalWeight);
      }
      DispatchEffect(effect);
      RemoveProposal(hash);
      return Closed(index, true);
    }
  }
}
