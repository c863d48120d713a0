/** What every run of the collective keeps: tallies within the seats, motions that live once. */
module CollectiveTheorems {
  import opened Collections
  import opened Collective

  /** Nobody votes twice or both ways, and only members vote. */
  ghost predicate TallyOk(v: Votes, members: seq<Account>) {
    && Distinct(v.ayes)
    && Distinct(v.nays)
    && (forall a :: a in v.ayes ==> a in members && a !in v.nays)
    && (forall a :: a in v.nays ==> a in members)
  }

  ghost predicate MotionsOk(cfg: Config, s: State) {
    && Distinct(s.proposals)
    && |s.proposals| <= cfg.maxProposals
    && (forall h :: h in s.voting <==> h in s.proposals)
    && (forall h :: h in s.proposalOf <==> h in s.proposals)
    && (forall h :: h in s.voting ==> s.voting[h].index < s.proposalCount)
    && (forall h, g :: h in s.voting && g in s.voting && h != g ==> s.voting[h].index != s.voting[g].index)
  }

  ghost predicate MembersOk(s: State) {
    && Sorted(s.members)
    && (s.prime.Some? ==> s.prime.value in s.members)
    && (forall h :: h in s.voting ==> TallyOk(s.voting[h], s.members))
  }

  ghost predicate Valid(cfg: Config, s: State) {
    MotionsOk(cfg, s) && MembersOk(s)
  }

  // ---- tallies ----

  lemma TallyWithinSeats(v: Votes, members: seq<Account>)
    requires TallyOk(v, members)
    ensures |v.ayes| + |v.nays| <= |members|
  {
    var voters := v.ayes + v.nays;
    assert forall i :: 0 <= i < |v.ayes| ==> v.ayes[i] in v.ayes;
    assert forall i :: 0 <= i < |v.nays| ==> v.nays[i] in v.nays;
    DistinctSize(voters);
    SubsetSize(Elements(voters), Elements(members));
    ElementsBound(members);
  }

  lemma PurgeKeepsTally(v: Votes, former: seq<Account>, renewed: seq<Account>, outgoing: seq<Account>)
    requires TallyOk(v, former)
    requires forall a :: a in former && a !in renewed ==> a in outgoing
    ensures TallyOk(Purge(v, outgoing), renewed)
  {
    FilterMembers(v.ayes, Staying(outgoing));
    FilterMembers(v.nays, Staying(outgoing));
    FilterDistinct(v.ayes, Staying(outgoing));
    FilterDistinct(v.nays, Staying(outgoing));
    SortSorts(outgoing);
    forall a | a in former && Staying(outgoing)(a)
      ensures a in renewed
    {
      SearchDecidesMembership(Sort(outgoing), a);
    }
  }

  // ---- every call keeps the invariant ----

  lemma SetMembersValid(cfg: Config, s: State, newMembers: seq<Account>, prime: Option<Account>)
    requires Valid(cfg, s)
    ensures Valid(cfg, SetMembersStep(s, newMembers, prime).0)
  {
    var renewed := Sort(newMembers);
    SortSorts(newMembers);
    var outgoing := Outgoing(renewed, s.members);
    forall a | a in s.members && a !in renewed
      ensures a in outgoing
    {
      OutgoingCoversDropped(renewed, s.members, a);
    }
    forall h | h in s.voting
      ensures TallyOk(Purge(s.voting[h], outgoing), renewed)
    {
      PurgeKeepsTally(s.voting[h], s.members, renewed, outgoing);
    }
  }

  lemma WithoutProposalValid(cfg: Config, s: State, hash: Hash)
    requires Valid(cfg, s)
    ensures Valid(cfg, WithoutProposal(s, hash))
  {
    var others := (h: Hash) => h != hash;
    FilterMembers(s.proposals, others);
    FilterDistinct(s.proposals, others);
  }

  lemma {:induction false} DispatchValid(cfg: Config, s: State, effect: seq<RootCall>)
    requires Valid(cfg, s)
    ensures Valid(cfg, Dispatch(s, effect))
  {
    if effect != [] {
      var front, last := effect[..|effect| - 1], effect[|effect| - 1];
      DispatchValid(cfg, s, front);
      match last
      case SetMembers(newMembers, prime) => SetMembersValid(cfg, Dispatch(s, front), newMembers, prime);
      case DisapproveProposal(hash) => WithoutProposalValid(cfg, Dispatch(s, front), hash);
    }
  }

  lemma SwitchKeepsTally(v: Votes, v': Votes, who: Account, approve: bool, members: seq<Account>)
    requires TallyOk(v, members) && who in members && who !in (if approve then v.ayes else v.nays)
    requires v' == if approve then v.(ayes := v.ayes + [who], nays := Without(v.nays, who))
                   else v.(nays := v.nays + [who], ayes := Without(v.ayes, who))
    ensures TallyOk(v', members)
  {
    WithoutDrops(v.ayes, who);
    WithoutDrops(v.nays, who);
  }

  lemma VoteValid(cfg: Config, s: State, who: Account, hash: Hash, index: nat, approve: bool)
    requires Valid(cfg, s)
    ensures Valid(cfg, VoteStep(s, who, hash, index, approve).0)
  {
    var (s', outcome) := VoteStep(s, who, hash, index, approve);
    if outcome.Voted? {
      SwitchKeepsTally(s.voting[hash], s'.voting[hash], who, approve, s.members);
      assert MotionsOk(cfg, s') && MembersOk(s');
    }
  }

  lemma NewMotionValid(cfg: Config, s: State, s': State, hash: Hash, proposal: Proposal, votes: Votes)
    requires Valid(cfg, s) && hash !in s.proposalOf && |s.proposals| < cfg.maxProposals
    requires votes.index == s.proposalCount && votes.ayes == votes.nays == []
    requires s' == s.(proposals := s.proposals + [hash], proposalOf := s.proposalOf[hash := proposal],
                      voting := s.voting[hash := votes], proposalCount := s.proposalCount + 1)
    ensures Valid(cfg, s')
  {
    assert MotionsOk(cfg, s');
    assert MembersOk(s');
  }

  lemma ProposeValid(cfg: Config, s: State, who: Account, threshold: nat, proposal: Proposal, lengthBound: nat, effect: seq<RootCall>)
    requires Valid(cfg, s)
    ensures Valid(cfg, ProposeStep(cfg, s, who, threshold, proposal, lengthBound, effect).0)
  {
    DispatchValid(cfg, s, effect);
    var (s', outcome) := ProposeStep(cfg, s, who, threshold, proposal, lengthBound, effect);
    if outcome.Proposed? {
      var hash := cfg.hashOf(proposal);
      NewMotionValid(cfg, s, s', hash, proposal, s'.voting[hash]);
    }
  }

  lemma CloseValid(cfg: Config, s: State, hash: Hash, index: nat, weightBound: nat, lengthBound: nat, effect: seq<RootCall>)
    requires Valid(cfg, s)
    ensures Valid(cfg, CloseStep(cfg, s, hash, index, weightBound, lengthBound, effect).0)
  {
    WithoutProposalValid(cfg, s, hash);
    DispatchValid(cfg, s, effect);
    WithoutProposalValid(cfg, Dispatch(s, effect), hash);
  }

  lemma StepValid(cfg: Config, s: State, call: Call)
    requires Valid(cfg, s)
    ensures Valid(cfg, Step(cfg, s, call).0)
  {
    match call
    case Execute(who, proposal, lengthBound, effect) => DispatchValid(cfg, s, effect);
    case Propose(who, threshold, proposal, lengthBound, effect) =>
      ProposeValid(cfg, s, who, threshold, proposal, lengthBound, effect);
    case Vote(who, hash, index, approve) => VoteValid(cfg, s, who, hash, index, approve);
    case Close(hash, index, weightBound, lengthBound, effect) =>
      CloseValid(cfg, s, hash, index, weightBound, lengthBound, effect);
    case Root(rootCall) => DispatchValid(cfg, s, [rootCall]); assert Dispatch(s, []) == s;
    case NextBlock =>
  }

  // ---- runs ----

  function Run(cfg: Config, s: State, calls: seq<Call>): State {
    if calls == [] then s else Step(cfg, Run(cfg, s, calls[..|calls| - 1]), calls[|calls| - 1]).0
  }

  function OutcomeAt(cfg: Config, s: State, calls: seq<Call>, k: nat): Outcome
    requires k < |calls|
  {
    Step(cfg, Run(cfg, s, calls[..k]), calls[k]).1
  }

  ghost predicate Genesis(s: State) {
    s.proposals == [] && s.proposalOf == map[] && s.voting == map[] && s.prime == None && Sorted(s.members)
  }

  lemma {:induction false} RunValid(cfg: Config, s: State, calls: seq<Call>)
    requires Genesis(s)
    ensures Valid(cfg, Run(cfg, s, calls))
  {
    if calls != [] {
      RunValid(cfg, s, calls[..|calls| - 1]);
      StepValid(cfg, Run(cfg, s, calls[..|calls| - 1]), calls[|calls| - 1]);
    }
  }

  /** In every reachable state, for every open motion: no one has voted twice or both ways, every
      voter is a member, so the votes fit in the seats and the unchecked subtraction that counts
      abstentions at closing time cannot underflow. */
  lemma AbstentionsNeverUnderflow(cfg: Config, s: State, calls: seq<Call>, hash: Hash)
    requires Genesis(s) && hash in Run(cfg, s, calls).voting
    ensures var now := Run(cfg, s, calls);
            TallyOk(now.voting[hash], now.members) && Abstentions(now.voting[hash], |now.members|) >= 0
  {
    RunValid(cfg, s, calls);
    var now := Run(cfg, s, calls);
    TallyWithinSeats(now.voting[hash], now.members);
  }

  /** Early close refines late close. In every reachable state early approval and early disapproval
      exclude each other, and a verdict reached before the end is the one the end-of-period rule
      gives on the same tally whatever the default vote is; without an early verdict the late
      verdict is the default vote itself. */
  lemma EarlyCloseRefinesLateClose(cfg: Config, s: State, calls: seq<Call>, hash: Hash, default: bool)
    requires Genesis(s) && hash in Run(cfg, s, calls).voting
    ensures var now := Run(cfg, s, calls);
            var (v, seats) := (now.voting[hash], |now.members|);
            && !(EarlyApproved(v, seats) && EarlyDisapproved(v, seats))
            && LateApproved(v, seats, default)
               == if EarlyApproved(v, seats) then true else if EarlyDisapproved(v, seats) then false else default
  {
    AbstentionsNeverUnderflow(cfg, s, calls, hash);
  }

  /** The same up to the block and the prime. */
  predicate Alike(s: State, t: State) {
    s.(block := t.block, prime := t.prime) == t
  }

  lemma {:induction false} DispatchAlike(s: State, t: State, effect: seq<RootCall>)
    requires Alike(s, t)
    ensures Alike(Dispatch(s, effect), Dispatch(t, effect))
  {
    if effect != [] {
      DispatchAlike(s, t, effect[..|effect| - 1]);
    }
  }

  /** A motion closed early would have closed the same way at any later block and under any prime, and
      would have left the same storage but for the block and the prime; the default vote could not have
      made a difference. */
  lemma ClosingEarlyLosesNothing(cfg: Config, s: State, calls: seq<Call>, hash: Hash, index: nat, weightBound: nat,
                                 lengthBound: nat, effect: seq<RootCall>, later: Block, prime: Option<Account>)
    requires Genesis(s) && later >= Run(cfg, s, calls).block
    requires CloseStep(cfg, Run(cfg, s, calls), hash, index, weightBound, lengthBound, effect).1.Closed?
    requires Run(cfg, s, calls).block < Run(cfg, s, calls).voting[hash].end
    ensures var now := Run(cfg, s, calls);
            var (closed, outcome) := CloseStep(cfg, now, hash, index, weightBound, lengthBound, effect);
            var (closed', outcome') := CloseStep(cfg, now.(block := later, prime := prime), hash, index, weightBound, lengthBound, effect);
            && outcome' == outcome && Alike(closed, closed')
            && LateApproved(now.voting[hash], |now.members|, true) == LateApproved(now.voting[hash], |now.members|, false)
  {
    AbstentionsNeverUnderflow(cfg, s, calls, hash);
    var now := Run(cfg, s, calls);
    DispatchAlike(now, now.(block := later, prime := prime), effect);
  }

  // ---- what votes and verdicts mean ----

  /** A vote is taken exactly from a member, for an open motion named by its index, who has not already
      voted that way. It moves the voter to the chosen side and changes nothing else. */
  lemma VoteMovesTheVoter(cfg: Config, s: State, who: Account, hash: Hash, index: nat, approve: bool)
    requires Valid(cfg, s)
    ensures VoteStep(s, who, hash, index, approve).1.Voted? <==>
              && who in s.members && hash in s.voting && s.voting[hash].index == index
              && who !in (if approve then s.voting[hash].ayes else s.voting[hash].nays)
    ensures VoteStep(s, who, hash, index, approve).1.Voted? ==>
              var (s', outcome) := VoteStep(s, who, hash, index, approve);
              var (v, v') := (s.voting[hash], s'.voting[hash]);
              && s' == s.(voting := s.voting[hash := v.(ayes := v'.ayes, nays := v'.nays)])
              && (forall a :: a in v'.ayes <==> if a == who then approve else a in v.ayes)
              && (forall a :: a in v'.nays <==> if a == who then !approve else a in v.nays)
              && (outcome.first <==> who !in v.ayes && who !in v.nays)
  {
    if VoteStep(s, who, hash, index, approve).1.Voted? {
      WithoutDrops(s.voting[hash].ayes, who);
      WithoutDrops(s.voting[hash].nays, who);
    }
  }

  predicate DefaultsToYes(cfg: Config, s: State, v: Votes) {
    (s.prime.Some? && s.prime.value in v.ayes)
    || (cfg.defaultVote == MoreThanMajorityThenPrimeDefaultVote && |v.ayes| * 2 > |s.members|)
  }

  predicate TimeIsUp(s: State, v: Votes) {
    s.block >= v.end
  }

  predicate EnoughSeatsLeft(s: State, v: Votes) {
    |v.nays| + v.threshold <= |s.members|
  }

  predicate Approvable(cfg: Config, s: State, v: Votes) {
    |v.ayes| >= v.threshold || (TimeIsUp(s, v) && EnoughSeatsLeft(s, v) && DefaultsToYes(cfg, s, v))
  }

  predicate Disapprovable(cfg: Config, s: State, v: Votes) {
    |v.ayes| < v.threshold && (!EnoughSeatsLeft(s, v) || (TimeIsUp(s, v) && !DefaultsToYes(cfg, s, v)))
  }

  /** A motion can be approved when its ayes reach the threshold, or when its time is up, the default
      vote is yes, and the nays leave enough seats for the threshold; it can be disapproved when that is
      not so and the nays leave too few seats, or its time is up. */
  lemma VerdictMeaning(cfg: Config, s: State, v: Votes)
    ensures Verdict(cfg, s, v) == Some(true) <==> Approvable(cfg, s, v)
    ensures Verdict(cfg, s, v) == Some(false) <==> Disapprovable(cfg, s, v)
  {
  }

  // ---- when calls succeed, and what they do ----

  /** An open motion under its index. */
  predicate IsOpen(s: State, hash: Hash, index: nat) {
    hash in s.voting && s.voting[hash].index == index
  }

  /** `s'` is `s` without what it holds about `hash`. */
  ghost predicate LessMotion(s: State, s': State, hash: Hash) {
    && s' == s.(proposals := s'.proposals, proposalOf := s'.proposalOf, voting := s'.voting)
    && (forall h :: Lookup(s'.voting, h) == if h == hash then None else Lookup(s.voting, h))
    && (forall h :: Lookup(s'.proposalOf, h) == if h == hash then None else Lookup(s.proposalOf, h))
    && (forall h :: h in s'.proposals <==> h in s.proposals && h != hash)
  }

  lemma RemovalIsLess(s: State, hash: Hash)
    ensures LessMotion(s, WithoutProposal(s, hash), hash)
  {
    FilterMembers(s.proposals, (h: Hash) => h != hash);
  }

  predicate BoundsMet(s: State, hash: Hash, weightBound: nat, lengthBound: nat) {
    hash in s.proposalOf && s.proposalOf[hash].length <= lengthBound && s.proposalOf[hash].weight <= weightBound
  }

  /** A close is accepted as an approval exactly when the motion is open under the index, can be approved,
      and its proposal meets both bounds: it is executed, and the motion is gone from what that leaves. It
      is accepted as a disapproval exactly when the motion is open and can be disapproved: only the motion
      goes. */
  lemma CloseMeaning(cfg: Config, s: State, hash: Hash, index: nat, weightBound: nat, lengthBound: nat, effect: seq<RootCall>)
    ensures var (s', outcome) := CloseStep(cfg, s, hash, index, weightBound, lengthBound, effect);
            && (outcome == Closed(index, true) <==>
                  IsOpen(s, hash, index) && Approvable(cfg, s, s.voting[hash]) && BoundsMet(s, hash, weightBound, lengthBound))
            && (outcome == Closed(index, true) ==> LessMotion(Dispatch(s, effect), s', hash))
            && (outcome == Closed(index, false) <==> IsOpen(s, hash, index) && Disapprovable(cfg, s, s.voting[hash]))
            && (outcome == Closed(index, false) ==> LessMotion(s, s', hash))
            && (outcome.Closed? || (outcome.Rejected? && s' == s)) && (outcome.Closed? ==> outcome.index == index)
  {
    RemovalIsLess(s, hash);
    RemovalIsLess(Dispatch(s, effect), hash);
    if hash in s.voting { VerdictMeaning(cfg, s, s.voting[hash]); }
  }

  /** When closing gives which error. In reachable states every open motion has its proposal. */
  lemma CloseErrors(cfg: Config, s: State, hash: Hash, index: nat, weightBound: nat, lengthBound: nat, effect: seq<RootCall>)
    requires Valid(cfg, s)
    ensures var outcome := CloseStep(cfg, s, hash, index, weightBound, lengthBound, effect).1;
            var open := IsOpen(s, hash, index);
            && (outcome == Rejected(ProposalMissing) <==> hash !in s.voting)
            && (outcome == Rejected(WrongIndex) <==> hash in s.voting && s.voting[hash].index != index)
            && (outcome == Rejected(TooEarly) <==>
                  open && !Approvable(cfg, s, s.voting[hash]) && !Disapprovable(cfg, s, s.voting[hash]))
            && (outcome == Rejected(WrongProposalLength) <==>
                  open && Approvable(cfg, s, s.voting[hash]) && s.proposalOf[hash].length > lengthBound)
            && (outcome == Rejected(WrongProposalWeight) <==>
                  open && Approvable(cfg, s, s.voting[hash]) && s.proposalOf[hash].length <= lengthBound && s.proposalOf[hash].weight > weightBound)
  {
    if hash in s.voting { VerdictMeaning(cfg, s, s.voting[hash]); }
  }

  /** A motion is opened exactly by a member, with a threshold of at least two, for a proposal within the
      bounds that is not open already, while there is room. It starts without votes, under the next index
      and the threshold asked for, and ends after the motion duration. With a lower threshold the proposal
      is executed at once. */
  lemma ProposeMeaning(cfg: Config, s: State, who: Account, threshold: nat, proposal: Proposal, lengthBound: nat, effect: seq<RootCall>)
    ensures var (s', outcome) := ProposeStep(cfg, s, who, threshold, proposal, lengthBound, effect);
            var hash := cfg.hashOf(proposal);
            var fits := who in s.members && proposal.length <= lengthBound && proposal.weight <= cfg.maxProposalWeight && hash !in s.proposalOf;
            && (outcome.Proposed? <==> fits && threshold >= 2 && |s.proposals| < cfg.maxProposals)
            && (outcome.Proposed? ==>
                  && outcome.index == s.proposalCount && s'.proposalCount == s.proposalCount + 1
                  && s' == s.(proposals := s.proposals + [hash], proposalOf := s.proposalOf[hash := proposal],
                              voting := s'.voting, proposalCount := s'.proposalCount)
                  && (forall h :: h != hash ==> Lookup(s'.voting, h) == Lookup(s.voting, h))
                  && IsOpen(s', hash, s.proposalCount)
                  && var v := s'.voting[hash];
                     v.threshold == threshold && v.ayes == v.nays == [] && v.end == s.block + cfg.motionDuration)
            && (outcome.Executed? <==> fits && threshold < 2)
            && (outcome.Executed? ==> s' == Dispatch(s, effect))
            && (!outcome.Proposed? && !outcome.Executed? ==> outcome.Rejected? && s' == s)
  {
  }

  lemma ExecuteMeaning(s: State, who: Account, proposal: Proposal, lengthBound: nat, effect: seq<RootCall>)
    ensures var (s', outcome) := ExecuteStep(s, who, proposal, lengthBound, effect);
            && (outcome == Executed <==> who in s.members && proposal.length <= lengthBound)
            && s' == if outcome == Executed then Dispatch(s, effect) else s
  {
  }

  // ---- setting the members ----

  lemma {:induction false} InsertCounts(x: nat, s: seq<nat>)
    ensures multiset(Insert(x, s)) == multiset(s) + multiset{x}
  {
    if s != [] && x > s[0] {
      InsertCounts(x, s[1..]);
      assert s == [s[0]] + s[1..];
    }
  }

  lemma {:induction false} SortCounts(s: seq<nat>)
    ensures multiset(Sort(s)) == multiset(s)
  {
    if s != [] {
      SortCounts(s[1..]);
      InsertCounts(s[0], Sort(s[1..]));
      assert s == [s[0]] + s[1..];
    }
  }

  lemma SmallerIsAbsent(s: seq<nat>, x: nat)
    requires Sorted(s) && (s == [] || x < s[0])
    ensures multiset(s)[x] == 0
  {
    assert forall i :: 0 <= i < |s| ==> s[i] != x;
    assert x !in s;
  }

  lemma HeadCounts(s: seq<nat>, x: nat)
    requires s != []
    ensures multiset(s)[x] == multiset(s[1..])[x] + if s[0] == x then 1 else 0
  {
    assert s == [s[0]] + s[1..];
  }

  /** The merge lists whoever the old list has more often than the new. */
  lemma {:induction false} OutgoingCounts(renewed: seq<Account>, former: seq<Account>, x: Account)
    requires Sorted(renewed) && Sorted(former)
    ensures x in Outgoing(renewed, former) <==> multiset(former)[x] > multiset(renewed)[x]
    decreases |renewed| + |former|
  {
    if former == [] {
    } else if renewed == [] {
    } else {
      HeadCounts(former, x);
      HeadCounts(renewed, x);
      if former[0] == renewed[0] {
        OutgoingCounts(renewed[1..], former[1..], x);
      } else if former[0] < renewed[0] {
        OutgoingCounts(renewed, former[1..], x);
        if x == former[0] { SmallerIsAbsent(renewed, x); }
      } else {
        OutgoingCounts(renewed[1..], former, x);
        if x == renewed[0] { SmallerIsAbsent(former, x); }
      }
    }
  }

  /** Whether `a` is listed at least as often as before. */
  predicate StaysListed(former: seq<Account>, newMembers: seq<Account>, a: Account) {
    multiset(former)[a] <= multiset(newMembers)[a]
  }

  lemma StayingIffListed(former: seq<Account>, newMembers: seq<Account>, a: Account)
    requires Sorted(former)
    ensures Staying(Outgoing(Sort(newMembers), former))(a) <==> StaysListed(former, newMembers, a)
  {
    SortSorts(newMembers);
    SortCounts(newMembers);
    OutgoingCounts(Sort(newMembers), former, a);
    var outgoing := Outgoing(Sort(newMembers), former);
    SortSorts(outgoing);
    SearchDecidesMembership(Sort(outgoing), a);
  }

  /** The votes after a change of members: of the same motion, and exactly those of accounts that the new
      list has as often as the old. */
  ghost predicate KeepsStaying(v: Votes, v': Votes, former: seq<Account>, newMembers: seq<Account>) {
    && v' == v.(ayes := v'.ayes, nays := v'.nays)
    && (forall a :: a in v'.ayes <==> a in v.ayes && StaysListed(former, newMembers, a))
    && (forall a :: a in v'.nays <==> a in v.nays && StaysListed(former, newMembers, a))
  }

  lemma PurgeKeepsStaying(v: Votes, former: seq<Account>, newMembers: seq<Account>)
    requires Sorted(former)
    ensures KeepsStaying(v, Purge(v, Outgoing(Sort(newMembers), former)), former, newMembers)
  {
    var keep := Staying(Outgoing(Sort(newMembers), former));
    FilterMembers(v.ayes, keep);
    FilterMembers(v.nays, keep);
    forall a: Account ensures keep(a) <==> StaysListed(former, newMembers, a) { StayingIffListed(former, newMembers, a); }
  }

  /** Members can be set exactly when the prime, if any, is among them. The new list is then in order, and
      every open motion keeps exactly the votes of those it lists as often as the old one did: of every
      member that stays, unless the old list had it more than once. */
  lemma SetMembersMeaning(cfg: Config, s: State, newMembers: seq<Account>, prime: Option<Account>)
    requires Valid(cfg, s)
    ensures var (s', outcome) := SetMembersStep(s, newMembers, prime);
            && (outcome == MembersSet <==> prime.None? || prime.value in newMembers)
            && (outcome == MembersSet ==>
                  && s' == s.(voting := s'.voting, members := s'.members, prime := prime)
                  && Sorted(s'.members) && multiset(s'.members) == multiset(newMembers)
                  && s'.voting.Keys == s.voting.Keys
                  && (forall h :: h in s.voting ==> KeepsStaying(s.voting[h], s'.voting[h], s.members, newMembers)))
            && (outcome != MembersSet ==> s' == s)
  {
    SortSorts(newMembers);
    SortCounts(newMembers);
    forall h | h in s.voting
      ensures KeepsStaying(s.voting[h], Purge(s.voting[h], Outgoing(Sort(newMembers), s.members)), s.members, newMembers)
    {
      PurgeKeepsStaying(s.voting[h], s.members, newMembers);
    }
  }

  /** A dispatched proposal carries out its calls in turn. */
  lemma DispatchMeaning(s: State, effect: seq<RootCall>, call: RootCall)
    ensures Dispatch(s, []) == s
    ensures call.SetMembers? ==>
              Dispatch(s, effect + [call]) == SetMembersStep(Dispatch(s, effect), call.newMembers, call.prime).0
    ensures call.DisapproveProposal? ==> LessMotion(Dispatch(s, effect), Dispatch(s, effect + [call]), call.hash)
  {
    assert (effect + [call])[..|effect + [call]| - 1] == effect;
    if call.DisapproveProposal? { RemovalIsLess(Dispatch(s, effect), call.hash); }
  }

  // ---- the pallet's own consistency check ----

  lemma {:induction false} IndicesBelow(voting: map<Hash, Votes>, hashes: seq<Hash>, n: nat) returns (indices: set<nat>)
    requires Distinct(hashes)
    requires forall h :: h in hashes ==> h in voting && voting[h].index < n
    requires forall h, g :: h in hashes && g in hashes && h != g ==> voting[h].index != voting[g].index
    ensures indices == set h | h in hashes :: voting[h].index
    ensures |indices| == |hashes|
    ensures forall i :: i in indices ==> i < n
  {
    if hashes == [] {
      indices := {};
    } else {
      var front, last := hashes[..|hashes| - 1], hashes[|hashes| - 1];
      assert hashes == front + [last];
      indices := IndicesBelow(voting, front, n);
      assert voting[last].index !in indices;
      indices := indices + {voting[last].index};
    }
  }

  lemma {:induction false} BoundedSetSize(a: set<nat>, n: nat)
    requires forall i :: i in a ==> i < n
    ensures |a| <= n
  {
    if n == 0 {
      assert a == {};
    } else {
      BoundedSetSize(a - {n - 1}, n - 1);
      assert |a| <= |a - {n - 1}| + 1;
    }
  }

  /** The expectations of the pallet's state check. */
  ghost predicate TryState(cfg: Config, s: State) {
    && (forall h :: h in s.proposals ==> h in s.proposalOf)
    && |s.proposals| <= s.proposalCount
    && |s.proposals| == |s.proposalOf|
    && (forall h :: h in s.proposals && h in s.voting ==> |s.voting[h].ayes| + |s.voting[h].nays| <= cfg.maxMembers)
    && (forall h, g :: h in s.proposals && g in s.proposals && h in s.voting && g in s.voting && h != g
          ==> s.voting[h].index != s.voting[g].index)
    && (forall h :: h in s.voting ==> h in s.proposals)
    && |s.members| <= cfg.maxMembers
    && Sorted(s.members)
    && (s.prime.Some? ==> s.prime.value in s.members)
  }

  lemma ValidPassesIffMembersFit(cfg: Config, s: State)
    requires Valid(cfg, s)
    ensures TryState(cfg, s) <==> |s.members| <= cfg.maxMembers
  {
    var indices := IndicesBelow(s.voting, s.proposals, s.proposalCount);
    BoundedSetSize(indices, s.proposalCount);
    DistinctSize(s.proposals);
    assert s.proposalOf.Keys == Elements(s.proposals);
    forall h | h in s.voting
      ensures |s.voting[h].ayes| + |s.voting[h].nays| <= |s.members|
    {
      TallyWithinSeats(s.voting[h], s.members);
    }
  }

  /** The pallet does not enforce its bound on the number of members, and in every reachable state
      that is the only expectation that can fail. */
  lemma StateCheckPassesIffMembersFit(cfg: Config, s: State, calls: seq<Call>)
    requires Genesis(s)
    ensures var now := Run(cfg, s, calls); TryState(cfg, now) <==> |now.members| <= cfg.maxMembers
  {
    RunValid(cfg, s, calls);
    ValidPassesIffMembersFit(cfg, Run(cfg, s, calls));
  }

  /** So, once members have been set, it passes exactly when the list that was set fits. */
  lemma StateCheckAfterSetting(cfg: Config, s: State, calls: seq<Call>, newMembers: seq<Account>, prime: Option<Account>)
    requires Genesis(s) && SetMembersStep(Run(cfg, s, calls), newMembers, prime).1 == MembersSet
    ensures TryState(cfg, SetMembersStep(Run(cfg, s, calls), newMembers, prime).0) <==> |newMembers| <= cfg.maxMembers
  {
    var now := Run(cfg, s, calls);
    RunValid(cfg, s, calls);
    SettingChecked(cfg, now, newMembers, prime);
  }

  lemma SettingChecked(cfg: Config, s: State, newMembers: seq<Account>, prime: Option<Account>)
    requires Valid(cfg, s) && SetMembersStep(s, newMembers, prime).1 == MembersSet
    ensures TryState(cfg, SetMembersStep(s, newMembers, prime).0) <==> |newMembers| <= cfg.maxMembers
  {
    SetMembersValid(cfg, s, newMembers, prime);
    ValidPassesIffMembersFit(cfg, SetMembersStep(s, newMembers, prime).0);
    SortSorts(newMembers);
  }

  /** One accepted call is enough to fail it: setting one member more than the bound. */
  lemma StateCheckCanFail(cfg: Config, s: State)
    requires Genesis(s)
    ensures exists newMembers :: !TryState(cfg, Run(cfg, s, [Root(SetMembers(newMembers, None))]))
  {
    var newMembers := seq(cfg.maxMembers + 1, i => i);
    SortSorts(newMembers);
    var call := Root(SetMembers(newMembers, None));
    assert Run(cfg, s, []) == s;
    assert [call][..0] == [];
    assert !TryState(cfg, Run(cfg, s, [call]));
  }

  predicate RootFits(cfg: Config, call: RootCall) {
    call.SetMembers? ==> |call.newMembers| <= cfg.maxMembers
  }

  /** Every list that the call may set, by itself or through a proposal that it dispatches, fits. */
  ghost predicate ListsFit(cfg: Config, call: Call) {
    match call
    case Execute(_, _, _, effect) => forall e :: e in effect ==> RootFits(cfg, e)
    case Propose(_, _, _, _, effect) => forall e :: e in effect ==> RootFits(cfg, e)
    case Close(_, _, _, _, effect) => forall e :: e in effect ==> RootFits(cfg, e)
    case Root(rootCall) => RootFits(cfg, rootCall)
    case _ => true
  }

  lemma {:induction false} DispatchFits(cfg: Config, s: State, effect: seq<RootCall>)
    requires |s.members| <= cfg.maxMembers && forall e :: e in effect ==> RootFits(cfg, e)
    ensures |Dispatch(s, effect).members| <= cfg.maxMembers
  {
    if effect != [] {
      var last := effect[|effect| - 1];
      DispatchFits(cfg, s, effect[..|effect| - 1]);
      if last.SetMembers? { SortSorts(last.newMembers); }
      assert last in effect;
    }
  }

  lemma StepFits(cfg: Config, s: State, call: Call)
    requires |s.members| <= cfg.maxMembers && ListsFit(cfg, call)
    ensures |Step(cfg, s, call).0.members| <= cfg.maxMembers
  {
    match call
    case Execute(_, _, _, effect) => DispatchFits(cfg, s, effect);
    case Propose(_, _, _, _, effect) => DispatchFits(cfg, s, effect);
    case Close(_, _, _, _, effect) => DispatchFits(cfg, s, effect);
    case Root(SetMembers(newMembers, _)) => SortSorts(newMembers);
    case _ =>
  }

  lemma {:induction false} MembersFit(cfg: Config, s: State, calls: seq<Call>)
    requires |s.members| <= cfg.maxMembers && forall k :: 0 <= k < |calls| ==> ListsFit(cfg, calls[k])
    ensures |Run(cfg, s, calls).members| <= cfg.maxMembers
  {
    if calls != [] {
      MembersFit(cfg, s, calls[..|calls| - 1]);
      StepFits(cfg, Run(cfg, s, calls[..|calls| - 1]), calls[|calls| - 1]);
    }
  }

  /** And over whole runs it passes as long as every list fits, the first one included. */
  lemma StateCheckPassesWhileListsFit(cfg: Config, s: State, calls: seq<Call>)
    requires Genesis(s) && |s.members| <= cfg.maxMembers && forall k :: 0 <= k < |calls| ==> ListsFit(cfg, calls[k])
    ensures TryState(cfg, Run(cfg, s, calls))
  {
    MembersFit(cfg, s, calls);
    StateCheckPassesIffMembersFit(cfg, s, calls);
  }

  // ---- the life of a motion ----

  ghost predicate Live(s: State, index: nat) {
    exists h :: h in s.voting && s.voting[h].index == index
  }

  /** Indices never come back: what a state after `s` has open was open in `s`, or is new. */
  ghost predicate Forgets(s: State, s': State) {
    && s.proposalCount <= s'.proposalCount
    && forall h :: h in s'.voting ==>
         (h in s.voting && s.voting[h].index == s'.voting[h].index) || s.proposalCount <= s'.voting[h].index
  }

  lemma {:induction false} DispatchForgets(s: State, effect: seq<RootCall>)
    ensures Forgets(s, Dispatch(s, effect)) && Dispatch(s, effect).proposalCount == s.proposalCount
  {
    if effect != [] {
      DispatchForgets(s, effect[..|effect| - 1]);
    }
  }

  lemma StepForgets(cfg: Config, s: State, call: Call)
    ensures Forgets(s, Step(cfg, s, call).0)
  {
    match call
    case Execute(who, proposal, lengthBound, effect) => DispatchForgets(s, effect);
    case Propose(who, threshold, proposal, lengthBound, effect) => DispatchForgets(s, effect);
    case Close(hash, index, weightBound, lengthBound, effect) => DispatchForgets(s, effect);
    case Root(rootCall) => DispatchForgets(s, [rootCall]); assert Dispatch(s, []) == s;
    case _ =>
  }

  lemma {:induction false} RunForgets(cfg: Config, s: State, calls: seq<Call>, n: nat)
    requires n <= |calls|
    ensures Forgets(Run(cfg, s, calls[..n]), Run(cfg, s, calls))
  {
    if n == |calls| {
      assert calls[..n] == calls;
    } else {
      var front := calls[..|calls| - 1];
      RunForgets(cfg, s, front, n);
      assert front[..n] == calls[..n];
      StepForgets(cfg, Run(cfg, s, front), calls[|calls| - 1]);
    }
  }

  /** Once an index that has been handed out is no longer open, it is never open again, and voting on
      it or closing it fails under every hash, also when the same proposal has been made anew. */
  lemma ResolvedStaysResolved(cfg: Config, s: State, calls: seq<Call>, n: nat, index: nat)
    requires Genesis(s) && n <= |calls|
    requires index < Run(cfg, s, calls[..n]).proposalCount && !Live(Run(cfg, s, calls[..n]), index)
    ensures var now := Run(cfg, s, calls);
            && !Live(now, index)
            && (forall who, hash, approve :: VoteStep(now, who, hash, index, approve).1.Rejected?)
            && (forall hash, weightBound, lengthBound, effect ::
                  CloseStep(cfg, now, hash, index, weightBound, lengthBound, effect).1.Rejected?)
  {
    RunForgets(cfg, s, calls, n);
  }

  /** Closing a motion, with or without executing it, ends it. */
  lemma ClosedIsResolved(cfg: Config, s: State, call: Call)
    requires Valid(cfg, s) && Step(cfg, s, call).1.Closed?
    ensures var index := Step(cfg, s, call).1.index;
            Live(s, index) && index < s.proposalCount && !Live(Step(cfg, s, call).0, index)
  {
    DispatchForgets(s, call.effect);
    assert call.hash in s.voting && s.voting[call.hash].index == call.index;
  }

  /** Over a whole run every index is closed at most once, so every motion is executed at most once. */
  lemma ClosedAtMostOnce(cfg: Config, s: State, calls: seq<Call>, n: nat, m: nat)
    requires Genesis(s) && n < m < |calls|
    requires OutcomeAt(cfg, s, calls, n).Closed? && OutcomeAt(cfg, s, calls, m).Closed?
    ensures OutcomeAt(cfg, s, calls, n).index != OutcomeAt(cfg, s, calls, m).index
  {
    var before := Run(cfg, s, calls[..n]);
    RunValid(cfg, s, calls[..n]);
    ClosedIsResolved(cfg, before, calls[n]);
    assert calls[..n + 1][..n] == calls[..n];
    assert calls[..m][..n + 1] == calls[..n + 1];
    RunValid(cfg, s, calls[..m]);
    StepForgets(cfg, before, calls[n]);
    ResolvedStaysResolved(cfg, s, calls[..m], n + 1, OutcomeAt(cfg, s, calls, n).index);
    ClosedIsResolved(cfg, Run(cfg, s, calls[..m]), calls[m]);
  }
}
