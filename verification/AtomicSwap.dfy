/** The atomic-swap pallet: hash-locked escrow over reserved balances. */
module AtomicSwap {
  import opened Collections
  import opened FixedPoint

  type Account = nat
  type Hash = nat
  type Block = u32
  type Proof = seq<bv8>
  type Key = (Account, Hash)  // target and hashed proof

  datatype HashType = Blake2256 | Keccak256 | Sha2256

  datatype Swap = Swap(source: Account, hashType: HashType, value: nat, endBlock: Block)

  /** What a chain instance fixes: its hash functions, and the longest proof it accepts. */
  datatype Chain = Chain(hash: (HashType, Proof) -> Hash, proofLimit: nat)

  datatype Error =
    | AlreadyExist | InvalidProof | ProofTooLarge | SourceMismatch | NotExist
    | ClaimActionMismatch | DurationNotPassed | ReserveFailed

  /** What a call did. `Claimed(false)` is a claim that consumed the swap without paying it. */
  datatype Outcome = Rejected(error: Error) | Created | Claimed(paid: bool) | Cancelled | Elsewhere

  datatype State = State(pending: map<Key, Swap>, free: map<Account, nat>, reserved: map<Account, nat>, block: Block)

  /** The pallet's calls, with the caller as first argument, and the two things that happen around
      them. `refused` is the currency's own refusal (locks on `source`, a dead `target`). */
  datatype Call =
    | Create(source: Account, target: Account, key: Hash, hashType: HashType, value: nat, duration: Block, refused: bool)
    | Claim(target: Account, proof: Proof, hashType: HashType, value: nat, refused: bool)
    | Cancel(source: Account, target: Account, key: Hash)
    | Transfer(source: Account, target: Account, value: nat)
    | NextBlock

  // ---- the reservable currency ----

  function Reserve(s: State, who: Account, value: nat, refused: bool): Option<State> {
    if value == 0 then Some(s)
    else if refused || Get(s.free, who) < value then None
    else Some(s.(free := s.free[who := Get(s.free, who) - value],
                 reserved := s.reserved[who := Get(s.reserved, who) + value]))
  }

  /** Moves up to `value` from reserved back to free. */
  function Unreserve(s: State, who: Account, value: nat): State {
    var moved := if Get(s.reserved, who) < value then Get(s.reserved, who) else value;
    if moved == 0 then s
    else s.(free := s.free[who := Get(s.free, who) + moved],
            reserved := s.reserved[who := Get(s.reserved, who) - moved])
  }

  /** Moves up to `value` from the reserve of `source` to the free balance of `target`. */
  function Repatriate(s: State, source: Account, target: Account, value: nat, refused: bool): Option<State> {
    if value == 0 then Some(s)
    else if source == target then Some(Unreserve(s, source, value))
    else if refused then None
    else
      var moved := if Get(s.reserved, source) < value then Get(s.reserved, source) else value;
      Some(s.(free := s.free[target := Get(s.free, target) + moved],
              reserved := s.reserved[source := Get(s.reserved, source) - moved]))
  }

  // ---- what each call does ----

  /** The sum is a 32-bit one. */
  function EndBlock(block: Block, duration: Block): Block {
    Wrap(block + duration)
  }

  function CreateStep(s: State, source: Account, target: Account, key: Hash, hashType: HashType,
                      value: nat, duration: Block, refused: bool): (State, Outcome)
  {
    if (target, key) in s.pending then (s, Rejected(AlreadyExist))
    else
      match Reserve(s, source, value, refused)
      case None => (s, Rejected(ReserveFailed))
      case Some(s') =>
        (s'.(pending := s.pending[(target, key) := Swap(source, hashType, value, EndBlock(s.block, duration))]), Created)
  }

  function ClaimStep(chain: Chain, s: State, target: Account, proof: Proof, hashType: HashType,
                     value: nat, refused: bool): (State, Outcome)
  {
    var k := (target, chain.hash(hashType, proof));
    if |proof| > chain.proofLimit then (s, Rejected(ProofTooLarge))
    else if k !in s.pending then (s, Rejected(InvalidProof))
    else if s.pending[k].value != value then (s, Rejected(ClaimActionMismatch))
    else
      match Repatriate(s, s.pending[k].source, target, value, refused)
      case None => (s.(pending := s.pending - {k}), Claimed(false))
      case Some(s') => (s'.(pending := s.pending - {k}), Claimed(true))
  }

  function CancelStep(s: State, source: Account, target: Account, key: Hash): (State, Outcome) {
    var k := (target, key);
    if k !in s.pending then (s, Rejected(NotExist))
    else if s.pending[k].source != source then (s, Rejected(SourceMismatch))
    else if s.block < s.pending[k].endBlock then (s, Rejected(DurationNotPassed))
    else (Unreserve(s, source, s.pending[k].value).(pending := s.pending - {k}), Cancelled)
  }

  function TransferStep(s: State, source: Account, target: Account, value: nat): State {
    if source == target || Get(s.free, source) < value then s
    else s.(free := s.free[source := Get(s.free, source) - value][target := Get(s.free, target) + value])
  }

  function Step(chain: Chain, s: State, call: Call): (State, Outcome) {
    match call
    case Create(source, target, key, hashType, value, duration, refused) =>
      CreateStep(s, source, target, key, hashType, value, duration, refused)
    case Claim(target, proof, hashType, value, refused) => ClaimStep(chain, s, target, proof, hashType, value, refused)
    case Cancel(source, target, key) => CancelStep(s, source, target, key)
    case Transfer(source, target, value) => (TransferStep(s, source, target, value), Elsewhere)
    case NextBlock => (if s.block + 1 < U32_RANGE then s.(block := s.block + 1) else s, Elsewhere)
  }

  // ---- the pallet, as it updates its storage ----

  class Pallet {
    const chain: Chain
    var pending: map<Key, Swap>
    var free: map<Account, nat>
    var reserved: map<Account, nat>
    var block: Block

    ghost function Storage(): State
      reads this
    {
      State(pending, free, reserved, block)
    }

    constructor (chain: Chain, free: map<Account, nat>, block: Block)
      ensures this.chain == chain && Storage() == State(map[], free, map[], block)
    {
      this.chain, this.free, this.block := chain, free, block;
      pending, reserved := map[], map[];
    }

    method ReserveFunds(who: Account, value: nat, refused: bool) returns (ok: bool)
      modifies this`free, this`reserved
      ensures ok == Reserve(old(Storage()), who, value, refused).Some?
      ensures Storage() == if ok then Reserve(old(Storage()), who, value, refused).value else old(Storage())
    {
      if value == 0 {
        return true;
      }
      if refused || Get(free, who) < value {
        return false;
      }
      free := free[who := Get(free, who) - value];
      reserved := reserved[who := Get(reserved, who) + value];
      return true;
    }

    method UnreserveFunds(who: Account, value: nat)
      modifies this`free, this`reserved
      ensures Storage() == Unreserve(old(Storage()), who, value)
    {
      var moved := value;
      if Get(reserved, who) < value {
        moved := Get(reserved, who);
      }
      if moved > 0 {
        reserved := reserved[who := Get(reserved, who) - moved];
        free := free[who := Get(free, who) + moved];
      }
    }

    method RepatriateReserved(source: Account, target: Account, value: nat, refused: bool) returns (ok: bool)
      modifies this`free, this`reserved
      ensures ok == Repatriate(old(Storage()), source, target, value, refused).Some?
      ensures Storage() == if ok then Repatriate(old(Storage()), source, target, value, refused).value else old(Storage())
    {
      if value == 0 {
        return true;
      }
      if source == target {
        UnreserveFunds(source, value);
        return true;
      }
      if refused {
        return false;
      }
      var moved := value;
      if Get(reserved, source) < value {
        moved := Get(reserved, source);
      }
      reserved := reserved[source := Get(reserved, source) - moved];
      free := free[target := Get(free, target) + moved];
      return true;
    }

    method CreateSwap(source: Account, target: Account, key: Hash, hashType: HashType, value: nat,
                      duration: Block, refused: bool) returns (outcome: Outcome)
      modifies this
      ensures (Storage(), outcome) == CreateStep(old(Storage()), source, target, key, hashType, value, duration, refused)
    {
      if (target, key) in pending {
        return Rejected(AlreadyExist);
      }
      var ok := ReserveFunds(source, value, refused);
      if !ok {
        return Rejected(ReserveFailed);
      }
      pending := pending[(target, key) := Swap(source, hashType, value, EndBlock(block, duration))];
      return Created;
    }

    method ClaimSwap(target: Account, proof: Proof, hashType: HashType, value: nat, refused: bool) returns (outcome: Outcome)
      modifies this
      ensures (Storage(), outcome) == ClaimStep(chain, old(Storage()), target, proof, hashType, value, refused)
    {
      if |proof| > chain.proofLimit {
        return Rejected(ProofTooLarge);
      }
      var k := (target, chain.hash(hashType, proof));
      if k !in pending {
        return Rejected(InvalidProof);
      }
      var swap := pending[k];
      if swap.value != value {
        return Rejected(ClaimActionMismatch);
      }
      var paid := RepatriateReserved(swap.source, target, swap.value, refused);
      pending := pending - {k};
      return Claimed(paid);
    }

    method CancelSwap(source: Account, target: Account, key: Hash) returns (outcome: Outcome)
      modifies this
      ensures (Storage(), outcome) == CancelStep(old(Storage()), source, target, key)
    {
      if (target, key) !in pending {
        return Rejected(NotExist);
      }
      var swap := pending[(target, key)];
      if swap.source != source {
        return Rejected(SourceMismatch);
      }
      if block < swap.endBlock {
        return Rejected(DurationNotPassed);
      }
      UnreserveFunds(swap.source, swap.value);
      pending := pending - {(target, key)};
      return Cancelled;
    }
  }

  // ---- runs ----

  function Run(chain: Chain, s: State, calls: seq<Call>): State {
    if calls == [] then s else Step(chain, Run(chain, s, calls[..|calls| - 1]), calls[|calls| - 1]).0
  }

  /** The outcome of the call at position `k` of a run. */
  function OutcomeAt(chain: Chain, s: State, calls: seq<Call>, k: nat): Outcome
    requires k < |calls|
  {
    Step(chain, Run(chain, s, calls[..k]), calls[k]).1
  }

  ghost predicate Genesis(s: State) {
    s.pending == map[] && forall a :: Get(s.reserved, a) == 0
  }

  // ---- the escrow ledger ----

  ghost function OwedTo(a: Account): Swap -> nat {
    (w: Swap) => if w.source == a then w.value else 0
  }

  /** What account `a` has locked in pending swaps. */
  ghost function Pledged(s: State, a: Account): nat {
    SumMap(s.pending, OwedTo(a))
  }

  /** What `call` leaves behind in the reserve of `a`: the value of a swap consumed unpaid. */
  function StrandedBy(chain: Chain, s: State, call: Call, a: Account): nat {
    if call.Claim? && Step(chain, s, call).1 == Claimed(false)
       && s.pending[(call.target, chain.hash(call.hashType, call.proof))].source == a
    then call.value
    else 0
  }

  function Stranded(chain: Chain, s: State, calls: seq<Call>, a: Account): nat {
    if calls == [] then 0
    else
      var front := calls[..|calls| - 1];
      Stranded(chain, s, front, a) + StrandedBy(chain, Run(chain, s, front), calls[|calls| - 1], a)
  }

  ghost predicate Backed(s: State, a: Account, stranded: nat) {
    Get(s.reserved, a) == Pledged(s, a) + stranded
  }

  lemma TakeSwapOut(s: State, k: Key, a: Account)
    requires k in s.pending
    ensures SumMap(s.pending, OwedTo(a)) == OwedTo(a)(s.pending[k]) + SumMap(s.pending - {k}, OwedTo(a))
  {
    SumTakeOut(s.pending, OwedTo(a), k);
  }

  lemma CreateBacked(chain: Chain, s: State, call: Call, a: Account, stranded: nat)
    requires Backed(s, a, stranded) && call.Create?
    ensures Backed(Step(chain, s, call).0, a, stranded)
  {
    SumPut(s.pending, OwedTo(a), (call.target, call.key), Swap(call.source, call.hashType, call.value, EndBlock(s.block, call.duration)));
  }

  lemma ClaimBacked(chain: Chain, s: State, call: Call, a: Account, stranded: nat)
    requires Backed(s, a, stranded) && call.Claim?
    ensures Backed(Step(chain, s, call).0, a, stranded + StrandedBy(chain, s, call, a))
  {
    var k := (call.target, chain.hash(call.hashType, call.proof));
    if k in s.pending { TakeSwapOut(s, k, a); }
  }

  lemma CancelBacked(chain: Chain, s: State, call: Call, a: Account, stranded: nat)
    requires Backed(s, a, stranded) && call.Cancel?
    ensures Backed(Step(chain, s, call).0, a, stranded)
  {
    if (call.target, call.key) in s.pending { TakeSwapOut(s, (call.target, call.key), a); }
  }

  lemma StepBacked(chain: Chain, s: State, call: Call, a: Account, stranded: nat)
    requires Backed(s, a, stranded)
    ensures Backed(Step(chain, s, call).0, a, stranded + StrandedBy(chain, s, call, a))
  {
    match call
    case Create(_, _, _, _, _, _, _) => CreateBacked(chain, s, call, a, stranded);
    case Claim(_, _, _, _, _) => ClaimBacked(chain, s, call, a, stranded);
    case Cancel(_, _, _) => CancelBacked(chain, s, call, a, stranded);
    case _ =>
  }

  lemma MoveKeepsTotal(m: map<Account, nat>, m': map<Account, nat>, from: Account, to: Account, value: nat)
    requires value <= Get(m, from)
    ensures Total(m[from := Get(m, from) - value]) + Total(m'[to := Get(m', to) + value]) == Total(m) + Total(m')
  {
    TotalPut(m, from, Get(m, from) - value);
    TotalPut(m', to, Get(m', to) + value);
  }

  ghost function Money(s: State): nat {
    Total(s.free) + Total(s.reserved)
  }

  lemma ReserveKeepsMoney(s: State, who: Account, value: nat, refused: bool)
    ensures Reserve(s, who, value, refused).Some? ==> Money(Reserve(s, who, value, refused).value) == Money(s)
  {
    if value <= Get(s.free, who) { MoveKeepsTotal(s.free, s.reserved, who, who, value); }
  }

  lemma UnreserveKeepsMoney(s: State, who: Account, value: nat)
    ensures Money(Unreserve(s, who, value)) == Money(s)
  {
    var moved := if Get(s.reserved, who) < value then Get(s.reserved, who) else value;
    MoveKeepsTotal(s.reserved, s.free, who, who, moved);
  }

  lemma RepatriateKeepsMoney(s: State, source: Account, target: Account, value: nat, refused: bool)
    ensures Repatriate(s, source, target, value, refused).Some? ==> Money(Repatriate(s, source, target, value, refused).value) == Money(s)
  {
    UnreserveKeepsMoney(s, source, value);
    var moved := if Get(s.reserved, source) < value then Get(s.reserved, source) else value;
    MoveKeepsTotal(s.reserved, s.free, source, target, moved);
  }

  lemma TransferKeepsMoney(s: State, source: Account, target: Account, value: nat)
    ensures Money(TransferStep(s, source, target, value)) == Money(s)
  {
    if source != target && Get(s.free, source) >= value {
      var drained := s.free[source := Get(s.free, source) - value];
      TotalPut(s.free, source, Get(s.free, source) - value);
      TotalPut(drained, target, Get(s.free, target) + value);
    }
  }

  lemma StepKeepsMoney(chain: Chain, s: State, call: Call)
    ensures Money(Step(chain, s, call).0) == Money(s)
  {
    match call
    case Create(source, target, key, hashType, value, duration, refused) => ReserveKeepsMoney(s, source, value, refused);
    case Claim(target, proof, hashType, value, refused) =>
      var k := (target, chain.hash(hashType, proof));
      if k in s.pending { RepatriateKeepsMoney(s, s.pending[k].source, target, value, refused); }
    case Cancel(source, target, key) =>
      if (target, key) in s.pending { UnreserveKeepsMoney(s, source, s.pending[(target, key)].value); }
    case Transfer(source, target, value) => TransferKeepsMoney(s, source, target, value);
    case NextBlock =>
  }

  /** In every run the reserve of every account is exactly what its pending swaps hold plus what its
      unpaid claims left behind, and no money is made or lost. */
  lemma {:induction false} EscrowLedger(chain: Chain, s: State, calls: seq<Call>, a: Account)
    requires Genesis(s)
    ensures Backed(Run(chain, s, calls), a, Stranded(chain, s, calls, a))
    ensures Money(Run(chain, s, calls)) == Money(s)
  {
    if calls == [] {
      assert Get(s.reserved, a) == 0;
    } else {
      var front := calls[..|calls| - 1];
      EscrowLedger(chain, s, front, a);
      StepBacked(chain, Run(chain, s, front), calls[|calls| - 1], a, Stranded(chain, s, front, a));
      StepKeepsMoney(chain, Run(chain, s, front), calls[|calls| - 1]);
    }
  }

  /** A cancel gives its caller the whole value back. */
  ghost predicate CancelPays(before: State, after: State, call: Call)
    requires call.Cancel?
  {
    var k := (call.target, call.key);
    && k in before.pending
    && Get(after.free, call.source) == Get(before.free, call.source) + before.pending[k].value
    && Get(after.reserved, call.source) == Get(before.reserved, call.source) - before.pending[k].value
  }

  /** A paid claim gives the target the whole value out of the creator's reserve. */
  ghost predicate ClaimPays(chain: Chain, before: State, after: State, call: Call)
    requires call.Claim?
  {
    var k := (call.target, chain.hash(call.hashType, call.proof));
    && k in before.pending
    && Get(after.free, call.target) == Get(before.free, call.target) + call.value
    && Get(after.reserved, before.pending[k].source) == Get(before.reserved, before.pending[k].source) - call.value
  }

  lemma CancelPaysInFull(chain: Chain, s: State, call: Call, stranded: nat)
    requires call.Cancel? && Step(chain, s, call).1 == Cancelled && Backed(s, call.source, stranded)
    ensures CancelPays(s, Step(chain, s, call).0, call)
  {
    TakeSwapOut(s, (call.target, call.key), call.source);
  }

  lemma ClaimPaysInFull(chain: Chain, s: State, call: Call, stranded: nat)
    requires call.Claim? && Step(chain, s, call).1 == Claimed(true)
    requires Backed(s, s.pending[(call.target, chain.hash(call.hashType, call.proof))].source, stranded)
    ensures ClaimPays(chain, s, Step(chain, s, call).0, call)
  {
    var k := (call.target, chain.hash(call.hashType, call.proof));
    TakeSwapOut(s, k, s.pending[k].source);
  }

  /** After any run a cancel gives its caller the whole value back, a successful claim pays the
      target the whole value out of the creator's reserve, and a failed claim moves nothing. */
  lemma SettlementPaysInFull(chain: Chain, s: State, calls: seq<Call>, call: Call)
    requires Genesis(s)
    ensures var before := Run(chain, s, calls);
            var (after, outcome) := Step(chain, before, call);
            && (outcome == Cancelled ==> CancelPays(before, after, call))
            && (outcome == Claimed(true) ==> ClaimPays(chain, before, after, call))
            && (outcome == Claimed(false) ==> after.free == before.free && after.reserved == before.reserved)
  {
    var before := Run(chain, s, calls);
    var outcome := Step(chain, before, call).1;
    if outcome == Cancelled {
      EscrowLedger(chain, s, calls, call.source);
      CancelPaysInFull(chain, before, call, Stranded(chain, s, calls, call.source));
    } else if outcome == Claimed(true) {
      var source := before.pending[(call.target, chain.hash(call.hashType, call.proof))].source;
      EscrowLedger(chain, s, calls, source);
      ClaimPaysInFull(chain, before, call, Stranded(chain, s, calls, source));
    }
  }

  // ---- settlement ----

  /** The key a settling call is about. */
  function KeyOf(chain: Chain, call: Call): Option<Key> {
    match call
    case Create(_, target, key, _, _, _, _) => Some((target, key))
    case Claim(target, proof, hashType, _, _) => Some((target, chain.hash(hashType, proof)))
    case Cancel(_, target, key) => Some((target, key))
    case _ => None
  }

  predicate Creates(chain: Chain, s: State, calls: seq<Call>, i: nat, k: Key)
    requires i < |calls|
  {
    OutcomeAt(chain, s, calls, i) == Created && KeyOf(chain, calls[i]) == Some(k)
  }

  predicate Settles(chain: Chain, s: State, calls: seq<Call>, i: nat, k: Key)
    requires i < |calls|
  {
    (OutcomeAt(chain, s, calls, i) == Cancelled || OutcomeAt(chain, s, calls, i).Claimed?) && KeyOf(chain, calls[i]) == Some(k)
  }

  /** How often swap `k` has been created less how often it has been settled. */
  function Balance(chain: Chain, s: State, calls: seq<Call>, k: Key): int {
    if calls == [] then 0
    else
      var n := |calls| - 1;
      Balance(chain, s, calls[..n], k)
      + (if Creates(chain, s, calls, n, k) then 1 else 0)
      - (if Settles(chain, s, calls, n, k) then 1 else 0)
  }

  /** A creation opens a swap that was not open and a settlement closes one that was: at every point
      of a run the two counts differ by one exactly when the swap is pending. */
  lemma {:induction false} SettledAtMostOnce(chain: Chain, s: State, calls: seq<Call>, k: Key)
    requires Genesis(s)
    ensures Balance(chain, s, calls, k) == if k in Run(chain, s, calls).pending then 1 else 0
  {
    if calls != [] {
      SettledAtMostOnce(chain, s, calls[..|calls| - 1], k);
    }
  }

  /** Position `i` created the swap now pending under `k`, and nothing settled it since. */
  ghost predicate OpenSince(chain: Chain, s: State, calls: seq<Call>, i: nat, k: Key) {
    && i < |calls|
    && Creates(chain, s, calls, i, k)
    && forall j :: i < j < |calls| ==> !Settles(chain, s, calls, j, k)
  }

  lemma {:induction false} BlocksAdvance(chain: Chain, s: State, calls: seq<Call>, i: nat)
    requires i <= |calls|
    ensures Run(chain, s, calls[..i]).block <= Run(chain, s, calls).block
  {
    if i < |calls| {
      var front := calls[..|calls| - 1];
      BlocksAdvance(chain, s, front, i);
      assert front[..i] == calls[..i];
    } else {
      assert calls[..i] == calls;
    }
  }

  /** A swap is pending after a call because the call created it, or because it was pending before
      and the call did not settle it. */
  lemma PendingStep(chain: Chain, s: State, call: Call, k: Key)
    requires k in Step(chain, s, call).0.pending
    ensures var (after, outcome) := Step(chain, s, call);
            || (outcome == Created && KeyOf(chain, call) == Some(k)
                && after.pending[k] == Swap(call.source, call.hashType, call.value, EndBlock(s.block, call.duration)))
            || (k in s.pending && after.pending[k] == s.pending[k]
                && !((outcome == Cancelled || outcome.Claimed?) && KeyOf(chain, call) == Some(k)))
  {
  }

  lemma OpenSinceExtends(chain: Chain, s: State, calls: seq<Call>, i: nat, k: Key)
    requires calls != [] && OpenSince(chain, s, calls[..|calls| - 1], i, k)
    requires !Settles(chain, s, calls, |calls| - 1, k)
    ensures OpenSince(chain, s, calls, i, k)
  {
    var front := calls[..|calls| - 1];
    assert front[..i] == calls[..i];
    forall j | i < j < |calls|
      ensures !Settles(chain, s, calls, j, k)
    {
      if j < |front| {
        assert front[..j] == calls[..j];
        assert !Settles(chain, s, front, j, k);
      }
    }
  }

  /** Every pending swap is the one some call of the run put there. */
  lemma {:induction false} PendingHasOrigin(chain: Chain, s: State, calls: seq<Call>, k: Key) returns (i: nat)
    requires Genesis(s) && k in Run(chain, s, calls).pending
    ensures OpenSince(chain, s, calls, i, k)
    ensures var c := calls[i];
            && c.Create?
            && Run(chain, s, calls).pending[k]
               == Swap(c.source, c.hashType, c.value, EndBlock(Run(chain, s, calls[..i]).block, c.duration))
  {
    var n := |calls| - 1;
    var front := calls[..n];
    PendingStep(chain, Run(chain, s, front), calls[n], k);
    if Creates(chain, s, calls, n, k) {
      i := n;
    } else {
      i := PendingHasOrigin(chain, s, front, k);
      assert front[..i] == calls[..i];
      OpenSinceExtends(chain, s, calls, i, k);
    }
  }

  /** Whoever settles a swap was entitled to. A cancel comes from the account that created the swap,
      no earlier than the stored end block, which is the creation block plus the duration asked for if
      that fits in 32 bits; a claim comes from the target, for the created value, with a proof whose
      hash is the key. Either way the swap had not been settled since that creation. */
  lemma SettledOnlyByTheRightParty(chain: Chain, s: State, calls: seq<Call>, n: nat, k: Key) returns (i: nat)
    requires Genesis(s) && n < |calls| && Settles(chain, s, calls, n, k)
    ensures i < n && OpenSince(chain, s, calls[..n], i, k)
    ensures calls[i].Create? && (calls[i].target, calls[i].key) == k
    ensures calls[n].Cancel? ==>
              var (created, settled) := (Run(chain, s, calls[..i]).block, Run(chain, s, calls[..n]).block);
              && calls[n].source == calls[i].source
              && settled >= EndBlock(created, calls[i].duration)
              && (created + calls[i].duration < U32_RANGE ==> settled >= created + calls[i].duration)
    ensures calls[n].Claim? ==>
              && calls[n].target == k.0 && calls[n].value == calls[i].value
              && chain.hash(calls[n].hashType, calls[n].proof) == k.1
              && |calls[n].proof| <= chain.proofLimit
  {
    i := PendingHasOrigin(chain, s, calls[..n], k);
    assert calls[..n][..i] == calls[..i];
  }

  // ---- the time lock ----

  /** Whatever calls follow the creation `c`, if the swap is then still the one created and its creator
      can cancel it, the duration has passed. */
  ghost predicate LockedForDuration(chain: Chain, s: State, c: Call)
    requires c.Create?
  {
    var created := Step(chain, s, c).0;
    forall calls: seq<Call> ::
      var now := Run(chain, created, calls);
      NeverSettled(chain, created, calls, (c.target, c.key)) && CancelStep(now, c.source, c.target, c.key).1 == Cancelled
      ==> now.block >= s.block + c.duration
  }

  ghost predicate NeverSettled(chain: Chain, s: State, calls: seq<Call>, k: Key) {
    forall j :: 0 <= j < |calls| ==> !Settles(chain, s, calls, j, k)
  }

  lemma {:induction false} UnsettledStays(chain: Chain, s: State, calls: seq<Call>, k: Key)
    requires k in s.pending && NeverSettled(chain, s, calls, k)
    ensures k in Run(chain, s, calls).pending && Run(chain, s, calls).pending[k] == s.pending[k]
  {
    if calls != [] {
      var n := |calls| - 1;
      var front := calls[..n];
      assert forall j :: 0 <= j < n ==> front[..j] == calls[..j];
      forall j | 0 <= j < n ensures !Settles(chain, s, front, j, k) { assert !Settles(chain, s, calls, j, k); }
      UnsettledStays(chain, s, front, k);
      assert !Settles(chain, s, calls, n, k);
    }
  }

  /** The caller names the duration, and nothing bounds it: the swap is locked for the duration exactly
      when its end is a 32-bit block number. */
  lemma LockedForDurationIff(chain: Chain, s: State, c: Call)
    requires c.Create? && Step(chain, s, c).1 == Created
    ensures LockedForDuration(chain, s, c) <==> s.block + c.duration < U32_RANGE
  {
    var created, k := Step(chain, s, c).0, (c.target, c.key);
    if s.block + c.duration < U32_RANGE {
      forall calls: seq<Call> | NeverSettled(chain, created, calls, k) && CancelStep(Run(chain, created, calls), c.source, c.target, c.key).1 == Cancelled
        ensures Run(chain, created, calls).block >= s.block + c.duration
      {
        UnsettledStays(chain, created, calls, k);
      }
    } else {
      assert Run(chain, created, []) == created && NeverSettled(chain, created, [], k);
      assert CancelStep(created, c.source, c.target, c.key).1 == Cancelled;
    }
  }

  /** For example: a swap created in any block but the first with the longest duration there is can be
      cancelled at once. */
  lemma LongestDurationLocksNothing(chain: Chain, s: State, c: Call)
    requires c.Create? && Step(chain, s, c).1 == Created && s.block > 0 && c.duration == U32_RANGE - 1
    ensures Step(chain, Step(chain, s, c).0, Cancel(c.source, c.target, c.key)).1 == Cancelled
    ensures !LockedForDuration(chain, s, c)
  {
    LockedForDurationIff(chain, s, c);
  }

  /** Cross-chain atomicity: a proof that was accepted on one chain is accepted for a counterpart
      pending under the same key on another chain with the same hash functions exactly when it fits
      that chain's proof limit, which it does when that limit is no smaller; and unless the currency
      refuses, the counterpart pays its whole value. */
  lemma ProofUnlocksCounterpart(here: Chain, there: Chain, s: State, calls: seq<Call>, n: nat,
                                t: State, calls': seq<Call>, target': Account, refused': bool)
    requires here.hash == there.hash && Genesis(t)
    requires n < |calls| && calls[n].Claim? && OutcomeAt(here, s, calls, n).Claimed?
    requires (target', here.hash(calls[n].hashType, calls[n].proof)) in Run(there, t, calls').pending
    ensures var before := Run(there, t, calls');
            var swap := before.pending[(target', here.hash(calls[n].hashType, calls[n].proof))];
            var (after, outcome) := ClaimStep(there, before, target', calls[n].proof, calls[n].hashType, swap.value, refused');
            && (outcome.Claimed? <==> |calls[n].proof| <= there.proofLimit)
            && (here.proofLimit <= there.proofLimit ==> outcome.Claimed?)
            && (outcome == Claimed(true) && target' != swap.source ==>
                  && Get(after.free, target') == Get(before.free, target') + swap.value
                  && Get(after.reserved, swap.source) == Get(before.reserved, swap.source) - swap.value)
            && (outcome.Claimed? && !refused' ==> outcome == Claimed(true))
  {
    var swap := Run(there, t, calls').pending[(target', here.hash(calls[n].hashType, calls[n].proof))];
    SettlementPaysInFull(there, t, calls', Claim(target', calls[n].proof, calls[n].hashType, swap.value, refused'));
  }

  /** The hash type stored with a swap takes no part in claiming it: the claim is decided by the hash
      type the claimer names. */
  lemma StoredHashTypeIsIgnored(chain: Chain, s: State, target: Account, proof: Proof, named: HashType,
                                stored: HashType, value: nat, refused: bool)
    requires (target, chain.hash(named, proof)) in s.pending
    ensures var k := (target, chain.hash(named, proof));
            var relabelled := s.(pending := s.pending[k := s.pending[k].(hashType := stored)]);
            var (after, outcome) := ClaimStep(chain, s, target, proof, named, value, refused);
            && outcome == ClaimStep(chain, relabelled, target, proof, named, value, refused).1
            && (outcome.Claimed? ==> after == ClaimStep(chain, relabelled, target, proof, named, value, refused).0)
  {
    var k := (target, chain.hash(named, proof));
    assert s.pending[k := s.pending[k].(hashType := stored)] - {k} == s.pending - {k};
  }

  // ---- the hash type ----

  /** Hashes tell both the type and the proof. */
  ghost predicate InjectiveHashes(chain: Chain) {
    forall t, p, t', p' :: chain.hash(t, p) == chain.hash(t', p') ==> t == t' && p == p'
  }

  /** Every accepted claim of the pending swap names the hash type stored with it. */
  ghost predicate ClaimsNameTheStoredType(chain: Chain, s: State, k: Key)
    requires k in s.pending
  {
    forall proof, named, value, refused ::
      chain.hash(named, proof) == k.1 && ClaimStep(chain, s, k.0, proof, named, value, refused).1.Claimed?
      ==> named == s.pending[k].hashType
  }

  /** Whatever the stored type, a claim under the type that the key was made with is accepted. */
  lemma ClaimUnderAnotherType(chain: Chain, s: State, k: Key, t: HashType, proof: Proof, refused: bool)
    requires k in s.pending && k.1 == chain.hash(t, proof) && |proof| <= chain.proofLimit
    ensures ClaimStep(chain, s, k.0, proof, t, s.pending[k].value, refused).1.Claimed?
    ensures s.pending[k].hashType != t ==> !ClaimsNameTheStoredType(chain, s, k)
  {
    assert k == (k.0, chain.hash(t, proof));
  }

  /** Claims name the stored type exactly when the creator stored the type that the key was made with,
      or nobody can claim the swap because the proof is too long. */
  lemma ClaimsNameTheStoredTypeIff(chain: Chain, s: State, k: Key, t: HashType, proof: Proof)
    requires k in s.pending && k.1 == chain.hash(t, proof) && InjectiveHashes(chain)
    ensures ClaimsNameTheStoredType(chain, s, k) <==> s.pending[k].hashType == t || |proof| > chain.proofLimit
  {
    if |proof| <= chain.proofLimit { ClaimUnderAnotherType(chain, s, k, t, proof, false); }
  }

  /** For example: a swap is created with another type than its key was made with, and is claimed. */
  lemma MislabelledSwapIsClaimed(chain: Chain, s: State, c: Call, t: HashType, proof: Proof)
    requires c.Create? && Step(chain, s, c).1 == Created
    requires c.key == chain.hash(t, proof) && c.hashType != t && |proof| <= chain.proofLimit
    ensures var calls := [c, Claim(c.target, proof, t, c.value, false)];
            OutcomeAt(chain, s, calls, 1).Claimed? && Run(chain, s, calls[..1]).pending[(c.target, c.key)].hashType != t
  {
    var calls := [c, Claim(c.target, proof, t, c.value, false)];
    assert calls[..1] == [c] && [c][..0] == [] && Run(chain, s, []) == s;
    ClaimUnderAnotherType(chain, Step(chain, s, c).0, (c.target, c.key), t, proof, false);
  }

  // ---- when calls succeed, and what they do ----

  /** `after` is `before` with `value` taken from `from` and given to `to`; nobody else's changes. */
  ghost predicate Moved(before: map<Account, nat>, after: map<Account, nat>, from: Option<Account>, to: Option<Account>, value: nat) {
    forall a: Account :: Get(after, a) + (if from == Some(a) then value else 0) == Get(before, a) + (if to == Some(a) then value else 0)
  }

  /** A swap is created exactly when its key is free and its value can be reserved; the value then moves
      from the free to the reserved balance of its creator. */
  lemma CreateMeaning(chain: Chain, s: State, c: Call)
    requires c.Create?
    ensures var ((s', outcome), k) := (Step(chain, s, c), (c.target, c.key));
            && (outcome == Created <==> k !in s.pending && (c.value == 0 || (!c.refused && c.value <= Get(s.free, c.source))))
            && (outcome == Created ==>
                  && s' == s.(pending := s.pending[k := Swap(c.source, c.hashType, c.value, EndBlock(s.block, c.duration))],
                              free := s'.free, reserved := s'.reserved)
                  && Moved(s.free, s'.free, Some(c.source), None, c.value)
                  && Moved(s.reserved, s'.reserved, None, Some(c.source), c.value))
            && (outcome != Created ==> s' == s)
  {
  }

  /** After any run a claim is accepted exactly when the proof fits and hashes to the key of a swap
      pending for the claimer with the value claimed. It consumes the swap, and pays unless the currency
      refuses. */
  lemma ClaimMeaning(chain: Chain, s: State, calls: seq<Call>, c: Call)
    requires Genesis(s) && c.Claim?
    ensures var (before, k) := (Run(chain, s, calls), (c.target, chain.hash(c.hashType, c.proof)));
            var (after, outcome) := Step(chain, before, c);
            && (outcome.Claimed? <==> |c.proof| <= chain.proofLimit && k in before.pending && before.pending[k].value == c.value)
            && (outcome.Claimed? ==>
                  && after == before.(pending := before.pending - {k}, free := after.free, reserved := after.reserved)
                  && (outcome.paid <==> c.value == 0 || before.pending[k].source == c.target || !c.refused)
                  && (outcome.paid ==>
                        && Moved(before.free, after.free, None, Some(c.target), c.value)
                        && Moved(before.reserved, after.reserved, Some(before.pending[k].source), None, c.value))
                  && (!outcome.paid ==> after.free == before.free && after.reserved == before.reserved))
            && (outcome.Rejected? ==> after == before)
  {
    var (before, k) := (Run(chain, s, calls), (c.target, chain.hash(c.hashType, c.proof)));
    if Step(chain, before, c).1.Claimed? {
      EscrowLedger(chain, s, calls, before.pending[k].source);
      TakeSwapOut(before, k, before.pending[k].source);
    }
  }

  /** After any run a cancel is accepted exactly when the caller created the pending swap and its end
      block has been reached; in the end block itself it already is. The value goes back to the caller. */
  lemma CancelMeaning(chain: Chain, s: State, calls: seq<Call>, c: Call)
    requires Genesis(s) && c.Cancel?
    ensures var (before, k) := (Run(chain, s, calls), (c.target, c.key));
            var (after, outcome) := Step(chain, before, c);
            && (outcome == Cancelled <==>
                  k in before.pending && before.pending[k].source == c.source && before.pending[k].endBlock <= before.block)
            && (outcome == Cancelled ==>
                  && after == before.(pending := before.pending - {k}, free := after.free, reserved := after.reserved)
                  && Moved(before.free, after.free, None, Some(c.source), before.pending[k].value)
                  && Moved(before.reserved, after.reserved, Some(c.source), None, before.pending[k].value))
            && (outcome != Cancelled ==> after == before)
  {
    var (before, k) := (Run(chain, s, calls), (c.target, c.key));
    if Step(chain, before, c).1 == Cancelled {
      EscrowLedger(chain, s, calls, c.source);
      TakeSwapOut(before, k, c.source);
    }
  }
}
