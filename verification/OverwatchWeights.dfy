/** Overwatch commit and reveal: a two-phase protocol keyed by epoch, overwatch node and subnet. */
module OverwatchWeights {
  import opened Collections
  import opened FixedPoint

  type NodeId = nat
  type SubnetId = nat
  type Hash = nat
  type Salt = seq<bv8>

  datatype Commit = Commit(subnet: SubnetId, hash: Hash)

  datatype Reveal = Reveal(subnet: SubnetId, weight: u128, salt: Salt)

  /** The hash function and the epoch layout, which stay fixed over a run. */
  datatype Config = Config(hash: (u128, Salt) -> Hash, epochLength: u32, multiplier: u32, cutoff: u128) {
    /** Neither factor of the epoch length is zero: both setters see to that. */
    predicate Ok() {
      epochLength > 0 && multiplier > 0
    }
  }

  datatype CommitKey = CommitKey(epoch: nat, node: NodeId, subnet: SubnetId)

  datatype RevealKey = RevealKey(epoch: nat, subnet: SubnetId, node: NodeId)

  datatype State = State(commits: map<CommitKey, Hash>, revealed: map<RevealKey, u128>, block: u32)

  datatype Error =
    | NotKeyOwner | InvalidValidatorId | ColdkeyBlacklisted | NotCommitPeriod | CommitsEmpty | AlreadyCommitted
    | NotRevealPeriod | InvalidWeight | NoCommitFound | RevealMismatch

  /** The two extrinsics. `refused` is what the checks on the caller's keys answer, and `known` the
      subnets that exist at the time of the call. */
  datatype Call =
    | CommitWeights(node: NodeId, batch: seq<Commit>, refused: Option<Error>, known: set<SubnetId>)
    | RevealWeights(node: NodeId, openings: seq<Reveal>, refused: Option<Error>)
    | NextBlock

  // ---- the epoch layout, in 32-bit block arithmetic ----

  /** The length of an overwatch epoch in blocks; the product saturates. */
  function Length(cfg: Config): (len: u32)
    ensures cfg.Ok() ==> len > 0
  {
    if cfg.epochLength * cfg.multiplier < U32_RANGE then cfg.epochLength * cfg.multiplier else U32_RANGE - 1
  }

  function EpochOf(cfg: Config, block: u32): nat
    requires cfg.Ok()
  {
    block / Length(cfg)
  }

  /** How many blocks at the start of an epoch are for committing. */
  function CutoffBlocks(cfg: Config): nat {
    PercentMul(Length(cfg), cfg.cutoff)
  }

  predicate InCommitPeriod(cfg: Config, block: u32)
    requires cfg.Ok()
  {
    block < Wrap(Length(cfg) * EpochOf(cfg, block) + Wrap(CutoffBlocks(cfg)))
  }

  // ---- what each call does ----

  /** Collapses adjacent entries for the same subnet, keeping the first. */
  function Dedup(s: seq<Commit>): seq<Commit> {
    if s == [] then []
    else
      var n := |s| - 1;
      Dedup(s[..n]) + (if n > 0 && s[n - 1].subnet == s[n].subnet then [] else [s[n]])
  }

  function IsKnown(known: set<SubnetId>): Commit -> bool {
    (c: Commit) => c.subnet in known
  }

  /** The entries that a batch commit goes on to store. */
  function Qualified(s: seq<Commit>, known: set<SubnetId>): seq<Commit> {
    Filter(Dedup(s), IsKnown(known))
  }

  /** Stores the commits one by one; `None` at the first that is already there. */
  function CommitAll(commits: map<CommitKey, Hash>, epoch: nat, node: NodeId, s: seq<Commit>): Option<map<CommitKey, Hash>> {
    if s == [] then Some(commits)
    else
      var n := |s| - 1;
      match CommitAll(commits, epoch, node, s[..n])
      case None => None
      case Some(m) =>
        var k := CommitKey(epoch, node, s[n].subnet);
        if k in m then None else Some(m[k := s[n].hash])
  }

  function CommitStep(cfg: Config, s: State, node: NodeId, batch: seq<Commit>, refused: Option<Error>,
                      known: set<SubnetId>): (State, Option<Error>)
    requires cfg.Ok()
  {
    if refused.Some? then (s, refused)
    else if !InCommitPeriod(cfg, s.block) then (s, Some(NotCommitPeriod))
    else if Qualified(batch, known) == [] then (s, Some(CommitsEmpty))
    else
      match CommitAll(s.commits, EpochOf(cfg, s.block), node, Qualified(batch, known))
      case None => (s, Some(AlreadyCommitted))
      case Some(m) => (s.(commits := m), None)
  }

  /** The error of revealing `r`, if any. */
  function RevealError(cfg: Config, commits: map<CommitKey, Hash>, epoch: nat, node: NodeId, r: Reveal): Option<Error> {
    var k := CommitKey(epoch, node, r.subnet);
    if r.weight > ONE then Some(InvalidWeight)
    else if k !in commits then Some(NoCommitFound)
    else if cfg.hash(r.weight, r.salt) != commits[k] then Some(RevealMismatch)
    else None
  }

  function RevealAll(cfg: Config, commits: map<CommitKey, Hash>, revealed: map<RevealKey, u128>, epoch: nat, node: NodeId,
                     s: seq<Reveal>): Result<map<RevealKey, u128>, Error>
  {
    if s == [] then Ok(revealed)
    else
      var n := |s| - 1;
      match RevealAll(cfg, commits, revealed, epoch, node, s[..n])
      case Err(e) => Err(e)
      case Ok(m) =>
        match RevealError(cfg, commits, epoch, node, s[n])
        case Some(e) => Err(e)
        case None => Ok(m[RevealKey(epoch, s[n].subnet, node) := s[n].weight])
  }

  function RevealStep(cfg: Config, s: State, node: NodeId, batch: seq<Reveal>, refused: Option<Error>): (State, Option<Error>)
    requires cfg.Ok()
  {
    if refused.Some? then (s, refused)
    else if InCommitPeriod(cfg, s.block) then (s, Some(NotRevealPeriod))
    else
      match RevealAll(cfg, s.commits, s.revealed, EpochOf(cfg, s.block), node, batch)
      case Err(e) => (s, Some(e))
      case Ok(m) => (s.(revealed := m), None)
  }

  function Step(cfg: Config, s: State, call: Call): (State, Option<Error>)
    requires cfg.Ok()
  {
    match call
    case CommitWeights(node, batch, refused, known) => CommitStep(cfg, s, node, batch, refused, known)
    case RevealWeights(node, batch, refused) => RevealStep(cfg, s, node, batch, refused)
    case NextBlock => (if s.block + 1 < U32_RANGE then s.(block := s.block + 1) else s, None)
  }

  // ---- the pallet, as it updates its storage ----

  class Pallet {
    const cfg: Config
    var commits: map<CommitKey, Hash>
    var revealed: map<RevealKey, u128>
    var block: u32

    ghost function Storage(): State
      reads this
    {
      State(commits, revealed, block)
    }

    constructor (cfg: Config, block: u32)
      ensures this.cfg == cfg && Storage() == State(map[], map[], block)
    {
      this.cfg, this.block := cfg, block;
      commits, revealed := map[], map[];
    }

    method DoCommit(node: NodeId, commit: Commit, epoch: nat) returns (error: Option<Error>)
      modifies this`commits
      ensures var k := CommitKey(epoch, node, commit.subnet);
              && error == (if k in old(commits) then Some(AlreadyCommitted) else None)
              && commits == if k in old(commits) then old(commits) else old(commits)[k := commit.hash]
    {
      if CommitKey(epoch, node, commit.subnet) in commits {
        return Some(AlreadyCommitted);
      }
      commits := commits[CommitKey(epoch, node, commit.subnet) := commit.hash];
      return None;
    }

    /** The loop writes as it goes; the storage layer rolls everything back on an error. */
    method Commit(node: NodeId, batch: seq<Commit>, refused: Option<Error>, known: set<SubnetId>) returns (error: Option<Error>)
      requires cfg.Ok()
      modifies this`commits
      ensures (Storage(), error) == CommitStep(cfg, old(Storage()), node, batch, refused, known)
    {
      if refused.Some? {
        return refused;
      }
      if !InCommitPeriod(cfg, block) {
        return Some(NotCommitPeriod);
      }
      var weights := Dedup(batch);
      weights := Filter(weights, IsKnown(known));
      if weights == [] {
        return Some(CommitsEmpty);
      }
      var epoch := EpochOf(cfg, block);
      var checkpoint := commits;
      var k := 0;
      while k < |weights|
        invariant 0 <= k <= |weights|
        invariant CommitAll(checkpoint, epoch, node, weights[..k]) == Some(commits)
      {
        assert weights[..k + 1][..k] == weights[..k];
        error := DoCommit(node, weights[k], epoch);
        if error.Some? {
          CommitAllStuck(checkpoint, epoch, node, weights, k + 1);
          commits := checkpoint;
          return;
        }
        k := k + 1;
      }
      assert weights[..k] == weights;
      return None;
    }

    method Reveal(node: NodeId, batch: seq<Reveal>, refused: Option<Error>) returns (error: Option<Error>)
      requires cfg.Ok()
      modifies this`revealed
      ensures (Storage(), error) == RevealStep(cfg, old(Storage()), node, batch, refused)
    {
      if refused.Some? {
        return refused;
      }
      if InCommitPeriod(cfg, block) {
        return Some(NotRevealPeriod);
      }
      var epoch := EpochOf(cfg, block);
      var checkpoint := revealed;
      var k := 0;
      while k < |batch|
        invariant 0 <= k <= |batch|
        invariant RevealAll(cfg, commits, checkpoint, epoch, node, batch[..k]) == Ok(revealed)
      {
        assert batch[..k + 1][..k] == batch[..k];
        error := RevealError(cfg, commits, epoch, node, batch[k]);
        if error.Some? {
          RevealAllStuck(cfg, commits, checkpoint, epoch, node, batch, k + 1);
          revealed := checkpoint;
          return;
        }
        revealed := revealed[RevealKey(epoch, batch[k].subnet, node) := batch[k].weight];
        k := k + 1;
      }
      assert batch[..k] == batch;
      return None;
    }
  }

  /** A failing prefix fails the batch. */
  lemma {:induction false} CommitAllStuck(commits: map<CommitKey, Hash>, epoch: nat, node: NodeId, s: seq<Commit>, k: nat)
    requires k <= |s| && CommitAll(commits, epoch, node, s[..k]).None?
    ensures CommitAll(commits, epoch, node, s).None?
  {
    if k < |s| {
      assert s[..|s| - 1][..k] == s[..k];
      CommitAllStuck(commits, epoch, node, s[..|s| - 1], k);
    } else {
      assert s[..k] == s;
    }
  }

  lemma {:induction false} RevealAllStuck(cfg: Config, commits: map<CommitKey, Hash>, revealed: map<RevealKey, u128>, epoch: nat,
                                          node: NodeId, s: seq<Reveal>, k: nat)
    requires k <= |s| && RevealAll(cfg, commits, revealed, epoch, node, s[..k]).Err?
    ensures RevealAll(cfg, commits, revealed, epoch, node, s) == RevealAll(cfg, commits, revealed, epoch, node, s[..k])
  {
    if k < |s| {
      assert s[..|s| - 1][..k] == s[..k];
      RevealAllStuck(cfg, commits, revealed, epoch, node, s[..|s| - 1], k);
    } else {
      assert s[..k] == s;
    }
  }
}
