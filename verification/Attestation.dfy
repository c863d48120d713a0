/** Proposing and attesting: one submission per subnet epoch, and attestations that only accumulate. */
module Attestation {
  import opened Collections
  import opened FixedPoint
  import opened ConsensusScores
  import opened Network

  datatype Error =
    | InvalidValidator | SubnetEpochDataIsNone | NoElectedValidator | InvalidSubnetNodeId | SubnetRewardsAlreadySubmitted
    | ScoreOverflow | InvalidSubnetNodeClassification | InvalidSubnetConsensusSubmission | InvalidValidatorId | AlreadyAttested

  /** What the pallet reads from other storage at the time of a call: the clock, the active nodes, the
      registration queue, the election slots, the emergency validators, and the elected proposer.
      `refused` is the answer of the caller's key checks. */
  datatype View = View(
    refused: Option<Error>, epoch: Epoch, block: Block, slot: Block, epochLength: EpochLength, active: seq<SubnetNode>,
    queue: seq<SubnetNode>, immunityEpochs: u32, slots: seq<NodeId>, emergency: Option<seq<NodeId>>, elected: Option<NodeId>)
  {
    /** Storage holds a node under one id only. */
    ghost predicate Ok() {
      DistinctNodes(active)
    }
  }

  /** The reward curves before clamping, which the pallet computes in floating point. */
  datatype Curves = Curves(proposer: u128 -> u128, attestor: u128 -> u128)

  type EpochLength = x: u32 | x > 0 witness 1

  type Store = map<Epoch, ConsensusData>

  datatype Call =
    | Propose(node: NodeId, data: seq<Score>, prioritize: Option<NodeId>, remove: Option<NodeId>)
    | Attest(node: NodeId)

  // ---- the queue requests of a proposal ----

  /** The immunity check, whose sum is a 32-bit one. */
  predicate PassesCheck(v: View, n: SubnetNode) {
    Wrap(n.classification.startEpoch + v.immunityEpochs) <= v.epoch
  }

  /** What the scan of the queue knows: whether the node to prioritize has been seen, and whether the
      node to remove may be. */
  datatype Scan = Scan(prioritizeExists: bool, removeAllowed: bool)

  function ScanNode(v: View, prioritize: Option<NodeId>, remove: Option<NodeId>, scan: Scan, node: SubnetNode): Scan {
    Scan(scan.prioritizeExists || prioritize == Some(node.id),
         if remove == Some(node.id) then PassesCheck(v, node) else scan.removeAllowed)
  }

  /** The scan stops as soon as both requests stand. */
  function ScanQueue(v: View, prioritize: Option<NodeId>, remove: Option<NodeId>, scan: Scan, queue: seq<SubnetNode>): Scan
    decreases queue
  {
    if queue == [] then scan
    else
      var scan' := ScanNode(v, prioritize, remove, scan, queue[0]);
      if scan'.prioritizeExists && scan'.removeAllowed then scan'
      else ScanQueue(v, prioritize, remove, scan', queue[1..])
  }

  function KeptRequests(v: View, prioritize: Option<NodeId>, remove: Option<NodeId>): (Option<NodeId>, Option<NodeId>) {
    var scan := ScanQueue(v, prioritize, remove, Scan(prioritize.None?, remove.None?), v.queue);
    (if scan.prioritizeExists then prioritize else None, if scan.removeAllowed then remove else None)
  }

  // ---- what each call does ----

  function Eligible(v: View): Score -> bool {
    (e: Score) => FindNode(v.active, e.node).Some? && FindNode(v.active, e.node).value.Has(Included, v.epoch)
  }

  function IsActive(v: View): SubnetNode -> bool {
    (n: SubnetNode) => n.Has(Idle, v.epoch)
  }

  function Attestors(v: View): seq<NodeId> {
    CanonicalIds(if v.emergency.Some? then v.emergency.value else v.slots)
  }

  /** How far the epoch has got, as a percentage. */
  function EpochProgress(v: View): u128
  {
    var offset := (if v.block < v.slot then 0 else v.block - v.slot) % v.epochLength;
    PercentDiv(offset, v.epochLength)
  }

  /** How far the time from the proposal to the end of its epoch has passed. */
  function AttestorProgress(v: View, proposed: Block): Option<u128>
  {
    if v.block < proposed then None
    else
      var offset := if proposed < v.slot then 0 else proposed - v.slot;
      var remaining := v.epochLength - offset % v.epochLength;
      if v.block - proposed >= remaining then Some(ONE)
      else Some(PercentDiv(v.block - proposed, remaining))
  }

  function ProposeStep(curves: Curves, v: View, s: Store, node: NodeId, data: seq<Score>, prioritize: Option<NodeId>,
                       remove: Option<NodeId>): (Store, Option<Error>)
  {
    if v.refused.Some? then (s, v.refused)
    else if v.elected.None? then (s, Some(NoElectedValidator))
    else if node != v.elected.value then (s, Some(InvalidSubnetNodeId))
    else if v.epoch in s then (s, Some(SubnetRewardsAlreadySubmitted))
    else
      match Canonical(Filter(data, Eligible(v)))
      case Err(_) => (s, Some(Error.ScoreOverflow))
      case Ok((entries, _)) =>
        var (prioritize', remove') := KeptRequests(v, prioritize, remove);
        (s[v.epoch := ConsensusData(node, v.block, Min(curves.proposer(EpochProgress(v)), ONE), Attestors(v),
                                    map[node := AttestEntry(v.block, 0, ONE)], Filter(v.active, IsActive(v)),
                                    prioritize', remove', entries)], None)
  }

  function AttestStep(curves: Curves, v: View, s: Store, node: NodeId): (Store, Option<Error>)
  {
    if v.refused.Some? then (s, v.refused)
    else if FindNode(v.active, node).None? then (s, Some(InvalidSubnetNodeId))
    else if !FindNode(v.active, node).value.Has(NodeClass.Validator, v.epoch) then (s, Some(InvalidSubnetNodeClassification))
    else if v.epoch !in s then (s, Some(InvalidSubnetConsensusSubmission))
    else if node !in s[v.epoch].attestors then (s, Some(InvalidValidatorId))
    else
      match AttestorProgress(v, s[v.epoch].block)
      case None => (s, Some(SubnetEpochDataIsNone))
      case Some(progress) =>
        if node in s[v.epoch].attests then (s, Some(AlreadyAttested))
        else
          var entry := AttestEntry(v.block, progress, Min(curves.attestor(progress), ONE));
          (s[v.epoch := s[v.epoch].(attests := s[v.epoch].attests[node := entry])], None)
  }

  function Step(curves: Curves, v: View, s: Store, call: Call): (Store, Option<Error>)
  {
    match call
    case Propose(node, data, prioritize, remove) => ProposeStep(curves, v, s, node, data, prioritize, remove)
    case Attest(node) => AttestStep(curves, v, s, node)
  }

  // ---- the pallet, as it updates its storage ----

  class Pallet {
    const curves: Curves
    var submissions: Store

    constructor (curves: Curves)
      ensures this.curves == curves && submissions == map[]
    {
      this.curves, submissions := curves, map[];
    }

    method ProposeAttestation(v: View, node: NodeId, data: seq<Score>, prioritize: Option<NodeId>, remove: Option<NodeId>)
      returns (error: Option<Error>)
      modifies this`submissions
      ensures (submissions, error) == ProposeStep(curves, v, old(submissions), node, data, prioritize, remove)
    {
      if v.refused.Some? {
        return v.refused;
      }
      if v.elected.None? {
        return Some(NoElectedValidator);
      }
      if node != v.elected.value {
        return Some(InvalidSubnetNodeId);
      }
      if v.epoch in submissions {
        return Some(SubnetRewardsAlreadySubmitted);
      }
      var canonical := CanonicalizeEntries(Filter(data, Eligible(v)));
      if canonical.Err? {
        return Some(Error.ScoreOverflow);
      }
      var attests := map[node := AttestEntry(v.block, 0, ONE)];
      var nodes := Filter(v.active, IsActive(v));
      var prioritize', remove' := prioritize, remove;
      if prioritize.Some? || remove.Some? {
        prioritize', remove' := CheckQueueRequests(v, prioritize, remove);
      } else {
        NoRequests(v, v.queue, Scan(true, true));
      }
      submissions := submissions[v.epoch := ConsensusData(node, v.block, Min(curves.proposer(EpochProgress(v)), ONE), Attestors(v),
                                                          attests, nodes, prioritize', remove', canonical.value.0)];
      return None;
    }

    method Attest(v: View, node: NodeId) returns (error: Option<Error>)
      modifies this`submissions
      ensures (submissions, error) == AttestStep(curves, v, old(submissions), node)
    {
      if v.refused.Some? {
        return v.refused;
      }
      var found := FindNode(v.active, node);
      if found.None? {
        return Some(InvalidSubnetNodeId);
      }
      if !found.value.Has(NodeClass.Validator, v.epoch) {
        return Some(InvalidSubnetNodeClassification);
      }
      if v.epoch !in submissions {
        return Some(InvalidSubnetConsensusSubmission);
      }
      var params := submissions[v.epoch];
      if node !in params.attestors {
        return Some(InvalidValidatorId);
      }
      var progress := AttestorProgress(v, params.block);
      if progress.None? {
        return Some(SubnetEpochDataIsNone);
      }
      // The insertion happens before the test; the changed copy is stored only if the test passes.
      var previous := if node in params.attests then Some(params.attests[node]) else None;
      params := params.(attests := params.attests[node := AttestEntry(v.block, progress.value, Min(curves.attestor(progress.value), ONE))]);
      if previous.Some? {
        return Some(AlreadyAttested);
      }
      submissions := submissions[v.epoch := params];
      return None;
    }
  }

  /** One pass over the queue decides both requests. */
  method CheckQueueRequests(v: View, prioritize: Option<NodeId>, remove: Option<NodeId>)
    returns (prioritize': Option<NodeId>, remove': Option<NodeId>)
    ensures (prioritize', remove') == KeptRequests(v, prioritize, remove)
  {
    var prioritizeExists, removeAllowed := prioritize.None?, remove.None?;
    ghost var first := Scan(prioritizeExists, removeAllowed);
    var k := 0;
    while k < |v.queue|
      invariant 0 <= k <= |v.queue|
      invariant remove.None? ==> removeAllowed
      invariant ScanQueue(v, prioritize, remove, first, v.queue)
                == ScanQueue(v, prioritize, remove, Scan(prioritizeExists, removeAllowed), v.queue[k..])
    {
      var node := v.queue[k];
      assert v.queue[k..][1..] == v.queue[k + 1..];
      if prioritize == Some(node.id) {
        prioritizeExists := true;
      }
      if remove == Some(node.id) {
        removeAllowed := Wrap(node.classification.startEpoch + v.immunityEpochs) <= v.epoch;
      }
      if prioritizeExists && (remove.None? || removeAllowed) {
        return prioritize, remove;
      }
      k := k + 1;
    }
    return if prioritizeExists then prioritize else None, if removeAllowed then remove else None;
  }

  lemma NoRequests(v: View, queue: seq<SubnetNode>, scan: Scan)
    requires scan == Scan(true, true)
    ensures ScanQueue(v, None, None, scan, queue) == scan
  {
  }
}
