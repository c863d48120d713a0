/** Nodes, their classes, and the consensus submission of a subnet epoch. */
module Network {
  import opened Collections
  import opened FixedPoint
  import opened ConsensusScores

  type ValidatorId = nat
  type Account = nat
  type Epoch = u32
  type Block = u32

  /** The classes in the order in which a node passes through them. */
  datatype NodeClass = Registered | Idle | Included | Validator {
    function Rank(): nat {
      match this
      case Registered => 0
      case Idle => 1
      case Included => 2
      case Validator => 3
    }

    function Next(): NodeClass {
      match this
      case Registered => Idle
      case Idle => Included
      case _ => Validator
    }
  }

  datatype Classification = Classification(nodeClass: NodeClass, startEpoch: Epoch)

  datatype SubnetNode = SubnetNode(id: NodeId, validatorId: ValidatorId, classification: Classification) {
    predicate Has(required: NodeClass, epoch: Epoch) {
      classification.nodeClass.Rank() >= required.Rank() && classification.startEpoch <= epoch
    }
  }

  datatype AttestEntry = AttestEntry(block: Block, progress: u128, rewardFactor: u128)

  /** A stored submission: who proposed what, and who has attested to it so far. */
  datatype ConsensusData = ConsensusData(
    proposer: NodeId, block: Block, proposerFactor: u128, attestors: seq<NodeId>, attests: map<NodeId, AttestEntry>,
    nodes: seq<SubnetNode>, prioritize: Option<NodeId>, remove: Option<NodeId>, data: seq<Score>)

  /** A submission as distribution sees it, with the attestation ratio and the sum of the scores. */
  datatype Submission = Submission(
    proposer: NodeId, proposerFactor: u128, attestationRatio: u128, weightSum: u128, data: seq<Score>,
    attests: map<NodeId, AttestEntry>, nodes: seq<SubnetNode>, prioritize: Option<NodeId>, remove: Option<NodeId>)

  ghost predicate DistinctNodes(nodes: seq<SubnetNode>) {
    forall i, j :: 0 <= i < j < |nodes| ==> nodes[i].id != nodes[j].id
  }

  lemma LastIsNew(nodes: seq<SubnetNode>)
    requires DistinctNodes(nodes) && nodes != []
    ensures DistinctNodes(nodes[..|nodes| - 1]) && forall m :: m in nodes[..|nodes| - 1] ==> m.id != nodes[|nodes| - 1].id
  {
    var front, last := nodes[..|nodes| - 1], nodes[|nodes| - 1];
    forall m | m in front
      ensures m.id != last.id
    {
      var i :| 0 <= i < |front| && front[i] == m;
      assert nodes[i].id != nodes[|front|].id;
    }
  }

  function FindNode(nodes: seq<SubnetNode>, id: NodeId): (r: Option<SubnetNode>)
    ensures r.Some? ==> r.value in nodes && r.value.id == id
    ensures r.None? ==> forall n :: n in nodes ==> n.id != id
  {
    if nodes == [] then None
    else if nodes[0].id == id then Some(nodes[0])
    else FindNode(nodes[1..], id)
  }
}
