/** Canonical form of a consensus submission: one entry per node, with its lowest score. */
module ConsensusScores {
  import opened Collections
  import opened FixedPoint

  type NodeId = nat

  datatype Score = Score(node: NodeId, score: u128)

  datatype Error = ScoreOverflow

  // ---- the lowest score of every node ----

  function LowestScores(data: seq<Score>): map<NodeId, u128> {
    if data == [] then map[]
    else
      var m, e := LowestScores(data[..|data| - 1]), data[|data| - 1];
      if e.node in m && m[e.node] <= e.score then m else m[e.node := e.score]
  }

  ghost predicate IsLowest(data: seq<Score>, node: NodeId, score: u128) {
    Score(node, score) in data && forall e :: e in data && e.node == node ==> score <= e.score
  }

  lemma {:induction false} LowestScoresMeaning(data: seq<Score>)
    ensures forall n :: n in LowestScores(data) <==> exists e :: e in data && e.node == n
    ensures forall n :: n in LowestScores(data) ==> IsLowest(data, n, LowestScores(data)[n])
  {
    if data != [] {
      var front, last := data[..|data| - 1], data[|data| - 1];
      LowestScoresMeaning(front);
      assert data == front + [last];
      assert last in data;
    }
  }

  // ---- in ascending order ----

  function Ascending(m: map<NodeId, u128>): seq<Score>
    decreases |m|
  {
    if m == map[] then [] else var k := Least(m.Keys); [Score(k, m[k])] + Ascending(m - {k})
  }

  ghost predicate StrictlyAscending(s: seq<Score>) {
    forall i, j :: 0 <= i < j < |s| ==> s[i].node < s[j].node
  }

  lemma {:induction false} AscendingMeaning(m: map<NodeId, u128>)
    ensures StrictlyAscending(Ascending(m))
    ensures forall e :: e in Ascending(m) <==> e.node in m && e.score == m[e.node]
    decreases |m|
  {
    if m != map[] {
      var k := Least(m.Keys);
      var rest := Ascending(m - {k});
      AscendingMeaning(m - {k});
      assert Ascending(m) == [Score(k, m[k])] + rest;
      forall j | 0 <= j < |rest|
        ensures k < rest[j].node
      {
        assert rest[j] in rest;
      }
    }
  }

  function Sum(s: seq<Score>): nat {
    if s == [] then 0 else Sum(s[..|s| - 1]) + s[|s| - 1].score
  }

  lemma {:induction false} SumConcat(s: seq<Score>, t: seq<Score>)
    ensures Sum(s + t) == Sum(s) + Sum(t)
  {
    if t == [] {
      assert s + t == s;
    } else {
      SumConcat(s, t[..|t| - 1]);
      assert (s + t)[..|s + t| - 1] == s + t[..|t| - 1];
    }
  }

  lemma SumAppend(s: seq<Score>, e: Score)
    ensures Sum(s + [e]) == Sum(s) + e.score
  {
    assert (s + [e])[..|s + [e]| - 1] == s;
  }

  /** Taking the least entry off `m` moves it behind the entries already listed. */
  lemma AscendingMoves(entries: seq<Score>, m: map<NodeId, u128>, e: Score)
    requires m != map[] && e == Score(Least(m.Keys), m[Least(m.Keys)])
    ensures entries + Ascending(m) == entries + [e] + Ascending(m - {e.node})
    ensures Sum(entries + [e]) == Sum(entries) + e.score <= Sum(entries + Ascending(m))
  {
    assert entries + Ascending(m) == entries + [e] + Ascending(m - {e.node});
    SumAppend(entries, e);
    SumConcat(entries + [e], Ascending(m - {e.node}));
  }

  // ---- the canonical form ----

  function Canonical(data: seq<Score>): Result<(seq<Score>, u128), Error> {
    var entries := Ascending(LowestScores(data));
    if Sum(entries) <= U128_MAX then Ok((entries, Sum(entries))) else Err(ScoreOverflow)
  }

  method CanonicalizeEntries(data: seq<Score>) returns (r: Result<(seq<Score>, u128), Error>)
    ensures r == Canonical(data)
  {
    var lowest: map<NodeId, u128> := map[];
    for i := 0 to |data|
      invariant lowest == LowestScores(data[..i])
    {
      assert data[..i + 1][..i] == data[..i];
      var entry := data[i];
      if entry.node in lowest {
        if entry.score < lowest[entry.node] {
          lowest := lowest[entry.node := entry.score];
        }
      } else {
        lowest := lowest[entry.node := entry.score];
      }
    }
    assert data[..|data|] == data;

    var weightSum, entries, rest := 0, [], lowest;
    while rest != map[]
      invariant Ascending(lowest) == entries + Ascending(rest)
      invariant weightSum == Sum(entries) <= U128_MAX
      decreases |rest|
    {
      var node := Least(rest.Keys);
      var score := rest[node];
      AscendingMoves(entries, rest, Score(node, score));
      if weightSum + score > U128_MAX {
        return Err(ScoreOverflow);
      }
      weightSum := weightSum + score;
      entries := entries + [Score(node, score)];
      rest := rest - {node};
    }
    assert entries + [] == entries;
    return Ok((entries, weightSum));
  }

  /** `entries` lists, in ascending order of node, exactly one entry for every node that `data` names,
      with the lowest of its scores. */
  ghost predicate ListsLowest(entries: seq<Score>, data: seq<Score>) {
    && StrictlyAscending(entries)
    && forall e: Score :: e in entries <==> IsLowest(data, e.node, e.score)
  }

  /** There is one list of the lowest scores; the canonical form is that list with its exact sum, and
      there is none exactly when that sum does not fit in 128 bits. */
  lemma CanonicalMeaning(data: seq<Score>, entries: seq<Score>)
    ensures exists lowest :: ListsLowest(lowest, data)
    ensures Canonical(data).Ok? ==>
              ListsLowest(Canonical(data).value.0, data) && Canonical(data).value.1 == Sum(Canonical(data).value.0)
    ensures ListsLowest(entries, data) ==> (Canonical(data).Ok? <==> Sum(entries) <= U128_MAX)
    ensures ListsLowest(entries, data) && Canonical(data).Ok? ==> Canonical(data).value.0 == entries
  {
    var m := LowestScores(data);
    LowestScoresMeaning(data);
    AscendingMeaning(m);
    forall e: Score
      ensures e in Ascending(m) <==> IsLowest(data, e.node, e.score)
    {
      if IsLowest(data, e.node, e.score) {
        assert Score(e.node, e.score) in data;
        assert e.node in m && IsLowest(data, e.node, m[e.node]);
        assert Score(e.node, m[e.node]) in data;
      }
    }
    assert ListsLowest(Ascending(m), data);
    if ListsLowest(entries, data) {
      AscendingUnique(entries, Ascending(m));
    }
  }

  lemma CanonicalOfOne(e: Score)
    ensures Canonical([e]) == Ok(([e], e.score))
  {
    assert [e][..0] == [] && Sum([e]) == e.score;
    assert e in [e];
    assert ListsLowest([e], [e]);
    CanonicalMeaning([e], [e]);
  }

  lemma SomeElement(s: seq<Score>)
    ensures s == [] || exists e :: e in s
  {
    if s != [] { assert s[0] in s; }
  }

  /** A strictly ascending list is determined by its elements. */
  lemma {:induction false} AscendingUnique(s: seq<Score>, t: seq<Score>)
    requires StrictlyAscending(s) && StrictlyAscending(t)
    requires forall e :: e in s <==> e in t
    ensures s == t
  {
    SomeElement(s);
    SomeElement(t);
    if s != [] {
      assert s[0] in t && t[0] in s;
      var i :| 0 <= i < |t| && t[i] == s[0];
      var j :| 0 <= j < |s| && s[j] == t[0];
      assert s[0] == t[0];
      assert s == [s[0]] + s[1..] && t == [t[0]] + t[1..];
      forall e ensures e in s[1..] <==> e in t[1..] {
        if e in s[1..] { assert e in s; assert e.node > s[0].node; assert e in t; }
        if e in t[1..] { assert e in t; assert e.node > t[0].node; assert e in s; }
      }
      AscendingUnique(s[1..], t[1..]);
    }
  }

  /** The order of submission does not matter, nor do repetitions. */
  lemma CanonicalIgnoresOrder(data: seq<Score>, data': seq<Score>)
    requires forall e :: e in data <==> e in data'
    ensures Canonical(data) == Canonical(data')
  {
    LowestScoresMeaning(data);
    LowestScoresMeaning(data');
    var m, m' := LowestScores(data), LowestScores(data');
    forall n | n in m
      ensures n in m' && m[n] == m'[n]
    {
      assert Score(n, m[n]) in data';
      assert Score(n, m'[n]) in data;
    }
    assert m.Keys == m'.Keys;
    assert m == m';
  }

  /** Canonicalizing a canonical form changes nothing: distribution recomputes what was stored. */
  lemma CanonicalIsIdempotent(data: seq<Score>)
    requires Canonical(data).Ok?
    ensures Canonical(Canonical(data).value.0) == Canonical(data)
  {
    var m := LowestScores(data);
    var entries := Ascending(m);
    AscendingMeaning(m);
    LowestScoresMeaning(entries);
    var m' := LowestScores(entries);
    forall n
      ensures n in m <==> n in m'
      ensures n in m ==> m'[n] == m[n]
    {
      if n in m {
        assert Score(n, m[n]) in entries;
        assert Score(n, m'[n]) in entries;
      }
    }
    assert m' == m;
  }

  // ---- attestor lists ----

  function DropRepeats(s: seq<nat>): seq<nat> {
    if |s| <= 1 then s
    else if s[|s| - 2] == s[|s| - 1] then DropRepeats(s[..|s| - 1])
    else DropRepeats(s[..|s| - 1]) + [s[|s| - 1]]
  }

  function CanonicalIds(ids: seq<NodeId>): seq<NodeId> {
    DropRepeats(Sort(ids))
  }

  lemma {:induction false} DropRepeatsMeaning(s: seq<nat>)
    requires Sorted(s)
    ensures var r := DropRepeats(s);
            && (forall x :: x in r <==> x in s)
            && (forall i, j :: 0 <= i < j < |r| ==> r[i] < r[j])
            && (s != [] ==> r != [] && r[|r| - 1] == s[|s| - 1])
  {
    if |s| > 1 {
      var front := s[..|s| - 1];
      DropRepeatsMeaning(front);
      assert s == front + [s[|s| - 1]];
    }
  }

  /** Canonical attestor ids are the given ids, each once, in ascending order. */
  lemma CanonicalIdsMeaning(ids: seq<NodeId>)
    ensures var r := CanonicalIds(ids);
            && (forall x :: x in r <==> x in ids)
            && (forall i, j :: 0 <= i < j < |r| ==> r[i] < r[j])
            && |r| == |Elements(ids)|
  {
    SortSorts(ids);
    DropRepeatsMeaning(Sort(ids));
    DistinctSize(CanonicalIds(ids));
    assert Elements(CanonicalIds(ids)) == Elements(ids);
  }
}
