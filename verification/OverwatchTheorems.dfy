/** When a batch commit succeeds, that commits bind their reveals, and that the phases do not mix. */
module OverwatchTheorems {
  import opened Collections
  import opened FixedPoint
  import opened OverwatchWeights

  // ---- batch commits ----

  ghost predicate DistinctSubnets(s: seq<Commit>) {
    forall i, j :: 0 <= i < j < |s| ==> s[i].subnet != s[j].subnet
  }

  predicate Names(s: seq<Commit>, subnet: SubnetId) {
    exists i :: 0 <= i < |s| && s[i].subnet == subnet
  }

  lemma NamesUnfolds(s: seq<Commit>, u: SubnetId)
    requires s != []
    ensures Names(s, u) <==> Names(s[..|s| - 1], u) || s[|s| - 1].subnet == u
  {
    var front := s[..|s| - 1];
    if Names(front, u) {
      var i :| 0 <= i < |front| && front[i].subnet == u;
      assert s[i].subnet == u;
    }
    if Names(s, u) && s[|s| - 1].subnet != u {
      var i :| 0 <= i < |s| && s[i].subnet == u;
      assert front[i].subnet == u;
    }
  }

  /** All entries for a known subnet stand next to each other. */
  ghost predicate Contiguous(s: seq<Commit>, known: set<SubnetId>) {
    forall i, j :: 0 <= i < j < |s| && s[i].subnet == s[j].subnet && s[j].subnet in known ==> s[j - 1].subnet == s[j].subnet
  }

  /** Entry `i` is the first of a run of entries for a known subnet. */
  ghost predicate Leads(s: seq<Commit>, known: set<SubnetId>, i: int) {
    0 <= i < |s| && s[i].subnet in known && (i == 0 || s[i - 1].subnet != s[i].subnet)
  }

  ghost predicate LeaderOf(s: seq<Commit>, known: set<SubnetId>, c: Commit) {
    exists i :: Leads(s, known, i) && s[i] == c
  }

  lemma QualifiedUnfolds(s: seq<Commit>, known: set<SubnetId>)
    requires s != []
    ensures var n := |s| - 1;
            Qualified(s, known) == if Leads(s, known, n) then Qualified(s[..n], known) + [s[n]] else Qualified(s[..n], known)
  {
    var n := |s| - 1;
    var more := if n > 0 && s[n - 1].subnet == s[n].subnet then [] else [s[n]];
    FilterConcat(Dedup(s[..n]), more, IsKnown(known));
    assert Filter([s[n]], IsKnown(known)) == Filter([], IsKnown(known)) + (if s[n].subnet in known then [s[n]] else []);
  }

  lemma LeaderOfUnfolds(s: seq<Commit>, known: set<SubnetId>, c: Commit)
    requires s != []
    ensures var n := |s| - 1;
            LeaderOf(s, known, c) <==> LeaderOf(s[..n], known, c) || (Leads(s, known, n) && s[n] == c)
  {
    var n := |s| - 1;
    var front := s[..n];
    if LeaderOf(front, known, c) {
      var i :| Leads(front, known, i) && front[i] == c;
      assert Leads(s, known, i) && s[i] == c;
    }
    if LeaderOf(s, known, c) && !(Leads(s, known, n) && s[n] == c) {
      var i :| Leads(s, known, i) && s[i] == c;
      assert Leads(front, known, i) && front[i] == c;
    }
  }

  /** What qualifies is exactly the first entry of every run for a known subnet. */
  lemma {:induction false} QualifiedAreLeaders(s: seq<Commit>, known: set<SubnetId>, c: Commit)
    ensures c in Qualified(s, known) <==> LeaderOf(s, known, c)
  {
    if s != [] {
      QualifiedAreLeaders(s[..|s| - 1], known, c);
      QualifiedUnfolds(s, known);
      LeaderOfUnfolds(s, known, c);
    }
  }

  /** Every known subnet that a batch names survives. */
  lemma {:induction false} QualifiedNames(s: seq<Commit>, known: set<SubnetId>, u: SubnetId)
    ensures Names(Qualified(s, known), u) <==> u in known && Names(s, u)
  {
    if s != [] {
      var n := |s| - 1;
      QualifiedNames(s[..n], known, u);
      QualifiedUnfolds(s, known);
      NamesUnfolds(s, u);
      if Leads(s, known, n) {
        NamesUnfolds(Qualified(s, known), u);
        assert Qualified(s, known)[..|Qualified(s, known)| - 1] == Qualified(s[..n], known);
      } else if s[n].subnet == u && u in known {
        assert s[..n][n - 1].subnet == u;
        assert Names(s[..n], u);
      }
    }
  }

  lemma DistinctSubnetsUnfolds(s: seq<Commit>, c: Commit)
    ensures DistinctSubnets(s + [c]) <==> DistinctSubnets(s) && !Names(s, c.subnet)
  {
    var t := s + [c];
    if DistinctSubnets(t) {
      forall i, j | 0 <= i < j < |s| ensures s[i].subnet != s[j].subnet { assert t[i].subnet != t[j].subnet; }
      forall i | 0 <= i < |s| ensures s[i].subnet != c.subnet { assert t[i].subnet != t[|s|].subnet; }
    }
  }

  lemma ContiguousUnfolds(s: seq<Commit>, known: set<SubnetId>)
    requires s != []
    ensures var n := |s| - 1;
            Contiguous(s, known) <==> Contiguous(s[..n], known) && !(Leads(s, known, n) && Names(s[..n], s[n].subnet))
  {
    var n := |s| - 1;
    var front := s[..n];
    if Contiguous(s, known) {
      forall i, j | 0 <= i < j < n && front[i].subnet == front[j].subnet && front[j].subnet in known
        ensures front[j - 1].subnet == front[j].subnet
      {
        assert s[i].subnet == s[j].subnet;
      }
    }
    if Leads(s, known, n) && Names(front, s[n].subnet) {
      var i :| 0 <= i < |front| && front[i].subnet == s[n].subnet;
      assert s[i].subnet == s[n].subnet;
    }
    if Contiguous(front, known) && !(Leads(s, known, n) && Names(front, s[n].subnet)) {
      forall i, j | 0 <= i < j < |s| && s[i].subnet == s[j].subnet && s[j].subnet in known
        ensures s[j - 1].subnet == s[j].subnet
      {
        assert front[i].subnet == s[i].subnet;
        if j < n { assert front[j].subnet == s[j].subnet && front[j - 1].subnet == s[j - 1].subnet; }
      }
    }
  }

  lemma {:induction false} QualifiedDistinctIffContiguous(s: seq<Commit>, known: set<SubnetId>)
    ensures DistinctSubnets(Qualified(s, known)) <==> Contiguous(s, known)
  {
    if s != [] {
      var n := |s| - 1;
      QualifiedDistinctIffContiguous(s[..n], known);
      QualifiedUnfolds(s, known);
      ContiguousUnfolds(s, known);
      QualifiedNames(s[..n], known, s[n].subnet);
      DistinctSubnetsUnfolds(Qualified(s[..n], known), s[n]);
    }
  }

  ghost predicate NoneCommitted(commits: map<CommitKey, Hash>, epoch: nat, node: NodeId, s: seq<Commit>) {
    forall u :: Names(s, u) ==> CommitKey(epoch, node, u) !in commits
  }

  /** `m` is `commits` with the entries of `s` added for `node` in `epoch`, and nothing else. */
  ghost predicate Adds(commits: map<CommitKey, Hash>, m: map<CommitKey, Hash>, epoch: nat, node: NodeId, s: seq<Commit>) {
    && (forall k :: k in m <==> k in commits || (k.epoch == epoch && k.node == node && Names(s, k.subnet)))
    && (forall k :: k in commits ==> m[k] == commits[k])
    && (forall c :: c in s ==> CommitKey(epoch, node, c.subnet) in m && m[CommitKey(epoch, node, c.subnet)] == c.hash)
  }

  /** Storing one by one succeeds exactly when no subnet repeats and none is stored already. */
  lemma {:induction false} CommitAllWhen(commits: map<CommitKey, Hash>, epoch: nat, node: NodeId, s: seq<Commit>)
    ensures CommitAll(commits, epoch, node, s).Some? <==> DistinctSubnets(s) && NoneCommitted(commits, epoch, node, s)
    ensures CommitAll(commits, epoch, node, s).Some? ==> Adds(commits, CommitAll(commits, epoch, node, s).value, epoch, node, s)
  {
    if s != [] {
      var n := |s| - 1;
      var front, c := s[..n], s[n];
      assert s == front + [c];
      CommitAllWhen(commits, epoch, node, front);
      DistinctSubnetsUnfolds(front, c);
      forall u ensures Names(s, u) <==> Names(front, u) || c.subnet == u { NamesUnfolds(s, u); }
      forall d | d in front ensures Names(front, d.subnet) { var i :| 0 <= i < n && front[i] == d; assert front[i].subnet == d.subnet; }
      if CommitAll(commits, epoch, node, front).Some? {
        var k := CommitKey(epoch, node, c.subnet);
        var m := CommitAll(commits, epoch, node, front).value;
        assert k in m <==> k in commits || Names(front, c.subnet);
        if k !in m {
          assert Adds(commits, m[k := c.hash], epoch, node, s);
        }
      }
    }
  }

  /** A batch commit by an admitted node in the commit phase succeeds exactly when the batch names a
      known subnet, keeps the entries of each known subnet together, and names none committed this
      epoch; otherwise it stores nothing. */
  lemma BatchCommitSucceedsWhen(cfg: Config, s: State, node: NodeId, batch: seq<Commit>, known: set<SubnetId>)
    requires cfg.Ok() && InCommitPeriod(cfg, s.block)
    ensures var (s', error) := CommitStep(cfg, s, node, batch, None, known);
            && (error.None? <==>
                  && (exists u :: u in known && Names(batch, u))
                  && Contiguous(batch, known)
                  && (forall u :: u in known && Names(batch, u) ==> CommitKey(EpochOf(cfg, s.block), node, u) !in s.commits))
            && (error.Some? ==> s' == s)
  {
    var q, epoch := Qualified(batch, known), EpochOf(cfg, s.block);
    QualifiedDistinctIffContiguous(batch, known);
    CommitAllWhen(s.commits, epoch, node, q);
    forall u ensures Names(q, u) <==> u in known && Names(batch, u) { QualifiedNames(batch, known, u); }
    if q != [] {
      assert q[0].subnet == q[0].subnet;
      assert Names(q, q[0].subnet);
    }
  }

  /** A successful batch commit stores, for each known subnet it names, the hash that leads its
      entries, and leaves every other entry and all reveals as they were. */
  lemma BatchCommitStoresLeaders(cfg: Config, s: State, node: NodeId, batch: seq<Commit>, known: set<SubnetId>, k: CommitKey, i: int)
    requires cfg.Ok() && CommitStep(cfg, s, node, batch, None, known).1.None?
    ensures var s' := CommitStep(cfg, s, node, batch, None, known).0;
            && s'.revealed == s.revealed
            && (k in s'.commits <==>
                  k in s.commits || (k.epoch == EpochOf(cfg, s.block) && k.node == node && k.subnet in known && Names(batch, k.subnet)))
            && (k in s.commits ==> s'.commits[k] == s.commits[k])
            && (Leads(batch, known, i) ==>
                  var k' := CommitKey(EpochOf(cfg, s.block), node, batch[i].subnet);
                  k' in s'.commits && s'.commits[k'] == batch[i].hash)
  {
    var q := Qualified(batch, known);
    CommitAllWhen(s.commits, EpochOf(cfg, s.block), node, q);
    QualifiedNames(batch, known, k.subnet);
    if Leads(batch, known, i) {
      QualifiedAreLeaders(batch, known, batch[i]);
    }
  }

  // ---- runs ----

  function Run(cfg: Config, s: State, calls: seq<Call>): State
    requires cfg.Ok()
  {
    if calls == [] then s else Step(cfg, Run(cfg, s, calls[..|calls| - 1]), calls[|calls| - 1]).0
  }

  function ErrorAt(cfg: Config, s: State, calls: seq<Call>, k: nat): Option<Error>
    requires cfg.Ok() && k < |calls|
  {
    Step(cfg, Run(cfg, s, calls[..k]), calls[k]).1
  }

  ghost predicate Genesis(s: State) {
    s.commits == map[] && s.revealed == map[]
  }

  /** `salt` opens the commit stored for `k` to the weight `w`. */
  ghost predicate Opens(cfg: Config, commits: map<CommitKey, Hash>, k: RevealKey, w: u128, salt: Salt) {
    var c := CommitKey(k.epoch, k.node, k.subnet);
    c in commits && cfg.hash(w, salt) == commits[c]
  }

  /** Every stored reveal opens a commit of the same node, subnet and epoch, and is a percentage. */
  ghost predicate Bound(cfg: Config, s: State) {
    forall k :: k in s.revealed ==> s.revealed[k] <= ONE && exists salt :: Opens(cfg, s.commits, k, s.revealed[k], salt)
  }

  ghost predicate Injective(cfg: Config) {
    forall w: u128, salt: Salt, w': u128, salt': Salt :: cfg.hash(w, salt) == cfg.hash(w', salt') ==> w == w' && salt == salt'
  }

  lemma {:induction false} RevealAllOpens(cfg: Config, commits: map<CommitKey, Hash>, revealed: map<RevealKey, u128>, epoch: nat,
                                          node: NodeId, s: seq<Reveal>)
    requires RevealAll(cfg, commits, revealed, epoch, node, s).Ok?
    ensures var m := RevealAll(cfg, commits, revealed, epoch, node, s).value;
            && (forall k :: k in revealed ==> k in m)
            && (forall k :: k in m ==>
                  || (k in revealed && m[k] == revealed[k])
                  || (k.epoch == epoch && m[k] <= ONE && exists salt :: Opens(cfg, commits, k, m[k], salt)))
  {
    if s != [] {
      var n := |s| - 1;
      RevealAllOpens(cfg, commits, revealed, epoch, node, s[..n]);
      assert Opens(cfg, commits, RevealKey(epoch, s[n].subnet, node), s[n].weight, s[n].salt);
    }
  }

  lemma CommitsOnlyGrow(cfg: Config, s: State, call: Call)
    requires cfg.Ok()
    ensures forall k :: k in s.commits ==> k in Step(cfg, s, call).0.commits && Step(cfg, s, call).0.commits[k] == s.commits[k]
  {
    if call.CommitWeights? {
      CommitAllWhen(s.commits, EpochOf(cfg, s.block), call.node, Qualified(call.batch, call.known));
    }
  }

  lemma StepKeepsBound(cfg: Config, s: State, call: Call)
    requires cfg.Ok() && Bound(cfg, s)
    ensures Bound(cfg, Step(cfg, s, call).0)
  {
    CommitsOnlyGrow(cfg, s, call);
    var s' := Step(cfg, s, call).0;
    if call.RevealWeights? {
      var epoch := EpochOf(cfg, s.block);
      if RevealAll(cfg, s.commits, s.revealed, epoch, call.node, call.openings).Ok? {
        RevealAllOpens(cfg, s.commits, s.revealed, epoch, call.node, call.openings);
      }
    } else {
      forall k | k in s'.revealed
        ensures s'.revealed[k] <= ONE && exists salt :: Opens(cfg, s'.commits, k, s'.revealed[k], salt)
      {
        var salt :| Opens(cfg, s.commits, k, s.revealed[k], salt);
        assert Opens(cfg, s'.commits, k, s'.revealed[k], salt);
      }
    }
  }

  /** Over a whole run a stored commit is never overwritten or lost, and every stored reveal opens the
      commit made for its epoch, node and subnet. */
  lemma {:induction false} CommitsBindReveals(cfg: Config, s: State, calls: seq<Call>, n: nat)
    requires cfg.Ok() && Genesis(s) && n <= |calls|
    ensures var (then', now) := (Run(cfg, s, calls[..n]), Run(cfg, s, calls));
            && Bound(cfg, now)
            && (forall k :: k in then'.commits ==> k in now.commits && now.commits[k] == then'.commits[k])
            && (forall k :: k in then'.revealed ==> k in now.revealed)
  {
    if calls == [] {
      assert calls[..n] == calls;
    } else {
      var front, last := calls[..|calls| - 1], calls[|calls| - 1];
      CommitsBindReveals(cfg, s, front, if n < |calls| then n else 0);
      var before := Run(cfg, s, front);
      StepKeepsBound(cfg, before, last);
      CommitsOnlyGrow(cfg, before, last);
      if last.RevealWeights? && RevealStep(cfg, before, last.node, last.openings, last.refused).1.None? {
        RevealAllOpens(cfg, before.commits, before.revealed, EpochOf(cfg, before.block), last.node, last.openings);
      }
      if n < |calls| {
        assert front[..n] == calls[..n];
      } else {
        assert calls[..n] == calls;
      }
    }
  }

  /** With an injective hash a revealed weight never changes, however often it is revealed again. */
  lemma RevealedWeightIsFinal(cfg: Config, s: State, calls: seq<Call>, n: nat, k: RevealKey)
    requires cfg.Ok() && Genesis(s) && n <= |calls| && Injective(cfg)
    requires k in Run(cfg, s, calls[..n]).revealed
    ensures k in Run(cfg, s, calls).revealed && Run(cfg, s, calls).revealed[k] == Run(cfg, s, calls[..n]).revealed[k]
  {
    var then', now := Run(cfg, s, calls[..n]), Run(cfg, s, calls);
    CommitsBindReveals(cfg, s, calls, n);
    CommitsBindReveals(cfg, s, calls[..n], 0);
    var salt :| Opens(cfg, then'.commits, k, then'.revealed[k], salt);
    var salt' :| Opens(cfg, now.commits, k, now.revealed[k], salt');
    assert cfg.hash(then'.revealed[k], salt) == cfg.hash(now.revealed[k], salt');
  }

  // ---- phases ----

  /** A block is for committing exactly when it is less than the cutoff into its epoch, except in an
      epoch whose cutoff block no longer fits in 32 bits, which has no commit block at all. */
  lemma CommitPeriodIsPrefix(cfg: Config, block: u32)
    requires cfg.Ok() && cfg.cutoff <= ONE
    ensures var start := Length(cfg) * EpochOf(cfg, block);
            && start <= block < start + Length(cfg)
            && CutoffBlocks(cfg) <= Length(cfg)
            && (InCommitPeriod(cfg, block) <==> start + CutoffBlocks(cfg) < U32_RANGE && block - start < CutoffBlocks(cfg))
  {
    var len := Length(cfg);
    DivBounds(block, len);
    PercentMulShrinks(len, cfg.cutoff);
    var start := len * EpochOf(cfg, block);
    assert start == block / len * len;
    assert Wrap(CutoffBlocks(cfg)) == CutoffBlocks(cfg);
  }

  /** Every complete epoch ends with a reveal block exactly when the cutoff is below 100 percent; the
      setter admits at most 95. */
  lemma EveryEpochHasRevealBlock(cfg: Config, epoch: nat)
    requires cfg.Ok() && cfg.cutoff <= ONE
    requires Length(cfg) * (epoch + 1) < U32_RANGE
    ensures var last := Length(cfg) * (epoch + 1) - 1;
            && 0 <= last && EpochOf(cfg, last) == epoch
            && (!InCommitPeriod(cfg, last) <==> cfg.cutoff < ONE)
    ensures cfg.cutoff <= 950_000_000_000_000_000 ==> !InCommitPeriod(cfg, Length(cfg) * (epoch + 1) - 1)
  {
    var len := Length(cfg);
    var last := len * (epoch + 1) - 1;
    assert last == len * epoch + (len - 1);
    assert epoch * len == len * epoch && (epoch + 1) * len == len * (epoch + 1);
    DivUnique(last, len, epoch);
    CommitPeriodIsPrefix(cfg, last);
    PercentMulShrinks(len, cfg.cutoff);
    if cfg.cutoff < ONE {
      if CutoffBlocks(cfg) >= len {
        MulMono(len, ONE, CutoffBlocks(cfg), ONE);
        MulStrict(len, cfg.cutoff, ONE);
      }
    } else {
      DivUnique(len * ONE, ONE, len);
    }
  }

  lemma MulStrict(a: nat, b: nat, c: nat)
    requires a > 0 && b < c
    ensures a * b < a * c
  {
    assert a * c == a * b + a * (c - b);
    MulMono(1, 1, a, c - b);
  }

  lemma {:induction false} BlocksAdvance(cfg: Config, s: State, calls: seq<Call>, n: nat)
    requires cfg.Ok() && n <= |calls|
    ensures Run(cfg, s, calls[..n]).block <= Run(cfg, s, calls).block
  {
    if n < |calls| {
      var front := calls[..|calls| - 1];
      BlocksAdvance(cfg, s, front, n);
      assert front[..n] == calls[..n];
    } else {
      assert calls[..n] == calls;
    }
  }

  lemma CommitBeforeRevealBlock(cfg: Config, b: u32, b': u32)
    requires cfg.Ok() && EpochOf(cfg, b) == EpochOf(cfg, b') && InCommitPeriod(cfg, b) && !InCommitPeriod(cfg, b')
    ensures b < b'
  {
  }

  /** In any run all successful commits of an epoch come before all its successful reveals, in
      strictly earlier blocks. */
  lemma PhasesNeverMix(cfg: Config, s: State, calls: seq<Call>, n: nat, m: nat)
    requires cfg.Ok() && n < |calls| && m < |calls|
    requires calls[n].CommitWeights? && ErrorAt(cfg, s, calls, n).None?
    requires calls[m].RevealWeights? && ErrorAt(cfg, s, calls, m).None?
    requires EpochOf(cfg, Run(cfg, s, calls[..n]).block) == EpochOf(cfg, Run(cfg, s, calls[..m]).block)
    ensures n < m && Run(cfg, s, calls[..n]).block < Run(cfg, s, calls[..m]).block
  {
    if m <= n {
      BlocksAdvance(cfg, s, calls[..n], m);
      assert calls[..n][..m] == calls[..m];
    }
    CommitBeforeRevealBlock(cfg, Run(cfg, s, calls[..n]).block, Run(cfg, s, calls[..m]).block);
  }

  // ---- batch reveals ----

  predicate NamesSubnet(batch: seq<Reveal>, u: SubnetId) {
    exists i :: 0 <= i < |batch| && batch[i].subnet == u
  }

  /** No later entry is for the same subnet. */
  predicate IsLast(batch: seq<Reveal>, i: int) {
    0 <= i < |batch| && forall j :: i < j < |batch| ==> batch[j].subnet != batch[i].subnet
  }

  /** The entry's weight is at most 1.0 and hashes, with its salt, to what was committed. */
  predicate OpensCommit(cfg: Config, commits: map<CommitKey, Hash>, epoch: nat, node: NodeId, r: Reveal) {
    var k := CommitKey(epoch, node, r.subnet);
    r.weight <= ONE && k in commits && commits[k] == cfg.hash(r.weight, r.salt)
  }

  predicate AllOpen(cfg: Config, commits: map<CommitKey, Hash>, epoch: nat, node: NodeId, batch: seq<Reveal>) {
    forall i :: 0 <= i < |batch| ==> OpensCommit(cfg, commits, epoch, node, batch[i])
  }

  lemma {:induction false} RevealAllWhen(cfg: Config, commits: map<CommitKey, Hash>, revealed: map<RevealKey, u128>, epoch: nat,
                                         node: NodeId, s: seq<Reveal>)
    ensures RevealAll(cfg, commits, revealed, epoch, node, s).Ok? <==> AllOpen(cfg, commits, epoch, node, s)
  {
    if s != [] {
      var n := |s| - 1;
      RevealAllWhen(cfg, commits, revealed, epoch, node, s[..n]);
      assert OpensCommit(cfg, commits, epoch, node, s[n]) <==> RevealError(cfg, commits, epoch, node, s[n]).None?;
      if AllOpen(cfg, commits, epoch, node, s[..n]) && OpensCommit(cfg, commits, epoch, node, s[n]) {
        forall i | 0 <= i < |s| ensures OpensCommit(cfg, commits, epoch, node, s[i]) {
          if i < n { assert OpensCommit(cfg, commits, epoch, node, s[..n][i]); }
        }
      }
    }
  }

  /** The weight revealed for a subnet is that of its last entry. */
  ghost predicate HoldsLast(batch: seq<Reveal>, u: SubnetId, weight: u128) {
    exists i :: IsLast(batch, i) && batch[i].subnet == u && batch[i].weight == weight
  }

  lemma LastOfLonger(s: seq<Reveal>, u: SubnetId, weight: u128)
    requires s != []
    ensures var n := |s| - 1;
            && (s[n].subnet == u ==> HoldsLast(s, u, s[n].weight))
            && (s[n].subnet != u && HoldsLast(s[..n], u, weight) ==> HoldsLast(s, u, weight))
  {
    var n := |s| - 1;
    if s[n].subnet == u {
      assert IsLast(s, n);
    } else if HoldsLast(s[..n], u, weight) {
      var i :| IsLast(s[..n], i) && s[..n][i].subnet == u && s[..n][i].weight == weight;
      assert forall j :: i < j < n ==> s[j].subnet == s[..n][j].subnet;
      assert IsLast(s, i);
    }
  }

  lemma {:induction false} RevealAllStores(cfg: Config, commits: map<CommitKey, Hash>, revealed: map<RevealKey, u128>, epoch: nat,
                                           node: NodeId, s: seq<Reveal>, k: RevealKey)
    requires RevealAll(cfg, commits, revealed, epoch, node, s).Ok?
    ensures var m := RevealAll(cfg, commits, revealed, epoch, node, s).value;
            if k.epoch == epoch && k.node == node && NamesSubnet(s, k.subnet)
            then k in m && HoldsLast(s, k.subnet, m[k])
            else Lookup(m, k) == Lookup(revealed, k)
  {
    if s != [] {
      var n := |s| - 1;
      RevealAllStores(cfg, commits, revealed, epoch, node, s[..n], k);
      var front := RevealAll(cfg, commits, revealed, epoch, node, s[..n]).value;
      assert NamesSubnet(s, k.subnet) <==> NamesSubnet(s[..n], k.subnet) || s[n].subnet == k.subnet by {
        if NamesSubnet(s[..n], k.subnet) {
          var i :| 0 <= i < n && s[..n][i].subnet == k.subnet;
          assert s[i].subnet == k.subnet;
        }
        if NamesSubnet(s, k.subnet) && s[n].subnet != k.subnet {
          var i :| 0 <= i < |s| && s[i].subnet == k.subnet;
          assert s[..n][i].subnet == k.subnet;
        }
      }
      LastOfLonger(s, k.subnet, if k in front then front[k] else 0);
    }
  }

  /** A batch of reveals succeeds exactly when nothing refuses the caller, it is the reveal period, and
      every entry opens what the node committed for it this epoch; otherwise nothing is stored. */
  lemma BatchRevealSucceedsWhen(cfg: Config, s: State, node: NodeId, batch: seq<Reveal>, refused: Option<Error>)
    requires cfg.Ok()
    ensures var (s', error) := RevealStep(cfg, s, node, batch, refused);
            && (error.None? <==>
                  refused.None? && !InCommitPeriod(cfg, s.block) && AllOpen(cfg, s.commits, EpochOf(cfg, s.block), node, batch))
            && (error.Some? ==> s' == s)
  {
    RevealAllWhen(cfg, s.commits, s.revealed, EpochOf(cfg, s.block), node, batch);
  }

  /** Then every subnet it names holds the weight of its last entry; all other reveals, and all commits,
      stay as they were. */
  lemma BatchRevealStoresLast(cfg: Config, s: State, node: NodeId, batch: seq<Reveal>, k: RevealKey)
    requires cfg.Ok() && RevealStep(cfg, s, node, batch, None).1.None?
    ensures var s' := RevealStep(cfg, s, node, batch, None).0;
            && s' == s.(revealed := s'.revealed)
            && if k.epoch == EpochOf(cfg, s.block) && k.node == node && NamesSubnet(batch, k.subnet)
               then k in s'.revealed && HoldsLast(batch, k.subnet, s'.revealed[k])
               else Lookup(s'.revealed, k) == Lookup(s.revealed, k)
  {
    RevealAllStores(cfg, s.commits, s.revealed, EpochOf(cfg, s.block), node, batch, k);
  }
}
