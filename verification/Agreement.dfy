/**
  Runs of a committee: correct nodes react to any messages in any order, faulty ones sign
  anything. Safety over every such run.
 */
module Agreement {
  import opened Bft
  import opened Guarantees
  import opened Leading

  // ----- quorums

  lemma {:induction false} MembersSize(c: Committee)
    ensures |Members(c)| == c.n
    decreases c.n
  {
    if c.n > 0 {
      var d := Committee(c.n - 1);
      MembersSize(d);
      assert Members(c) == Members(d) + {c.n - 1};
    }
  }

  lemma SubsetSize<T>(a: set<T>, b: set<T>)
    requires a <= b
    ensures |a| <= |b|
  {
    assert b == a + (b - a);
  }

  /** Two quorums share more members than can be faulty. */
  lemma QuorumsIntersect(c: Committee, faulty: set<nat>, p: set<nat>, q: set<nat>) returns (k: nat)
    requires p <= Members(c) && q <= Members(c) && |p| >= Threshold(c) && |q| >= Threshold(c)
    requires |faulty| <= (c.n - 1) / 3 && c.n > 0
    ensures k in p && k in q && k !in faulty
  {
    MembersSize(c);
    SubsetSize(p + q, Members(c));
    assert |p + q| == |p| + |q| - |p * q|;
    var good := p * q - faulty;
    assert p * q <= good + faulty;
    SubsetSize(p * q, good + faulty);
    assert good != {};
    k :| k in good;
  }

  // ----- events

  /** exact says that no vote adds anybody to a tally but its first member; votes of one member never do. */
  datatype Config = Config(c: Committee, leader: nat, faulty: set<nat>, exact: bool)

  /** At most a third of the members is faulty; the leader may be among them. */
  ghost predicate ConfigOk(g: Config) {
    g.leader < g.c.n && g.faulty <= Members(g.c) && |g.faulty| <= (g.c.n - 1) / 3
  }

  datatype Sys = Sys(nodes: map<nat, State>, signed: set<Sig>)

  datatype Event =
    | PrepareMsg(to: nat, m: Message, contentOk: bool)
    | PrecommitMsg(to: nat, m: Message)
    | CommitMsg(to: nat, m: Message)
    | LeaderStarts(payload: Payload)
    | Vote(stage: Stage, m: Message, payload: Payload)
    | FaultySigns(sig: Sig)

  function Initial(g: Config): Sys {
    Sys(map i | i in Members(g.c) - g.faulty :: Start(i), {})
  }

  /** The node an event happens at; a faulty node's signature happens at no correct node. */
  function At(g: Config, e: Event): nat
    requires !e.FaultySigns?
  {
    if e.PrepareMsg? || e.PrecommitMsg? || e.CommitMsg? then e.to else g.leader
  }

  ghost predicate Allowed(g: Config, y: Sys, e: Event) {
    match e
    case FaultySigns(x) => x.signer in g.faulty
    case PrepareMsg(i, _, _) => i in y.nodes && i != g.leader
    case PrecommitMsg(i, _) => i in y.nodes && i != g.leader
    case CommitMsg(i, _) => i in y.nodes && i != g.leader
    case LeaderStarts(_) => g.leader in y.nodes && y.nodes[g.leader].current.None?
    case Vote(stage, m, _) =>
      g.leader in y.nodes && stage != Init && (g.exact ==> AddsFirst(y.nodes[g.leader], g.c, m, stage, y.signed))
  }

  /** What a node does on an event. */
  ghost function React(s: State, c: Committee, e: Event, signed: set<Sig>): Reaction {
    match e
    case PrepareMsg(_, m, ok) => OnPrepare(s, c, m, signed, ok)
    case PrecommitMsg(_, m) => OnPrecommit(s, c, m, signed)
    case CommitMsg(_, m) => OnCommit(s, c, m, signed)
    case LeaderStarts(p) => Propose(s, c, p)
    case Vote(stage, m, p) => if stage == Init then Ignore(s) else OnVote(s, c, m, stage, signed, p)
    case FaultySigns(_) => Ignore(s)
  }

  ghost function Next(g: Config, y: Sys, e: Event): Sys
    requires e.FaultySigns? || At(g, e) in y.nodes
  {
    if e.FaultySigns? then y.(signed := y.signed + {e.sig})
    else
      var r := React(y.nodes[At(g, e)], g.c, e, y.signed);
      Sys(y.nodes[At(g, e) := r.state], y.signed + r.sigs)
  }

  // ----- the invariant

  ghost predicate RoleOk(g: Config, s: State, signed: set<Sig>) {
    if s.id == g.leader then LeaderOk(s, g.c, signed) else ValidatorOk(s, g.c, signed)
  }

  ghost predicate SysOk(g: Config, y: Sys) {
    && y.nodes.Keys == Members(g.c) - g.faulty && OnlyMembers(g.c, y.signed)
    && (forall i :: i in y.nodes ==> y.nodes[i].id == i)
    && (forall i :: i in y.nodes ==> RoleOk(g, y.nodes[i], y.signed))
  }

  lemma RoleOkMore(g: Config, s: State, signed: set<Sig>, more: set<Sig>)
    requires RoleOk(g, s, signed) && NoNewVote(s.id, signed, more)
    ensures RoleOk(g, s, more)
  {
    NodeOkMore(s, g.c, signed, more);
    if s.id == g.leader {
      LeaderOkMore(s, g.c, signed, more);
    }
  }

  lemma ReactOk(g: Config, y: Sys, e: Event)
    requires g.exact && SysOk(g, y) && Allowed(g, y, e) && !e.FaultySigns?
    ensures At(g, e) in y.nodes
    ensures var s := y.nodes[At(g, e)];
            var r := React(s, g.c, e, y.signed);
            RoleOk(g, r.state, y.signed + r.sigs) && Advances(s, r)
  {
    var s := y.nodes[At(g, e)];
    assert RoleOk(g, s, y.signed);
    match e
    case PrepareMsg(_, m, ok) => OnPrepareOk(s, g.c, m, y.signed, ok);
    case PrecommitMsg(_, m) => OnPrecommitOk(s, g.c, m, y.signed);
    case CommitMsg(_, m) => OnCommitOk(s, g.c, m, y.signed);
    case LeaderStarts(p) => ProposeOk(s, g.c, y.signed, p);
    case Vote(stage, m, p) => OnVoteOk(s, g.c, m, stage, y.signed, p);
  }

  lemma NextOk(g: Config, y: Sys, e: Event)
    requires ConfigOk(g) && g.exact && SysOk(g, y) && Allowed(g, y, e)
    ensures e.FaultySigns? || At(g, e) in y.nodes
    ensures SysOk(g, Next(g, y, e))
  {
    var z := Next(g, y, e);
    if !e.FaultySigns? {
      ReactOk(g, y, e);
    }
    forall i | i in z.nodes
      ensures z.nodes[i].id == i && RoleOk(g, z.nodes[i], z.signed)
    {
      if e.FaultySigns? || i != At(g, e) {
        RoleOkMore(g, y.nodes[i], y.signed, z.signed);
      }
    }
  }

  // ----- runs

  /** A run: the events, and the system before, between and after them. */
  ghost predicate Run(g: Config, es: seq<Event>, ys: seq<Sys>) {
    && |ys| == |es| + 1 && ys[0] == Initial(g)
    && forall i :: 0 <= i < |es| ==> Step(g, es, ys, i)
  }

  ghost predicate Step(g: Config, es: seq<Event>, ys: seq<Sys>, i: nat)
    requires i < |es| && |ys| == |es| + 1
  {
    var y, e := ys[i], es[i];
    Allowed(g, y, e) && (e.FaultySigns? || At(g, e) in y.nodes) && ys[i + 1] == Next(g, y, e)
  }

  lemma InitialOk(g: Config)
    requires ConfigOk(g)
    ensures SysOk(g, Initial(g))
  {
    var y := Initial(g);
    assert forall i :: i in y.nodes ==> y.nodes[i] == Start(i);
  }

  /** Every reachable state keeps what every correct node guarantees. */
  lemma {:induction false} RunOk(g: Config, es: seq<Event>, ys: seq<Sys>, n: nat)
    requires ConfigOk(g) && g.exact && Run(g, es, ys) && n <= |es|
    ensures SysOk(g, ys[n])
  {
    if n == 0 {
      InitialOk(g);
    } else {
      RunOk(g, es, ys, n - 1);
      assert Step(g, es, ys, n - 1);
      NextOk(g, ys[n - 1], es[n - 1]);
    }
  }

  lemma SameBlock(g: Config, y: Sys, a: Block, p: Tally, b: Block, q: Tally)
    requires ConfigOk(g) && SysOk(g, y) && a.height == b.height
    requires CertOk(y.signed, g.c, p, a) && CertOk(y.signed, g.c, q, b)
    ensures a == b
  {
    var k := QuorumsIntersect(g.c, g.faulty, p.bits.keys, q.bits.keys);
    assert k in y.nodes && RoleOk(g, y.nodes[k], y.signed);
    assert VotesOk(k, y.nodes[k].phase, y.signed);
  }

  /**
    Agreement over every run: no two correct nodes ever commit different blocks at one height, and
    what they have committed are prefixes of one hash-linked chain.
   */
  lemma Agreement(g: Config, es: seq<Event>, ys: seq<Sys>, n: nat, i: nat, j: nat)
    requires ConfigOk(g) && g.exact && Run(g, es, ys) && n <= |es|
    requires i in ys[n].nodes && j in ys[n].nodes
    ensures var a, b := ys[n].nodes[i].committed, ys[n].nodes[j].committed;
            && Chain(a) && Chain(b)
            && (forall k :: 0 <= k < |a| && k < |b| ==> a[k] == b[k])
            && (a <= b || b <= a)
  {
    RunOk(g, es, ys, n);
    var y := ys[n];
    var s, t := y.nodes[i], y.nodes[j];
    assert RoleOk(g, s, y.signed) && RoleOk(g, t, y.signed);
    forall k | 0 <= k < |s.committed| && k < |t.committed|
      ensures s.committed[k] == t.committed[k]
    {
      SameBlock(g, y, s.committed[k], s.certs[k], t.committed[k], t.certs[k]);
    }
  }

  /** Some run leads to the state. */
  ghost predicate Reached(g: Config, y: Sys) {
    exists es, ys :: Run(g, es, ys) && ys[|es|] == y
  }

  lemma ReachInitial(g: Config)
    ensures Reached(g, Initial(g))
  {
    assert Run(g, [], [Initial(g)]);
  }

  lemma ReachNext(g: Config, y: Sys, e: Event)
    requires Reached(g, y) && Allowed(g, y, e)
    ensures e.FaultySigns? || At(g, e) in y.nodes
    ensures Reached(g, Next(g, y, e))
  {
    var es, ys :| Run(g, es, ys) && ys[|es|] == y;
    var fs, zs := es + [e], ys + [Next(g, y, e)];
    forall i | 0 <= i < |fs|
      ensures Step(g, fs, zs, i)
    {
      assert i < |es| ==> Step(g, es, ys, i);
    }
    assert Run(g, fs, zs);
  }

  // ----- along a run

  /** The phase is the same or a later one, the chain the same or longer. */
  ghost predicate Forward(s: State, t: State) {
    (t.phase == s.phase || IsNew(s.phase, t.phase)) && s.committed <= t.committed
  }

  lemma NextForward(g: Config, y: Sys, e: Event, k: nat)
    requires ConfigOk(g) && g.exact && SysOk(g, y) && Allowed(g, y, e) && k in y.nodes
    ensures e.FaultySigns? || At(g, e) in y.nodes
    ensures k in Next(g, y, e).nodes && Forward(y.nodes[k], Next(g, y, e).nodes[k])
  {
    if !e.FaultySigns? {
      ReactOk(g, y, e);
    }
  }

  lemma OneForward(g: Config, es: seq<Event>, ys: seq<Sys>, i: nat, k: nat)
    requires ConfigOk(g) && g.exact && Run(g, es, ys) && i < |es| && k in Members(g.c) - g.faulty
    ensures k in ys[i].nodes && k in ys[i + 1].nodes && Forward(ys[i].nodes[k], ys[i + 1].nodes[k])
  {
    RunOk(g, es, ys, i);
    assert Step(g, es, ys, i);
    NextForward(g, ys[i], es[i], k);
  }

  lemma ForwardTransitive(s: State, t: State, u: State)
    requires Forward(s, t) && Forward(t, u)
    ensures Forward(s, u)
  {
  }

  /** Along every run the phase of a correct node never goes back, and its chain only grows. */
  lemma {:induction false} NeverBack(g: Config, es: seq<Event>, ys: seq<Sys>, i: nat, j: nat, k: nat)
    requires ConfigOk(g) && g.exact && Run(g, es, ys) && i <= j <= |es| && k in Members(g.c) - g.faulty
    ensures k in ys[i].nodes && k in ys[j].nodes && Forward(ys[i].nodes[k], ys[j].nodes[k])
    decreases j
  {
    if i == j {
      RunOk(g, es, ys, i);
    } else {
      NeverBack(g, es, ys, i, j - 1, k);
      OneForward(g, es, ys, j - 1, k);
      ForwardTransitive(ys[i].nodes[k], ys[j - 1].nodes[k], ys[j].nodes[k]);
    }
  }

  /** Event i takes a correct node into a phase. */
  ghost predicate Enters(ys: seq<Sys>, i: nat, k: nat, p: Phase)
    requires i + 1 < |ys|
  {
    && k in ys[i].nodes && ys[i].nodes[k].phase != p
    && k in ys[i + 1].nodes && ys[i + 1].nodes[k].phase == p
  }

  /** In every run a correct node enters each phase of each height at most once. */
  lemma EntersOnce(g: Config, es: seq<Event>, ys: seq<Sys>, i: nat, j: nat, k: nat, p: Phase)
    requires ConfigOk(g) && g.exact && Run(g, es, ys) && i < |es| && j < |es| && k in Members(g.c) - g.faulty
    requires Enters(ys, i, k, p) && Enters(ys, j, k, p)
    ensures i == j
  {
    if i < j {
      NeverBack(g, es, ys, i + 1, j, k);
      NeverBack(g, es, ys, j, j + 1, k);
    } else if j < i {
      NeverBack(g, es, ys, j + 1, i, k);
      NeverBack(g, es, ys, i, i + 1, k);
    }
  }

  /**
    The leader's firings over every run: an event that moves a correct leader on is its start or a
    vote of the phase it leaves with a full tally, so precommit, commit and the next proposal each
    fire at most once for a height.
   */
  lemma LeaderFires(g: Config, es: seq<Event>, ys: seq<Sys>, i: nat, p: Phase)
    requires ConfigOk(g) && g.exact && Run(g, es, ys) && i < |es| && g.leader !in g.faulty
    requires Enters(ys, i, g.leader, p)
    ensures var s, t := ys[i].nodes[g.leader], ys[i + 1].nodes[g.leader];
            if es[i].LeaderStarts? then p == Phase(0, Prepare)
            else es[i].Vote? && es[i].stage == s.phase.stage && Fires(s, t, g.c)
    ensures forall j :: 0 <= j < |es| && Enters(ys, j, g.leader, p) ==> j == i
  {
    RunOk(g, es, ys, i);
    assert Step(g, es, ys, i);
    LeaderMoved(g, ys[i], es[i]);
    forall j | 0 <= j < |es| && Enters(ys, j, g.leader, p)
      ensures j == i
    {
      EntersOnce(g, es, ys, i, j, g.leader, p);
    }
  }

  lemma LeaderMoved(g: Config, y: Sys, e: Event)
    requires ConfigOk(g) && SysOk(g, y) && Allowed(g, y, e) && g.leader in y.nodes
    requires e.FaultySigns? || At(g, e) in y.nodes
    requires g.exact && Next(g, y, e).nodes[g.leader].phase != y.nodes[g.leader].phase
    ensures var s, t := y.nodes[g.leader], Next(g, y, e).nodes[g.leader];
            if e.LeaderStarts? then t.phase == Phase(0, Prepare)
            else e.Vote? && e.stage == s.phase.stage && Fires(s, t, g.c)
  {
    var s := y.nodes[g.leader];
    assert RoleOk(g, s, y.signed);
    if e.Vote? {
      VoteFires(s, g.c, e.m, e.stage, y.signed, e.payload);
      VoteVerdictOrHalted(s, g.c, e.m, e.stage, y.signed);
    }
  }
}
