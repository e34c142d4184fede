/**
 * A cluster of members exchanging messages over a network that may lose, repeat
 * and reorder them: any member may receive anything anyone has ever said.
 * Members are named apart, are not restarted, and their counters do not wrap.
 */
module Cluster {
  import opened Base
  import opened SuspicionTimer
  import opened Protocol
  import opened NodeRuns

  type Members = map<Name, Node>

  datatype Action = Action(at: Name, ev: Event, env: Env)

  /** Some member has said m. */
  ghost predicate Said(c: Members, m: Msg) {
    exists z :: z in c && m in c[z].said
  }

  ghost predicate Initial(c: Members) {
    forall y :: y in c ==> c[y] == Fresh(y, c[y].cfg) && !c[y].cfg.vsn.Wrong()
  }

  ghost predicate CanAct(c: Members, act: Action) {
    && act.at in c
    && Enabled(c[act.at], act.ev, act.env)
    && c[act.at].counter + 1 + act.env.bumps < UINT32_SIZE
    && (act.ev.Recv? ==> Said(c, act.ev.m))
  }

  function Act(c: Members, act: Action): Members
    requires act.at in c
  {
    c[act.at := Step(c[act.at], act.ev, act.env)]
  }

  ghost predicate IsClusterRun(run: seq<Members>, acts: seq<Action>) {
    && |run| == |acts| + 1
    && Initial(run[0])
    && forall i :: 0 <= i < |acts| ==> CanAct(run[i], acts[i]) && run[i + 1] == Act(run[i], acts[i])
  }

  // ---------------------------------------------------------------- authority

  /** What is true of a member, by its own account: the yardstick for what others claim. */
  datatype Authority = Authority(counter: Uint32, left: bool, addr: Addr, vsn: Versions)

  type Authorities = map<Name, Authority>

  function AuthorityOf(nd: Node): Authority {
    Authority(nd.counter, nd.left, nd.cfg.addr, nd.cfg.vsn)
  }

  function Authors(c: Members): Authorities {
    map y | y in c :: AuthorityOf(c[y])
  }

  /** No claim outruns the counter, none says Left of a member that did not leave. */
  predicate EntryOk(au: Authorities, x: Name, e: Entry) {
    && x in au
    && e.inc <= au[x].counter
    && (e.status.Left? ==> au[x].left)
    && e.addr == au[x].addr && e.vsn == au[x].vsn
  }

  predicate MsgOk(au: Authorities, m: Msg) {
    && m.About() in au
    && m.Inc() <= au[m.About()].counter
    && match m
       case AliveM(a) => a.addr == au[a.node].addr && a.vsn == Some(au[a.node].vsn)
       case SuspectM(_) => true
       case DeadM(d) => d.node == d.from ==> au[d.node].left
       case PushM(r) =>
         r.addr == au[r.node].addr && r.vsn == Some(au[r.node].vsn) && (r.status.Left? ==> au[r.node].left)
  }

  ghost predicate TableOk(au: Authorities, table: map<Name, Entry>) {
    forall x :: x in table ==> EntryOk(au, x, table[x])
  }

  ghost predicate SaidOk(au: Authorities, said: seq<Msg>) {
    forall m :: m in said ==> MsgOk(au, m)
  }

  /** Accounts only grow. */
  ghost predicate Grows(au: Authorities, bu: Authorities) {
    && bu.Keys == au.Keys
    && forall x :: x in au ==>
         && au[x].counter <= bu[x].counter
         && (au[x].left ==> bu[x].left)
         && bu[x].addr == au[x].addr && bu[x].vsn == au[x].vsn
  }

  lemma GrowsKeeps(au: Authorities, bu: Authorities, table: map<Name, Entry>, said: seq<Msg>)
    requires Grows(au, bu) && TableOk(au, table) && SaidOk(au, said)
    ensures TableOk(bu, table) && SaidOk(bu, said)
  {
  }

  ghost predicate NodeOk(au: Authorities, nd: Node) {
    && Well(nd)
    && nd.self in au && au[nd.self] == AuthorityOf(nd)
    && TableOk(au, nd.table)
    && SaidOk(au, nd.said)
  }

  /** The accounts after nd has become r. */
  function Updated(au: Authorities, r: Node): Authorities {
    au[r.self := AuthorityOf(r)]
  }

  ghost predicate StaysOk(au: Authorities, nd: Node, r: Node) {
    && r.self == nd.self
    && Grows(au, Updated(au, r))
    && TableOk(Updated(au, r), r.table)
    && SaidOk(Updated(au, r), r.said)
  }

  // ------------------------------------------------------------ handler by handler

  ghost predicate NoWrap(nd: Node, env: Env) {
    nd.counter + 1 + env.bumps < UINT32_SIZE
  }

  lemma PutOk(au: Authorities, table: map<Name, Entry>, x: Name, e: Entry)
    requires TableOk(au, table) && EntryOk(au, x, e)
    ensures TableOk(au, table[x := e])
  {
  }

  lemma SayOk(au: Authorities, said: seq<Msg>, m: Msg)
    requires SaidOk(au, said) && MsgOk(au, m)
    ensures SaidOk(au, said + [m])
  {
  }

  /** A step that leaves the member's own account alone. */
  lemma QuietOk(au: Authorities, nd: Node, r: Node)
    requires r.self == nd.self && nd.self in au && au[nd.self] == AuthorityOf(nd) == AuthorityOf(r)
    requires TableOk(au, r.table) && SaidOk(au, r.said)
    ensures StaysOk(au, nd, r)
  {
    assert Updated(au, r) == au;
  }

  lemma RefuteOk(au: Authorities, nd: Node, accused: Uint32, bumps: nat)
    requires nd.self in au && au[nd.self] == AuthorityOf(nd) && TableOk(au, nd.table) && SaidOk(au, nd.said)
    requires nd.self in nd.table && accused <= nd.counter && nd.counter + 1 + bumps < UINT32_SIZE
    ensures StaysOk(au, nd, Refute(nd, accused, bumps))
    ensures Refute(nd, accused, bumps).counter > nd.counter
  {
    RefuteBeatsDespiteRaces(nd.counter, accused, bumps);
    var r := Refute(nd, accused, bumps);
    GrowsKeeps(au, Updated(au, r), nd.table, nd.said);
    assert EntryOk(Updated(au, r), nd.self, r.table[nd.self]);
    assert MsgOk(Updated(au, r), AliveM(AliveOf(nd.self, r.table[nd.self])));
  }

  lemma AliveOk(au: Authorities, nd: Node, a: AliveMsg, bootstrap: bool, env: Env)
    requires NodeOk(au, nd) && MsgOk(au, AliveM(a)) && NoWrap(nd, env)
    ensures StaysOk(au, nd, AliveNode(nd, a, bootstrap, env))
  {
    var n1 := if a.node in nd.table then nd else Insert(nd, a, env.rnd);
    PutOk(au, nd.table, a.node, NewEntry(a));
    var e, r := n1.table[a.node], AliveNode(nd, a, bootstrap, env);
    if a.node == nd.self && r == Refute(ClearTimer(n1, a.node), a.inc, env.bumps) {
      RefuteOk(au, ClearTimer(n1, a.node), a.inc, env.bumps);
    } else {
      PutOk(au, n1.table, a.node, Revived(e, a, env.now));
      SayOk(au, nd.said, AliveM(a));
      QuietOk(au, nd, r);
    }
  }

  lemma SuspectOk(au: Authorities, nd: Node, s: SuspectMsg, env: Env)
    requires NodeOk(au, nd) && MsgOk(au, SuspectM(s)) && NoWrap(nd, env)
    ensures StaysOk(au, nd, SuspectNode(nd, s, env))
  {
    var r := SuspectNode(nd, s, env);
    SayOk(au, nd.said, SuspectM(s));
    if s.node in nd.table {
      if s.node == nd.self && r == Refute(nd, s.inc, env.bumps) {
        RefuteOk(au, nd, s.inc, env.bumps);
      } else {
        PutOk(au, nd.table, s.node, nd.table[s.node].(inc := s.inc, status := Suspect, change := env.now));
        QuietOk(au, nd, r);
      }
    } else {
      QuietOk(au, nd, r);
    }
  }

  lemma DeadOk(au: Authorities, nd: Node, d: DeadMsg, env: Env)
    requires NodeOk(au, nd) && MsgOk(au, DeadM(d)) && NoWrap(nd, env)
    ensures StaysOk(au, nd, DeadNode(nd, d, env))
  {
    var r := DeadNode(nd, d, env);
    SayOk(au, nd.said, DeadM(d));
    if d.node in nd.table {
      if d.node == nd.self && r == Refute(ClearTimer(nd, d.node), d.inc, env.bumps) {
        RefuteOk(au, ClearTimer(nd, d.node), d.inc, env.bumps);
      } else {
        PutOk(au, nd.table, d.node,
              nd.table[d.node].(inc := d.inc, status := if d.node == d.from then Left else Dead, change := env.now));
        QuietOk(au, nd, r);
      }
    } else {
      QuietOk(au, nd, r);
    }
  }

  lemma ReceiveOk(au: Authorities, nd: Node, m: Msg, env: Env)
    requires NodeOk(au, nd) && MsgOk(au, m) && NoWrap(nd, env)
    ensures StaysOk(au, nd, Receive(nd, m, env))
  {
    match m
    case AliveM(a) => AliveOk(au, nd, a, false, env);
    case SuspectM(s) => SuspectOk(au, nd, s, env);
    case DeadM(d) => DeadOk(au, nd, d, env);
    case PushM(r) =>
      match r.status {
        case Alive => AliveOk(au, nd, AliveMsg(r.inc, r.node, r.addr, r.meta, r.vsn), false, env);
        case Left => DeadOk(au, nd, DeadMsg(r.inc, r.node, r.node), env);
        case _ => SuspectOk(au, nd, SuspectMsg(r.inc, r.node, nd.self), env);
      }
  }

  /** The steps in which a member only says something about its own table. */
  lemma TellOk(au: Authorities, nd: Node, m: Msg)
    requires NodeOk(au, nd) && MsgOk(au, m)
    ensures StaysOk(au, nd, Say(nd, m))
  {
    SayOk(au, nd.said, m);
    QuietOk(au, nd, Say(nd, m));
  }

  lemma StepOk(au: Authorities, nd: Node, ev: Event, env: Env)
    requires NodeOk(au, nd) && Enabled(nd, ev, env) && NoWrap(nd, env)
    requires ev.Recv? ==> MsgOk(au, ev.m)
    ensures StaysOk(au, nd, Step(nd, ev, env))
  {
    match ev
    case Recv(m) => ReceiveOk(au, nd, m, env);
    case Announce(inc, addr, meta) =>
      AliveOk(au, nd, AliveMsg(inc, nd.self, addr, meta, Some(nd.cfg.vsn)), true, env);
    case Draw => GrowsKeeps(au, Updated(au, Step(nd, ev, env)), nd.table, nd.said);
    case Quit => GrowsKeeps(au, Updated(au, Step(nd, ev, env)), nd.table, nd.said);
    case Check(x, began) =>
      if TimeoutDue(nd, x, began).Some? {
        assert !IsSuspect(nd.table, nd.self);
        TellOk(au, nd, DeadM(TimeoutDue(nd, x, began).value));
      } else {
        QuietOk(au, nd, nd);
      }
    case Accuse(x) => TellOk(au, nd, SuspectM(SuspectMsg(nd.table[x].inc, x, nd.self)));
    case Share(x) => TellOk(au, nd, PushM(PushOf(x, nd.table[x])));
    case Farewell(inc) => TellOk(au, nd, DeadM(DeadMsg(inc, nd.self, nd.self)));
    case _ => QuietOk(au, nd, Step(nd, ev, env));
  }

  // ------------------------------------------------------------------ every run

  ghost predicate ClusterOk(c: Members) {
    forall y :: y in c ==> c[y].self == y && !c[y].cfg.vsn.Wrong() && NodeOk(Authors(c), c[y])
  }

  lemma ReplaceKeepsOk(c: Members, at: Name, r: Node)
    requires ClusterOk(c) && at in c
    requires StaysOk(Authors(c), c[at], r) && Well(r) && r.cfg == c[at].cfg
    ensures ClusterOk(c[at := r])
  {
    var au, bu := Authors(c), Updated(Authors(c), r);
    assert Authors(c[at := r]) == bu;
    forall y | y in c && y != at ensures NodeOk(bu, c[y]) {
      assert NodeOk(au, c[y]);
      GrowsKeeps(au, bu, c[y].table, c[y].said);
    }
  }

  lemma SaidIsOk(c: Members, m: Msg)
    requires ClusterOk(c) && Said(c, m)
    ensures MsgOk(Authors(c), m)
  {
    var z :| z in c && m in c[z].said;
    assert NodeOk(Authors(c), c[z]);
  }

  lemma ActKeepsOk(c: Members, act: Action)
    requires ClusterOk(c) && CanAct(c, act)
    ensures ClusterOk(Act(c, act))
  {
    if act.ev.Recv? {
      SaidIsOk(c, act.ev.m);
    }
    var nd := c[act.at];
    StepOk(Authors(c), nd, act.ev, act.env);
    StepKeepsWell(nd, act.ev, act.env);
    StepKeepsIdentity(nd, act.ev, act.env);
    ReplaceKeepsOk(c, act.at, Step(nd, act.ev, act.env));
  }

  lemma {:induction false} RunKeepsOk(run: seq<Members>, acts: seq<Action>, i: nat)
    requires IsClusterRun(run, acts) && i < |run|
    ensures ClusterOk(run[i])
  {
    if i > 0 {
      RunKeepsOk(run, acts, i - 1);
      ActKeepsOk(run[i - 1], acts[i - 1]);
    }
  }

  /** In every run: no message and no entry about x carries an incarnation above x's own counter. */
  lemma CounterBoundsEverything(run: seq<Members>, acts: seq<Action>, i: nat)
    requires IsClusterRun(run, acts) && i < |run|
    ensures forall m :: Said(run[i], m) ==> m.About() in run[i] && m.Inc() <= run[i][m.About()].counter
    ensures forall y, x :: y in run[i] && x in run[i][y].table ==>
      x in run[i] && run[i][y].table[x].inc <= run[i][x].counter
  {
    RunKeepsOk(run, acts, i);
    var au := Authors(run[i]);
    forall m | Said(run[i], m) ensures MsgOk(au, m) {
      SaidIsOk(run[i], m);
    }
    forall y, x | y in run[i] && x in run[i][y].table ensures EntryOk(au, x, run[i][y].table[x]) {
      assert NodeOk(au, run[i][y]);
    }
  }

  /** In every run: a member is recorded or announced as Left only if it called Leave. */
  lemma LeftOnlyByLeaving(run: seq<Members>, acts: seq<Action>, i: nat)
    requires IsClusterRun(run, acts) && i < |run|
    ensures forall y, x :: y in run[i] && x in run[i][y].table && run[i][y].table[x].status.Left? ==>
      x in run[i] && run[i][x].left
    ensures forall d :: Said(run[i], DeadM(d)) && d.node == d.from ==> d.node in run[i] && run[i][d.node].left
    ensures forall y :: y in run[i] ==> run[i][y].self == y && y !in run[i][y].timers
  {
    RunKeepsOk(run, acts, i);
    var au := Authors(run[i]);
    forall y, x | y in run[i] && x in run[i][y].table ensures EntryOk(au, x, run[i][y].table[x]) {
      assert NodeOk(au, run[i][y]);
    }
    forall d | Said(run[i], DeadM(d)) ensures MsgOk(au, DeadM(d)) {
      SaidIsOk(run[i], DeadM(d));
    }
    forall y | y in run[i] ensures y !in run[i][y].timers {
      assert NodeOk(au, run[i][y]);
      assert !IsSuspect(run[i][y].table, y);
    }
  }

  // -------------------------------------------------------------- refutation

  /** m says x is not alive, with an incarnation x has not yet outgrown. */
  predicate Accuses(nd: Node, m: Msg) {
    && nd.self in nd.table && m.About() == nd.self && nd.table[nd.self].inc <= m.Inc()
    && !m.AliveM? && (m.PushM? ==> !m.r.status.Alive?)
  }

  lemma AccusedRefutes(nd: Node, m: Msg, env: Env)
    requires Well(nd) && !nd.left && Accuses(nd, m) && nd.table[nd.self].status.Alive?
    ensures var r, a := Receive(nd, m, env), Refute(nd, m.Inc(), env.bumps);
      r.counter == a.counter && r.said == a.said && r.table == a.table
  {
    assert nd.self !in nd.timers;
    assert nd.timers - {nd.self} == nd.timers;
  }

  /**
   * In every run, a member that answers an accusation says it is alive under an
   * incarnation above that of every message and every entry about it in existence.
   */
  lemma RefutationBeatsEveryAccusation(run: seq<Members>, acts: seq<Action>, i: nat)
    requires IsClusterRun(run, acts) && i < |acts| && acts[i].ev.Recv?
    requires var nd := run[i][acts[i].at];
      !nd.left && Accuses(nd, acts[i].ev.m) && nd.table[nd.self].status.Alive?
    ensures var x, r := acts[i].at, run[i + 1][acts[i].at];
      && x in r.table
      && r.said == run[i][x].said + [AliveM(AliveOf(x, r.table[x]))]
      && r.table[x].inc == r.counter
      && (forall m :: Said(run[i], m) && m.About() == x ==> m.Inc() < r.counter)
      && (forall y :: y in run[i] && x in run[i][y].table ==> run[i][y].table[x].inc < r.counter)
  {
    RunKeepsOk(run, acts, i);
    CounterBoundsEverything(run, acts, i);
    var x, m, env := acts[i].at, acts[i].ev.m, acts[i].env;
    var nd := run[i][x];
    assert NodeOk(Authors(run[i]), nd);
    AccusedRefutes(nd, m, env);
    RefuteOk(Authors(run[i]), nd, m.Inc(), env.bumps);
  }

  /** The verdicts of the local callbacks let strangers in. */
  predicate Admits(env: Env) {
    env.admit && env.allowed
  }

  /** The entry is Alive and has everything the message gives. */
  predicate Carries(e: Entry, a: AliveMsg) {
    && e.status.Alive? && e.inc == a.inc && e.addr == a.addr && e.meta == a.meta
    && (a.vsn.Some? ==> e.vsn == a.vsn.value)
  }

  lemma NewerAliveTakesEffect(nd: Node, a: AliveMsg, env: Env)
    requires Passes(nd, a, env) && a.node != nd.self
    requires if a.node in nd.table then nd.table[a.node].inc < a.inc else 0 < a.inc
    ensures var r := AliveNode(nd, a, false, env);
      && a.node in r.table && Carries(r.table[a.node], a)
      && a.node !in r.timers && r.said == nd.said + [AliveM(a)]
  {
  }

  lemma ClusterLetsPass(c: Members, y: Name, a: AliveMsg, env: Env)
    requires ClusterOk(c) && y in c && y != a.node && Said(c, AliveM(a)) && Admits(env)
    ensures Passes(c[y], a, env) && c[y].self == y
  {
    var au := Authors(c);
    SaidIsOk(c, AliveM(a));
    assert NodeOk(au, c[y]) && !c[a.node].cfg.vsn.Wrong();
    assert a.node in c[y].table ==> EntryOk(au, a.node, c[y].table[a.node]);
  }

  /** In every run, a peer that has not yet recorded that incarnation accepts it, records all it says and passes it on. */
  lemma NewerAliveIsAccepted(run: seq<Members>, acts: seq<Action>, i: nat, y: Name, a: AliveMsg, env: Env)
    requires IsClusterRun(run, acts) && i < |run| && y in run[i] && y != a.node
    requires Said(run[i], AliveM(a)) && Admits(env)
    requires if a.node in run[i][y].table then run[i][y].table[a.node].inc < a.inc else 0 < a.inc
    ensures var r := Receive(run[i][y], AliveM(a), env);
      && a.node in r.table && Carries(r.table[a.node], a)
      && a.node !in r.timers && r.said == run[i][y].said + [AliveM(a)]
  {
    RunKeepsOk(run, acts, i);
    ClusterLetsPass(run[i], y, a, env);
    NewerAliveTakesEffect(run[i][y], a, env);
  }

  // ------------------------------------------------------------- old accusations

  /** The address a message gives for its subject, if it gives one. */
  predicate AtAddress(m: Msg, addr: Addr) {
    match m
    case AliveM(a) => a.addr == addr
    case PushM(r) => r.addr == addr
    case _ => true
  }

  lemma StaleChangesNothing(nd: Node, m: Msg, env: Env)
    requires m.About() in nd.table && m.About() != nd.self && m.Inc() < nd.table[m.About()].inc
    requires AtAddress(m, nd.table[m.About()].addr)
    ensures Receive(nd, m, env) == nd
  {
  }

  lemma EntryAddress(c: Members, y: Name, x: Name)
    requires ClusterOk(c) && y in c && x in c[y].table
    ensures x in c && c[y].table[x].addr == c[x].cfg.addr && c[y].self == y
  {
    assert NodeOk(Authors(c), c[y]);
    assert EntryOk(Authors(c), x, c[y].table[x]);
  }

  lemma ActKeepsConfig(c: Members, act: Action, d: Members, x: Name)
    requires CanAct(c, act) && d == Act(c, act) && x in c
    ensures x in d && d[x].cfg == c[x].cfg
  {
    StepKeepsIdentity(c[act.at], act.ev, act.env);
  }

  lemma StepKeepsIncs(nd: Node, ev: Event, env: Env, r: Node, x: Name)
    requires Steps(nd, ev, env, r) && x != nd.self && x in nd.table && x in r.table && r.table[x].addr == nd.table[x].addr
    ensures nd.table[x].inc <= r.table[x].inc
  {
    StepEvolves(nd, ev, env, x);
  }

  /** One action: what a peer records about x stays at the same address and never falls back. */
  lemma ActKeepsIncs(c: Members, act: Action, d: Members, y: Name, x: Name)
    requires ClusterOk(c) && ClusterOk(d) && CanAct(c, act) && d == Act(c, act) && y in c && y != x
    requires x in c[y].table && x in d[y].table
    ensures c[y].table[x].inc <= d[y].table[x].inc
  {
    EntryAddress(c, y, x);
    EntryAddress(d, y, x);
    ActKeepsConfig(c, act, d, x);
    if act.at == y {
      StepKeepsIncs(c[y], act.ev, act.env, d[y], x);
    }
  }

  lemma StepOfRunKeepsIncs(run: seq<Members>, acts: seq<Action>, y: Name, x: Name, t: nat)
    requires IsClusterRun(run, acts) && t < |acts| && y != x
    requires y in run[t] && x in run[t][y].table && y in run[t + 1] && x in run[t + 1][y].table
    ensures run[t][y].table[x].inc <= run[t + 1][y].table[x].inc
  {
    RunKeepsOk(run, acts, t);
    RunKeepsOk(run, acts, t + 1);
    ActKeepsIncs(run[t], acts[t], run[t + 1], y, x);
  }

  lemma {:induction false} NeverFalls(incs: seq<int>, j: nat, k: nat)
    requires j <= k < |incs| && forall t :: j <= t < k ==> incs[t] <= incs[t + 1]
    ensures incs[j] <= incs[k]
  {
    if j < k {
      NeverFalls(incs, j, k - 1);
    }
  }

  lemma IncsNeverFall(run: seq<Members>, acts: seq<Action>, y: Name, x: Name, j: nat, k: nat)
    requires IsClusterRun(run, acts) && j <= k < |run| && y != x
    requires forall t :: j <= t <= k ==> y in run[t] && x in run[t][y].table
    ensures run[j][y].table[x].inc <= run[k][y].table[x].inc
  {
    var incs: seq<int> := seq(|run|, t requires 0 <= t < |run| =>
      if y in run[t] && x in run[t][y].table then run[t][y].table[x].inc else 0);
    forall t | j <= t < k ensures incs[t] <= incs[t + 1] {
      StepOfRunKeepsIncs(run, acts, y, x, t);
    }
    NeverFalls(incs, j, k);
  }

  lemma SaidAtAddress(c: Members, m: Msg)
    requires ClusterOk(c) && Said(c, m)
    ensures m.About() in c && AtAddress(m, c[m.About()].cfg.addr)
  {
    SaidIsOk(c, m);
  }

  lemma StaleAct(c: Members, act: Action)
    requires ClusterOk(c) && CanAct(c, act) && act.ev.Recv? && act.ev.m.About() != act.at
    requires act.ev.m.About() in c[act.at].table && act.ev.m.Inc() < c[act.at].table[act.ev.m.About()].inc
    ensures Act(c, act) == c
  {
    EntryAddress(c, act.at, act.ev.m.About());
    SaidAtAddress(c, act.ev.m);
    StaleChangesNothing(c[act.at], act.ev.m, act.env);
    assert c[act.at := c[act.at]] == c;
  }

  /**
   * In every run: once a peer has recorded a refutation, and as long as it does not reap the
   * entry, nothing that had been said about the member when it refuted changes that peer in
   * any way, however late and however often it arrives.
   */
  lemma OldAccusationsAreSpent(run: seq<Members>, acts: seq<Action>, i: nat, j: nat, k: nat)
    requires IsClusterRun(run, acts) && i < j <= k < |acts| && acts[i].ev.Recv? && acts[k].ev.Recv?
    requires var nd := run[i][acts[i].at];
      !nd.left && Accuses(nd, acts[i].ev.m) && nd.table[nd.self].status.Alive?
    requires Said(run[i], acts[k].ev.m) && acts[k].ev.m.About() == acts[i].at != acts[k].at
    requires forall t :: j <= t <= k ==> acts[k].at in run[t] && acts[i].at in run[t][acts[k].at].table
    requires run[i + 1][acts[i].at].counter <= run[j][acts[k].at].table[acts[i].at].inc
    ensures run[k + 1] == run[k]
  {
    RefutationBeatsEveryAccusation(run, acts, i);
    IncsNeverFall(run, acts, acts[k].at, acts[i].at, j, k);
    RunKeepsOk(run, acts, k);
    StaleAct(run[k], acts[k]);
  }
}
