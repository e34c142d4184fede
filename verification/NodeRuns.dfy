/** What one member keeps in every run, whatever messages it is sent. */
module NodeRuns {
  import opened Base
  import opened SuspicionTimer
  import opened Protocol

  // -------------------------------------------------------------------- steps

  datatype Event =
    /** a message from the network, a row of a push/pull table, or a call of its own put off until now */
    | Recv(m: Msg)
    /** setAlive at the configured address, UpdateNode at the recorded one: the incarnation was drawn earlier */
    | Announce(inc: Uint32, addr: Addr, meta: Meta)
    /** the incarnation draw of setAlive and UpdateNode */
    | Draw
    /** the checking half of a timeout callback */
    | Check(x: Name, began: int)
    /** a failed probe, or a probe of a suspect: copies the entry and accuses */
    | Accuse(x: Name)
    /** a row of a push/pull table sent out */
    | Share(x: Name)
    | Reset(order: seq<Name>)
    /** the probe looks at the next index */
    | Consider
    /** the probe index goes back to 0 */
    | Rewind
    /** Leave sets the flag, then builds its message from what it reads */
    | Quit
    | Farewell(inc: Uint32)

  function Home(nd: Node): Addr {
    if nd.self in nd.table then nd.table[nd.self].addr else nd.cfg.addr
  }

  function Receive(nd: Node, m: Msg, env: Env): Node {
    match m
    case AliveM(a) => AliveNode(nd, a, false, env)
    case SuspectM(s) => SuspectNode(nd, s, env)
    case DeadM(d) => DeadNode(nd, d, env)
    case PushM(r) => MergeOne(nd, r, env)
  }

  predicate Enabled(nd: Node, ev: Event, env: Env) {
    match ev
    case Announce(inc, addr, _) => inc <= nd.counter && (addr == nd.cfg.addr || addr == Home(nd))
    case Draw => nd.counter + 1 < UINT32_SIZE
    case Accuse(x) => x in nd.table && x != nd.self && !nd.table[x].status.DeadOrLeft()
    case Share(x) => x in nd.table
    case Reset(order) => IsShuffle(nd, env.now, order)
    case Consider => nd.probe < |nd.order|
    case Farewell(inc) => nd.left && nd.self in nd.table && inc == nd.table[nd.self].inc
    case _ => true
  }

  function Step(nd: Node, ev: Event, env: Env): Node {
    match ev
    case Recv(m) => Receive(nd, m, env)
    case Announce(inc, addr, meta) => AliveNode(nd, AliveMsg(inc, nd.self, addr, meta, Some(nd.cfg.vsn)), true, env)
    case Draw => nd.(counter := NextInc(nd.counter))
    case Check(x, began) =>
      (match TimeoutDue(nd, x, began)
       case Some(d) => Say(nd, DeadM(d))
       case None => nd)
    case Accuse(x) => if x in nd.table then Say(nd, SuspectM(SuspectMsg(nd.table[x].inc, x, nd.self))) else nd
    case Share(x) => if x in nd.table then Say(nd, PushM(PushOf(x, nd.table[x]))) else nd
    case Reset(order) => Reap(nd, env.now, order)
    case Consider => nd.(probe := nd.probe + 1)
    case Rewind => nd.(probe := 0)
    case Quit => nd.(left := true)
    case Farewell(inc) => Say(nd, DeadM(DeadMsg(inc, nd.self, nd.self)))
  }

  predicate Steps(nd: Node, ev: Event, env: Env, r: Node) {
    Enabled(nd, ev, env) && r == Step(nd, ev, env)
  }

  /** States and what led from each to the next. */
  datatype Path = Path(states: seq<Node>, evs: seq<Event>, envs: seq<Env>) {
    predicate StepAt(i: nat)
      requires i < |evs| && |states| == |evs| + 1 == |envs| + 1
    {
      Steps(states[i], evs[i], envs[i], states[i + 1])
    }

    ghost predicate Valid() {
      |states| == |evs| + 1 == |envs| + 1 && forall i {:trigger StepAt(i)} :: 0 <= i < |evs| ==> StepAt(i)
    }

    ghost predicate From(nd: Node, r: Node) {
      Valid() && states[0] == nd && states[|evs|] == r
    }

    function Then(ev: Event, env: Env, r: Node): Path {
      Path(states + [r], evs + [ev], envs + [env])
    }
  }

  function Start(nd: Node): Path {
    Path([nd], [], [])
  }

  lemma OneMoreStep(p: Path, nd: Node, mid: Node, ev: Event, env: Env, r: Node)
    requires p.From(nd, mid) && Steps(mid, ev, env, r)
    ensures p.Then(ev, env, r).From(nd, r)
  {
    var q := p.Then(ev, env, r);
    forall i | 0 <= i < |q.evs| ensures q.StepAt(i) {
      assert i < |p.evs| ==> p.StepAt(i);
      assert i < |p.evs| ==>
        q.states[i] == p.states[i] && q.evs[i] == p.evs[i] && q.envs[i] == p.envs[i] && q.states[i + 1] == p.states[i + 1];
    }
  }

  // --------------------------------------------------------------- invariants

  ghost predicate IsSuspect(table: map<Name, Entry>, x: Name) {
    x in table && table[x].status.Suspect?
  }

  ghost predicate Agree(self: Name, order: seq<Name>, table: map<Name, Entry>, timers: map<Name, Tally>) {
    && NoDup(order)
    && Elements(order) == table.Keys
    && (forall x :: x in timers <==> IsSuspect(table, x))
    && !IsSuspect(table, self)
  }

  /** The list and the table agree, and the timers are exactly those of the suspects. */
  ghost predicate Well(nd: Node) {
    Agree(nd.self, nd.order, nd.table, nd.timers)
  }

  function Fresh(self: Name, cfg: Config): Node {
    Node(self, cfg, 0, false, [], map[], map[], 0, [])
  }

  lemma InsertAtElements(order: seq<Name>, x: Name, rnd: nat)
    requires NoDup(order) && x !in order
    ensures NoDup(InsertAt(order, x, rnd))
    ensures Elements(InsertAt(order, x, rnd)) == Elements(order) + {x}
  {
    var r, n, k := InsertAt(order, x, rnd), |order|, RandomOffset(|order|, rnd);
    assert r[k] == x && (n > 0 ==> r[n] == order[k]);
    assert forall i :: 0 <= i < n && i != k ==> r[i] == order[i];
    forall y | y in Elements(order) ensures y in r {
      var i :| 0 <= i < n && order[i] == y;
      assert r[if i == k then n else i] == y;
    }
  }

  /** Settling x on a status other than Suspect goes with dropping its timer. */
  lemma SettleKeeps(self: Name, order: seq<Name>, table: map<Name, Entry>, timers: map<Name, Tally>, x: Name, e: Entry)
    requires Agree(self, order, table, timers) && x in table && !e.status.Suspect?
    ensures Agree(self, order, table[x := e], timers - {x})
  {
    assert table[x := e].Keys == table.Keys;
  }

  /** Suspecting x goes with starting a timer. */
  lemma AccuseKeeps(self: Name, order: seq<Name>, table: map<Name, Entry>, timers: map<Name, Tally>, x: Name, e: Entry, t: Tally)
    requires Agree(self, order, table, timers) && x in table && e.status.Suspect? && x != self
    ensures Agree(self, order, table[x := e], timers[x := t])
  {
    assert table[x := e].Keys == table.Keys;
  }

  /** Timers of members that are not suspects do not exist, so dropping one changes nothing. */
  lemma DropKeeps(self: Name, order: seq<Name>, table: map<Name, Entry>, timers: map<Name, Tally>, x: Name)
    requires Agree(self, order, table, timers) && !IsSuspect(table, x)
    ensures timers - {x} == timers
  {
    assert x !in timers;
  }

  lemma RefuteKeepsWell(nd: Node, accused: Uint32, bumps: nat)
    requires Well(nd) && nd.self in nd.table
    ensures Well(Refute(nd, accused, bumps))
  {
    DropKeeps(nd.self, nd.order, nd.table, nd.timers, nd.self);
    SettleKeeps(nd.self, nd.order, nd.table, nd.timers, nd.self, Refute(nd, accused, bumps).table[nd.self]);
  }

  lemma InsertKeepsWell(nd: Node, a: AliveMsg, rnd: nat)
    requires Well(nd) && a.node !in nd.table
    ensures Well(Insert(nd, a, rnd))
  {
    assert a.node !in Elements(nd.order);
    InsertAtElements(nd.order, a.node, rnd);
    assert Insert(nd, a, rnd).table.Keys == nd.table.Keys + {a.node};
  }

  lemma AliveKeepsWell(nd: Node, a: AliveMsg, bootstrap: bool, env: Env)
    requires Well(nd)
    ensures Well(AliveNode(nd, a, bootstrap, env))
  {
    if Passes(nd, a, env) {
      if a.node !in nd.table {
        InsertKeepsWell(nd, a, env.rnd);
      }
      var n1 := if a.node in nd.table then nd else Insert(nd, a, env.rnd);
      var e := n1.table[a.node];
      if a.node == nd.self {
        DropKeeps(n1.self, n1.order, n1.table, n1.timers, a.node);
        RefuteKeepsWell(n1, a.inc, env.bumps);
      }
      SettleKeeps(n1.self, n1.order, n1.table, n1.timers, a.node, Revived(e, a, env.now));
    }
  }

  lemma SuspectKeepsWell(nd: Node, s: SuspectMsg, env: Env)
    requires Well(nd)
    ensures Well(SuspectNode(nd, s, env))
  {
    if s.node in nd.table {
      var e := nd.table[s.node];
      if s.node == nd.self {
        RefuteKeepsWell(nd, s.inc, env.bumps);
      } else if s.node in nd.timers {
        AccuseKeeps(nd.self, nd.order, nd.table, nd.timers, s.node, e, Confirmed(nd.timers[s.node], s.from));
        assert nd.table[s.node := e] == nd.table;
      } else {
        AccuseKeeps(nd.self, nd.order, nd.table, nd.timers, s.node,
                    e.(inc := s.inc, status := Suspect, change := env.now), NewTally(s.from, Expected(nd)));
      }
    }
  }

  lemma DeadKeepsWell(nd: Node, d: DeadMsg, env: Env)
    requires Well(nd)
    ensures Well(DeadNode(nd, d, env))
  {
    if d.node in nd.table {
      var e := nd.table[d.node];
      if d.node == nd.self || e.status.DeadOrLeft() {
        DropKeeps(nd.self, nd.order, nd.table, nd.timers, d.node);
      }
      if d.node == nd.self {
        RefuteKeepsWell(nd, d.inc, env.bumps);
      }
      SettleKeeps(nd.self, nd.order, nd.table, nd.timers, d.node,
                  e.(inc := d.inc, status := if d.node == d.from then Left else Dead, change := env.now));
    }
  }

  lemma ReapKeepsWell(nd: Node, now: int, order: seq<Name>)
    requires Well(nd) && IsShuffle(nd, now, order)
    ensures Well(Reap(nd, now, order))
  {
    assert Reap(nd, now, order).table.Keys == nd.table.Keys - Gone(nd, now);
  }

  lemma ReceiveKeepsWell(nd: Node, m: Msg, env: Env)
    requires Well(nd)
    ensures Well(Receive(nd, m, env))
  {
    match m
    case AliveM(a) => AliveKeepsWell(nd, a, false, env);
    case SuspectM(s) => SuspectKeepsWell(nd, s, env);
    case DeadM(d) => DeadKeepsWell(nd, d, env);
    case PushM(r) =>
      match r.status {
        case Alive => AliveKeepsWell(nd, AliveMsg(r.inc, r.node, r.addr, r.meta, r.vsn), false, env);
        case Left => DeadKeepsWell(nd, DeadMsg(r.inc, r.node, r.node), env);
        case _ => SuspectKeepsWell(nd, SuspectMsg(r.inc, r.node, nd.self), env);
      }
  }

  /** Every step keeps the list, the table and the timers in agreement. */
  lemma StepKeepsWell(nd: Node, ev: Event, env: Env)
    requires Well(nd) && Enabled(nd, ev, env)
    ensures Well(Step(nd, ev, env))
  {
    match ev
    case Recv(m) => ReceiveKeepsWell(nd, m, env);
    case Announce(inc, addr, meta) =>
      AliveKeepsWell(nd, AliveMsg(inc, nd.self, addr, meta, Some(nd.cfg.vsn)), true, env);
    case Reset(order) => ReapKeepsWell(nd, env.now, order);
    case _ =>
  }

  // -------------------------------------------------------------- refutation

  /**
   * A refutation outdoes both the accusation and every incarnation drawn so far
   * exactly when neither has reached the largest 32-bit number.
   */
  lemma RefuteBeatsIff(c: Uint32, accused: Uint32)
    ensures (RefuteInc(c, accused, 0) > accused && RefuteInc(c, accused, 0) > c)
      <==> (c < UINT32_SIZE - 1 && accused < UINT32_SIZE - 1)
  {
    if c < UINT32_SIZE - 1 && accused >= c + 1 {
      assert RefuteInc(c, accused, 0) == (accused + 1) % UINT32_SIZE;
    }
  }

  /** It still does when other goroutines draw incarnations between its two additions. */
  lemma RefuteBeatsDespiteRaces(c: Uint32, accused: Uint32, bumps: nat)
    requires c + 1 < UINT32_SIZE && accused + 1 + bumps < UINT32_SIZE
    ensures RefuteInc(c, accused, bumps) > accused
    ensures RefuteInc(c, accused, bumps) > c
  {
    if accused >= c + 1 {
      assert RefuteInc(c, accused, bumps) == (accused + 1 + bumps) % UINT32_SIZE;
    }
  }

  // ---------------------------------------------------------- override order

  /** SWIM's override order on entries: incarnation first, then status. */
  predicate Before(e: Entry, f: Entry) {
    e.inc < f.inc || (e.inc == f.inc && e.status.Rank() < f.status.Rank())
  }

  predicate AtMost(e: Entry, f: Entry) {
    e == f || Before(e, f)
  }

  /**
   * An alive message about a known peer respects the override order unless it is
   * let through with a new address and no newer incarnation.
   */
  lemma AliveOverridesIff(nd: Node, a: AliveMsg, env: Env)
    requires a.node in nd.table && a.node != nd.self
    ensures AtMost(nd.table[a.node], AliveNode(nd, a, false, env).table[a.node])
      <==> !(Passes(nd, a, env) && Moves(nd, a) && a.inc <= nd.table[a.node].inc)
  {
  }

  /** It does happen: a member that left at incarnation 5 comes back from elsewhere at incarnation 3. */
  lemma MovedPeerIsLowered(env: Env)
    requires env.allowed
    ensures var left, back := Entry("there", [], NO_VERSIONS, 5, Left, 0), AliveMsg(3, "x", "elsewhere", [], None);
      var me := Entry("here", [], Versions(1, 5, 2, 2, 5, 4), 1, Alive, 0);
      var nd := Node("me", Config("here", me.vsn, false, 0, 0, 4), 1, false, ["x", "me"], map["x" := left, "me" := me], map[], 0, []);
      var e := AliveNode(nd, back, false, env).table["x"];
      Well(nd) && e.inc == 3 && e.status.Alive? && Before(e, left) && !AtMost(left, e)
  {
  }

  // --------------------------------------------------- the life of one entry

  function At(nd: Node, x: Name): Option<Entry> {
    if x in nd.table then Some(nd.table[x]) else None
  }

  /**
   * What one step at the instant now may do to an entry: a status (and anything in a
   * suspect's entry) changes only under a fresh stamp, a peer's entry climbs the
   * override order unless it is readdressed, and only the dead are dropped.
   */
  ghost predicate Evolves(own: bool, o: Option<Entry>, p: Option<Entry>, now: int) {
    match (o, p)
    case (None, None) => true
    case (Some(e), None) => e.status.DeadOrLeft()
    case (None, Some(f)) => !f.status.Suspect? && (f.change == 0 || f.change == now)
    case (Some(e), Some(f)) =>
      && (f.change == now || (f.change == e.change && f.status == e.status && (e.status.Suspect? ==> own || f == e)))
      && (own || f.addr != e.addr || AtMost(e, f))
  }

  lemma AliveEvolves(nd: Node, a: AliveMsg, bootstrap: bool, env: Env, x: Name)
    requires bootstrap ==> a.node == nd.self
    ensures Evolves(x == nd.self, At(nd, x), At(AliveNode(nd, a, bootstrap, env), x), env.now)
  {
    if a.node == x && x in nd.table && x != nd.self {
      AliveOverridesIff(nd, a, env);
    }
  }

  lemma SuspectEvolves(nd: Node, s: SuspectMsg, env: Env, x: Name)
    ensures Evolves(x == nd.self, At(nd, x), At(SuspectNode(nd, s, env), x), env.now)
  {
  }

  lemma DeadEvolves(nd: Node, d: DeadMsg, env: Env, x: Name)
    ensures Evolves(x == nd.self, At(nd, x), At(DeadNode(nd, d, env), x), env.now)
  {
  }

  lemma ReceiveEvolves(nd: Node, m: Msg, env: Env, x: Name)
    ensures Evolves(x == nd.self, At(nd, x), At(Receive(nd, m, env), x), env.now)
  {
    match m
    case AliveM(a) => AliveEvolves(nd, a, false, env, x);
    case SuspectM(s) => SuspectEvolves(nd, s, env, x);
    case DeadM(d) => DeadEvolves(nd, d, env, x);
    case PushM(r) =>
      match r.status {
        case Alive => AliveEvolves(nd, AliveMsg(r.inc, r.node, r.addr, r.meta, r.vsn), false, env, x);
        case Left => DeadEvolves(nd, DeadMsg(r.inc, r.node, r.node), env, x);
        case _ => SuspectEvolves(nd, SuspectMsg(r.inc, r.node, nd.self), env, x);
      }
  }

  lemma StepEvolves(nd: Node, ev: Event, env: Env, x: Name)
    requires Enabled(nd, ev, env)
    ensures Evolves(x == nd.self, At(nd, x), At(Step(nd, ev, env), x), env.now)
  {
    match ev
    case Recv(m) => ReceiveEvolves(nd, m, env, x);
    case Announce(inc, addr, meta) =>
      AliveEvolves(nd, AliveMsg(inc, nd.self, addr, meta, Some(nd.cfg.vsn)), true, env, x);
    case _ =>
  }

  lemma StepKeepsIdentity(nd: Node, ev: Event, env: Env)
    ensures Step(nd, ev, env).self == nd.self && Step(nd, ev, env).cfg == nd.cfg
  {
  }
}
