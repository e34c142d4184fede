/** A member's own entry, merging of push/pull tables, and the round-robin probe order. */
module Standing {
  import opened Base
  import opened SuspicionTimer
  import opened Protocol
  import opened NodeRuns
  import opened Lifetimes

  // ---------------------------------------------------------------- own entry

  /** What a member holds about itself. */
  datatype Own = Own(left: bool, counter: Uint32, entry: Option<Entry>)

  function OwnOf(nd: Node): Own {
    Own(nd.left, nd.counter, At(nd, nd.self))
  }

  /** A created member that has not left: present, Alive, incarnation within its counter. */
  predicate InGoodStanding(o: Own) {
    !o.left && o.entry.Some? && o.entry.value.status.Alive? && o.entry.value.inc <= o.counter
  }

  /** A member that has left and no longer lists itself as Alive or Suspect. */
  predicate Departed(o: Own) {
    o.left && (o.entry.Some? ==> o.entry.value.status.DeadOrLeft())
  }

  predicate Reaped(o: Own) {
    o.left && o.entry.None?
  }

  /** Standing is kept until Leave, departure is final, and a reaped self stays out. */
  ghost predicate Persists(o: Own, p: Own, quits: bool) {
    && (InGoodStanding(o) && !quits ==> InGoodStanding(p))
    && (Departed(o) ==> Departed(p))
    && (Reaped(o) ==> Reaped(p))
  }

  lemma AlivePersists(nd: Node, a: AliveMsg, bootstrap: bool, env: Env)
    requires bootstrap ==> a.inc <= nd.counter
    ensures Persists(OwnOf(nd), OwnOf(AliveNode(nd, a, bootstrap, env)), false)
  {
  }

  lemma SuspectPersists(nd: Node, s: SuspectMsg, env: Env)
    ensures Persists(OwnOf(nd), OwnOf(SuspectNode(nd, s, env)), false)
  {
  }

  lemma DeadPersists(nd: Node, d: DeadMsg, env: Env)
    ensures Persists(OwnOf(nd), OwnOf(DeadNode(nd, d, env)), false)
  {
  }

  /** Whatever a step does, it respects the member's standing. */
  lemma StepPersists(nd: Node, ev: Event, env: Env)
    requires Enabled(nd, ev, env)
    ensures Persists(OwnOf(nd), OwnOf(Step(nd, ev, env)), ev.Quit?)
  {
    match ev
    case Recv(AliveM(a)) => AlivePersists(nd, a, false, env);
    case Recv(SuspectM(s)) => SuspectPersists(nd, s, env);
    case Recv(DeadM(d)) => DeadPersists(nd, d, env);
    case Recv(PushM(r)) =>
      AlivePersists(nd, AliveMsg(r.inc, r.node, r.addr, r.meta, r.vsn), false, env);
      SuspectPersists(nd, SuspectMsg(r.inc, r.node, nd.self), env);
      DeadPersists(nd, DeadMsg(r.inc, r.node, r.node), env);
    case Announce(inc, addr, meta) =>
      AlivePersists(nd, AliveMsg(inc, nd.self, addr, meta, Some(nd.cfg.vsn)), true, env);
    case _ =>
  }

  function OwnTrack(states: seq<Node>): seq<Own> {
    seq(|states|, i requires 0 <= i < |states| => OwnOf(states[i]))
  }

  ghost predicate IsOwnTrack(owns: seq<Own>, evs: seq<Event>) {
    |owns| == |evs| + 1 && forall i :: 0 <= i < |evs| ==> Persists(owns[i], owns[i + 1], evs[i].Quit?)
  }

  lemma RunPersists(states: seq<Node>, evs: seq<Event>, envs: seq<Env>)
    requires IsRun(states, evs, envs)
    ensures IsOwnTrack(OwnTrack(states), evs)
  {
    forall i | 0 <= i < |evs|
      ensures Persists(OwnOf(states[i]), OwnOf(states[i + 1]), evs[i].Quit?)
    {
      assert Steps(states[i], evs[i], envs[i], states[i + 1]);
      StepPersists(states[i], evs[i], envs[i]);
    }
  }

  lemma {:induction false} TrackKeepsStanding(owns: seq<Own>, evs: seq<Event>, i: nat, j: nat)
    requires IsOwnTrack(owns, evs) && i <= j < |owns|
    ensures InGoodStanding(owns[i]) && (forall t :: i <= t < j ==> !evs[t].Quit?) ==> InGoodStanding(owns[j])
    ensures Departed(owns[i]) ==> Departed(owns[j])
    ensures Reaped(owns[i]) ==> Reaped(owns[j])
    decreases j
  {
    if i < j {
      TrackKeepsStanding(owns, evs, i, j - 1);
      assert Persists(owns[j - 1], owns[j], evs[j - 1].Quit?);
    }
  }

  /**
   * Under any message sequence a member that does not call Leave keeps listing itself
   * as Alive; once it has left and is Left or Dead it never revives, and once reaped
   * it never returns.
   */
  lemma RunKeepsStanding(states: seq<Node>, evs: seq<Event>, envs: seq<Env>, i: nat, j: nat)
    requires IsRun(states, evs, envs) && i <= j < |states|
    ensures InGoodStanding(OwnOf(states[i])) && (forall t :: i <= t < j ==> !evs[t].Quit?) ==> InGoodStanding(OwnOf(states[j]))
    ensures Departed(OwnOf(states[i])) ==> Departed(OwnOf(states[j]))
    ensures Reaped(OwnOf(states[i])) ==> Reaped(OwnOf(states[j]))
  {
    RunPersists(states, evs, envs);
    TrackKeepsStanding(OwnTrack(states), evs, i, j);
  }

  /** Creation: the first draw and announcement put a member in good standing, if its callbacks admit it. */
  lemma CreationGivesStanding(self: Name, cfg: Config, meta: Meta, env: Env)
    requires !cfg.vsn.Wrong() && env.admit && env.allowed
    ensures var drawn := Step(Fresh(self, cfg), Draw, env);
      Enabled(Fresh(self, cfg), Draw, env)
      && Enabled(drawn, Announce(drawn.counter, cfg.addr, meta), env)
      && InGoodStanding(OwnOf(Step(drawn, Announce(drawn.counter, cfg.addr, meta), env)))
  {
  }

  /** Leave, when nothing comes in between, ends with the member recording itself as Left. */
  lemma LeaveEndsInLeft(nd: Node, env: Env)
    requires InGoodStanding(OwnOf(nd))
    ensures var q := Step(nd, Quit, env);
      var inc := q.table[q.self].inc;
      var o := OwnOf(Receive(Step(q, Farewell(inc), env), DeadM(DeadMsg(inc, q.self, q.self)), env));
      Enabled(q, Farewell(inc), env) && Departed(o) && o.entry.Some? && o.entry.value.status.Left?
  {
  }

  /** Otherwise it does exactly when the own incarnation has not grown past the one that was read. */
  lemma FarewellTakesEffectIff(nd: Node, inc: Uint32, env: Env)
    requires nd.left && nd.self in nd.table && nd.table[nd.self].status.Alive?
    ensures var r := Receive(nd, DeadM(DeadMsg(inc, nd.self, nd.self)), env);
      nd.self in r.table && (r.table[nd.self].status.Left? <==> nd.table[nd.self].inc <= inc)
      && (nd.table[nd.self].inc > inc ==> r.table == nd.table)
  {
  }

  /** It can grow: an accusation that arrives between reading and applying is refuted even by a member that is leaving. */
  lemma RefutedInBetween(nd: Node, s: SuspectMsg, env: Env)
    requires Well(nd) && nd.left && nd.self in nd.table && nd.table[nd.self].status.Alive?
    requires s.node == nd.self && s.inc == nd.table[nd.self].inc <= nd.counter && nd.counter + 1 < UINT32_SIZE
    ensures var mid := Receive(nd, SuspectM(s), env);
      var r := Receive(mid, DeadM(DeadMsg(s.inc, nd.self, nd.self)), env);
      nd.self in r.table && r.table[nd.self].status.Alive? && r.left
  {
    assert nd.self !in nd.timers;
  }

  // ------------------------------------------------------------------ merging

  /** Rows of a table, in any order and with any repetition. */
  ghost predicate RowsOf(rows: seq<PushState>, table: map<Name, Entry>) {
    forall i :: 0 <= i < |rows| ==> rows[i].node in table && rows[i] == PushOf(rows[i].node, table[rows[i].node])
  }

  lemma OwnRowIsIgnored(nd: Node, x: Name, env: Env)
    requires Well(nd) && x in nd.table
    ensures var r := MergeOne(nd, PushOf(x, nd.table[x]), env);
      r.table == nd.table && r.order == nd.order && r.counter == nd.counter
  {
    assert x in nd.timers <==> IsSuspect(nd.table, x);
  }

  /** Merging a member's own table back changes no entry, no list position and no incarnation. */
  lemma {:induction false} OwnTableIsIgnored(nd: Node, rows: seq<PushState>, envs: seq<Env>)
    requires Well(nd) && |envs| == |rows| && RowsOf(rows, nd.table)
    ensures var r := MergeState(nd, rows, envs);
      Well(r) && r.table == nd.table && r.order == nd.order && r.counter == nd.counter && r.timers.Keys == nd.timers.Keys
  {
    if rows == [] {
    } else {
      var n := |rows| - 1;
      OwnTableIsIgnored(nd, rows[..n], envs[..n]);
      var mid := MergeState(nd, rows[..n], envs[..n]);
      OwnRowIsIgnored(mid, rows[n].node, envs[n]);
      ReceiveKeepsWell(mid, PushM(rows[n]), envs[n]);
      SameTimers(nd, MergeOne(mid, rows[n], envs[n]));
    }
  }

  lemma SameTimers(nd: Node, r: Node)
    requires Well(nd) && Well(r) && r.table == nd.table
    ensures r.timers.Keys == nd.timers.Keys
  {
    assert forall x :: x in r.timers <==> x in nd.timers;
  }

  lemma AliveNeverBuries(nd: Node, a: AliveMsg, env: Env, x: Name)
    requires x in nd.table && !nd.table[x].status.Dead?
    ensures var r := AliveNode(nd, a, false, env); x in r.table && !r.table[x].status.Dead?
  {
  }

  lemma FarewellNeverBuries(nd: Node, inc: Uint32, node: Name, env: Env, x: Name)
    requires x in nd.table && !nd.table[x].status.Dead?
    ensures var r := DeadNode(nd, DeadMsg(inc, node, node), env); x in r.table && !r.table[x].status.Dead?
  {
  }

  lemma SuspectNeverBuries(nd: Node, s: SuspectMsg, env: Env, x: Name)
    requires x in nd.table && !nd.table[x].status.Dead?
    ensures var r := SuspectNode(nd, s, env); x in r.table && !r.table[x].status.Dead?
  {
  }

  lemma MergeOneNeverBuries(nd: Node, row: PushState, env: Env, x: Name)
    requires x in nd.table && !nd.table[x].status.Dead?
    ensures var r := MergeOne(nd, row, env); x in r.table && !r.table[x].status.Dead?
  {
    match row.status {
      case Alive => AliveNeverBuries(nd, AliveMsg(row.inc, row.node, row.addr, row.meta, row.vsn), env, x);
      case Left => FarewellNeverBuries(nd, row.inc, row.node, env, x);
      case _ => SuspectNeverBuries(nd, SuspectMsg(row.inc, row.node, nd.self), env, x);
    }
  }

  /** No received table, whatever it claims, turns a listed member Dead. */
  lemma {:induction false} MergeNeverBuries(nd: Node, rows: seq<PushState>, envs: seq<Env>, x: Name)
    requires |envs| == |rows| && x in nd.table && !nd.table[x].status.Dead?
    ensures var r := MergeState(nd, rows, envs); x in r.table && !r.table[x].status.Dead?
  {
    if rows != [] {
      var n := |rows| - 1;
      MergeNeverBuries(nd, rows[..n], envs[..n], x);
      MergeOneNeverBuries(MergeState(nd, rows[..n], envs[..n]), rows[n], envs[n], x);
    }
  }

  // -------------------------------------------------------------- round robin

  /** The list and the place the probe has reached in it. */
  datatype Lap = Lap(order: seq<Name>, probe: nat)

  function LapOf(nd: Node): Lap {
    Lap(nd.order, nd.probe)
  }

  /** x is at the probe index or beyond it. */
  ghost predicate Ahead(l: Lap, x: Name) {
    exists i :: l.probe <= i < |l.order| && l.order[i] == x
  }

  predicate LooksAt(l: Lap, ev: Event, x: Name) {
    ev.Consider? && l.probe < |l.order| && l.order[l.probe] == x
  }

  /** Nobody ahead of the probe is passed over. */
  ghost predicate PassesNobody(l: Lap, ev: Event, l2: Lap) {
    forall x :: Ahead(l, x) ==> Ahead(l2, x) || LooksAt(l, ev, x)
  }

  /** A newcomer swapped in anywhere pushes nobody behind the probe index. */
  lemma InsertKeepsAhead(order: seq<Name>, y: Name, rnd: nat, p: nat, x: Name)
    requires Ahead(Lap(order, p), x)
    ensures Ahead(Lap(InsertAt(order, y, rnd), p), x)
  {
    var i :| p <= i < |order| && order[i] == x;
    var r, k := InsertAt(order, y, rnd), RandomOffset(|order|, rnd);
    assert r[if i == k then |order| else i] == x;
  }

  lemma ReceiveOrder(nd: Node, m: Msg, env: Env)
    ensures var r := Receive(nd, m, env); r.order == nd.order || exists y :: r.order == InsertAt(nd.order, y, env.rnd)
  {
  }

  lemma StepPassesNobody(nd: Node, ev: Event, env: Env)
    requires !ev.Reset? && !ev.Rewind?
    ensures PassesNobody(LapOf(nd), ev, LapOf(Step(nd, ev, env)))
  {
    var r := Step(nd, ev, env);
    forall x | Ahead(LapOf(nd), x) ensures Ahead(LapOf(r), x) || LooksAt(LapOf(nd), ev, x) {
      var i :| nd.probe <= i < |nd.order| && nd.order[i] == x;
      if r.order == nd.order {
        assert r.probe <= i ==> r.order[i] == x;
      } else if ev.Recv? {
        ReceiveOrder(nd, ev.m, env);
        var y :| r.order == InsertAt(nd.order, y, env.rnd);
        InsertKeepsAhead(nd.order, y, env.rnd, nd.probe, x);
      } else {
        InsertKeepsAhead(nd.order, nd.self, env.rnd, nd.probe, x);
      }
    }
  }

  function LapTrack(states: seq<Node>): seq<Lap> {
    seq(|states|, i requires 0 <= i < |states| => LapOf(states[i]))
  }

  /** No reset and no rewind between i and j. */
  predicate OneRound(evs: seq<Event>, i: nat, j: nat)
    requires j <= |evs|
  {
    forall t :: i <= t < j ==> !evs[t].Reset? && !evs[t].Rewind?
  }

  lemma {:induction false} AheadUntilLookedAt(laps: seq<Lap>, evs: seq<Event>, i: nat, j: nat, x: Name)
    requires i <= j < |laps| && j <= |evs|
    requires forall t :: i <= t < j ==> PassesNobody(laps[t], evs[t], laps[t + 1])
    requires Ahead(laps[i], x)
    ensures Ahead(laps[j], x) || exists t :: i <= t < j && LooksAt(laps[t], evs[t], x)
    decreases j
  {
    if i < j {
      AheadUntilLookedAt(laps, evs, i, j - 1, x);
      assert PassesNobody(laps[j - 1], evs[j - 1], laps[j]);
    }
  }

  /**
   * One round: from a probe index of 0 until it reaches the end of the list, with no
   * reset between, everyone listed at the start is considered, whoever joins meanwhile.
   */
  lemma RoundConsidersEveryone(states: seq<Node>, evs: seq<Event>, envs: seq<Env>, i: nat, j: nat, x: Name)
    requires IsRun(states, evs, envs) && i <= j < |states| && OneRound(evs, i, j)
    requires states[i].probe == 0 && |states[j].order| <= states[j].probe
    requires x in states[i].table
    ensures exists t :: i <= t < j && LooksAt(LapOf(states[t]), evs[t], x)
  {
    var laps := LapTrack(states);
    RunKeepsWell(states, evs, envs, i);
    assert x in Elements(states[i].order);
    forall t | i <= t < j ensures PassesNobody(laps[t], evs[t], laps[t + 1]) {
      assert Steps(states[t], evs[t], envs[t], states[t + 1]);
      StepPassesNobody(states[t], evs[t], envs[t]);
    }
    AheadUntilLookedAt(laps, evs, i, j, x);
    var t :| i <= t < j && LooksAt(laps[t], evs[t], x);
    assert LooksAt(LapOf(states[t]), evs[t], x);
  }
}
