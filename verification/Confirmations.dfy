/** How a suspicion's timer is confirmed over whole runs of a member. */
module Confirmations {
  import opened Base
  import opened SuspicionTimer
  import opened Protocol
  import opened NodeRuns
  import opened Lifetimes
  import opened Effects

  // ---------------------------------------------------- confirmations over whole runs

  /** The accusation in an event: a message, or a row that says Suspect or Dead, which is taken as one's own. */
  function AccusationIn(nd: Node, ev: Event): Option<SuspectMsg> {
    match ev
    case Recv(SuspectM(s)) => Some(s)
    case Recv(PushM(r)) =>
      if r.status == Suspect || r.status == Dead then Some(SuspectMsg(r.inc, r.node, nd.self)) else None
    case _ => None
  }

  /** The event accuses x, and the accusation is not stale. */
  predicate Counts(nd: Node, ev: Event, x: Name) {
    var o := AccusationIn(nd, ev);
    o.Some? && o.value.node == x && Current(nd, x, o.value.inc)
  }

  /** The confirmations a suspicion that begins now waits for. */
  function Awaited(nd: Node): int {
    if nd.cfg.suspicionMult <= |nd.order| then nd.cfg.suspicionMult - 2 else 0
  }

  lemma AliveKeepsTallies(nd: Node, a: AliveMsg, bootstrap: bool, env: Env)
    ensures var r := AliveNode(nd, a, bootstrap, env); r.timers == nd.timers || r.timers == nd.timers - {a.node}
  {
  }

  lemma DeadKeepsTallies(nd: Node, d: DeadMsg, env: Env)
    ensures var r := DeadNode(nd, d, env); r.timers == nd.timers || r.timers == nd.timers - {d.node}
  {
  }

  lemma SuspectTallies(nd: Node, s: SuspectMsg, env: Env, x: Name)
    ensures var r := SuspectNode(nd, s, env);
      var accused := s.node == x && Current(nd, x, s.inc);
      && (x in nd.timers ==> x in r.timers)
      && (x in nd.timers ==> r.timers[x] == if accused then Confirmed(nd.timers[x], s.from) else nd.timers[x])
      && (x !in nd.timers && x in r.timers ==> accused && r.timers[x] == Tally(Awaited(nd), 0, {s.from}))
  {
  }

  /** What a step does to a timer: a counted accusation confirms it, nothing else changes it, and only one starts it. */
  ghost predicate Tallies(nd: Node, ev: Event, r: Node, x: Name) {
    && (x in nd.timers && x in r.timers ==>
          r.timers[x] == if Counts(nd, ev, x) then Confirmed(nd.timers[x], AccusationIn(nd, ev).value.from) else nd.timers[x])
    && (x !in nd.timers && x in r.timers ==>
          Counts(nd, ev, x) && r.timers[x] == Tally(Awaited(nd), 0, {AccusationIn(nd, ev).value.from}))
  }

  lemma ReceiveTallies(nd: Node, m: Msg, env: Env, x: Name)
    ensures Tallies(nd, Recv(m), Receive(nd, m, env), x)
  {
    match m
    case AliveM(a) => AliveKeepsTallies(nd, a, false, env);
    case SuspectM(s) => SuspectTallies(nd, s, env, x);
    case DeadM(d) => DeadKeepsTallies(nd, d, env);
    case PushM(r) =>
      match r.status {
        case Alive => AliveKeepsTallies(nd, AliveMsg(r.inc, r.node, r.addr, r.meta, r.vsn), false, env);
        case Left => DeadKeepsTallies(nd, DeadMsg(r.inc, r.node, r.node), env);
        case _ => SuspectTallies(nd, SuspectMsg(r.inc, r.node, nd.self), env, x);
      }
  }

  lemma StepTallies(nd: Node, ev: Event, env: Env, x: Name)
    ensures Tallies(nd, ev, Step(nd, ev, env), x)
  {
    match ev
    case Recv(m) => ReceiveTallies(nd, m, env, x);
    case Announce(inc, addr, meta) =>
      AliveKeepsTallies(nd, AliveMsg(inc, nd.self, addr, meta, Some(nd.cfg.vsn)), true, env);
    case _ =>
  }

  /** x's suspicion begins in step b and lasts until j. */
  ghost predicate Lasts(states: seq<Node>, x: Name, b: nat, j: nat) {
    b < j < |states| && x !in states[b].timers && forall t :: b < t <= j ==> x in states[t].timers
  }

  // The timer and the counted accuser of one member, step by step.

  function TallyAt(nd: Node, x: Name): Option<Tally> {
    if x in nd.timers then Some(nd.timers[x]) else None
  }

  function AccuserIn(nd: Node, ev: Event, x: Name): Option<Name> {
    if Counts(nd, ev, x) then Some(AccusationIn(nd, ev).value.from) else None
  }

  predicate TallyStep(o: Option<Tally>, accuser: Option<Name>, p: Option<Tally>, awaited: int) {
    && (o.Some? && p.Some? ==> p.value == if accuser.Some? then Confirmed(o.value, accuser.value) else o.value)
    && (o.None? && p.Some? ==> accuser.Some? && p.value == Tally(awaited, 0, {accuser.value}))
  }

  ghost function Named(accusers: seq<Option<Name>>, i: nat, j: nat): set<Name>
    requires j <= |accusers|
  {
    set t | i <= t < j && accusers[t].Some? :: accusers[t].value
  }

  lemma NamedGrows(accusers: seq<Option<Name>>, i: nat, j: nat)
    requires i <= j < |accusers|
    ensures Named(accusers, i, j + 1)
      == Named(accusers, i, j) + if accusers[j].Some? then {accusers[j].value} else {}
  {
  }

  /** The timer has heard the origin and those of the accusers that are somebody else. */
  ghost predicate HasHeard(t: Tally, awaited: int, origin: Name, accusers: set<Name>) {
    t.k == awaited && Heard(t, origin, accusers - {origin})
  }

  lemma HearsFirst(awaited: int, origin: Name)
    ensures HasHeard(Tally(awaited, 0, {origin}), awaited, origin, {})
  {
  }

  lemma HearsOneMore(t: Tally, awaited: int, origin: Name, accusers: set<Name>, from: Name)
    requires HasHeard(t, awaited, origin, accusers)
    ensures HasHeard(Confirmed(t, from), awaited, origin, accusers + {from})
  {
    ConfirmHeard(t, origin, accusers - {origin}, from);
    assert accusers - {origin} + ({from} - {origin}) == accusers + {from} - {origin};
  }

  lemma HearsNext(t: Tally, awaited: int, origin: Name, accusers: set<Name>, accuser: Option<Name>, r: Tally, more: set<Name>)
    requires HasHeard(t, awaited, origin, accusers)
    requires r == if accuser.Some? then Confirmed(t, accuser.value) else t
    requires more == accusers + if accuser.Some? then {accuser.value} else {}
    ensures HasHeard(r, awaited, origin, more)
  {
    if accuser.Some? {
      HearsOneMore(t, awaited, origin, accusers, accuser.value);
    } else {
      assert more == accusers;
    }
  }

  /** From None in b on, the track is a timer until j. */
  ghost predicate Ticks(track: seq<Option<Tally>>, accusers: seq<Option<Name>>, awaited: int, b: nat, j: nat) {
    && b < j < |track| && j <= |accusers| && track[b].None? && (forall t :: b < t <= j ==> track[t].Some?)
    && forall t :: b <= t < j ==> TallyStep(track[t], accusers[t], track[t + 1], awaited)
  }

  lemma {:induction false} TrackHears(track: seq<Option<Tally>>, accusers: seq<Option<Name>>, awaited: int, b: nat, j: nat)
    requires Ticks(track, accusers, awaited, b, j)
    ensures accusers[b].Some? && HasHeard(track[j].value, awaited, accusers[b].value, Named(accusers, b + 1, j))
  {
    if j == b + 1 {
      assert Named(accusers, b + 1, j) == {};
      assert TallyStep(track[b], accusers[b], track[b + 1], awaited);
      HearsFirst(awaited, accusers[b].value);
    } else {
      TrackHears(track, accusers, awaited, b, j - 1);
      NamedGrows(accusers, b + 1, j - 1);
      assert TallyStep(track[j - 1], accusers[j - 1], track[j - 1 + 1], awaited);
      HearsNext(track[j - 1].value, awaited, accusers[b].value, Named(accusers, b + 1, j - 1), accusers[j - 1],
                track[j].value, Named(accusers, b + 1, j));
    }
  }

  lemma RunTallyStep(states: seq<Node>, evs: seq<Event>, envs: seq<Env>, x: Name, t: nat, awaited: int)
    requires IsRun(states, evs, envs) && t < |evs| && (x !in states[t].timers ==> awaited == Awaited(states[t]))
    ensures TallyStep(TallyAt(states[t], x), AccuserIn(states[t], evs[t], x), TallyAt(states[t + 1], x), awaited)
  {
    assert Steps(states[t], evs[t], envs[t], states[t + 1]);
    StepTallies(states[t], evs[t], envs[t], x);
  }

  function TallyTrack(states: seq<Node>, x: Name): seq<Option<Tally>> {
    seq(|states|, t requires 0 <= t < |states| => TallyAt(states[t], x))
  }

  function AccuserTrack(states: seq<Node>, evs: seq<Event>, x: Name): seq<Option<Name>>
    requires |evs| < |states|
  {
    seq(|evs|, t requires 0 <= t < |evs| => AccuserIn(states[t], evs[t], x))
  }

  lemma RunTicks(states: seq<Node>, evs: seq<Event>, envs: seq<Env>, x: Name, b: nat, j: nat)
    requires IsRun(states, evs, envs) && Lasts(states, x, b, j)
    ensures Ticks(TallyTrack(states, x), AccuserTrack(states, evs, x), Awaited(states[b]), b, j)
  {
    var track, accusers := TallyTrack(states, x), AccuserTrack(states, evs, x);
    forall t | b <= t < j ensures TallyStep(track[t], accusers[t], track[t + 1], Awaited(states[b])) {
      RunTallyStep(states, evs, envs, x, t, Awaited(states[b]));
    }
  }

  /** Who accused x in the steps from i to j. */
  ghost function Accusers(states: seq<Node>, evs: seq<Event>, x: Name, i: nat, j: nat): set<Name>
    requires j <= |evs| < |states|
  {
    Named(AccuserTrack(states, evs, x), i, j)
  }

  lemma AccusersAre(states: seq<Node>, evs: seq<Event>, x: Name, i: nat, j: nat, z: Name)
    requires j <= |evs| < |states|
    ensures z in Accusers(states, evs, x, i, j) <==>
      exists t :: i <= t < j && Counts(states[t], evs[t], x) && AccusationIn(states[t], evs[t]).value.from == z
  {
    var accusers := AccuserTrack(states, evs, x);
    if z in Accusers(states, evs, x, i, j) {
      var t :| i <= t < j && accusers[t] == Some(z);
      assert Counts(states[t], evs[t], x);
    }
    forall t | i <= t < j && Counts(states[t], evs[t], x) && AccusationIn(states[t], evs[t]).value.from == z
      ensures z in Accusers(states, evs, x, i, j)
    {
      assert accusers[t] == Some(z);
    }
  }

  lemma TicksHear(track: seq<Option<Tally>>, accusers: seq<Option<Name>>, k: int, b: nat, j: nat, t: Tally, o: Name)
    requires Ticks(track, accusers, k, b, j) && track[j] == Some(t) && (accusers[b].Some? ==> accusers[b] == Some(o))
    ensures HasHeard(t, k, o, Named(accusers, b + 1, j))
  {
    TrackHears(track, accusers, k, b, j);
  }

  lemma HeardSoMany(t: Tally, k: int, origin: Name, accusers: set<Name>)
    requires HasHeard(t, k, origin, accusers)
    ensures var others := accusers - {origin};
      && t.k == k && t.n == (if |others| <= k then |others| else if k < 0 then 0 else k)
      && (t.n < k ==> t.seen == others + {origin})
  {
    HeardCount(t, origin, accusers - {origin});
  }

  /**
   * In every run, while a suspicion lasts that o began, its timer has counted the distinct accusers, other
   * than o, whose accusations arrived since and were not stale, up to the number awaited.
   */
  lemma TimerCountsAccusers(states: seq<Node>, evs: seq<Event>, envs: seq<Env>, x: Name, b: nat, j: nat, o: Name)
    requires IsRun(states, evs, envs) && Lasts(states, x, b, j) && AccuserIn(states[b], evs[b], x) == Some(o)
    ensures var t, others := states[j].timers[x], Accusers(states, evs, x, b + 1, j) - {o};
      var k := if states[b].cfg.suspicionMult <= |states[b].order| then states[b].cfg.suspicionMult - 2 else 0;
      && t.k == k && t.n == (if |others| <= k then |others| else if k < 0 then 0 else k)
      && (t.n < k ==> t.seen == others + {o})
  {
    RunTicks(states, evs, envs, x, b, j);
    TicksHear(TallyTrack(states, x), AccuserTrack(states, evs, x), Awaited(states[b]), b, j, states[j].timers[x], o);
    HeardSoMany(states[j].timers[x], Awaited(states[b]), o, Accusers(states, evs, x, b + 1, j));
  }

  /** A suspicion begins only with an accusation that is not stale. */
  lemma SomebodyBegins(states: seq<Node>, evs: seq<Event>, envs: seq<Env>, x: Name, b: nat)
    requires IsRun(states, evs, envs) && b < |evs| && x !in states[b].timers && x in states[b + 1].timers
    ensures AccuserIn(states[b], evs[b], x).Some?
  {
    RunTallyStep(states, evs, envs, x, b, Awaited(states[b]));
  }
}
