/** The life of one table entry over whole runs of a member: override order and suspicion timeouts. */
module Lifetimes {
  import opened Base
  import opened SuspicionTimer
  import opened Protocol
  import opened NodeRuns

  // --------------------------------------------------------------------- runs

  ghost predicate IsRun(states: seq<Node>, evs: seq<Event>, envs: seq<Env>) {
    && |states| == |evs| + 1 == |envs| + 1
    && Well(states[0])
    && forall i :: 0 <= i < |evs| ==> Steps(states[i], evs[i], envs[i], states[i + 1])
  }

  /** Agreement of list, table and timers holds in every state of every run. */
  lemma {:induction false} RunKeepsWell(states: seq<Node>, evs: seq<Event>, envs: seq<Env>, i: nat)
    requires IsRun(states, evs, envs) && i < |states|
    ensures Well(states[i]) && states[i].self == states[0].self && states[i].cfg == states[0].cfg
  {
    if i > 0 {
      RunKeepsWell(states, evs, envs, i - 1);
      StepKeepsWell(states[i - 1], evs[i - 1], envs[i - 1]);
      StepKeepsIdentity(states[i - 1], evs[i - 1], envs[i - 1]);
    }
  }

  // ------------------------------------------------------------------- tracks

  /** The entry of one member in each state of a run. */
  type Track = seq<Option<Entry>>

  ghost predicate IsTrack(own: bool, track: Track, nows: seq<int>) {
    && |track| == |nows| + 1
    && forall i :: 0 <= i < |nows| ==> Evolves(own, track[i], track[i + 1], nows[i])
  }

  function TrackOf(states: seq<Node>, x: Name): Track {
    seq(|states|, i requires 0 <= i < |states| => At(states[i], x))
  }

  function Nows(envs: seq<Env>): seq<int> {
    seq(|envs|, i requires 0 <= i < |envs| => envs[i].now)
  }

  lemma RunTracks(states: seq<Node>, evs: seq<Event>, envs: seq<Env>, x: Name)
    requires IsRun(states, evs, envs)
    ensures IsTrack(x == states[0].self, TrackOf(states, x), Nows(envs))
  {
    forall i | 0 <= i < |envs|
      ensures Evolves(x == states[0].self, At(states[i], x), At(states[i + 1], x), envs[i].now)
    {
      assert Steps(states[i], evs[i], envs[i], states[i + 1]);
      RunKeepsWell(states, evs, envs, i);
      StepEvolves(states[i], evs[i], envs[i], x);
    }
  }

  /** Neither dropped nor readdressed between i and j. */
  ghost predicate Stays(track: Track, i: nat, j: nat)
    requires i <= j < |track|
  {
    track[i].Some? && forall t :: i <= t <= j ==> track[t].Some? && track[t].value.addr == track[i].value.addr
  }

  /** The very same entry in every state between i and j. */
  ghost predicate Constant(track: Track, i: nat, j: nat)
    requires i <= j < |track|
  {
    track[i].Some? && forall t :: i <= t <= j ==> track[t] == track[i]
  }

  lemma {:induction false} TrackClimbs(track: Track, nows: seq<int>, i: nat, j: nat)
    requires IsTrack(false, track, nows) && i <= j < |track| && Stays(track, i, j)
    ensures AtMost(track[i].value, track[j].value)
    decreases j
  {
    if i < j {
      assert Evolves(false, track[j - 1], track[j], nows[j - 1]);
      TrackClimbs(track, nows, i, j - 1);
    }
  }

  /** While a peer is neither reaped nor readdressed, its entry only climbs SWIM's override order. */
  lemma RunOverrides(states: seq<Node>, evs: seq<Event>, envs: seq<Env>, x: Name, i: nat, j: nat)
    requires IsRun(states, evs, envs) && x != states[0].self
    requires i <= j < |states| && Stays(TrackOf(states, x), i, j)
    ensures x in states[i].table && x in states[j].table && AtMost(states[i].table[x], states[j].table[x])
  {
    RunTracks(states, evs, envs, x);
    TrackClimbs(TrackOf(states, x), Nows(envs), i, j);
  }

  /** A peer that was Dead or Left is Alive or Suspect again only under a newer incarnation. */
  lemma RevivalNeedsNewerIncarnation(states: seq<Node>, evs: seq<Event>, envs: seq<Env>, x: Name, i: nat, j: nat)
    requires IsRun(states, evs, envs) && x != states[0].self
    requires i <= j < |states| && Stays(TrackOf(states, x), i, j)
    requires x in states[i].table && states[i].table[x].status.DeadOrLeft()
    requires x in states[j].table && !states[j].table[x].status.DeadOrLeft()
    ensures states[i].table[x].inc < states[j].table[x].inc
  {
    RunOverrides(states, evs, envs, x, i, j);
  }

  // ------------------------------------------------------------------- clocks

  /** No two steps read the same clock value, and none reads the stamp the run began with. */
  ghost predicate IsTimed(track: Track, nows: seq<int>) {
    && track != []
    && NoDup(nows)
    && (track[0].Some? ==> track[0].value.change !in nows)
  }

  ghost predicate Stamped(o: Option<Entry>, c: int) {
    o.Some? && o.value.change == c
  }

  /** A stamp was read by an earlier step, or was there to begin with. */
  lemma {:induction false} StampsWereRead(own: bool, track: Track, nows: seq<int>, c: int, i: nat)
    requires IsTrack(own, track, nows) && i < |track| && c != 0 && Stamped(track[i], c)
    ensures Stamped(track[0], c) || c in nows[..i]
  {
    if i > 0 {
      assert Evolves(own, track[i - 1], track[i], nows[i - 1]);
      assert nows[..i] == nows[..i - 1] + [nows[i - 1]];
      if c != nows[i - 1] {
        StampsWereRead(own, track, nows, c, i - 1);
      }
    }
  }

  /** So no later step reads it. */
  lemma StampsAreNotReadAgain(own: bool, track: Track, nows: seq<int>, c: int, i: nat, t: nat)
    requires IsTrack(own, track, nows) && IsTimed(track, nows)
    requires i <= t < |nows| && c != 0 && Stamped(track[i], c)
    ensures nows[t] != c
  {
    StampsWereRead(own, track, nows, c, i);
  }

  /** A stamp that is gone never comes back, so a stamp still there was never gone. */
  lemma {:induction false} StampsDoNotReturn(own: bool, track: Track, nows: seq<int>, c: int, i: nat, t: nat, j: nat)
    requires IsTrack(own, track, nows) && IsTimed(track, nows)
    requires i <= t <= j < |track| && c != 0 && Stamped(track[i], c) && Stamped(track[j], c)
    ensures Stamped(track[t], c)
    decreases j - t
  {
    if t < j {
      StampsDoNotReturn(own, track, nows, c, i, t + 1, j);
      StampsAreNotReadAgain(own, track, nows, c, i, t);
      assert Evolves(own, track[t], track[t + 1], nows[t]);
    }
  }

  /** If a suspicion's stamp is still there, the entry has not changed since it began. */
  lemma {:induction false} SuspectSinceBegan(track: Track, nows: seq<int>, i: nat, j: nat)
    requires IsTrack(false, track, nows) && IsTimed(track, nows) && i <= j < |track|
    requires track[i].Some? && track[i].value.status.Suspect? && track[i].value.change != 0
    requires Stamped(track[j], track[i].value.change)
    ensures Constant(track, i, j)
    decreases j
  {
    if i < j {
      var c := track[i].value.change;
      StampsDoNotReturn(false, track, nows, c, i, j - 1, j);
      SuspectSinceBegan(track, nows, i, j - 1);
      StampsAreNotReadAgain(false, track, nows, c, i, j - 1);
      assert Evolves(false, track[j - 1], track[j], nows[j - 1]);
    }
  }

  /** An entry that climbed without a net change did not change at all on the way. */
  lemma NoRoundTrip(track: Track, nows: seq<int>, i: nat, j: nat)
    requires IsTrack(false, track, nows) && i <= j < |track| && Stays(track, i, j)
    requires track[i] == track[j]
    ensures Constant(track, i, j)
  {
    forall t | i <= t <= j ensures track[t] == track[i] {
      TrackClimbs(track, nows, i, t);
      TrackClimbs(track[t..], nows[t..], 0, j - t);
    }
  }

  // ----------------------------------------------------------------- timeouts

  /** The suspicion of x begun in state i is found due in state j and its verdict takes effect in step k. */
  ghost predicate TimesOut(states: seq<Node>, evs: seq<Event>, x: Name, i: nat, j: nat, k: nat)
    requires |states| == |evs| + 1 && i <= j <= k < |evs|
  {
    && IsSuspect(states[i].table, x)
    && states[i].table[x].change != 0
    && TimeoutDue(states[j], x, states[i].table[x].change).Some?
    && evs[k] == Recv(DeadM(TimeoutDue(states[j], x, states[i].table[x].change).value))
    && x in states[k].table && !states[k].table[x].status.DeadOrLeft()
    && x in states[k + 1].table && states[k + 1].table[x].status.DeadOrLeft()
  }

  /**
   * The callback drops the lock between finding a suspicion due and acting on it.
   * A verdict that takes effect buries a peer that was suspected without a break,
   * exactly when the peer was neither reaped nor readdressed in that gap.
   */
  lemma TimeoutBuriesTheSuspectedIff(states: seq<Node>, evs: seq<Event>, envs: seq<Env>, x: Name, i: nat, j: nat, k: nat)
    requires IsRun(states, evs, envs) && x != states[0].self
    requires IsTimed(TrackOf(states, x), Nows(envs))
    requires i <= j <= k < |evs| && TimesOut(states, evs, x, i, j, k)
    ensures Constant(TrackOf(states, x), i, k) <==> Stays(TrackOf(states, x), j, k)
    ensures Constant(TrackOf(states, x), i, j)
    ensures states[k + 1].table[x].status.Dead?
  {
    var track := TrackOf(states, x);
    RunTracks(states, evs, envs, x);
    SuspectSinceBegan(track, Nows(envs), i, j);
    RunKeepsWell(states, evs, envs, j);
    RunKeepsWell(states, evs, envs, k);
    VerdictMatches(states[k], states[j], x, states[i].table[x].change, envs[k]);
    if Stays(track, j, k) {
      TrackClimbs(track, Nows(envs), j, k);
      NoRoundTrip(track, Nows(envs), j, k);
    }
  }

  lemma VerdictMatches(nd: Node, checked: Node, x: Name, began: int, env: Env)
    requires x != nd.self == checked.self && TimeoutDue(checked, x, began).Some?
    requires x in nd.table && !nd.table[x].status.DeadOrLeft()
    requires var n2 := Receive(nd, DeadM(TimeoutDue(checked, x, began).value), env);
      x in n2.table && n2.table[x].status.DeadOrLeft()
    ensures nd.table[x].inc <= checked.table[x].inc
    ensures Receive(nd, DeadM(TimeoutDue(checked, x, began).value), env).table[x].status.Dead?
  {
  }

  // A run in which the gap matters, from creation on.

  const GAP_VERSIONS := Versions(1, 5, 2, 2, 5, 4)

  function GapSelf(): Entry {
    Entry("here", [], GAP_VERSIONS, 1, Alive, 2)
  }

  function GapEntry(inc: Uint32, status: Status, change: int): Entry {
    Entry("there", [], NO_VERSIONS, inc, status, change)
  }

  /** The member that lists itself, and x if there is an entry for it. */
  function GapNode(x: Option<Entry>, timers: map<Name, Tally>, said: seq<Msg>): Node {
    Node("me", Config("here", GAP_VERSIONS, false, 0, 0, 4), 1, false,
         if x.Some? then ["x", "me"] else ["me"],
         if x.Some? then map["me" := GapSelf(), "x" := x.value] else map["me" := GapSelf()],
         timers, 0, said)
  }

  /** Draw, announce; x is heard, suspected and found due; declared dead by another, reaped, heard again; the verdict. */
  function GapEvents(): seq<Event> {
    [Draw, Announce(1, "here", []),
     Recv(AliveM(AliveMsg(5, "x", "there", [], None))), Recv(SuspectM(SuspectMsg(5, "x", "z"))), Check("x", 10),
     Recv(DeadM(DeadMsg(5, "x", "z"))), Reset(["me"]),
     Recv(AliveM(AliveMsg(3, "x", "there", [], None))), Recv(DeadM(DeadMsg(5, "x", "me")))]
  }

  function GapTimes(): seq<int> {
    [1, 2, 3, 10, 15, 20, 30, 40, 50]
  }

  function GapEnvs(): seq<Env> {
    seq(9, i requires 0 <= i < 9 => GapEnv(GapTimes()[i]))
  }

  /** What the member has said after announcing itself and i further messages. */
  function GapSaid(i: nat): seq<Msg>
    requires i <= 6
  {
    var evs := GapEvents();
    [AliveM(AliveMsg(1, "me", "here", [], Some(GAP_VERSIONS))),
     evs[2].m, evs[3].m, evs[8].m, evs[5].m, evs[7].m, evs[8].m][..i + 1]
  }

  function GapStates(): seq<Node> {
    var fresh0 := Fresh("me", Config("here", GAP_VERSIONS, false, 0, 0, 4));
    var timers := map["x" := NewTally("z", 0)];
    [fresh0, fresh0.(counter := 1),
     GapNode(None, map[], GapSaid(0)),
     GapNode(Some(GapEntry(5, Alive, 3)), map[], GapSaid(1)),
     GapNode(Some(GapEntry(5, Suspect, 10)), timers, GapSaid(2)),
     GapNode(Some(GapEntry(5, Suspect, 10)), timers, GapSaid(3)),
     GapNode(Some(GapEntry(5, Dead, 20)), map[], GapSaid(4)),
     GapNode(None, map[], GapSaid(4)),
     GapNode(Some(GapEntry(3, Alive, 40)), map[], GapSaid(5)),
     GapNode(Some(GapEntry(5, Dead, 50)), map[], GapSaid(6))]
  }

  function GapEnv(now: int): Env {
    Env(now, 0, true, true, 0)
  }

  lemma GapAnnounce(nd: Node)
    requires nd == GapStates()[1]
    ensures Step(nd, Announce(1, "here", []), GapEnv(2)) == GapNode(None, map[], GapSaid(0))
  {
    var r, s := Step(nd, Announce(1, "here", []), GapEnv(2)), GapNode(None, map[], GapSaid(0));
    assert InsertAt([], "me", 0) == ["me"];
    assert r.table == s.table && r.timers == s.timers;
  }

  lemma GapHears(said: seq<Msg>, inc: Uint32, now: int)
    requires 0 < inc
    ensures var a := AliveMsg(inc, "x", "there", [], None);
      AliveNode(GapNode(None, map[], said), a, false, GapEnv(now)) ==
      GapNode(Some(GapEntry(inc, Alive, now)), map[], said + [AliveM(a)])
  {
    var a := AliveMsg(inc, "x", "there", [], None);
    var r := AliveNode(GapNode(None, map[], said), a, false, GapEnv(now));
    assert InsertAt(["me"], "x", 0) == ["x", "me"];
    assert r.table == map["me" := GapSelf(), "x" := GapEntry(inc, Alive, now)];
    assert r.timers == map[];
  }

  lemma GapSuspects(said: seq<Msg>)
    ensures var s := SuspectMsg(5, "x", "z");
      SuspectNode(GapNode(Some(GapEntry(5, Alive, 3)), map[], said), s, GapEnv(10)) ==
      GapNode(Some(GapEntry(5, Suspect, 10)), map["x" := NewTally("z", 0)], said + [SuspectM(s)])
  {
    var r := SuspectNode(GapNode(Some(GapEntry(5, Alive, 3)), map[], said), SuspectMsg(5, "x", "z"), GapEnv(10));
    assert r.table == map["me" := GapSelf(), "x" := GapEntry(5, Suspect, 10)];
  }

  lemma GapBuries(e: Entry, timers: map<Name, Tally>, said: seq<Msg>, from: Name, now: int)
    requires e == GapEntry(e.inc, e.status, e.change) && e.inc <= 5 && !e.status.DeadOrLeft() && from != "x"
    requires timers.Keys <= {"x"}
    ensures var d := DeadMsg(5, "x", from);
      DeadNode(GapNode(Some(e), timers, said), d, GapEnv(now)) ==
      GapNode(Some(GapEntry(5, Dead, now)), map[], said + [DeadM(d)])
  {
    var r := DeadNode(GapNode(Some(e), timers, said), DeadMsg(5, "x", from), GapEnv(now));
    assert r.table == map["me" := GapSelf(), "x" := GapEntry(5, Dead, now)];
    assert r.timers == map[];
  }

  lemma GapReaps(said: seq<Msg>)
    ensures var nd := GapNode(Some(GapEntry(5, Dead, 20)), map[], said);
      IsShuffle(nd, 30, ["me"]) && Reap(nd, 30, ["me"]) == GapNode(None, map[], said)
  {
    var nd := GapNode(Some(GapEntry(5, Dead, 20)), map[], said);
    assert nd.table.Keys == {"me", "x"} && Gone(nd, 30) == {"x"} && Elements(["me"]) == {"me"};
    assert Reap(nd, 30, ["me"]).table == map["me" := GapSelf()];
  }

  lemma GapSays(i: nat)
    requires i < 6
    ensures GapSaid(i + 1) == GapSaid(i) + [[GapEvents()[2].m, GapEvents()[3].m, GapEvents()[8].m,
                                            GapEvents()[5].m, GapEvents()[7].m, GapEvents()[8].m][i]]
  {
  }

  ghost predicate StepIs(states: seq<Node>, evs: seq<Event>, envs: seq<Env>, i: nat)
    requires i < |evs| == |envs| && |states| == |evs| + 1
  {
    Steps(states[i], evs[i], envs[i], states[i + 1])
  }

  ghost predicate GapStepIs(i: nat)
    requires i < 9
  {
    StepIs(GapStates(), GapEvents(), GapEnvs(), i)
  }

  lemma GapBegins()
    ensures GapStepIs(0) && GapStepIs(1)
  {
    GapAnnounce(GapStates()[1]);
  }

  lemma GapMeets()
    ensures GapStepIs(2)
  {
    GapHears(GapSaid(0), 5, 3);
    GapSays(0);
  }

  lemma GapAccuses()
    ensures GapStepIs(3) && GapStepIs(4)
  {
    GapSuspects(GapSaid(1));
    GapSays(1);
    GapSays(2);
  }

  lemma GapForgets()
    ensures GapStepIs(5) && GapStepIs(6)
  {
    GapBuries(GapEntry(5, Suspect, 10), map["x" := NewTally("z", 0)], GapSaid(3), "z", 20);
    GapSays(3);
    GapReaps(GapSaid(4));
  }

  lemma GapEnds()
    ensures GapStepIs(7) && GapStepIs(8)
  {
    GapHears(GapSaid(4), 3, 40);
    GapSays(4);
    GapBuries(GapEntry(3, Alive, 40), map[], GapSaid(5), "me", 50);
    GapSays(5);
  }

  lemma GapStep(i: nat)
    requires i < 9
    ensures GapStepIs(i)
  {
    if i == 0 || i == 1 {
      GapBegins();
    } else if i == 2 {
      GapMeets();
    } else if i == 3 || i == 4 {
      GapAccuses();
    } else if i == 5 || i == 6 {
      GapForgets();
    } else {
      GapEnds();
    }
  }

  lemma GapIsRun()
    ensures IsRun(GapStates(), GapEvents(), GapEnvs())
  {
    forall i | 0 <= i < 9 ensures Steps(GapStates()[i], GapEvents()[i], GapEnvs()[i], GapStates()[i + 1]) {
      GapStep(i);
    }
  }

  lemma GapIsTimed()
    ensures IsTimed(TrackOf(GapStates(), "x"), Nows(GapEnvs()))
  {
    assert Nows(GapEnvs()) == GapTimes();
  }

  /**
   * The gap is real: in a run from creation on, a peer found due, then declared dead by someone
   * else, reaped, and heard alive again under an older incarnation, is buried by the stale verdict.
   */
  lemma ReapedInTheGap()
    ensures IsRun(GapStates(), GapEvents(), GapEnvs())
    ensures GapStates()[0] == Fresh("me", GapStates()[0].cfg) && !GapStates()[0].cfg.vsn.Wrong()
    ensures IsTimed(TrackOf(GapStates(), "x"), Nows(GapEnvs()))
    ensures TimesOut(GapStates(), GapEvents(), "x", 4, 4, 8)
    ensures At(GapStates()[8], "x").Some? && At(GapStates()[8], "x").value.status.Alive?
    ensures !Stays(TrackOf(GapStates(), "x"), 4, 8)
  {
    GapIsRun();
    GapIsTimed();
    assert TrackOf(GapStates(), "x")[7] == None;
  }
}
