/** The probe loop: what one call of probe does, and what every round of such calls covers. */
module Probing {
  import opened Base
  import opened SuspicionTimer
  import opened Protocol
  import opened NodeRuns
  import opened Lifetimes
  import opened Standing

  /** A message, with the circumstances it is handled in; min is the timeout the cluster size calls for. */
  datatype Letter = Letter(m: Msg, env: Env, min: int)

  /** What is handled before a turn of the probe loop, and before the reset if that turn makes one. */
  datatype Turn = Turn(before: seq<Letter>, beforeReset: seq<Letter>)

  function Receipts(mail: seq<Letter>): seq<Event> {
    seq(|mail|, i requires 0 <= i < |mail| => Recv(mail[i].m))
  }

  function Envs(mail: seq<Letter>): seq<Env> {
    seq(|mail|, i requires 0 <= i < |mail| => mail[i].env)
  }

  /** q goes on from p with these events in these circumstances. */
  predicate Adds(p: Path, q: Path, evs: seq<Event>, envs: seq<Env>) {
    q.evs == p.evs + evs && q.envs == p.envs + envs && p.states <= q.states
  }

  /** Nothing is handled in the turns beyond those given. */
  function MailOf(mail: seq<Turn>, k: nat): Turn {
    if k < |mail| then mail[k] else Turn([], [])
  }

  /** Another member that is neither Dead nor Left. */
  predicate Eligible(nd: Node, x: Name) {
    x != nd.self && x in nd.table && !nd.table[x].status.DeadOrLeft()
  }

  predicate Exhausted(nd: Node) {
    |nd.order| <= nd.probe
  }

  function Next(nd: Node): Name
    requires !Exhausted(nd)
  {
    nd.order[nd.probe]
  }

  // ---------------------------------------------------------------------- leaving

  /** The farewell that is built from the own entry as it is in nd. */
  predicate IsFarewell(d: DeadMsg, nd: Node) {
    nd.self in nd.table && d == DeadMsg(nd.table[nd.self].inc, nd.self, nd.self)
  }

  /** The farewell is built, other mail is handled, and the farewell is applied. */
  function Parting(d: DeadMsg, between: seq<Letter>): seq<Event> {
    [Farewell(d.inc)] + Receipts(between) + [Recv(DeadM(d))]
  }

  lemma PartingLast(evs: seq<Event>, d: DeadMsg, between: seq<Letter>)
    ensures evs + [Farewell(d.inc)] + Receipts(between) + [Recv(DeadM(d))] == evs + Parting(d, between)
  {
  }

  function Farewells(d: Option<DeadMsg>, between: seq<Letter>): seq<Event> {
    if d.Some? then Parting(d.value, between) else []
  }

  /**
   * What a first call of Leave does, among the given mail: it sets the flag, and then parts, with the
   * incarnation recorded at that moment, exactly if the member lists itself.
   */
  ghost predicate Leaves(p: Path, d: Option<DeadMsg>, self: Name, before: seq<Letter>, between: seq<Letter>) {
    && p.evs == [Quit] + Receipts(before) + Farewells(d, between)
    && 1 + |before| < |p.states|
    && (d.None? <==> self !in p.states[1 + |before|].table)
    && (d.Some? ==> IsFarewell(d.value, p.states[1 + |before|]))
  }

  // ----------------------------------------------------------------------- one call

  predicate Shaped(p: Path) {
    |p.states| == |p.evs| + 1 == |p.envs| + 1
  }

  /** The events of p from a on are the receipts of the mail. */
  ghost predicate Handles(p: Path, a: nat, mail: seq<Letter>)
    requires Shaped(p)
  {
    && a + |mail| <= |p.evs|
    && forall i :: 0 <= i < |mail| ==> p.evs[a + i] == Recv(mail[i].m) && p.envs[a + i] == mail[i].env
  }

  /** The mail, then a reset and a rewind, and nothing else from m to b. */
  ghost predicate Wraps(p: Path, m: nat, b: nat, mail: seq<Letter>, env: Env)
    requires Shaped(p)
  {
    && Handles(p, m, mail) && b == m + |mail| + 2 <= |p.evs|
    && p.evs[b - 2].Reset? && p.envs[b - 2] == env && p.evs[b - 1].Rewind?
  }

  /**
   * What the loop decides after k checks in the state at m: give up, reset the exhausted list, skip the
   * next member, or pick it. The events from m to b are that decision.
   */
  ghost predicate Decides(p: Path, m: nat, b: nat, mail: seq<Letter>, env: Env, k: nat, done: bool, target: Option<Name>)
    requires Shaped(p) && m <= b <= |p.evs|
  {
    var nd := p.states[m];
    if |nd.order| <= k then
      done && target.None? && b == m
    else if Exhausted(nd) then
      !done && target.None? && Wraps(p, m, b, mail, env)
    else
      && b == m + 1 && p.evs[m].Consider?
      && if Eligible(nd, Next(nd)) then done && target == Some(Next(nd)) else !done && target.None?
  }

  /** Turn k takes the events from a to b: the mail handled before it, then its decision. */
  ghost predicate TakesTurn(p: Path, t: Turn, env: Env, k: nat, a: nat, b: nat, done: bool, target: Option<Name>)
    requires Shaped(p)
  {
    && Handles(p, a, t.before) && a + |t.before| <= b <= |p.evs|
    && Decides(p, a + |t.before|, b, t.beforeReset, env, k, done, target)
  }

  /** A call of probe: its path, where its turns begin, the mail handled meanwhile, when each turn happens, and whom it picked. */
  datatype Call = Call(p: Path, marks: seq<nat>, mail: seq<Turn>, clock: nat -> Env, target: Option<Name>) {
    ghost predicate Passed(k: nat)
      requires Shaped(p) && k + 1 < |marks|
    {
      TakesTurn(p, MailOf(mail, k), clock(k), k, marks[k], marks[k + 1], false, None)
    }

    /** So far only turns that were passed. */
    ghost predicate Going() {
      && p.Valid() && marks != [] && marks[0] == 0 && marks[|marks| - 1] <= |p.evs|
      && forall k {:trigger Passed(k)} :: 0 <= k < |marks| - 1 ==> Passed(k)
    }

    /** And then the turn that ends the call. */
    ghost predicate Valid() {
      && Going()
      && TakesTurn(p, MailOf(mail, |marks| - 1), clock(|marks| - 1), |marks| - 1, marks[|marks| - 1], |p.evs|, true, target)
    }
  }

  predicate Extends(p: Path, q: Path) {
    p.evs <= q.evs && p.envs <= q.envs && p.states <= q.states
  }

  lemma HandlesLonger(p: Path, q: Path, a: nat, mail: seq<Letter>)
    requires Shaped(p) && Shaped(q) && Extends(p, q) && Handles(p, a, mail)
    ensures Handles(q, a, mail)
  {
  }

  lemma TakesTurnLonger(p: Path, q: Path, t: Turn, env: Env, k: nat, a: nat, b: nat, done: bool, target: Option<Name>)
    requires Shaped(p) && Shaped(q) && Extends(p, q) && TakesTurn(p, t, env, k, a, b, done, target)
    ensures TakesTurn(q, t, env, k, a, b, done, target)
  {
    HandlesLonger(p, q, a, t.before);
    var m := a + |t.before|;
    assert q.states[m] == p.states[m];
    if |p.states[m].order| > k && Exhausted(p.states[m]) {
      HandlesLonger(p, q, m, t.beforeReset);
    }
  }

  /** One more turn that is passed. */
  lemma OneMoreTurn(c: Call, q: Path, target: Option<Name>)
    requires c.Going() && q.Valid() && Extends(c.p, q)
    requires var n := |c.marks| - 1; TakesTurn(q, MailOf(c.mail, n), c.clock(n), n, c.marks[n], |q.evs|, false, None)
    ensures Call(q, c.marks + [|q.evs|], c.mail, c.clock, target).Going()
  {
    var d := Call(q, c.marks + [|q.evs|], c.mail, c.clock, target);
    forall k | 0 <= k < |d.marks| - 1 ensures d.Passed(k) {
      if k < |c.marks| - 1 {
        assert c.Passed(k);
        TakesTurnLonger(c.p, q, MailOf(c.mail, k), c.clock(k), k, c.marks[k], c.marks[k + 1], false, None);
      }
    }
  }

  lemma LastTurn(c: Call, q: Path, target: Option<Name>)
    requires c.Going() && q.Valid() && Extends(c.p, q)
    requires var n := |c.marks| - 1; TakesTurn(q, MailOf(c.mail, n), c.clock(n), n, c.marks[n], |q.evs|, true, target)
    ensures Call(q, c.marks, c.mail, c.clock, target).Valid()
  {
    var d := Call(q, c.marks, c.mail, c.clock, target);
    forall k | 0 <= k < |d.marks| - 1 ensures d.Passed(k) {
      assert c.Passed(k);
      TakesTurnLonger(c.p, q, MailOf(c.mail, k), c.clock(k), k, c.marks[k], c.marks[k + 1], false, None);
    }
  }

  /** The call after the turn that q adds to it. */
  ghost function NextTurn(c: Call, q: Path, done: bool, target: Option<Name>): (r: Call)
    requires c.Going() && q.Valid() && Extends(c.p, q)
    requires var n := |c.marks| - 1; TakesTurn(q, MailOf(c.mail, n), c.clock(n), n, c.marks[n], |q.evs|, done, target)
    ensures r.p == q && r.mail == c.mail && r.clock == c.clock && r.target == target
    ensures if done then r.Valid() else r.Going() && r.marks == c.marks + [|q.evs|]
  {
    if done then
      LastTurn(c, q, target);
      Call(q, c.marks, c.mail, c.clock, target)
    else
      OneMoreTurn(c, q, target);
      Call(q, c.marks + [|q.evs|], c.mail, c.clock, target)
  }

  lemma Handled(p: Path, q: Path, mail: seq<Letter>)
    requires Shaped(p) && Shaped(q) && Adds(p, q, Receipts(mail), Envs(mail))
    ensures Handles(q, |p.evs|, mail)
  {
  }

  lemma WrapDone(p: Path, mailed: Path, q: Path, mail: seq<Letter>, order: seq<Name>, env: Env)
    requires Shaped(p) && Shaped(mailed) && Shaped(q)
    requires Adds(p, mailed, Receipts(mail), Envs(mail)) && Adds(mailed, q, [Reset(order), Rewind], [env, env])
    ensures Extends(p, q) && Wraps(q, |p.evs|, |q.evs|, mail, env)
  {
    Handled(p, mailed, mail);
    HandlesLonger(mailed, q, |p.evs|, mail);
  }

  lemma WrapDecides(p: Path, q: Path, nd: Node, mail: seq<Letter>, env: Env, k: nat)
    requires Shaped(p) && Shaped(q) && Extends(p, q) && p.states[|p.evs|] == nd && k < |nd.order| && Exhausted(nd)
    requires Wraps(q, |p.evs|, |q.evs|, mail, env)
    ensures Decides(q, |p.evs|, |q.evs|, mail, env, k, false, None)
  {
  }

  lemma LookDecides(p: Path, q: Path, nd: Node, mail: seq<Letter>, env: Env, k: nat, skip: bool)
    requires Shaped(p) && Shaped(q) && p.states[|p.evs|] == nd && k < |nd.order| && !Exhausted(nd)
    requires Adds(p, q, [Consider], [env]) && (skip <==> !Eligible(nd, Next(nd)))
    ensures Decides(q, |p.evs|, |q.evs|, mail, env, k, !skip, if skip then None else Some(Next(nd)))
  {
  }

  lemma TurnDone(p: Path, mailed: Path, q: Path, t: Turn, env: Env, k: nat, done: bool, target: Option<Name>)
    requires Shaped(p) && Shaped(mailed) && Shaped(q) && Adds(p, mailed, Receipts(t.before), Envs(t.before))
    requires Extends(mailed, q) && Decides(q, |mailed.evs|, |q.evs|, t.beforeReset, env, k, done, target)
    ensures Extends(p, q) && TakesTurn(q, t, env, k, |p.evs|, |q.evs|, done, target)
  {
    Handled(p, mailed, t.before);
    HandlesLonger(mailed, q, |p.evs|, t.before);
  }

  // ------------------------------------------------------------- inside one call

  function End(c: Call, k: nat): nat
    requires k < |c.marks|
  {
    if k + 1 < |c.marks| then c.marks[k + 1] else |c.p.evs|
  }

  ghost predicate HasTurn(c: Call, k: nat)
    requires Shaped(c.p) && k < |c.marks|
  {
    var last := k + 1 == |c.marks|;
    TakesTurn(c.p, MailOf(c.mail, k), c.clock(k), k, c.marks[k], End(c, k), last, if last then c.target else None)
  }

  lemma EveryTurn(c: Call, k: nat)
    requires c.Valid() && k < |c.marks|
    ensures HasTurn(c, k)
  {
    if k + 1 < |c.marks| {
      assert c.Passed(k);
    }
  }

  lemma {:induction false} FindTurnBelow(c: Call, t: nat, n: nat) returns (k: nat)
    requires c.Going() && n < |c.marks| && t < c.marks[n]
    ensures k < n && c.marks[k] <= t < c.marks[k + 1]
  {
    k := n - 1;
    if t < c.marks[n - 1] {
      k := FindTurnBelow(c, t, n - 1);
    }
  }

  /** The turn an event belongs to. */
  lemma FindTurn(c: Call, t: nat) returns (k: nat)
    requires c.Valid() && t < |c.p.evs|
    ensures k < |c.marks| && c.marks[k] <= t < End(c, k) && HasTurn(c, k)
  {
    k := |c.marks| - 1;
    if t < c.marks[k] {
      k := FindTurnBelow(c, t, k);
    }
    EveryTurn(c, k);
  }

  ghost predicate Given(mail: seq<Turn>, ev: Event) {
    exists k, l {:trigger l in mail[k].before} {:trigger l in mail[k].beforeReset} ::
      0 <= k < |mail| && (l in mail[k].before || l in mail[k].beforeReset) && ev == Recv(l.m)
  }

  lemma TurnEvents(p: Path, t: Turn, env: Env, k: nat, a: nat, b: nat, done: bool, target: Option<Name>, i: nat)
    requires Shaped(p) && TakesTurn(p, t, env, k, a, b, done, target) && a <= i < b
    ensures p.evs[i].Consider? || p.evs[i].Reset? || p.evs[i].Rewind?
      || exists l :: (l in t.before || l in t.beforeReset) && p.evs[i] == Recv(l.m)
  {
    var m := a + |t.before|;
    if i < m {
      assert p.evs[a + (i - a)] == Recv(t.before[i - a].m);
    } else if i < m + |t.beforeReset| && Exhausted(p.states[m]) {
      assert p.evs[m + (i - m)] == Recv(t.beforeReset[i - m].m);
    }
  }

  /** A call does nothing but consider, reset and rewind; the rest is the mail handled meanwhile. */
  lemma CallEvents(c: Call, i: nat)
    requires c.Valid() && i < |c.p.evs|
    ensures c.p.evs[i].Consider? || c.p.evs[i].Reset? || c.p.evs[i].Rewind? || Given(c.mail, c.p.evs[i])
  {
    var k := FindTurn(c, i);
    var last := k + 1 == |c.marks|;
    TurnEvents(c.p, MailOf(c.mail, k), c.clock(k), k, c.marks[k], End(c, k), last, if last then c.target else None, i);
  }

  ghost predicate OnlyMail(evs: seq<Event>, m: nat, i: nat)
    requires i <= |evs|
  {
    forall j :: m <= j < i ==> evs[j].Recv?
  }

  /** The list was found exhausted at m, and only mail was handled from there to i. */
  ghost predicate RanOut(p: Path, m: nat, i: nat)
    requires Shaped(p) && i <= |p.evs|
  {
    m <= i && Exhausted(p.states[m]) && 0 < |p.states[m].order| && OnlyMail(p.evs, m, i)
  }

  lemma HandledMail(p: Path, a: nat, mail: seq<Letter>)
    requires Shaped(p) && Handles(p, a, mail)
    ensures OnlyMail(p.evs, a, a + |mail|)
  {
    forall j | a <= j < a + |mail| ensures p.evs[j].Recv? {
      assert p.evs[a + (j - a)] == Recv(mail[j - a].m);
    }
  }

  /** A reset comes only after the end of a list that is not empty, with only mail between. */
  lemma ResetRanOut(c: Call, i: nat) returns (m: nat)
    requires c.Valid() && i < |c.p.evs| && c.p.evs[i].Reset?
    ensures RanOut(c.p, m, i)
  {
    var k := FindTurn(c, i);
    var t := MailOf(c.mail, k);
    HandledMail(c.p, c.marks[k], t.before);
    m := c.marks[k] + |t.before|;
    assert Exhausted(c.p.states[m]);
    HandledMail(c.p, m, t.beforeReset);
  }

  /** A call picks another member, listed and then Alive or Suspect, and the pick is its last event. */
  lemma TargetIsAnother(c: Call)
    requires c.Valid() && c.target.Some?
    ensures |c.p.evs| > 0 && var nd, x := c.p.states[|c.p.evs| - 1], c.target.value;
      && c.p.evs[|c.p.evs| - 1].Consider? && nd.probe < |nd.order| && x == nd.order[nd.probe]
      && x != nd.self && x in nd.table && (nd.table[x].status.Alive? || nd.table[x].status.Suspect?)
  {
    var k := |c.marks| - 1;
    EveryTurn(c, k);
  }

  /** Whoever is looked at is the target, which ends the call, or is oneself, Dead or Left. */
  lemma ConsideredIsTarget(c: Call, i: nat)
    requires c.Valid() && i < |c.p.evs| && c.p.evs[i].Consider?
    ensures !Exhausted(c.p.states[i])
    ensures Eligible(c.p.states[i], Next(c.p.states[i])) <==> i == |c.p.evs| - 1 && c.target.Some?
    ensures Eligible(c.p.states[i], Next(c.p.states[i])) ==> c.target == Some(Next(c.p.states[i]))
  {
    var k := FindTurn(c, i);
    var t := MailOf(c.mail, k);
    HandledMail(c.p, c.marks[k], t.before);
    var m := c.marks[k] + |t.before|;
    if Exhausted(c.p.states[m]) && k < |c.p.states[m].order| {
      HandledMail(c.p, m, t.beforeReset);
      assert false;
    }
    assert i == m && End(c, k) == m + 1;
    if i == |c.p.evs| - 1 && k + 1 < |c.marks| {
      EveryTurn(c, |c.marks| - 1);
    }
  }

  /** How many members were looked at and how often the index was rewound. */
  function Checks(evs: seq<Event>): nat {
    if evs == [] then 0
    else Checks(evs[..|evs| - 1]) + if evs[|evs| - 1].Consider? || evs[|evs| - 1].Rewind? then 1 else 0
  }

  lemma OneMoreEvent(evs: seq<Event>, i: nat)
    requires i < |evs|
    ensures Checks(evs[..i + 1]) == Checks(evs[..i]) + if evs[i].Consider? || evs[i].Rewind? then 1 else 0
  {
    assert evs[..i + 1][..i] == evs[..i];
  }

  lemma {:induction false} MailChecksNothing(evs: seq<Event>, a: nat, b: nat)
    requires a <= b <= |evs| && OnlyMail(evs, a, b)
    ensures Checks(evs[..b]) == Checks(evs[..a])
  {
    if a < b {
      MailChecksNothing(evs, a, b - 1);
      OneMoreEvent(evs, b - 1);
    }
  }

  lemma WrapChecksOnce(p: Path, m: nat, b: nat, mail: seq<Letter>, env: Env)
    requires Shaped(p) && Wraps(p, m, b, mail, env)
    ensures Checks(p.evs[..b]) == Checks(p.evs[..m]) + 1
  {
    HandledMail(p, m, mail);
    MailChecksNothing(p.evs, m, b - 2);
    OneMoreEvent(p.evs, b - 2);
    OneMoreEvent(p.evs, b - 1);
  }

  lemma TurnChecksOnce(p: Path, t: Turn, env: Env, k: nat, a: nat, b: nat)
    requires Shaped(p) && TakesTurn(p, t, env, k, a, b, false, None)
    ensures Checks(p.evs[..b]) == Checks(p.evs[..a]) + 1
  {
    var m := a + |t.before|;
    HandledMail(p, a, t.before);
    MailChecksNothing(p.evs, a, m);
    if Exhausted(p.states[m]) {
      WrapChecksOnce(p, m, b, t.beforeReset, env);
    } else {
      OneMoreEvent(p.evs, m);
    }
  }

  lemma {:induction false} TurnsAreChecks(c: Call, k: nat)
    requires c.Going() && k < |c.marks|
    ensures c.marks[k] <= |c.p.evs| && Checks(c.p.evs[..c.marks[k]]) == k
  {
    if k > 0 {
      TurnsAreChecks(c, k - 1);
      assert c.Passed(k - 1);
      TurnChecksOnce(c.p, MailOf(c.mail, k - 1), c.clock(k - 1), k - 1, c.marks[k - 1], c.marks[k]);
    }
  }

  /** Nobody is picked only after at least as many checks as there are members. */
  lemma GivesUpAfter(c: Call)
    requires c.Valid() && c.target.None?
    ensures |c.p.states[|c.p.evs|].order| <= Checks(c.p.evs)
  {
    var n, evs := |c.marks| - 1, c.p.evs;
    TurnsAreChecks(c, n);
    HandledMail(c.p, c.marks[n], MailOf(c.mail, n).before);
    MailChecksNothing(evs, c.marks[n], |evs|);
    assert evs[..|evs|] == evs;
  }

  /** Nobody from position i up to position j of the list is eligible. */
  ghost predicate Barren(nd: Node, order: seq<Name>, i: nat, j: nat) {
    forall t :: i <= t < j && t < |order| ==> !Eligible(nd, order[t])
  }

  /** How many are listed from the index on. */
  function Rest(nd: Node): nat {
    if Exhausted(nd) then 0 else |nd.order| - nd.probe
  }

  lemma {:induction false} QuietTurns(c: Call, k: nat)
    requires c.Valid() && c.mail == []
    requires var nd := c.p.states[0]; k <= Rest(nd) && Barren(nd, nd.order, nd.probe, nd.probe + k)
    ensures k < |c.marks| && c.marks[k] == k <= |c.p.evs|
    ensures c.p.states[k] == c.p.states[0].(probe := c.p.states[0].probe + k)
  {
    if k > 0 {
      QuietTurns(c, k - 1);
      EveryTurn(c, k - 1);
      assert c.p.StepAt(k - 1);
    }
  }

  lemma {:induction false} FirstFrom(nd: Node, n: nat) returns (q: nat)
    requires n <= |nd.order| && !Barren(nd, nd.order, nd.probe, n)
    ensures nd.probe <= q < n && Eligible(nd, nd.order[q]) && Barren(nd, nd.order, nd.probe, q)
  {
    if Barren(nd, nd.order, nd.probe, n - 1) {
      q := n - 1;
    } else {
      q := FirstFrom(nd, n - 1);
    }
  }

  /** With nothing handled meanwhile, a call picks the first eligible member from the index on, if there is one. */
  lemma QuietPicksFirst(c: Call, j: nat)
    requires c.Valid() && c.mail == []
    requires var nd := c.p.states[0]; nd.probe <= j < |nd.order| && Eligible(nd, nd.order[j]) && Barren(nd, nd.order, nd.probe, j)
    ensures c.target == Some(c.p.states[0].order[j])
    ensures c.p.states[|c.p.evs|] == c.p.states[0].(probe := j + 1)
  {
    var k := j - c.p.states[0].probe;
    QuietTurns(c, k);
    EveryTurn(c, k);
    assert c.p.StepAt(k);
  }

  /** The list ran out after k turns: the state after the reset and the rewind. */
  lemma QuietWrap(c: Call, k: nat)
    requires c.Valid() && c.mail == []
    requires var nd := c.p.states[0];
      k == Rest(nd) < |nd.order| && Barren(nd, nd.order, nd.probe, nd.probe + k)
    ensures k + 1 < |c.marks| && c.marks[k + 1] == k + 2 <= |c.p.evs| && c.p.evs[k].Reset?
    ensures c.p.states[k + 2] == Reap(c.p.states[0], c.p.envs[k].now, c.p.evs[k].order).(probe := 0)
  {
    QuietTurns(c, k);
    EveryTurn(c, k);
    assert c.p.StepAt(k) && c.p.StepAt(k + 1);
  }

  /** The turns of a new lap; those of the old one, k of them, and the reset have been counted already. */
  lemma {:induction false} NewLapTurns(c: Call, k: nat, q: nat)
    requires c.Valid() && c.mail == [] && k + 1 < |c.marks| && c.marks[k + 1] == k + 2 <= |c.p.evs|
    requires var nd := c.p.states[k + 2]; nd.probe == 0 && k + q < |nd.order| && Barren(nd, nd.order, 0, q)
    ensures k + 1 + q < |c.marks| && c.marks[k + 1 + q] == k + 2 + q <= |c.p.evs|
    ensures c.p.states[k + 2 + q] == c.p.states[k + 2].(probe := q)
  {
    if q > 0 {
      NewLapTurns(c, k, q - 1);
      EveryTurn(c, k + q);
      assert c.p.StepAt(k + 1 + q);
    }
  }

  /** How many of a list of n the checks still allow after k members and a reset. */
  function Spare(n: nat, k: nat): nat {
    if k + 1 <= n then n - k - 1 else 0
  }

  lemma NewLapBarren(c: Call, k: nat)
    requires c.Valid() && c.mail == [] && k + 1 < |c.marks| && c.marks[k + 1] == k + 2 <= |c.p.evs|
    requires var nd := c.p.states[k + 2]; nd.probe == 0 && Barren(nd, nd.order, 0, Spare(|nd.order|, k))
    ensures c.target.None?
  {
    var left := Spare(|c.p.states[k + 2].order|, k);
    if left > 0 {
      NewLapTurns(c, k, left);
    }
    EveryTurn(c, k + 1 + left);
  }

  lemma NewLapFertile(c: Call, k: nat)
    requires c.Valid() && c.mail == [] && k + 1 < |c.marks| && c.marks[k + 1] == k + 2 <= |c.p.evs|
    requires var nd := c.p.states[k + 2]; nd.probe == 0 && !Barren(nd, nd.order, 0, Spare(|nd.order|, k))
    ensures c.target.Some?
  {
    var nd := c.p.states[k + 2];
    var q := FirstFrom(nd, Spare(|nd.order|, k));
    NewLapTurns(c, k, q);
    EveryTurn(c, k + 1 + q);
  }

  /** Reaping changes nobody's eligibility. */
  lemma ReapKeepsEligible(nd: Node, now: int, order: seq<Name>, x: Name)
    ensures Eligible(Reap(nd, now, order).(probe := 0), x) <==> Eligible(nd, x)
  {
  }

  /** Nobody eligible from the index on, nor among those of the new list that the checks still allow. */
  ghost predicate NobodyInReach(nd: Node, evs: seq<Event>) {
    var k := Rest(nd);
    && Barren(nd, nd.order, nd.probe, |nd.order|)
    && (k < |nd.order| ==>
          k < |evs| && evs[k].Reset? && Barren(nd, evs[k].order, 0, Spare(|evs[k].order|, k)))
  }

  lemma QuietNewLapIff(c: Call, k: nat)
    requires c.Valid() && c.mail == []
    requires var nd := c.p.states[0]; k == Rest(nd) < |nd.order| && Barren(nd, nd.order, nd.probe, nd.probe + k)
    ensures k < |c.p.evs| && c.p.evs[k].Reset?
    ensures c.target.None? <==> Barren(c.p.states[0], c.p.evs[k].order, 0, Spare(|c.p.evs[k].order|, k))
  {
    QuietWrap(c, k);
    var nd, r, order := c.p.states[0], c.p.states[k + 2], c.p.evs[k].order;
    forall x ensures Eligible(r, x) <==> Eligible(nd, x) {
      ReapKeepsEligible(nd, c.p.envs[k].now, order, x);
    }
    var left := Spare(|order|, k);
    assert Barren(r, order, 0, left) <==> Barren(nd, order, 0, left);
    if Barren(r, order, 0, left) {
      NewLapBarren(c, k);
    } else {
      NewLapFertile(c, k);
    }
  }

  /** With nothing handled meanwhile, a call picks nobody exactly when nobody eligible is in its reach. */
  lemma QuietPicksNobodyIff(c: Call)
    requires c.Valid() && c.mail == []
    ensures c.target.None? <==> NobodyInReach(c.p.states[0], c.p.evs)
  {
    var nd := c.p.states[0];
    var k := Rest(nd);
    if !Barren(nd, nd.order, nd.probe, |nd.order|) {
      var j := FirstFrom(nd, |nd.order|);
      QuietPicksFirst(c, j);
    } else if k < |nd.order| {
      QuietNewLapIff(c, k);
    } else {
      QuietTurns(c, k);
      EveryTurn(c, k);
    }
  }

  /** a and b, listed in that order, both Alive; a is the member itself, and has considered both. */
  function Pair(env: Env): Node {
    var e := Entry([], [], NO_VERSIONS, 0, Alive, env.now);
    Node("a", Config([], NO_VERSIONS, false, 0, 0, 3), 0, false, ["a", "b"], map["a" := e, "b" := e], map[], 2, [])
  }

  function Missed(env: Env): Call {
    var nd := Pair(env);
    var p := Path([nd, nd, nd.(probe := 0), nd.(probe := 1)], [Reset(["a", "b"]), Rewind, Consider], [env, env, env]);
    Call(p, [0, 2, 3], [], k => env, None)
  }

  lemma MissedIsAPath(env: Env)
    ensures Missed(env).p.Valid()
  {
    var c, nd := Missed(env), Pair(env);
    assert Gone(nd, env.now) == {};
    assert Reap(nd, env.now, ["a", "b"]) == nd;
    assert c.p.StepAt(0) && c.p.StepAt(1) && c.p.StepAt(2);
  }

  /**
   * From the end of the list a call may pick nobody although somebody is eligible: the reset counts as one
   * of its checks. Here b is eligible, the shuffle puts a first, and two checks are all there are.
   */
  lemma MissesAtTheEnd(env: Env)
    ensures Missed(env).Valid() && Missed(env).p.states[0] == Pair(env) && Eligible(Pair(env), "b")
    ensures Missed(env).target.None?
  {
    MissedIsAPath(env);
    assert Missed(env).Passed(0) && Missed(env).Passed(1);
  }

  // ------------------------------------------------------------- calls in a run

  /** A call within a longer path, from the position at on. */
  datatype Place = Place(at: nat, c: Call) {
    function End(): nat {
      at + |c.p.evs|
    }

    ghost predicate In(g: Path) {
      && c.Valid() && Shaped(g) && End() <= |g.evs|
      && (forall i :: 0 <= i <= |c.p.evs| ==> c.p.states[i] == g.states[at + i])
      && (forall i :: 0 <= i < |c.p.evs| ==> c.p.evs[i] == g.evs[at + i])
    }
  }

  predicate OfProbe(ev: Event) {
    ev.Consider? || ev.Reset? || ev.Rewind?
  }

  ghost predicate Within(calls: seq<Place>, t: nat) {
    exists l :: l in calls && l.at <= t < l.End()
  }

  /** Only calls of probe consider, reset and rewind. */
  ghost predicate ByCalls(g: Path, calls: seq<Place>) {
    && Shaped(g)
    && (forall j {:trigger calls[j].In(g)} :: 0 <= j < |calls| ==> calls[j].In(g))
    && (forall t :: 0 <= t < |g.evs| && OfProbe(g.evs[t]) ==> Within(calls, t))
  }

  /** One goroutine makes the calls, so they come one after the other. */
  ghost predicate InTurn(calls: seq<Place>) {
    forall i, j :: 0 <= i < j < |calls| ==> calls[i].End() <= calls[j].at
  }

  /** A run with its calls of probe; whatever else the member does may come between and during them. */
  ghost predicate Probed(g: Path, calls: seq<Place>) {
    IsRun(g.states, g.evs, g.envs) && ByCalls(g, calls) && InTurn(calls)
  }

  lemma SameAt(g: Path, l: Place, t: nat)
    requires l.In(g) && l.at <= t < l.End()
    ensures l.c.p.evs[t - l.at] == g.evs[t] && l.c.p.states[t - l.at] == g.states[t]
  {
    var i := t - l.at;
    assert l.c.p.evs[i] == g.evs[l.at + i] && l.c.p.states[i] == g.states[l.at + i];
  }

  lemma FindCall(g: Path, calls: seq<Place>, t: nat) returns (l: Place)
    requires ByCalls(g, calls) && t < |g.evs| && OfProbe(g.evs[t])
    ensures l in calls && l.In(g) && l.at <= t < l.End()
    ensures l.c.p.evs[t - l.at] == g.evs[t] && l.c.p.states[t - l.at] == g.states[t]
  {
    assert Within(calls, t);
    l :| l in calls && l.at <= t < l.End();
    SameAt(g, l, t);
  }

  lemma RanOutIn(g: Path, l: Place, m: nat, i: nat)
    requires l.In(g) && i <= |l.c.p.evs| && RanOut(l.c.p, m, i)
    ensures RanOut(g, l.at + m, l.at + i)
  {
    assert g.states[l.at + m] == l.c.p.states[m];
    forall t | l.at + m <= t < l.at + i ensures g.evs[t].Recv? {
      assert g.evs[l.at + (t - l.at)] == l.c.p.evs[t - l.at];
    }
  }

  /** In every such run a reset comes only after the list ran out. */
  lemma ResetRanOutInRun(g: Path, calls: seq<Place>, r: nat) returns (m: nat)
    requires ByCalls(g, calls) && r < |g.evs| && g.evs[r].Reset?
    ensures RanOut(g, m, r)
  {
    var l := FindCall(g, calls, r);
    var k := ResetRanOut(l.c, r - l.at);
    RanOutIn(g, l, k, r - l.at);
    m := l.at + k;
  }

  /** x was picked, by the call that the look at t ends. */
  ghost predicate Picked(calls: seq<Place>, t: nat, x: Name) {
    exists l :: l in calls && t + 1 == l.End() && l.c.target == Some(x)
  }

  /** Whoever is looked at in the run is picked, unless oneself, Dead or Left. */
  lemma LookedAtIsPicked(g: Path, calls: seq<Place>, t: nat, x: Name)
    requires ByCalls(g, calls) && t < |g.evs| && LooksAt(LapOf(g.states[t]), g.evs[t], x)
    ensures Eligible(g.states[t], x) ==> Picked(calls, t, x)
  {
    var l := FindCall(g, calls, t);
    ConsideredIsTarget(l.c, t - l.at);
  }

  /** At t the probe looks at x, and picks it if it is another member that is listed as Alive or Suspect. */
  ghost predicate Covered(g: Path, calls: seq<Place>, t: nat, x: Name)
    requires Shaped(g) && t < |g.evs|
  {
    var nd := g.states[t];
    && LooksAt(LapOf(nd), g.evs[t], x)
    && (x != nd.self && x in nd.table && (nd.table[x].status.Alive? || nd.table[x].status.Suspect?) ==> Picked(calls, t, x))
  }

  lemma {:induction false} MailKeepsProbe(g: Path, m: nat, i: nat)
    requires IsRun(g.states, g.evs, g.envs) && m <= i <= |g.evs| && OnlyMail(g.evs, m, i)
    ensures g.states[i].probe == g.states[m].probe
  {
    if m < i {
      MailKeepsProbe(g, m, i - 1);
      assert Steps(g.states[i - 1], g.evs[i - 1], g.envs[i - 1], g.states[i]);
      StepMovesProbe(g.states[i - 1], g.evs[i - 1], g.envs[i - 1]);
    }
  }

  lemma StepMovesProbe(nd: Node, ev: Event, env: Env)
    requires !ev.Reset? && !ev.Rewind?
    ensures var r := Step(nd, ev, env);
      r.probe == nd.probe + (if ev.Consider? then 1 else 0) && |nd.order| <= |r.order|
  {
    if ev.Recv? {
      ReceiveOrder(nd, ev.m, env);
    }
  }

  /**
   * Between two resets everyone listed when the index was 0 is either picked by a call of probe, or looked
   * at while oneself, Dead or Left, whatever else the member does and whoever joins meanwhile.
   */
  lemma RoundProbesEveryone(g: Path, calls: seq<Place>, i: nat, r: nat, x: Name)
    requires Probed(g, calls) && i <= r < |g.evs| && OneRound(g.evs, i, r)
    requires g.states[i].probe == 0 && g.evs[r].Reset? && x in g.states[i].table
    ensures exists t :: i <= t < r && Covered(g, calls, t, x)
  {
    var m := ResetRanOutInRun(g, calls, r);
    if m < i {
      MailKeepsProbe(g, m, i);
      assert false;
    }
    RoundConsidersEveryone(g.states, g.evs, g.envs, i, m, x);
    var t :| i <= t < m && LooksAt(LapOf(g.states[t]), g.evs[t], x);
    LookedAtIsPicked(g, calls, t, x);
    assert Covered(g, calls, t, x);
  }

  // -------------------------------------------------------- the length of a round

  /** The list does not shrink, the index does not fall, and it does not pass the end. */
  predicate Advances(l: Lap, l2: Lap) {
    |l.order| <= |l2.order| && l.probe <= l2.probe && (l.probe <= |l.order| ==> l2.probe <= |l2.order|)
  }

  lemma StepAdvances(nd: Node, ev: Event, env: Env, r: Node)
    requires Steps(nd, ev, env, r) && !ev.Reset? && !ev.Rewind?
    ensures Advances(LapOf(nd), LapOf(r)) && (ev.Consider? ==> nd.probe < r.probe)
  {
    StepMovesProbe(nd, ev, env);
  }

  lemma {:induction false} LapsAdvance(laps: seq<Lap>, i: nat, j: nat)
    requires i <= j < |laps| && forall t :: i <= t < j ==> Advances(laps[t], laps[t + 1])
    ensures Advances(laps[i], laps[j])
  {
    if i < j {
      LapsAdvance(laps, i, j - 1);
      assert Advances(laps[j - 1], laps[j - 1 + 1]);
    }
  }

  lemma RoundAdvances(g: Path, i: nat, j: nat)
    requires IsRun(g.states, g.evs, g.envs) && i <= j <= |g.evs| && OneRound(g.evs, i, j)
    ensures Advances(LapOf(g.states[i]), LapOf(g.states[j]))
  {
    var laps := LapTrack(g.states);
    forall t | i <= t < j ensures Advances(laps[t], laps[t + 1]) {
      StepAdvances(g.states[t], g.evs[t], g.envs[t], g.states[t + 1]);
    }
    LapsAdvance(laps, i, j);
  }

  /** Where the first decision of a call is made. */
  function Begins(c: Call): nat {
    |MailOf(c.mail, 0).before|
  }

  /** A call in which nothing is reset looks at somebody, unless nobody is listed. */
  lemma LooksAtSomebody(c: Call)
    requires c.Valid() && OneRound(c.p.evs, 0, |c.p.evs|)
    ensures Begins(c) <= |c.p.evs|
    ensures c.p.states[Begins(c)].order != [] ==> Begins(c) < |c.p.evs| && c.p.evs[Begins(c)].Consider?
  {
    EveryTurn(c, 0);
  }

  lemma PlacedRound(g: Path, l: Place)
    requires l.In(g) && OneRound(g.evs, l.at, l.End())
    ensures OneRound(l.c.p.evs, 0, |l.c.p.evs|)
  {
    forall t | 0 <= t < |l.c.p.evs| ensures !l.c.p.evs[t].Reset? && !l.c.p.evs[t].Rewind? {
      SameAt(g, l, l.at + t);
    }
  }

  lemma CallAdvances(g: Path, l: Place, i: nat)
    requires IsRun(g.states, g.evs, g.envs) && l.In(g) && i <= l.at && OneRound(g.evs, i, l.End())
    requires g.states[i].order != [] && g.states[i].probe <= |g.states[i].order|
    ensures g.states[l.at].probe < g.states[l.End()].probe
  {
    PlacedRound(g, l);
    LooksAtSomebody(l.c);
    var t := l.at + Begins(l.c);
    assert g.states[t] == l.c.p.states[Begins(l.c)];
    RoundAdvances(g, i, l.at);
    RoundAdvances(g, l.at, t);
    SameAt(g, l, t);
    StepAdvances(g.states[t], g.evs[t], g.envs[t], g.states[t + 1]);
    RoundAdvances(g, t + 1, l.End());
  }

  lemma CallAndMore(g: Path, l: Place, i: nat, j: nat)
    requires IsRun(g.states, g.evs, g.envs) && l.In(g) && i <= l.at && l.End() <= j <= |g.evs| && OneRound(g.evs, i, j)
    requires g.states[i].order != [] && g.states[i].probe <= |g.states[i].order|
    ensures g.states[l.at].probe < g.states[j].probe
  {
    CallAdvances(g, l, i);
    RoundAdvances(g, i, l.End());
    RoundAdvances(g, l.End(), j);
  }

  lemma NextCall(g: Path, calls: seq<Place>, i: nat, k: nat, j: nat)
    requires Probed(g, calls) && k < |calls| && i <= calls[k].at && calls[k].End() <= j <= |g.evs| && OneRound(g.evs, i, j)
    requires g.states[i].order != [] && g.states[i].probe == 0
    ensures g.states[calls[k].at].probe < g.states[j].probe
  {
    assert calls[k].In(g);
    CallAndMore(g, calls[k], i, j);
  }

  lemma CallsInRound(calls: seq<Place>, first: nat, k: nat, n: nat)
    requires InTurn(calls) && first + n < |calls| && k < n
    ensures calls[first].at <= calls[first + k].at && calls[first + k].End() <= calls[first + k + 1].at <= calls[first + n].at
  {
    assert k > 0 ==> calls[first].End() <= calls[first + k].at;
    assert k + 1 < n ==> calls[first + k + 1].End() <= calls[first + n].at;
  }

  /** A round that is not over after n calls of probe has moved the index by at least n. */
  lemma {:induction false} CallsAdvance(g: Path, calls: seq<Place>, i: nat, first: nat, n: nat, j: nat)
    requires Probed(g, calls) && first + n < |calls| && i <= calls[first].at && calls[first + n].at == j <= |g.evs|
    requires OneRound(g.evs, i, j) && g.states[i].order != [] && g.states[i].probe == 0
    ensures n <= g.states[j].probe
  {
    if n > 0 {
      CallsInRound(calls, first, n - 1, n);
      CallsAdvance(g, calls, i, first, n - 1, calls[first + n - 1].at);
      NextCall(g, calls, i, first + n - 1, j);
    }
  }

  /** A round lasts no more calls than members are listed when the last of them begins. */
  lemma RoundIsShort(g: Path, calls: seq<Place>, i: nat, first: nat, n: nat)
    requires Probed(g, calls) && first + n < |calls| && i <= calls[first].at && calls[first + n].In(g)
    requires OneRound(g.evs, i, calls[first + n].at) && g.states[i].probe == 0 && g.states[i].order != []
    ensures n <= |g.states[calls[first + n].at].order|
  {
    var j := calls[first + n].at;
    assert n > 0 ==> calls[first].End() <= j;
    CallsAdvance(g, calls, i, first, n, j);
    RoundAdvances(g, i, j);
  }
}
