/**
 * One member of the cluster as a value, and the protocol handlers as functions
 * on that value. Every handler runs under the node lock, so each is one step.
 */
module Protocol {
  import opened Base
  import opened SuspicionTimer

  type Addr = string
  type Meta = Bytes

  datatype Status = Alive | Suspect | Dead | Left {
    predicate DeadOrLeft() {
      Dead? || Left?
    }

    /** The place of a status in the override order: Alive < Suspect < Dead, Left. */
    function Rank(): nat {
      if Alive? then 0 else if Suspect? then 1 else 2
    }
  }

  /** The six protocol and delegate versions a member speaks. */
  datatype Versions = Versions(pMin: nat, pMax: nat, pCur: nat, dMin: nat, dMax: nat, dCur: nat) {
    predicate Wrong() {
      pMin == 0 || pMax == 0 || pMin > pMax
    }
  }

  const NO_VERSIONS := Versions(0, 0, 0, 0, 0, 0)

  // ---------------------------------------------------------------- messages

  datatype AliveMsg = AliveMsg(inc: Uint32, node: Name, addr: Addr, meta: Meta, vsn: Option<Versions>)
  datatype SuspectMsg = SuspectMsg(inc: Uint32, node: Name, from: Name)
  datatype DeadMsg = DeadMsg(inc: Uint32, node: Name, from: Name)
  /** One row of the table sent in a push/pull exchange. */
  datatype PushState = PushState(node: Name, addr: Addr, meta: Meta, inc: Uint32, status: Status, vsn: Option<Versions>)

  datatype Msg =
    | AliveM(a: AliveMsg)
    | SuspectM(s: SuspectMsg)
    | DeadM(d: DeadMsg)
    | PushM(r: PushState)
  {
    function About(): Name {
      match this
      case AliveM(a) => a.node
      case SuspectM(s) => s.node
      case DeadM(d) => d.node
      case PushM(r) => r.node
    }

    function Inc(): Uint32 {
      match this
      case AliveM(a) => a.inc
      case SuspectM(s) => s.inc
      case DeadM(d) => d.inc
      case PushM(r) => r.inc
    }
  }

  // -------------------------------------------------------------------- state

  /** What a member records about one peer (or about itself). */
  datatype Entry = Entry(addr: Addr, meta: Meta, vsn: Versions, inc: Uint32, status: Status, change: int)

  datatype Config = Config(
    addr: Addr,
    vsn: Versions,
    aliveDelegate: bool,
    reclaimTime: int,
    deadTime: int,
    suspicionMult: int)

  datatype Node = Node(
    self: Name,
    cfg: Config,
    counter: Uint32,
    left: bool,
    order: seq<Name>,
    table: map<Name, Entry>,
    timers: map<Name, Tally>,
    probe: nat,
    /** Everything this member ever broadcast, sent, or handed to itself. */
    said: seq<Msg>)

  /** What a step reads from outside: clock, randomness, verdicts of callbacks, other goroutines. */
  datatype Env = Env(
    now: int,
    rnd: nat,
    /** the verdict of the alive delegate */
    admit: bool,
    /** the verdict of the address filter */
    allowed: bool,
    /** increments by other goroutines between the two additions of a refutation */
    bumps: nat)

  /** What no handler touches, and that nothing once said is taken back. */
  predicate Frames(nd: Node, r: Node) {
    r.self == nd.self && r.cfg == nd.cfg && r.left == nd.left && r.probe == nd.probe && nd.said <= r.said
  }

  function Say(nd: Node, m: Msg): Node {
    nd.(said := nd.said + [m])
  }

  function SetEntry(nd: Node, x: Name, e: Entry): Node {
    nd.(table := nd.table[x := e])
  }

  function SetTimer(nd: Node, x: Name, t: Tally): Node {
    nd.(timers := nd.timers[x := t])
  }

  function ClearTimer(nd: Node, x: Name): Node {
    nd.(timers := nd.timers - {x})
  }

  // ------------------------------------------------------------- incarnations

  function NextInc(c: Uint32): Uint32 {
    (c + 1) % UINT32_SIZE
  }

  /** The counter after refuting an accusation; the refutation carries the same number. */
  function RefuteInc(c: Uint32, accused: Uint32, bumps: nat): Uint32 {
    var inc := NextInc(c);
    if accused >= inc then (inc + bumps + (accused - inc + 1)) % UINT32_SIZE else inc
  }

  function AliveOf(x: Name, e: Entry): AliveMsg {
    AliveMsg(e.inc, x, e.addr, e.meta, Some(e.vsn))
  }

  function Refute(nd: Node, accused: Uint32, bumps: nat): (r: Node)
    requires nd.self in nd.table
    ensures Frames(nd, r)
  {
    var inc := RefuteInc(nd.counter, accused, bumps);
    var me := nd.table[nd.self].(inc := inc);
    Say(SetEntry(nd, nd.self, me).(counter := inc), AliveM(AliveOf(nd.self, me)))
  }

  // ------------------------------------------------------------------- alive

  function RandomOffset(n: nat, rnd: nat): (k: nat)
    ensures k < n || k == n == 0
  {
    if n == 0 then 0 else rnd % n
  }

  /** Append x, then swap it with the element at k. */
  function SwapIn<T>(s: seq<T>, x: T, k: nat): seq<T>
    requires k <= |s|
  {
    var r := s + [x];
    r[k := r[|s|]][|s| := r[k]]
  }

  /** A newcomer goes in at a random offset. */
  function InsertAt(order: seq<Name>, x: Name, rnd: nat): seq<Name> {
    SwapIn(order, x, RandomOffset(|order|, rnd))
  }

  function NewEntry(a: AliveMsg): Entry {
    Entry(a.addr, a.meta, if a.vsn.Some? then a.vsn.value else NO_VERSIONS, 0, Dead, 0)
  }

  function Insert(nd: Node, a: AliveMsg, rnd: nat): Node {
    nd.(order := InsertAt(nd.order, a.node, rnd), table := nd.table[a.node := NewEntry(a)])
  }

  predicate CanReclaim(nd: Node, e: Entry, now: int) {
    e.status.Left? || (e.status.Dead? && nd.cfg.reclaimTime > 0 && now - e.change > nd.cfg.reclaimTime)
  }

  /** The known entry carries another address. */
  predicate Moves(nd: Node, a: AliveMsg) {
    a.node in nd.table && nd.table[a.node].addr != a.addr
  }

  /** Everything that can stop an alive message before incarnations are compared. */
  predicate Passes(nd: Node, a: AliveMsg, env: Env) {
    && !(nd.left && a.node == nd.self)
    && (a.vsn.Some? ==> !a.vsn.value.Wrong())
    && (nd.cfg.aliveDelegate ==> a.vsn.Some? && env.admit)
    && (a.node !in nd.table ==> env.allowed)
    && (Moves(nd, a) ==> env.allowed && CanReclaim(nd, nd.table[a.node], env.now))
  }

  function Revived(e: Entry, a: AliveMsg, now: int): Entry {
    Entry(a.addr, a.meta, if a.vsn.Some? then a.vsn.value else e.vsn, a.inc, Alive,
          if e.status.Alive? then e.change else now)
  }

  /** The entry named by a, made if need be. */
  function Listed(nd: Node, a: AliveMsg, rnd: nat): (r: Node)
    ensures Frames(nd, r) && a.node in r.table
  {
    if a.node in nd.table then nd else Insert(nd, a, rnd)
  }

  /** Incarnations are compared, then the message refuted or believed. */
  function TakeAlive(nd: Node, a: AliveMsg, moves: bool, bootstrap: bool, env: Env): (r: Node)
    requires a.node in nd.table
    ensures Frames(nd, r)
  {
    var e := nd.table[a.node];
    if a.node != nd.self && a.inc <= e.inc && !moves then nd
    else if a.node == nd.self && a.inc < e.inc then nd
    else
      var n2 := ClearTimer(nd, a.node);
      if !bootstrap && a.node == nd.self then
        if a.inc == e.inc && a.meta == e.meta && a.vsn == Some(e.vsn) then n2
        else Refute(n2, a.inc, env.bumps)
      else
        SetEntry(Say(n2, AliveM(a)), a.node, Revived(e, a, env.now))
  }

  function AliveNode(nd: Node, a: AliveMsg, bootstrap: bool, env: Env): (r: Node)
    ensures Frames(nd, r)
  {
    if !Passes(nd, a, env) then nd
    else TakeAlive(Listed(nd, a, env.rnd), a, Moves(nd, a), bootstrap, env)
  }

  // ----------------------------------------------------------------- suspect

  /** The confirmations a new timer waits for. */
  function Expected(nd: Node): int {
    var k := nd.cfg.suspicionMult - 2;
    if |nd.order| - 2 < k then 0 else k
  }

  /** Pass the accusation on and mark the peer Suspect. */
  function MarkSuspect(nd: Node, s: SuspectMsg, now: int): Node
    requires s.node in nd.table
  {
    SetEntry(Say(nd, SuspectM(s)), s.node, nd.table[s.node].(inc := s.inc, status := Suspect, change := now))
  }

  /** Then start its timer. */
  function BeginSuspicion(nd: Node, s: SuspectMsg, now: int): Node
    requires s.node in nd.table
  {
    var marked := MarkSuspect(nd, s, now);
    SetTimer(marked, s.node, NewTally(s.from, Expected(marked)))
  }

  function SuspectNode(nd: Node, s: SuspectMsg, env: Env): (r: Node)
    ensures Frames(nd, r)
  {
    if s.node !in nd.table || s.inc < nd.table[s.node].inc then nd
    else if s.node in nd.timers then
      var t := nd.timers[s.node];
      if Accepts(t, s.from)
      then Say(SetTimer(nd, s.node, Confirmed(t, s.from)), SuspectM(s))
      else nd
    else if !nd.table[s.node].status.Alive? then nd
    else if s.node == nd.self then Refute(nd, s.inc, env.bumps)
    else BeginSuspicion(nd, s, env.now)
  }

  // -------------------------------------------------------------------- dead

  function DeadNode(nd: Node, d: DeadMsg, env: Env): (r: Node)
    ensures Frames(nd, r)
  {
    if d.node !in nd.table || d.inc < nd.table[d.node].inc then nd else
    var n1 := ClearTimer(nd, d.node);
    if nd.table[d.node].status.DeadOrLeft() then n1
    else if d.node == nd.self && !nd.left then Refute(n1, d.inc, env.bumps)
    else
      var e := nd.table[d.node].(inc := d.inc, status := if d.node == d.from then Left else Dead, change := env.now);
      SetEntry(Say(n1, DeadM(d)), d.node, e)
  }

  // --------------------------------------------------------- push/pull, timers

  function PushOf(x: Name, e: Entry): PushState {
    PushState(x, e.addr, e.meta, e.inc, e.status, Some(e.vsn))
  }

  /** One row of a received table, handled by the matching handler. */
  function MergeOne(nd: Node, r: PushState, env: Env): (r2: Node)
    ensures Frames(nd, r2)
  {
    match r.status
    case Alive => AliveNode(nd, AliveMsg(r.inc, r.node, r.addr, r.meta, r.vsn), false, env)
    case Left => DeadNode(nd, DeadMsg(r.inc, r.node, r.node), env)
    case _ => SuspectNode(nd, SuspectMsg(r.inc, r.node, nd.self), env)
  }

  /** The rows in turn, each under the environment of its own moment. */
  function MergeState(nd: Node, rows: seq<PushState>, envs: seq<Env>): Node
    requires |envs| == |rows|
  {
    if rows == [] then nd
    else MergeOne(MergeState(nd, rows[..|rows| - 1], envs[..|rows| - 1]), rows[|rows| - 1], envs[|rows| - 1])
  }

  /** The checking half of the timeout callback for the suspicion begun at the instant began. */
  function TimeoutDue(nd: Node, x: Name, began: int): Option<DeadMsg> {
    if x in nd.table && nd.table[x].status.Suspect? && nd.table[x].change == began
    then Some(DeadMsg(nd.table[x].inc, x, nd.self))
    else None
  }

  // ------------------------------------------------------------------ reaping

  predicate Expired(e: Entry, now: int, deadTime: int) {
    e.status.DeadOrLeft() && now - e.change > deadTime
  }

  function Gone(nd: Node, now: int): set<Name> {
    set x | x in nd.table && Expired(nd.table[x], now, nd.cfg.deadTime)
  }

  /** The survivors of a list reset, in the order the shuffle left them. */
  function Reap(nd: Node, now: int, order: seq<Name>): Node {
    nd.(order := order, table := nd.table - Gone(nd, now))
  }

  predicate IsShuffle(nd: Node, now: int, order: seq<Name>) {
    NoDup(order) && Elements(order) == nd.table.Keys - Gone(nd, now)
  }
}
