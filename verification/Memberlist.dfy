/**
 * The member as the running program keeps it: a list and a map sharing node objects,
 * a map of timer objects, and counters, all updated in place under the node lock.
 * Every method is proved to take the abstract member of module Protocol from its
 * old value to the value the handler function gives.
 */
module Memberlist {
  import opened Base
  import opened SuspicionTimer
  import P = Protocol
  import R = NodeRuns
  import opened Probing
  import E = Effects

  lemma ModAdd(a: nat, b: nat)
    ensures (a % UINT32_SIZE + b) % UINT32_SIZE == (a + b) % UINT32_SIZE
  {
    assert a == UINT32_SIZE * (a / UINT32_SIZE) + a % UINT32_SIZE;
  }

  class NodeState {
    const name: Name
    var addr: P.Addr
    var meta: P.Meta
    var vsn: P.Versions
    var incarnation: Uint32
    var state: P.Status
    var stateChange: int

    function Value(): P.Entry
      reads this
    {
      P.Entry(addr, meta, vsn, incarnation, state, stateChange)
    }

    constructor (a: P.AliveMsg)
      ensures name == a.node && Value() == P.NewEntry(a)
    {
      name, addr, meta := a.node, a.addr, a.meta;
      vsn := if a.vsn.Some? then a.vsn.value else P.NO_VERSIONS;
      incarnation, state, stateChange := 0, P.Dead, 0;
    }

    method Set(e: P.Entry)
      modifies this
      ensures Value() == e
    {
      addr, meta, vsn, incarnation, state, stateChange := e.addr, e.meta, e.vsn, e.inc, e.status, e.change;
    }
  }

  ghost function NamesOf(nodes: seq<NodeState>): seq<Name> {
    seq(|nodes|, i requires 0 <= i < |nodes| => nodes[i].name)
  }

  ghost function TableOf(nodeMap: map<Name, NodeState>): map<Name, P.Entry>
    reads nodeMap.Values
  {
    map x | x in nodeMap :: nodeMap[x].Value()
  }

  ghost function TalliesOf(timers: map<Name, Suspicion>): map<Name, Tally>
    reads timers.Values
  {
    map x | x in timers :: timers[x].View()
  }

  ghost predicate SoundTimer(t: Suspicion, mult: int)
    reads t
  {
    t.Valid() && t.max == mult * t.min
  }

  ghost predicate SoundTimers(timers: set<Suspicion>, mult: int)
    reads timers
  {
    forall t :: t in timers ==> SoundTimer(t, mult)
  }

  /** The list has no duplicates and shares its objects with the map. */
  ghost predicate Linked(nodes: seq<NodeState>, nodeMap: map<Name, NodeState>) {
    && (forall i :: 0 <= i < |nodes| ==> nodes[i].name in nodeMap && nodeMap[nodes[i].name] == nodes[i])
    && NoDup(nodes)
    && (forall x :: x in nodeMap ==> nodeMap[x] in nodes && nodeMap[x].name == x)
  }

  lemma SwapInLinks(nodes: seq<NodeState>, nodeMap: map<Name, NodeState>, n: NodeState, k: nat)
    requires Linked(nodes, nodeMap) && n.name !in nodeMap && n !in nodes && k <= |nodes|
    ensures Linked(P.SwapIn(nodes, n, k), nodeMap[n.name := n])
    ensures NamesOf(P.SwapIn(nodes, n, k)) == P.SwapIn(NamesOf(nodes), n.name, k)
  {
    var r := P.SwapIn(nodes, n, k);
    forall x | x in nodeMap ensures nodeMap[x] in r {
      var i :| 0 <= i < |nodes| && nodes[i] == nodeMap[x];
      assert r[if i == k then |nodes| else i] == nodeMap[x];
    }
    assert r[k] == n;
  }

  // ------------------------------------------------------------------ list reset

  predicate IsExpired(n: NodeState, now: int, deadTime: int)
    reads n
  {
    P.Expired(n.Value(), now, deadTime)
  }

  method Swap(nodes: array<NodeState>, i: nat, j: nat)
    requires i < nodes.Length && j < nodes.Length
    modifies nodes
    ensures nodes[..] == old(nodes[..])[i := old(nodes[j])][j := old(nodes[i])]
    ensures multiset(nodes[..]) == old(multiset(nodes[..]))
  {
    nodes[i], nodes[j] := nodes[j], nodes[i];
  }

  lemma Longer<T>(s: seq<T>, i: nat)
    requires i < |s|
    ensures forall x :: x in s[..i + 1] <==> x in s[..i] || x == s[i]
  {
    assert s[..i + 1] == s[..i] + [s[i]];
  }

  lemma EndSwapped<T>(was: seq<T>, now: seq<T>, i: nat, j: nat)
    requires i <= j < |was| && now == was[i := was[j]][j := was[i]]
    ensures now[..i] == was[..i] && forall x :: x in now[j..] <==> x == was[i] || x in was[j + 1..]
  {
    assert now[j..] == [was[i]] + was[j + 1..];
  }

  /** Move the expired dead to the end, in place; the result is where they begin. */
  method MoveDeadNodes(nodes: array<NodeState>, now: int, deadTime: int) returns (deadIdx: nat)
    modifies nodes
    ensures deadIdx <= nodes.Length && multiset(nodes[..]) == old(multiset(nodes[..]))
    ensures forall n :: n in nodes[..deadIdx] ==> !IsExpired(n, now, deadTime)
    ensures forall n :: n in nodes[deadIdx..] ==> IsExpired(n, now, deadTime)
  {
    var numDead, n, i := 0, nodes.Length, 0;
    while i < n - numDead
      invariant 0 <= i <= n - numDead <= n
      invariant multiset(nodes[..]) == old(multiset(nodes[..]))
      invariant forall m :: m in nodes[..i] ==> !IsExpired(m, now, deadTime)
      invariant forall m :: m in nodes[n - numDead..] ==> IsExpired(m, now, deadTime)
      decreases n - numDead - i
    {
      ghost var was := nodes[..];
      if !nodes[i].state.DeadOrLeft() || now - nodes[i].stateChange <= deadTime {
        Longer(nodes[..], i);
        i := i + 1;
        continue;
      }
      Swap(nodes, i, n - numDead - 1);
      numDead := numDead + 1;
      EndSwapped(was, nodes[..], i, n - numDead);
    }
    deadIdx := n - numDead;
  }

  /** A Fisher-Yates shuffle driven by the given draws. */
  method ShuffleNodes(nodes: seq<NodeState>, draws: nat -> nat) returns (r: seq<NodeState>)
    ensures |r| == |nodes| && multiset(r) == multiset(nodes)
  {
    r := nodes;
    var i := |r| - 1;
    while i > 0
      invariant |r| == |nodes| && i < |r| && multiset(r) == multiset(nodes)
    {
      var j := draws(i) % (i + 1);
      r := r[i := r[j]][j := r[i]];
      i := i - 1;
    }
  }

  lemma PermutationLinks(nodes: seq<NodeState>, nodes2: seq<NodeState>, nodeMap: map<Name, NodeState>)
    requires Linked(nodes, nodeMap) && multiset(nodes2) == multiset(nodes)
    ensures Linked(nodes2, nodeMap)
  {
    SamePermutation(nodes, nodes2);
    forall i | 0 <= i < |nodes2| ensures nodes2[i].name in nodeMap && nodeMap[nodes2[i].name] == nodes2[i] {
      assert nodes2[i] in nodes;
    }
  }

  lemma LinkedNames(nodes: seq<NodeState>, nodeMap: map<Name, NodeState>)
    requires Linked(nodes, nodeMap)
    ensures NoDup(NamesOf(nodes)) && Elements(NamesOf(nodes)) == nodeMap.Keys
  {
    forall x | x in nodeMap ensures x in NamesOf(nodes) {
      var i :| 0 <= i < |nodes| && nodes[i] == nodeMap[x];
      assert NamesOf(nodes)[i] == x;
    }
  }

  /** Cutting the list at k cuts the map by exactly the names from k on. */
  lemma PrefixLinks(nodes: seq<NodeState>, nodeMap: map<Name, NodeState>, k: nat)
    requires Linked(nodes, nodeMap) && k <= |nodes|
    ensures var gone := Elements(NamesOf(nodes[k..]));
      && Linked(nodes[..k], nodeMap - gone)
      && forall x :: x in nodeMap ==> if x in gone then nodeMap[x] in nodes[k..] else nodeMap[x] in nodes[..k]
  {
    var gone := Elements(NamesOf(nodes[k..]));
    assert forall i :: 0 <= i < k ==> nodes[i].name !in gone;
    forall x | x in nodeMap
      ensures if x in gone then nodeMap[x] in nodes[k..] else nodeMap[x] in nodes[..k]
    {
      var i :| 0 <= i < |nodes| && nodes[i] == nodeMap[x];
      if i >= k {
        assert nodes[k..][i - k] == nodeMap[x] && NamesOf(nodes[k..])[i - k] == x;
      } else {
        assert nodes[..k][i] == nodeMap[x];
      }
    }
  }

  method Deregister(nodeMap: map<Name, NodeState>, gone: seq<NodeState>) returns (m: map<Name, NodeState>)
    ensures m == nodeMap - Elements(NamesOf(gone))
  {
    m := nodeMap;
    for i := 0 to |gone|
      invariant m == nodeMap - Elements(NamesOf(gone[..i]))
    {
      assert NamesOf(gone[..i + 1]) == NamesOf(gone[..i]) + [gone[i].name];
      m := m - {gone[i].name};
    }
    assert gone[..|gone|] == gone;
  }

  /** The list and the map without the expired dead. */
  method Survivors(nodes: seq<NodeState>, nodeMap: map<Name, NodeState>, now: int, deadTime: int)
    returns (kept: seq<NodeState>, m: map<Name, NodeState>)
    requires Linked(nodes, nodeMap)
    ensures Linked(kept, m) && m.Keys <= nodeMap.Keys && |kept| <= |nodes|
    ensures forall x :: x in nodeMap ==> (x in m <==> !IsExpired(nodeMap[x], now, deadTime))
    ensures forall x :: x in m ==> m[x] == nodeMap[x]
  {
    var arr := new NodeState[|nodes|](i requires 0 <= i < |nodes| => nodes[i]);
    assert arr[..] == nodes;
    var deadIdx := MoveDeadNodes(arr, now, deadTime);
    PermutationLinks(nodes, arr[..], nodeMap);
    PrefixLinks(arr[..], nodeMap, deadIdx);
    assert arr[..][..deadIdx] == arr[..deadIdx] && arr[..][deadIdx..] == arr[deadIdx..];
    kept := arr[..deadIdx];
    m := Deregister(nodeMap, arr[deadIdx..]);
  }

  lemma SurvivorTable(nodeMap: map<Name, NodeState>, m: map<Name, NodeState>, nd: P.Node, now: int)
    requires nd.table == TableOf(nodeMap) && m.Keys <= nodeMap.Keys
    requires forall x :: x in nodeMap ==> (x in m <==> !IsExpired(nodeMap[x], now, nd.cfg.deadTime))
    requires forall x :: x in m ==> m[x] == nodeMap[x]
    ensures m.Keys == nd.table.Keys - P.Gone(nd, now) && TableOf(m) == nd.table - P.Gone(nd, now)
  {
  }

  ghost predicate OwnsNodes(nodeMap: map<Name, NodeState>, repr: set<object>) {
    forall x :: x in nodeMap ==> nodeMap[x] in repr
  }

  ghost predicate OwnsTimers(timers: map<Name, Suspicion>, repr: set<object>) {
    forall x :: x in timers ==> timers[x] in repr
  }

  /** No two timers are the same object. */
  ghost predicate Apart(timers: map<Name, Suspicion>) {
    forall x, y :: x in timers && y in timers && timers[x] == timers[y] ==> x == y
  }

  /** A member's announcement of itself is let through, and its own entry is not ahead of its counter. */
  predicate HeardOut(nd: P.Node, addr: P.Addr, meta: P.Meta, env: P.Env) {
    && !E.Stopped(nd, P.AliveMsg(nd.counter, nd.self, addr, meta, Some(nd.cfg.vsn)), env)
    && (nd.self in nd.table ==> nd.table[nd.self].inc <= nd.counter)
  }

  predicate OnRecord(nd: P.Node, inc: Uint32, addr: P.Addr, meta: P.Meta) {
    && nd.self in nd.table && nd.table[nd.self].status == P.Alive
    && nd.table[nd.self].inc == inc && nd.table[nd.self].addr == addr && nd.table[nd.self].meta == meta
  }

  lemma Recorded(nd: P.Node, addr: P.Addr, meta: P.Meta, env: P.Env)
    ensures HeardOut(nd, addr, meta, env) ==>
      OnRecord(R.Step(nd, R.Announce(nd.counter, addr, meta), env), nd.counter, addr, meta)
  {
    if HeardOut(nd, addr, meta, env) {
      E.AnnouncementIsRecorded(nd, nd.counter, addr, meta, env);
      R.StepKeepsIdentity(nd, R.Announce(nd.counter, addr, meta), env);
    }
  }

  function NameOf(n: Option<NodeState>): Option<Name> {
    if n.Some? then Some(n.value.name) else None
  }

  class Memberlist {
    const name: Name
    const config: P.Config
    /** for each k, the function n |-> log(n+1)/log(k+1) */
    const logRatio: int -> int -> real
    const maxTimeoutMult: int
    var incarnation: Uint32
    var numNodes: nat
    var leave: bool
    var nodes: seq<NodeState>
    var nodeMap: map<Name, NodeState>
    var nodeTimers: map<Name, Suspicion>
    var probeIndex: nat
    /** what has been handed to the broadcast queue, the network or itself so far */
    var outbox: seq<P.Msg>
    /** the objects a call may change: this, and the nodes and timers it has held */
    ghost var Repr: set<object>

    ghost predicate Valid()
      reads this
    {
      && this in Repr && OwnsNodes(nodeMap, Repr) && OwnsTimers(nodeTimers, Repr)
      && numNodes == |nodes|
      && Linked(nodes, nodeMap)
      && Apart(nodeTimers)
      && (forall k :: IsLogRatio(logRatio(k), k))
    }

    /** Every timer held keeps its own invariant, and its maximum is the configured multiple of its minimum. */
    ghost predicate TimersOk()
      reads this, nodeTimers.Values
    {
      SoundTimers(nodeTimers.Values, maxTimeoutMult)
    }

    ghost function View(): P.Node
      reads this, nodeMap.Values, nodeTimers.Values
    {
      P.Node(name, config, incarnation, leave, NamesOf(nodes), TableOf(nodeMap), TalliesOf(nodeTimers), probeIndex, outbox)
    }

    constructor (name: Name, config: P.Config, logRatio: int -> int -> real, maxTimeoutMult: int)
      requires forall k :: IsLogRatio(logRatio(k), k)
      ensures Valid() && TimersOk() && fresh(Repr)
      ensures View() == R.Fresh(name, config)
    {
      this.name, this.config, this.logRatio, this.maxTimeoutMult := name, config, logRatio, maxTimeoutMult;
      incarnation, numNodes, leave := 0, 0, false;
      nodes, nodeMap, nodeTimers := [], map[], map[];
      probeIndex, outbox := 0, [];
      Repr := {this};
    }

    method NextIncarnation() returns (inc: Uint32)
      modifies this`incarnation
      ensures inc == incarnation == P.NextInc(old(incarnation))
    {
      incarnation := (incarnation + 1) % UINT32_SIZE;
      inc := incarnation;
    }

    method SkipIncarnation(offset: int) returns (inc: Uint32)
      requires 0 <= offset
      modifies this`incarnation
      ensures inc == incarnation == (old(incarnation) + offset) % UINT32_SIZE
    {
      incarnation := (incarnation + offset) % UINT32_SIZE;
      inc := incarnation;
    }

    /** Draw an incarnation above the accusation; bumps are draws by other goroutines between the two additions. */
    method DrawAbove(accusedInc: Uint32, bumps: nat) returns (inc: Uint32)
      modifies this`incarnation
      ensures inc == incarnation == P.RefuteInc(old(incarnation), accusedInc, bumps)
    {
      inc := NextIncarnation();
      if accusedInc >= inc {
        var seen := (incarnation + bumps) % UINT32_SIZE;
        ModAdd(incarnation + bumps, accusedInc - inc + 1);
        incarnation := seen;
        inc := SkipIncarnation(accusedInc - inc + 1);
      }
    }

    // ------------------------------------------------------------- small updates

    method Broadcast(m: P.Msg)
      requires Valid()
      modifies this`outbox
      ensures Valid() && View() == P.Say(old(View()), m)
    {
      outbox := outbox + [m];
    }

    /** Write an entry into a node object. */
    method Record(n: NodeState, e: P.Entry)
      requires Valid() && n.name in nodeMap && nodeMap[n.name] == n
      modifies n
      ensures Valid() && n.Value() == e && View() == P.SetEntry(old(View()), n.name, e)
    {
      assert forall x :: x in nodeMap && x != n.name ==> nodeMap[x] != n;
      n.Set(e);
      assert TableOf(nodeMap) == old(TableOf(nodeMap))[n.name := e];
    }

    method DropTimer(x: Name)
      requires Valid()
      modifies this`nodeTimers
      ensures nodeTimers == old(nodeTimers) - {x}
      ensures Valid() && View() == P.ClearTimer(old(View()), x)
    {
      nodeTimers := nodeTimers - {x};
      assert TalliesOf(nodeTimers) == old(TalliesOf(nodeTimers)) - {x};
    }

    method NewTimer(from: Name, k: int, min: int, now: int) returns (t: Suspicion)
      requires Valid()
      modifies this`Repr
      ensures Valid() && fresh(t) && Repr == old(Repr) + {t} && View() == old(View())
      ensures SoundTimer(t, maxTimeoutMult) && t.View() == NewTally(from, k) && t.start == now && t.min == min
    {
      t := new Suspicion(from, k, min, maxTimeoutMult * min, logRatio(k), now);
      Repr := Repr + {t};
    }

    method SetTimer(x: Name, t: Suspicion)
      requires Valid() && t in Repr && t !in nodeTimers.Values && SoundTimer(t, maxTimeoutMult)
      modifies this`nodeTimers
      ensures old(TimersOk()) ==> TimersOk()
      ensures Valid() && nodeTimers == old(nodeTimers)[x := t] && View() == P.SetTimer(old(View()), x, t.View())
    {
      nodeTimers := nodeTimers[x := t];
      assert TalliesOf(nodeTimers) == old(TalliesOf(nodeTimers))[x := t.View()];
    }

    method StartTimer(x: Name, from: Name, k: int, min: int, now: int)
      requires Valid()
      modifies this`nodeTimers, this`Repr
      ensures old(TimersOk()) ==> TimersOk()
      ensures Valid() && fresh(Repr - old(Repr))
      ensures x in nodeTimers && nodeTimers[x].start == now && nodeTimers[x].min == min
      ensures View() == P.SetTimer(old(View()), x, NewTally(from, k))
    {
      var t := NewTimer(from, k, min, now);
      SetTimer(x, t);
    }

    method ConfirmTimer(x: Name, from: Name, now: int) returns (isNew: bool)
      requires Valid() && x in nodeTimers
      modifies nodeTimers[x]
      ensures old(TimersOk()) ==> TimersOk()
      ensures Valid() && isNew == Accepts(old(nodeTimers[x].View()), from)
      ensures View() == P.SetTimer(old(View()), x, Confirmed(old(nodeTimers[x].View()), from))
    {
      assert forall y :: y in nodeTimers && y != x ==> nodeTimers[y] != nodeTimers[x];
      ghost var table, tallies := TableOf(nodeMap), TalliesOf(nodeTimers);
      isNew := nodeTimers[x].Confirm(from, now);
      assert TableOf(nodeMap) == table && TalliesOf(nodeTimers) == tallies[x := Confirmed(tallies[x], from)];
    }

    /** Append a node object and swap it with the one at the offset. */
    method Enlist(state: NodeState, offset: nat)
      requires Valid() && state in Repr && state.name !in nodeMap && state !in nodes && offset <= |nodes|
      modifies this`nodes, this`nodeMap, this`numNodes
      ensures Valid() && nodeMap == old(nodeMap)[state.name := state]
      ensures View() == old(View()).(order := P.SwapIn(old(View()).order, state.name, offset),
                                     table := old(View()).table[state.name := state.Value()])
    {
      SwapInLinks(nodes, nodeMap, state, offset);
      nodeMap := nodeMap[state.name := state];
      nodes := P.SwapIn(nodes, state, offset);
      numNodes := numNodes + 1;
      assert TableOf(nodeMap) == old(TableOf(nodeMap))[state.name := state.Value()];
    }

    // ------------------------------------------------------------------ handlers

    /** Refute an accusation: outdo it, and say so. */
    method Refute(me: NodeState, accusedInc: Uint32, bumps: nat)
      requires Valid() && name in nodeMap && me == nodeMap[name]
      modifies this`incarnation, this`outbox, me
      ensures Valid() && View() == P.Refute(old(View()), accusedInc, bumps)
    {
      var inc := DrawAbove(accusedInc, bumps);
      Record(me, me.Value().(inc := inc));
      Broadcast(P.AliveM(P.AliveOf(name, me.Value())));
    }

    /** The gate an alive message must pass; moves says the sender has a new address. */
    method Screen(a: P.AliveMsg, env: P.Env) returns (pass: bool, moves: bool)
      requires Valid()
      ensures pass == P.Passes(View(), a, env) && moves == P.Moves(View(), a)
    {
      moves := a.node in nodeMap && nodeMap[a.node].addr != a.addr;
      if leave && a.node == name {
        return false, moves;
      }
      if a.vsn.Some? && a.vsn.value.Wrong() {
        return false, moves;
      }
      if config.aliveDelegate && (a.vsn.None? || !env.admit) {
        return false, moves;
      }
      if a.node !in nodeMap {
        return env.allowed, moves;
      }
      if moves {
        if !env.allowed {
          return false, moves;
        }
        var state := nodeMap[a.node];
        var canReclaim := config.reclaimTime > 0 && env.now - state.stateChange > config.reclaimTime;
        return state.state == P.Left || (state.state == P.Dead && canReclaim), moves;
      }
      return true, moves;
    }

    method NewState(a: P.AliveMsg) returns (state: NodeState)
      requires Valid()
      modifies this`Repr
      ensures Valid() && fresh(state) && Repr == old(Repr) + {state} && View() == old(View())
      ensures state.name == a.node && state.Value() == P.NewEntry(a)
    {
      state := new NodeState(a);
      Repr := Repr + {state};
    }

    method FindOrEnlist(a: P.AliveMsg, env: P.Env) returns (state: NodeState)
      requires Valid()
      modifies this`nodes, this`nodeMap, this`numNodes, this`Repr
      ensures Valid() && fresh(Repr - old(Repr)) && a.node in nodeMap && state == nodeMap[a.node] && state.name == a.node
      ensures a.node in old(nodeMap) ==> nodeMap == old(nodeMap)
      ensures a.node !in old(nodeMap) ==> fresh(state) && nodeMap == old(nodeMap)[a.node := state]
      ensures View() == P.Listed(old(View()), a, env.rnd)
    {
      if a.node in nodeMap {
        return nodeMap[a.node];
      }
      state := NewState(a);
      Enlist(state, P.RandomOffset(|nodes|, env.rnd));
    }

    method TakeAlive(state: NodeState, a: P.AliveMsg, moves: bool, bootstrap: bool, env: P.Env)
      requires Valid() && a.node in nodeMap && state == nodeMap[a.node]
      modifies this`incarnation, this`outbox, this`nodeTimers, state
      ensures Valid() && nodeTimers.Values <= old(nodeTimers.Values)
      ensures View() == P.TakeAlive(old(View()), a, moves, bootstrap, env)
    {
      var isLocalNode := state.name == name;
      if a.inc <= state.incarnation && !isLocalNode && !moves {
        return;
      }
      if a.inc < state.incarnation && isLocalNode {
        return;
      }
      DropTimer(a.node);
      if !bootstrap && isLocalNode {
        if a.inc == state.incarnation && a.meta == state.meta && a.vsn == Some(state.vsn) {
          return;
        }
        Refute(state, a.inc, env.bumps);
      } else {
        Broadcast(P.AliveM(a));
        Record(state, P.Revived(state.Value(), a, env.now));
      }
    }

    method AcceptAlive(a: P.AliveMsg, moves: bool, bootstrap: bool, env: P.Env)
      requires Valid()
      modifies this`nodes, this`nodeMap, this`numNodes, this`incarnation, this`outbox, this`nodeTimers, this`Repr
      modifies if a.node in nodeMap then {nodeMap[a.node]} else {}
      ensures old(TimersOk()) ==> TimersOk()
      ensures Valid() && fresh(Repr - old(Repr))
      ensures View() == P.TakeAlive(P.Listed(old(View()), a, env.rnd), a, moves, bootstrap, env)
    {
      var state := FindOrEnlist(a, env);
      TakeAlive(state, a, moves, bootstrap, env);
    }

    /** A message that a peer is alive (or, with bootstrap, that we are). */
    method AliveNode(a: P.AliveMsg, bootstrap: bool, env: P.Env)
      requires Valid()
      modifies Repr
      ensures old(TimersOk()) ==> TimersOk()
      ensures Valid() && fresh(Repr - old(Repr))
      ensures View() == P.AliveNode(old(View()), a, bootstrap, env)
    {
      var pass, moves := Screen(a, env);
      if pass {
        AcceptAlive(a, moves, bootstrap, env);
      }
    }

    method MarkSuspect(state: NodeState, s: P.SuspectMsg, now: int)
      requires Valid() && s.node in nodeMap && state == nodeMap[s.node]
      modifies this`outbox, state
      ensures Valid() && TimersOk() == old(TimersOk())
      ensures View() == P.MarkSuspect(old(View()), s, now)
    {
      Broadcast(P.SuspectM(s));
      Record(state, state.Value().(inc := s.inc, status := P.Suspect, change := now));
    }

    /** How many confirmations to wait for. */
    method Awaited() returns (k: int)
      requires Valid()
      ensures k == P.Expected(View())
    {
      k := config.suspicionMult - 2;
      if numNodes - 2 < k {
        k := 0;
      }
    }

    method BeginSuspicion(state: NodeState, s: P.SuspectMsg, env: P.Env, min: int)
      requires Valid() && s.node in nodeMap && state == nodeMap[s.node]
      modifies this`outbox, this`nodeTimers, this`Repr, state
      ensures old(TimersOk()) ==> TimersOk()
      ensures Valid() && fresh(Repr - old(Repr))
      ensures s.node in nodeTimers && nodeTimers[s.node].start == env.now && nodeTimers[s.node].min == min
      ensures View() == P.BeginSuspicion(old(View()), s, env.now)
    {
      MarkSuspect(state, s, env.now);
      var k := Awaited();
      StartTimer(s.node, s.from, k, min, env.now);
    }

    /** One more accuser of a suspect. */
    method ConfirmSuspicion(s: P.SuspectMsg, env: P.Env)
      requires Valid() && s.node in nodeMap && nodeMap[s.node].incarnation <= s.inc && s.node in nodeTimers
      modifies Repr
      ensures old(TimersOk()) ==> TimersOk()
      ensures Valid() && fresh(Repr - old(Repr))
      ensures View() == P.SuspectNode(old(View()), s, env)
    {
      var isNew := ConfirmTimer(s.node, s.from, env.now);
      if isNew {
        Broadcast(P.SuspectM(s));
      }
    }

    /** An accusation that a peer has failed; min is the timeout the cluster size calls for. */
    method SuspectNode(s: P.SuspectMsg, env: P.Env, min: int)
      requires Valid()
      modifies Repr
      ensures old(TimersOk()) ==> TimersOk()
      ensures Valid() && fresh(Repr - old(Repr))
      ensures View() == P.SuspectNode(old(View()), s, env)
    {
      if s.node !in nodeMap {
        return;
      }
      var state := nodeMap[s.node];
      if s.inc < state.incarnation {
        return;
      }
      if s.node in nodeTimers {
        ConfirmSuspicion(s, env);
        return;
      }
      if state.state != P.Alive {
        return;
      }
      if state.name == name {
        Refute(state, s.inc, env.bumps);
        return;
      }
      BeginSuspicion(state, s, env, min);
    }

    /** The news that a peer is dead, or has left when it says so itself. */
    method DeadNode(d: P.DeadMsg, env: P.Env)
      requires Valid()
      modifies Repr
      ensures old(TimersOk()) ==> TimersOk()
      ensures Valid() && fresh(Repr - old(Repr))
      ensures View() == P.DeadNode(old(View()), d, env)
    {
      if d.node !in nodeMap {
        return;
      }
      var state := nodeMap[d.node];
      if d.inc < state.incarnation {
        return;
      }
      AcceptDead(state, d, env);
    }

    method AcceptDead(state: NodeState, d: P.DeadMsg, env: P.Env)
      requires Valid() && d.node in nodeMap && state == nodeMap[d.node] && state.incarnation <= d.inc
      modifies this`incarnation, this`outbox, this`nodeTimers, state
      ensures Valid() && nodeTimers.Values <= old(nodeTimers.Values)
      ensures View() == P.DeadNode(old(View()), d, env)
    {
      DropTimer(d.node);
      if state.state.DeadOrLeft() {
        return;
      }
      if state.name == name && !leave {
        Refute(state, d.inc, env.bumps);
        return;
      }
      Broadcast(P.DeadM(d));
      Record(state, state.Value().(inc := d.inc, status := if d.node == d.from then P.Left else P.Dead, change := env.now));
    }

    method Install(newNodes: seq<NodeState>, newMap: map<Name, NodeState>)
      requires Valid() && Linked(newNodes, newMap) && OwnsNodes(newMap, Repr)
      modifies this`nodes, this`nodeMap, this`numNodes
      ensures Valid() && nodes == newNodes && nodeMap == newMap
      ensures View() == old(View()).(order := NamesOf(newNodes), table := old(TableOf(newMap)))
    {
      ghost var t := TableOf(newMap);
      numNodes, nodes, nodeMap := |newNodes|, newNodes, newMap;
      assert TableOf(newMap) == t;
    }

    /** The end of a probe round: reap the expired dead, then shuffle the rest. */
    method ResetNodes(now: int, draws: nat -> nat)
      requires Valid()
      modifies this`nodes, this`nodeMap, this`numNodes
      ensures Valid() && |nodes| <= old(|nodes|)
      ensures nodeMap.Values <= old(nodeMap.Values)
      ensures P.IsShuffle(old(View()), now, NamesOf(nodes))
      ensures View() == P.Reap(old(View()), now, NamesOf(nodes))
    {
      ghost var v := View();
      var kept, m := Survivors(nodes, nodeMap, now, config.deadTime);
      var shuffled := ShuffleNodes(kept, draws);
      PermutationLinks(kept, shuffled, m);
      LinkedNames(shuffled, m);
      SurvivorTable(nodeMap, m, v, now);
      Install(shuffled, m);
    }

    // ------------------------------------------------------- push/pull and timeouts

    /** One row of a received table. */
    method MergeOne(r: P.PushState, env: P.Env, min: int)
      requires Valid()
      modifies Repr
      ensures old(TimersOk()) ==> TimersOk()
      ensures Valid() && fresh(Repr - old(Repr))
      ensures View() == P.MergeOne(old(View()), r, env)
    {
      match r.status
      case Alive => AliveNode(P.AliveMsg(r.inc, r.node, r.addr, r.meta, r.vsn), false, env);
      case Left => DeadNode(P.DeadMsg(r.inc, r.node, r.node), env);
      case Dead => SuspectNode(P.SuspectMsg(r.inc, r.node, name), env, min);
      case Suspect => SuspectNode(P.SuspectMsg(r.inc, r.node, name), env, min);
    }

    /** A received table, row by row, each at its own moment. */
    method MergeState(remote: seq<P.PushState>, envs: seq<P.Env>, min: int)
      requires Valid() && |envs| == |remote|
      modifies Repr
      ensures old(TimersOk()) ==> TimersOk()
      ensures Valid() && fresh(Repr - old(Repr))
      ensures View() == P.MergeState(old(View()), remote, envs)
    {
      ghost var v := View();
      for i := 0 to |remote|
        invariant Valid() && fresh(Repr - old(Repr)) && (old(TimersOk()) ==> TimersOk())
        invariant View() == P.MergeState(v, remote[..i], envs[..i])
      {
        assert remote[..i + 1][..i] == remote[..i] && envs[..i + 1][..i] == envs[..i];
        MergeOne(remote[i], envs[i], min);
      }
      assert remote[..|remote|] == remote && envs[..|remote|] == envs;
    }

    /** The first half of the callback of a suspicion begun at the instant changeTime. */
    method CheckTimeout(x: Name, changeTime: int) returns (d: Option<P.DeadMsg>)
      requires Valid()
      modifies this`outbox
      ensures Valid() && d == P.TimeoutDue(old(View()), x, changeTime)
      ensures forall env :: View() == R.Step(old(View()), R.Check(x, changeTime), env)
    {
      d := None;
      if x in nodeMap {
        var state := nodeMap[x];
        if state.state == P.Suspect && state.stateChange == changeTime {
          d := Some(P.DeadMsg(state.incarnation, state.name, name));
          Broadcast(P.DeadM(d.value));
        }
      }
    }

    /**
     * The callback of a suspicion's timer, which was started at the deadline or by a confirmation that
     * found it overdue. The suspicion began when its timer was made (BeginSuspicion), so a peer is found
     * to be overdue no sooner than the minimum after that.
     */
    method TimeoutCallback(t: Suspicion, x: Name, ghost now: int) returns (d: Option<P.DeadMsg>)
      requires Valid() && t.Valid() && t.runs != [] && t.runs[0] <= now
      modifies this`outbox
      ensures Valid() && d == P.TimeoutDue(old(View()), x, t.start)
      ensures forall env :: View() == R.Step(old(View()), R.Check(x, t.start), env)
      ensures d.Some? && t.min <= t.max ==>
        x in old(View()).table && old(View()).table[x].change + t.min <= now
    {
      assert t.runs[0] in t.runs;
      d := CheckTimeout(x, t.start);
    }

    // ---------------------------------------------------------- joining and leaving

    method Announce(inc: Uint32, addr: P.Addr, meta: P.Meta, env: P.Env)
      requires Valid()
      modifies Repr
      ensures old(TimersOk()) ==> TimersOk()
      ensures Valid() && fresh(Repr - old(Repr))
      ensures View() == R.Step(old(View()), R.Announce(inc, addr, meta), env)
    {
      AliveNode(P.AliveMsg(inc, name, addr, meta, Some(config.vsn)), true, env);
    }

    method Draw() returns (inc: Uint32)
      requires Valid()
      modifies this`incarnation
      ensures Valid() && View() == old(View()).(counter := P.NextInc(old(incarnation))) && inc == View().counter
    {
      inc := NextIncarnation();
    }

    /** setAlive: the announcement that creates a member. */
    method SetAlive(meta: P.Meta, env: P.Env) returns (ghost drawn: P.Node)
      requires Valid()
      modifies Repr
      ensures old(TimersOk()) ==> TimersOk()
      ensures Valid() && fresh(Repr - old(Repr))
      ensures drawn == old(View()).(counter := P.NextInc(old(incarnation)))
      ensures View() == R.Step(drawn, R.Announce(drawn.counter, config.addr, meta), env)
      ensures HeardOut(drawn, config.addr, meta, env) ==> OnRecord(View(), drawn.counter, config.addr, meta)
    {
      var inc := Draw();
      drawn := View();
      Announce(inc, config.addr, meta, env);
      Recorded(drawn, config.addr, meta, env);
    }

    /** UpdateNode: announce new metadata under a new incarnation. */
    method UpdateNode(meta: P.Meta, env: P.Env) returns (ghost drawn: P.Node)
      requires Valid() && name in nodeMap
      modifies Repr
      ensures old(TimersOk()) ==> TimersOk()
      ensures Valid() && fresh(Repr - old(Repr))
      ensures drawn == old(View()).(counter := P.NextInc(old(incarnation)))
      ensures View() == R.Step(drawn, R.Announce(drawn.counter, drawn.table[name].addr, meta), env)
      ensures HeardOut(drawn, drawn.table[name].addr, meta, env) ==>
        OnRecord(View(), drawn.counter, drawn.table[name].addr, meta)
    {
      var state := nodeMap[name];
      var inc := Draw();
      drawn := View();
      Announce(inc, state.addr, meta, env);
      Recorded(drawn, drawn.table[name].addr, meta, env);
    }

    /** So the deadline of every running timer lies between the minimum and its configured multiple. */
    lemma DeadlineBounds(x: Name)
      requires TimersOk() && x in nodeTimers && 1 <= maxTimeoutMult && 0 <= nodeTimers[x].min
      ensures var t := nodeTimers[x];
        t.timer.Armed? ==> t.start + t.min <= t.timer.deadline <= t.start + maxTimeoutMult * t.min
    {
      var t := nodeTimers[x];
      assert t in nodeTimers.Values && SoundTimer(t, maxTimeoutMult);
      assert t.min <= maxTimeoutMult * t.min;
      ScheduledBounds(t.n, t.k, t.min, t.max, t.ratio);
    }

    // ------------------------------------------------------------------ interleaving

    method Receive(l: Letter)
      requires Valid()
      modifies Repr
      ensures old(TimersOk()) ==> TimersOk()
      ensures Valid() && fresh(Repr - old(Repr))
      ensures View() == R.Step(old(View()), R.Recv(l.m), l.env)
    {
      match l.m
      case AliveM(a) => AliveNode(a, false, l.env);
      case SuspectM(s) => SuspectNode(s, l.env, l.min);
      case DeadM(d) => DeadNode(d, l.env);
      case PushM(r) => MergeOne(r, l.env, l.min);
    }

    method ReceiveNext(l: Letter, ghost from: P.Node, ghost p: R.Path) returns (ghost q: R.Path)
      requires Valid() && p.From(from, View())
      modifies Repr
      ensures old(TimersOk()) ==> TimersOk()
      ensures Valid() && fresh(Repr - old(Repr)) && leave == old(leave)
      ensures q.From(from, View()) && Adds(p, q, [R.Recv(l.m)], [l.env])
    {
      ghost var here := View();
      Receive(l);
      R.OneMoreStep(p, from, here, R.Recv(l.m), l.env, View());
      q := p.Then(R.Recv(l.m), l.env, View());
    }

    /** What other goroutines handle while the lock is free; p is the path that leads here. */
    method ReceiveAll(mail: seq<Letter>, ghost from: P.Node, ghost p: R.Path) returns (ghost q: R.Path)
      requires Valid() && p.From(from, View())
      modifies Repr
      ensures old(TimersOk()) ==> TimersOk()
      ensures Valid() && fresh(Repr - old(Repr)) && leave == old(leave)
      ensures q.From(from, View()) && Adds(p, q, Receipts(mail), Envs(mail))
      ensures mail == [] ==> nodes == old(nodes)
    {
      q := p;
      for i := 0 to |mail|
        invariant Valid() && fresh(Repr - old(Repr)) && (old(TimersOk()) ==> TimersOk())
        invariant q.From(from, View()) && leave == old(leave) && Adds(p, q, Receipts(mail)[..i], Envs(mail)[..i])
        invariant i == 0 ==> nodes == old(nodes)
      {
        q := ReceiveNext(mail[i], from, q);
        assert Receipts(mail)[..i + 1] == Receipts(mail)[..i] + [R.Recv(mail[i].m)];
        assert Envs(mail)[..i + 1] == Envs(mail)[..i] + [mail[i].env];
      }
    }

    method SetLeave(env: P.Env, ghost from: P.Node, ghost p: R.Path) returns (ghost q: R.Path)
      requires Valid() && p.From(from, View())
      modifies this`leave
      ensures Valid() && leave && q.From(from, View()) && q.evs == p.evs + [R.Quit]
    {
      ghost var here := View();
      leave := true;
      R.OneMoreStep(p, from, here, R.Quit, env, View());
      q := p.Then(R.Quit, env, View());
    }

    /** The farewell, built from the entry as it is read. */
    method BuildFarewell(env: P.Env, ghost from: P.Node, ghost p: R.Path) returns (d: P.DeadMsg, ghost q: R.Path)
      requires Valid() && leave && name in nodeMap && p.From(from, View())
      modifies this`outbox
      ensures Valid() && IsFarewell(d, old(View()))
      ensures q.From(from, View()) && q.evs == p.evs + [R.Farewell(d.inc)] && p.states <= q.states
    {
      ghost var here := View();
      d := P.DeadMsg(nodeMap[name].incarnation, name, name);
      Broadcast(P.DeadM(d));
      R.OneMoreStep(p, from, here, R.Farewell(d.inc), env, View());
      q := p.Then(R.Farewell(d.inc), env, View());
    }

    method FarewellThenMail(env: P.Env, between: seq<Letter>, ghost from: P.Node, ghost p: R.Path)
      returns (d: P.DeadMsg, ghost q: R.Path)
      requires Valid() && leave && name in nodeMap && p.From(from, View())
      modifies Repr
      ensures old(TimersOk()) ==> TimersOk()
      ensures Valid() && fresh(Repr - old(Repr)) && leave && IsFarewell(d, old(View()))
      ensures q.From(from, View()) && q.evs == p.evs + [R.Farewell(d.inc)] + Receipts(between) && p.states <= q.states
    {
      d, q := BuildFarewell(env, from, p);
      q := ReceiveAll(between, from, q);
    }

    method SayFarewell(env: P.Env, between: seq<Letter>, ghost from: P.Node, ghost p: R.Path)
      returns (d: P.DeadMsg, ghost q: R.Path)
      requires Valid() && leave && name in nodeMap && p.From(from, View())
      modifies Repr
      ensures old(TimersOk()) ==> TimersOk()
      ensures Valid() && fresh(Repr - old(Repr)) && leave && IsFarewell(d, old(View()))
      ensures q.From(from, View()) && q.evs == p.evs + Parting(d, between) && p.states <= q.states
    {
      d, q := FarewellThenMail(env, between, from, p);
      q := ReceiveNext(Letter(P.DeadM(d), env, 0), from, q);
      PartingLast(p.evs, d, between);
    }

    method FinishLeave(env: P.Env, between: seq<Letter>, ghost from: P.Node, ghost p: R.Path)
      returns (d: Option<P.DeadMsg>, ghost q: R.Path)
      requires Valid() && leave && p.From(from, View())
      modifies Repr
      ensures old(TimersOk()) ==> TimersOk()
      ensures Valid() && fresh(Repr - old(Repr)) && leave
      ensures q.From(from, View()) && q.evs == p.evs + Farewells(d, between) && p.states <= q.states
      ensures d.None? <==> name !in old(View()).table
      ensures d.Some? ==> IsFarewell(d.value, old(View()))
    {
      if name !in nodeMap {
        return None, p;
      }
      var farewell;
      farewell, q := SayFarewell(env, between, from, p);
      d := Some(farewell);
    }

    method LeaveThenMail(env: P.Env, before: seq<Letter>) returns (ghost p: R.Path)
      requires Valid()
      modifies Repr
      ensures old(TimersOk()) ==> TimersOk()
      ensures Valid() && fresh(Repr - old(Repr)) && leave
      ensures p.From(old(View()), View()) && p.evs == [R.Quit] + Receipts(before)
    {
      ghost var from := View();
      p := SetLeave(env, from, R.Start(from));
      p := ReceiveAll(before, from, p);
    }

    method FirstLeave(env: P.Env, before: seq<Letter>, between: seq<Letter>) returns (d: Option<P.DeadMsg>, ghost p: R.Path)
      requires Valid()
      modifies Repr
      ensures old(TimersOk()) ==> TimersOk()
      ensures Valid() && fresh(Repr - old(Repr)) && leave && p.From(old(View()), View())
      ensures Leaves(p, d, name, before, between)
    {
      ghost var from := View();
      p := LeaveThenMail(env, before);
      d, p := FinishLeave(env, between, from, p);
    }

    /**
     * Leave: the flag, then the farewell built from the own entry, then the farewell applied. The lock is free
     * before and after the farewell is built, and other goroutines may handle anything meanwhile.
     */
    method Leave(env: P.Env, before: seq<Letter>, between: seq<Letter>) returns (d: Option<P.DeadMsg>, ghost p: R.Path)
      requires Valid()
      modifies Repr
      ensures old(TimersOk()) ==> TimersOk()
      ensures Valid() && fresh(Repr - old(Repr)) && leave && p.From(old(View()), View())
      ensures if old(leave) then d.None? && p.evs == [] else Leaves(p, d, name, before, between)
    {
      if leave {
        return None, R.Start(View());
      }
      d, p := FirstLeave(env, before, between);
    }

    // ------------------------------------------------------------------------ probing

    /** Look at the next member of the list. */
    method ConsiderNext() returns (node: NodeState, skip: bool)
      requires Valid() && probeIndex < |nodes|
      modifies this`probeIndex
      ensures Valid() && node == nodes[old(probeIndex)] && probeIndex == old(probeIndex) + 1
      ensures node.name == Next(old(View())) && (skip <==> !Eligible(old(View()), node.name))
      ensures forall env :: R.Steps(old(View()), R.Consider, env, View())
    {
      node := nodes[probeIndex];
      skip := node.name == name || node.state.DeadOrLeft();
      probeIndex := probeIndex + 1;
    }

    method Rewind()
      requires Valid()
      modifies this`probeIndex
      ensures Valid() && forall env :: R.Steps(old(View()), R.Rewind, env, View())
    {
      probeIndex := 0;
    }

    /** The list is exhausted: reset it and start over. */
    method WrapAround(env: P.Env, draws: nat -> nat) returns (ghost mid: P.Node)
      requires Valid()
      modifies this`probeIndex, this`nodes, this`nodeMap, this`numNodes
      ensures Valid() && nodeMap.Values <= old(nodeMap.Values) && |nodes| <= old(|nodes|)
      ensures R.Steps(old(View()), R.Reset(mid.order), env, mid) && R.Steps(mid, R.Rewind, env, View())
    {
      ResetNodes(env.now, draws);
      mid := View();
      Rewind();
    }

    /** The list is exhausted; others may act before it is reset. */
    method Wrap(env: P.Env, draws: nat -> nat, mail: seq<Letter>, ghost from: P.Node, ghost p: R.Path) returns (ghost q: R.Path)
      requires Valid() && p.From(from, View())
      modifies Repr
      ensures old(TimersOk()) ==> TimersOk()
      ensures Valid() && fresh(Repr - old(Repr)) && q.From(from, View())
      ensures Extends(p, q) && Wraps(q, |p.evs|, |q.evs|, mail, env)
      ensures mail == [] ==> |nodes| <= old(|nodes|)
    {
      ghost var mailed := ReceiveAll(mail, from, p);
      ghost var here := View();
      ghost var mid := WrapAround(env, draws);
      R.OneMoreStep(mailed, from, here, R.Reset(mid.order), env, mid);
      q := mailed.Then(R.Reset(mid.order), env, mid);
      R.OneMoreStep(q, from, mid, R.Rewind, env, View());
      q := q.Then(R.Rewind, env, View());
      WrapDone(p, mailed, q, mail, mid.order, env);
    }

    method Look(env: P.Env, ghost from: P.Node, ghost p: R.Path) returns (node: NodeState, skip: bool, ghost q: R.Path)
      requires Valid() && probeIndex < |nodes| && p.From(from, View())
      modifies this`probeIndex
      ensures Valid() && node == nodes[old(probeIndex)] && probeIndex == old(probeIndex) + 1
      ensures node.name == Next(old(View())) && (skip <==> !Eligible(old(View()), node.name))
      ensures q.From(from, View()) && Adds(p, q, [R.Consider], [env])
    {
      ghost var here := View();
      node, skip := ConsiderNext();
      R.OneMoreStep(p, from, here, R.Consider, env, View());
      q := p.Then(R.Consider, env, View());
    }

    /** n is the member just considered. */
    ghost predicate Chosen(n: NodeState)
      reads this
    {
      0 < probeIndex <= |nodes| && nodes[probeIndex - 1] == n
    }

    /** Look at the next member and pick it unless it is to be skipped. */
    method LookAndDecide(env: P.Env, ghost mail: seq<Letter>, ghost numCheck: nat, ghost from: P.Node, ghost p: R.Path)
      returns (done: bool, target: Option<NodeState>, ghost q: R.Path)
      requires Valid() && probeIndex < |nodes| && numCheck < |nodes| && p.From(from, View())
      modifies this`probeIndex
      ensures Valid() && q.From(from, View())
      ensures Extends(p, q) && Decides(q, |p.evs|, |q.evs|, mail, env, numCheck, done, NameOf(target))
      ensures target.Some? ==> Chosen(target.value)
    {
      ghost var here := View();
      var node, skip;
      node, skip, q := Look(env, from, p);
      LookDecides(p, q, here, mail, env, numCheck, skip);
      if skip {
        return false, None, q;
      }
      return true, Some(node), q;
    }

    /** The outcome of a turn under the lock: go on, give up, or the member to probe. */
    method Decide(env: P.Env, draws: nat -> nat, mail: seq<Letter>, numCheck: nat, ghost from: P.Node, ghost p: R.Path)
      returns (done: bool, target: Option<NodeState>, ghost q: R.Path)
      requires Valid() && p.From(from, View())
      modifies Repr
      ensures old(TimersOk()) ==> TimersOk()
      ensures Valid() && fresh(Repr - old(Repr)) && q.From(from, View())
      ensures Extends(p, q) && Decides(q, |p.evs|, |q.evs|, mail, env, numCheck, done, NameOf(target))
      ensures !done && mail == [] ==> |nodes| <= old(|nodes|)
      ensures target.Some? ==> Chosen(target.value)
    {
      q := p;
      if numCheck >= |nodes| {
        return true, None, q;
      }
      if probeIndex >= |nodes| {
        ghost var here := View();
        q := Wrap(env, draws, mail, from, q);
        WrapDecides(p, q, here, mail, env, numCheck);
        return false, None, q;
      }
      done, target, q := LookAndDecide(env, mail, numCheck, from, q);
    }

    method TakeTurn(env: P.Env, draws: nat -> nat, mail: Turn, numCheck: nat, ghost from: P.Node, ghost p: R.Path)
      returns (done: bool, target: Option<NodeState>, ghost q: R.Path)
      requires Valid() && p.From(from, View())
      modifies Repr
      ensures old(TimersOk()) ==> TimersOk()
      ensures Valid() && fresh(Repr - old(Repr)) && q.From(from, View())
      ensures Extends(p, q) && TakesTurn(q, mail, env, numCheck, |p.evs|, |q.evs|, done, NameOf(target))
      ensures mail == Turn([], []) && !done ==> numCheck < old(|nodes|) && |nodes| <= old(|nodes|)
      ensures target.Some? ==> Chosen(target.value)
    {
      ghost var mailed := ReceiveAll(mail.before, from, p);
      done, target, q := Decide(env, draws, mail.beforeReset, numCheck, from, mailed);
      TurnDone(p, mailed, q, mail, env, numCheck, done, NameOf(target));
    }

    /** One more turn of a call. */
    method GoOn(env: P.Env, draws: nat -> nat, mail: Turn, numCheck: nat, ghost from: P.Node, ghost c: Call)
      returns (done: bool, target: Option<NodeState>, ghost d: Call)
      requires Valid() && c.p.From(from, View()) && c.Going()
      requires |c.marks| == numCheck + 1 && c.marks[numCheck] == |c.p.evs| && mail == MailOf(c.mail, numCheck) && env == c.clock(numCheck)
      modifies Repr
      ensures old(TimersOk()) ==> TimersOk()
      ensures Valid() && fresh(Repr - old(Repr)) && d.p.From(from, View())
      ensures d.mail == c.mail && d.clock == c.clock && d.target == NameOf(target)
      ensures if done then d.Valid() else d.Going() && |d.marks| == numCheck + 2 && d.marks[numCheck + 1] == |d.p.evs|
      ensures mail == Turn([], []) && !done ==> numCheck < old(|nodes|) && |nodes| <= old(|nodes|)
      ensures target.Some? ==> Chosen(target.value)
    {
      ghost var q;
      done, target, q := TakeTurn(env, draws, mail, numCheck, from, c.p);
      d := NextTurn(c, q, done, NameOf(target));
    }

    /**
     * Pick the next member to probe. The lock is dropped between turns, and before a reset; what other
     * goroutines handle meanwhile is given turn by turn. Whatever arrives in those finitely many turns,
     * the loop ends; c is what it did.
     */
    method Probe(envs: nat -> P.Env, draws: nat -> nat -> nat, mail: seq<Turn>)
      returns (target: Option<NodeState>, ghost c: Call)
      requires Valid()
      modifies Repr
      ensures old(TimersOk()) ==> TimersOk()
      ensures Valid() && fresh(Repr - old(Repr)) && c.p.From(old(View()), View())
      ensures c.Valid() && c.mail == mail && c.clock == envs && c.target == NameOf(target)
      ensures target.Some? ==> Chosen(target.value)
    {
      ghost var from := View();
      c := Call(R.Start(from), [0], mail, envs, None);
      var numCheck, done := 0, false;
      target := None;
      while !done
        invariant Valid() && fresh(Repr - old(Repr)) && (old(TimersOk()) ==> TimersOk())
        invariant c.p.From(from, View()) && c.mail == mail && c.clock == envs
        invariant !done ==> c.Going() && |c.marks| == numCheck + 1 && c.marks[numCheck] == |c.p.evs|
        invariant done ==> c.Valid() && c.target == NameOf(target)
        invariant target.Some? ==> Chosen(target.value)
        decreases !done, if numCheck < |mail| then |mail| - numCheck else 0, |nodes| - numCheck
      {
        var now := if numCheck < |mail| then mail[numCheck] else Turn([], []);
        done, target, c := GoOn(envs(numCheck), draws(numCheck), now, numCheck, from, c);
        numCheck := numCheck + 1;
      }
    }
  }
}
