/** Queued database operations and their merging (unitofwork/operation.go, unitofwork.go:467-507). */
module Operations {
  import opened Base
  import opened DependencyGraph
  import opened Dependency

  datatype Kind = Insert | Update | Delete

  datatype Operation =
    | Single(kind: Kind, entity: Entity)
    | Bulk(kind: Kind, entities: seq<Entity>)

  /** The first entity, if there is one. */
  function GetEntity(op: Operation): Option<Entity> {
    match op
    case Single(_, e) => Some(e)
    case Bulk(_, es) => if es == [] then None else Some(es[0])
  }

  function GetEntityType(op: Operation): Option<TypeName> {
    match GetEntity(op)
    case Some(e) => Some(e.etype)
    case None => None
  }

  /** Everything the operation writes, in order. */
  function Payload(op: Operation): seq<Entity> {
    match op
    case Single(_, e) => [e]
    case Bulk(_, es) => es
  }

  predicate SameIdentity(op: Operation, other: Operation) {
    op.Single? && other.Single? && op.kind == other.kind
    && op.entity.id == other.entity.id && op.entity.etype == other.entity.etype
  }

  predicate CanMerge(op: Operation, other: Operation) {
    op.kind == other.kind && (op.Single? ==> other.Single?) && GetEntityType(op) == GetEntityType(other)
  }

  function Merge(op: Operation, other: Operation): Operation {
    if !CanMerge(op, other) then op else Bulk(op.kind, Payload(op) + Payload(other))
  }

  /** Operations merge if they agree in kind and type, but a single one takes in no bulk; else nothing changes. */
  lemma MergeMeans(op: Operation, other: Operation)
    requires Payload(op) != [] && Payload(other) != []
    ensures if op.kind == other.kind && Payload(op)[0].etype == Payload(other)[0].etype && (op.Bulk? || other.Single?)
            then Merge(op, other).kind == op.kind && Payload(Merge(op, other)) == Payload(op) + Payload(other)
            else Merge(op, other) == op
  {
  }

  // -------------------------------------------------------------------------- merging

  /** What has to agree for two operations to be merged. */
  datatype Class = Class(kind: Kind, etype: TypeName)

  ghost predicate AllSingle(ops: seq<Operation>) {
    forall i :: 0 <= i < |ops| ==> ops[i].Single?
  }

  function ClassOf(op: Operation): Class
    requires GetEntity(op).Some?
  {
    Class(op.kind, GetEntity(op).value.etype)
  }

  ghost predicate NonEmpty(ops: seq<Operation>) {
    forall i :: 0 <= i < |ops| ==> GetEntity(ops[i]).Some?
  }

  function Classes(ops: seq<Operation>): (r: seq<Class>)
    requires NonEmpty(ops)
    ensures |r| == |ops| && forall i :: 0 <= i < |ops| ==> r[i] == ClassOf(ops[i])
  {
    seq(|ops|, i requires 0 <= i < |ops| => ClassOf(ops[i]))
  }

  /** c takes in what it can of rest, in order; the rest stays. */
  function AbsorbInto(c: Operation, rest: seq<Operation>): (Operation, seq<Operation>)
    decreases |rest|
  {
    if rest == [] then (c, [])
    else if CanMerge(c, rest[0]) then AbsorbInto(Merge(c, rest[0]), rest[1..])
    else
      var r := AbsorbInto(c, rest[1..]);
      (r.0, [rest[0]] + r.1)
  }

  lemma {:induction false} AbsorbShrinks(c: Operation, rest: seq<Operation>)
    ensures |AbsorbInto(c, rest).1| <= |rest|
    decreases |rest|
  {
    if rest != [] {
      AbsorbShrinks(if CanMerge(c, rest[0]) then Merge(c, rest[0]) else c, rest[1..]);
    }
  }

  /** Each operation in turn takes in what it can of those behind it. */
  function MergeAll(ops: seq<Operation>): seq<Operation>
    decreases |ops|
  {
    if ops == [] then [] else
    var r := AbsorbInto(ops[0], ops[1..]);
    AbsorbShrinks(ops[0], ops[1..]);
    [r.0] + MergeAll(r.1)
  }

  /** The operations from i on that have not been processed. */
  function Open(ops: seq<Operation>, i: nat, processed: set<nat>): seq<Operation>
    requires i <= |ops|
    decreases |ops| - i
  {
    if i == |ops| then []
    else if i in processed then Open(ops, i + 1, processed)
    else [ops[i]] + Open(ops, i + 1, processed)
  }

  lemma {:induction false} OpenAfter(ops: seq<Operation>, i: nat, processed: set<nat>, now: set<nat>)
    requires i <= |ops| && forall j :: i <= j < |ops| ==> (j in now <==> j in processed)
    ensures Open(ops, i, processed) == Open(ops, i, now)
    decreases |ops| - i
  {
    if i < |ops| {
      OpenAfter(ops, i + 1, processed, now);
    }
  }

  lemma {:induction false} OpenAll(ops: seq<Operation>, i: nat)
    requires i <= |ops|
    ensures Open(ops, i, {}) == ops[i..]
    decreases |ops| - i
  {
    if i < |ops| {
      OpenAll(ops, i + 1);
    }
  }

  /** The unprocessed operations between i and j. */
  function OpenTo(ops: seq<Operation>, i: nat, j: nat, processed: set<nat>): seq<Operation>
    requires i <= j <= |ops|
  {
    if i == j then []
    else if j - 1 in processed then OpenTo(ops, i, j - 1, processed)
    else OpenTo(ops, i, j - 1, processed) + [ops[j - 1]]
  }

  lemma {:induction false} OpenToSame(ops: seq<Operation>, i: nat, j: nat, processed: set<nat>, now: set<nat>)
    requires i <= j <= |ops| && forall k :: i <= k < j ==> (k in now <==> k in processed)
    ensures OpenTo(ops, i, j, processed) == OpenTo(ops, i, j, now)
  {
    if i < j {
      OpenToSame(ops, i, j - 1, processed, now);
    }
  }

  lemma {:induction false} OpenJoins(ops: seq<Operation>, i: nat, j: nat, processed: set<nat>)
    requires i <= j <= |ops|
    ensures OpenTo(ops, i, j, processed) + Open(ops, j, processed) == Open(ops, i, processed)
    decreases j - i
  {
    if i < j {
      OpenJoins(ops, i, j - 1, processed);
      Associate(OpenTo(ops, i, j - 1, processed), [ops[j - 1]], Open(ops, j, processed));
    } else {
      assert [] + Open(ops, j, processed) == Open(ops, j, processed);
    }
  }

  /** Part way through the inner loop: what the rest of it will make of current and of the operations passed by. */
  ghost predicate Absorbing(goal: (Operation, seq<Operation>), current: Operation, passed: seq<Operation>, rest: seq<Operation>) {
    goal == (AbsorbInto(current, rest).0, passed + AbsorbInto(current, rest).1)
  }

  lemma Unpassed<T>(s: seq<T>)
    ensures [] + s == s && s + [] == s
  {
  }

  lemma AbsorbingNext(goal: (Operation, seq<Operation>), current: Operation, passed: seq<Operation>, op: Operation, rest: seq<Operation>)
    requires Absorbing(goal, current, passed, [op] + rest)
    ensures CanMerge(current, op) ==> Absorbing(goal, Merge(current, op), passed, rest)
    ensures !CanMerge(current, op) ==> Absorbing(goal, current, passed + [op], rest)
  {
    assert ([op] + rest)[1..] == rest;
    Associate(passed, [op], AbsorbInto(current, rest).1);
  }

  lemma OpenToNext(ops: seq<Operation>, i: nat, j: nat, was: set<nat>, now: set<nat>)
    requires i <= j < |ops| && forall k :: i <= k < j ==> (k in now <==> k in was)
    ensures OpenTo(ops, i, j + 1, now) == if j in now then OpenTo(ops, i, j, was) else OpenTo(ops, i, j, was) + [ops[j]]
  {
    OpenToSame(ops, i, j, was, now);
  }

  /** The inner loop: take in what can be merged of the later operations. */
  method Absorb(ops: seq<Operation>, i: nat, processed: set<nat>) returns (current: Operation, now: set<nat>)
    requires i < |ops| && i !in processed
    ensures (current, Open(ops, i + 1, now)) == AbsorbInto(ops[i], Open(ops, i + 1, processed))
  {
    ghost var goal := AbsorbInto(ops[i], Open(ops, i + 1, processed));
    ghost var passed: seq<Operation> := [];
    current, now := ops[i], processed + {i};
    Unpassed(goal.1);
    for j := i + 1 to |ops|
      invariant forall k :: j <= k < |ops| ==> (k in now <==> k in processed)
      invariant passed == OpenTo(ops, i + 1, j, now)
      invariant Absorbing(goal, current, passed, Open(ops, j, processed))
    {
      ghost var was := now;
      if j !in now {
        AbsorbingNext(goal, current, passed, ops[j], Open(ops, j + 1, processed));
        if CanMerge(current, ops[j]) {
          current := Merge(current, ops[j]);
          now := now + {j};
        } else {
          passed := passed + [ops[j]];
        }
      }
      OpenToNext(ops, i + 1, j, was, now);
    }
    OpenJoins(ops, i + 1, |ops|, now);
    Unpassed(passed);
  }

  method MergeOperations(ops: seq<Operation>) returns (merged: seq<Operation>)
    ensures merged == MergeAll(ops)
  {
    if |ops| <= 1 {
      return ops;
    }
    merged := [];
    var processed: set<nat> := {};
    OpenAll(ops, 0);
    Unpassed(MergeAll(ops));
    assert ops[0..] == ops;
    for i := 0 to |ops|
      invariant merged + MergeAll(Open(ops, i, processed)) == MergeAll(ops)
    {
      if i !in processed {
        ghost var open := Open(ops, i, processed);
        assert open[0] == ops[i] && open[1..] == Open(ops, i + 1, processed);
        var current;
        current, processed := Absorb(ops, i, processed);
        Associate(merged, [current], MergeAll(Open(ops, i + 1, processed)));
        merged := merged + [current];
      }
    }
  }

  // --------------------------------------------------------------- what merging makes

  /** The entities that single operations of one class write, in order. */
  function Gathered(ops: seq<Operation>, c: Class): seq<Entity> {
    if ops == [] then []
    else if ops[0].Single? && ClassOf(ops[0]) == c then [ops[0].entity] + Gathered(ops[1..], c)
    else Gathered(ops[1..], c)
  }

  /** One operation that writes all of es. */
  function Combined(kind: Kind, es: seq<Entity>): Operation {
    if |es| == 1 then Single(kind, es[0]) else Bulk(kind, es)
  }

  /** One operation per class, each writing all that its class wrote, in the old order. */
  ghost predicate Merged(ops: seq<Operation>, merged: seq<Operation>) {
    && NonEmpty(ops) && NonEmpty(merged)
    && NoDup(Classes(merged)) && Elements(Classes(merged)) == Elements(Classes(ops))
    && forall m :: m in merged ==> m == Combined(m.kind, Gathered(ops, ClassOf(m)))
  }

  lemma {:induction false} GatheredType(ops: seq<Operation>, c: Class)
    ensures forall e :: e in Gathered(ops, c) ==> e.etype == c.etype
  {
    if ops != [] {
      GatheredType(ops[1..], c);
    }
  }

  /** What has been gathered takes in exactly the single operations of its class. */
  lemma MergeDecides(c: Class, es: seq<Entity>, op: Operation)
    requires es != [] && es[0].etype == c.etype && op.Single?
    ensures CanMerge(Combined(c.kind, es), op) <==> ClassOf(op) == c
    ensures ClassOf(op) == c ==> Merge(Combined(c.kind, es), op) == Combined(c.kind, es + [op.entity])
  {
    assert |es| == 1 ==> es == [es[0]];
  }

  /** The operations of other classes. */
  function Others(ops: seq<Operation>, c: Class): seq<Operation>
    requires NonEmpty(ops)
  {
    if ops == [] then []
    else if ClassOf(ops[0]) == c then Others(ops[1..], c)
    else [ops[0]] + Others(ops[1..], c)
  }

  lemma {:induction false} AbsorbSingles(c: Class, es: seq<Entity>, rest: seq<Operation>)
    requires AllSingle(rest) && es != [] && es[0].etype == c.etype
    ensures AbsorbInto(Combined(c.kind, es), rest) == (Combined(c.kind, es + Gathered(rest, c)), Others(rest, c))
    decreases |rest|
  {
    if rest == [] {
      assert es + [] == es;
    } else {
      MergeDecides(c, es, rest[0]);
      if ClassOf(rest[0]) == c {
        AbsorbSingles(c, es + [rest[0].entity], rest[1..]);
        Associate(es, [rest[0].entity], Gathered(rest[1..], c));
      } else {
        AbsorbSingles(c, es, rest[1..]);
      }
    }
  }

  lemma {:induction false} OthersAre(ops: seq<Operation>, c: Class)
    requires AllSingle(ops)
    ensures AllSingle(Others(ops, c)) && |Others(ops, c)| <= |ops|
    ensures Elements(Classes(Others(ops, c))) == Elements(Classes(ops)) - {c}
    ensures forall d :: d != c ==> Gathered(Others(ops, c), d) == Gathered(ops, d)
  {
    if ops != [] {
      OthersAre(ops[1..], c);
      ClassesNext(ops);
      if ClassOf(ops[0]) != c {
        var others := Others(ops, c);
        assert others[1..] == Others(ops[1..], c);
        ClassesNext(others);
      }
    }
  }

  lemma ClassesNext(ops: seq<Operation>)
    requires NonEmpty(ops) && ops != []
    ensures Elements(Classes(ops)) == {ClassOf(ops[0])} + Elements(Classes(ops[1..]))
    ensures Classes(ops) == [ClassOf(ops[0])] + Classes(ops[1..])
  {
    assert Classes(ops) == [ClassOf(ops[0])] + Classes(ops[1..]);
    ElementsAppend([ClassOf(ops[0])], Classes(ops[1..]));
    assert Elements([ClassOf(ops[0])]) == {ClassOf(ops[0])};
  }

  /** Single operations, which are all a unit of work queues, merge into one operation per class. */
  lemma {:induction false} SinglesMerge(ops: seq<Operation>)
    requires AllSingle(ops)
    ensures Merged(ops, MergeAll(ops))
    decreases |ops|
  {
    if ops != [] {
      var x, rest := ops[0], ops[1..];
      var c := ClassOf(x);
      AbsorbSingles(c, [x.entity], rest);
      OthersAre(rest, c);
      SinglesMerge(Others(rest, c));
      var m, more := Combined(c.kind, [x.entity] + Gathered(rest, c)), MergeAll(Others(rest, c));
      assert MergeAll(ops) == [m] + more;
      assert GetEntity(m) == Some(x.entity);
      OneMoreClass(ops, c, m, more);
    }
  }

  predicate HasClass(ops: seq<Operation>, c: Class) {
    exists op :: op in ops && GetEntity(op).Some? && ClassOf(op) == c
  }

  /** If the j-th class is among the first k operations, so is the i-th. */
  ghost predicate InTurn(ops: seq<Operation>, merged: seq<Operation>, k: int, i: int, j: int)
    requires NonEmpty(merged)
  {
    0 <= k <= |ops| && 0 <= i < j < |merged| && HasClass(ops[..k], ClassOf(merged[j])) ==>
      HasClass(ops[..k], ClassOf(merged[i]))
  }

  /** Merged operations come in the order in which their classes first came. */
  ghost predicate FirstsInOrder(ops: seq<Operation>, merged: seq<Operation>) {
    NonEmpty(merged) && forall k, i, j :: InTurn(ops, merged, k, i, j)
  }

  /** Leaving a class out of a prefix gives a prefix of what is left. */
  lemma {:induction false} OthersPrefix(ops: seq<Operation>, c: Class, k: nat) returns (n: nat)
    requires NonEmpty(ops) && k <= |ops|
    ensures n <= |Others(ops, c)| && Others(ops[..k], c) == Others(ops, c)[..n]
  {
    if k == 0 {
      n := 0;
    } else {
      n := OthersPrefix(ops[1..], c, k - 1);
      assert ops[..k][1..] == ops[1..][..k - 1];
      if ClassOf(ops[0]) != c {
        assert ([ops[0]] + Others(ops[1..], c))[..n + 1] == [ops[0]] + Others(ops[1..], c)[..n];
        n := n + 1;
      }
    }
  }

  lemma {:induction false} OthersHave(ops: seq<Operation>, c: Class, d: Class)
    requires NonEmpty(ops)
    ensures HasClass(Others(ops, c), d) <==> HasClass(ops, d) && d != c
  {
    if ops != [] {
      OthersHave(ops[1..], c, d);
      assert ops == [ops[0]] + ops[1..];
    }
  }

  /** What merging makes of the first operation's class, and of the others. */
  lemma MergeFirst(ops: seq<Operation>)
    requires AllSingle(ops) && ops != []
    ensures var c := ClassOf(ops[0]); var others := Others(ops[1..], c);
            AllSingle(others) && |others| < |ops| && MergeAll(ops) == [Combined(c.kind, Gathered(ops, c))] + MergeAll(others)
  {
    var x := ops[0];
    AbsorbSingles(ClassOf(x), [x.entity], ops[1..]);
    OthersAre(ops[1..], ClassOf(x));
  }

  lemma {:induction false} MergedInOrder(ops: seq<Operation>)
    requires AllSingle(ops)
    ensures FirstsInOrder(ops, MergeAll(ops))
    decreases |ops|
  {
    if ops != [] {
      var c := ClassOf(ops[0]);
      var others := Others(ops[1..], c);
      MergeFirst(ops);
      SinglesMerge(others);
      MergedInOrder(others);
      var m, more := Combined(c.kind, Gathered(ops, c)), MergeAll(others);
      assert GetEntity(m) == Some(ops[0].entity);
      OneMoreInOrder(ops, m, more);
    }
  }

  lemma OneMoreInOrder(ops: seq<Operation>, m: Operation, more: seq<Operation>)
    requires NonEmpty(ops) && ops != [] && GetEntity(m).Some? && ClassOf(m) == ClassOf(ops[0])
    requires Merged(Others(ops[1..], ClassOf(ops[0])), more) && FirstsInOrder(Others(ops[1..], ClassOf(ops[0])), more)
    ensures FirstsInOrder(ops, [m] + more)
  {
    forall k, i, j ensures InTurn(ops, [m] + more, k, i, j) {
      if 0 <= k <= |ops| && 0 <= i < j <= |more| && HasClass(ops[..k], ClassOf(([m] + more)[j])) {
        if 0 < i && 0 < k {
          LaterInTurn(ops[1..], ClassOf(ops[0]), more, k - 1, i - 1, j - 1);
        }
        InOrderNext(ops, m, more, k, i, j);
      }
    }
  }

  lemma InOrderNext(ops: seq<Operation>, m: Operation, more: seq<Operation>, k: nat, i: nat, j: nat)
    requires NonEmpty([m] + more) && NonEmpty(more) && NonEmpty(ops) && k <= |ops| && i < j <= |more| && ops != []
    requires ClassOf(([m] + more)[0]) == ClassOf(ops[0]) && HasClass(ops[..k], ClassOf(([m] + more)[j]))
    requires 0 < i && 0 < k ==> Follows(ops[1..][..k - 1], more, i - 1, j - 1, ClassOf(ops[0]))
    ensures HasClass(ops[..k], ClassOf(([m] + more)[i]))
  {
    assert k > 0;
    assert ops[..k] == [ops[0]] + ops[1..][..k - 1] && ops[0] in ops[..k];
  }

  ghost predicate Follows(ops: seq<Operation>, more: seq<Operation>, i: nat, j: nat, c: Class)
    requires NonEmpty(more) && i < |more| && j < |more|
  {
    ClassOf(more[j]) != c && (HasClass(ops, ClassOf(more[j])) ==> HasClass(ops, ClassOf(more[i])))
  }

  lemma LaterInTurn(rest: seq<Operation>, c: Class, more: seq<Operation>, k: nat, i: nat, j: nat)
    requires NonEmpty(rest) && k <= |rest| && i < j < |more|
    requires Merged(Others(rest, c), more) && FirstsInOrder(Others(rest, c), more)
    ensures Follows(rest[..k], more, i, j, c)
  {
    OtherClass(more, more[j]);
    NoneOfClass(rest, c, ClassOf(more[j]));
    var n := OthersPrefix(rest, c, k);
    OthersHave(rest[..k], c, ClassOf(more[j]));
    OthersHave(rest[..k], c, ClassOf(more[i]));
    assert InTurn(Others(rest, c), more, n, i, j);
  }

  lemma NoneOfClass(ops: seq<Operation>, c: Class, d: Class)
    requires NonEmpty(ops) && NonEmpty(Others(ops, c)) && d in Elements(Classes(Others(ops, c)))
    ensures d != c
  {
    var others := Others(ops, c);
    var k :| 0 <= k < |others| && Classes(others)[k] == d;
    assert others[k] in others;
    OthersHave(ops, c, d);
  }

  lemma OneMoreClass(ops: seq<Operation>, c: Class, m: Operation, more: seq<Operation>)
    requires AllSingle(ops) && ops != [] && c == ClassOf(ops[0])
    requires Merged(Others(ops[1..], c), more) && GetEntity(m).Some? && ClassOf(m) == c
    requires m == Combined(c.kind, Gathered(ops, c))
    ensures Merged(ops, [m] + more)
  {
    OthersAre(ops[1..], c);
    ClassesNext(ops);
    AddClass(m, more);
    forall n | n in more ensures n == Combined(n.kind, Gathered(ops, ClassOf(n))) {
      OtherClass(more, n);
      assert Gathered(Others(ops[1..], c), ClassOf(n)) == Gathered(ops[1..], ClassOf(n));
    }
  }

  lemma OtherClass(more: seq<Operation>, n: Operation)
    requires NonEmpty(more) && n in more
    ensures ClassOf(n) in Elements(Classes(more))
  {
    var k :| 0 <= k < |more| && more[k] == n;
    assert Classes(more)[k] == ClassOf(n);
  }

  lemma AddClass(m: Operation, more: seq<Operation>)
    requires NonEmpty(more) && NoDup(Classes(more)) && GetEntity(m).Some? && ClassOf(m) !in Elements(Classes(more))
    ensures NonEmpty([m] + more) && NoDup(Classes([m] + more))
    ensures Elements(Classes([m] + more)) == {ClassOf(m)} + Elements(Classes(more))
  {
    var all := [m] + more;
    assert all[1..] == more;
    ClassesNext(all);
    assert forall k :: 0 <= k < |more| ==> Classes(more)[k] in Elements(Classes(more));
  }

  // ------------------------------------------------------- merging preserves meaning

  datatype Write = Write(kind: Kind, entity: Entity)

  function WritesOf(op: Operation): (r: seq<Write>)
    ensures |r| == |Payload(op)| && forall i :: 0 <= i < |r| ==> r[i] == Write(op.kind, Payload(op)[i])
  {
    seq(|Payload(op)|, i requires 0 <= i < |Payload(op)| => Write(op.kind, Payload(op)[i]))
  }

  /** All that a sequence of operations writes, in order. */
  function Writes(ops: seq<Operation>): seq<Write> {
    if ops == [] then [] else Writes(ops[..|ops| - 1]) + WritesOf(ops[|ops| - 1])
  }

  lemma WritesLast(front: seq<Operation>, op: Operation, ops: seq<Operation>)
    requires ops == front + [op]
    ensures Writes(ops) == Writes(front) + WritesOf(op)
  {
    assert ops[..|ops| - 1] == front;
  }

  lemma {:induction false} WritesAppend(a: seq<Operation>, b: seq<Operation>)
    ensures Writes(a + b) == Writes(a) + Writes(b)
    decreases |b|
  {
    if b == [] {
      assert a + b == a;
    } else {
      var n := |b| - 1;
      assert b == b[..n] + [b[n]];
      WritesAppend(a, b[..n]);
      Associate(a, b[..n], [b[n]]);
      WritesLast(a + b[..n], b[n], a + b);
      WritesLast(b[..n], b[n], b);
      Associate(Writes(a), Writes(b[..n]), WritesOf(b[n]));
    }
  }

  lemma WritesOne(op: Operation)
    ensures Writes([op]) == WritesOf(op)
  {
    WritesLast([], op, [op]);
    Unpassed(WritesOf(op));
  }

  lemma Uncons<T>(s: seq<T>)
    requires s != []
    ensures s == [s[0]] + s[1..]
  {
  }

  lemma WritesFirst(ops: seq<Operation>)
    requires ops != []
    ensures Writes(ops) == WritesOf(ops[0]) + Writes(ops[1..])
  {
    Uncons(ops);
    WritesAppend([ops[0]], ops[1..]);
    WritesOne(ops[0]);
  }

  lemma MergeWrites(c: Operation, x: Operation)
    requires CanMerge(c, x)
    ensures multiset(WritesOf(Merge(c, x))) == multiset(WritesOf(c)) + multiset(WritesOf(x))
  {
    assert WritesOf(Merge(c, x)) == WritesOf(c) + WritesOf(x);
  }

  /** All that op and the operations behind it write. */
  ghost function AllWrites(op: Operation, rest: seq<Operation>): multiset<Write> {
    multiset(WritesOf(op)) + multiset(Writes(rest))
  }

  lemma AllWritesFirst(op: Operation, rest: seq<Operation>)
    requires rest != []
    ensures AllWrites(op, rest) == AllWrites(op, rest[1..]) + multiset(WritesOf(rest[0]))
    ensures CanMerge(op, rest[0]) ==> AllWrites(op, rest) == AllWrites(Merge(op, rest[0]), rest[1..])
  {
    WritesFirst(rest);
    if CanMerge(op, rest[0]) {
      MergeWrites(op, rest[0]);
    }
  }

  lemma {:induction false} AbsorbPreserves(c: Operation, rest: seq<Operation>, d: Operation, left: seq<Operation>)
    requires AbsorbInto(c, rest) == (d, left)
    ensures AllWrites(d, left) == AllWrites(c, rest)
    decreases |rest|
  {
    if rest != [] {
      AllWritesFirst(c, rest);
      if CanMerge(c, rest[0]) {
        AbsorbPreserves(Merge(c, rest[0]), rest[1..], d, left);
      } else {
        AbsorbPreserves(c, rest[1..], d, left[1..]);
        AllWritesFirst(d, left);
      }
    }
  }

  /** Merging, whatever the operations, changes neither what is written nor how often. */
  lemma {:induction false} MergingPreservesWrites(ops: seq<Operation>)
    ensures multiset(Writes(MergeAll(ops))) == multiset(Writes(ops))
    decreases |ops|
  {
    if ops != [] {
      var r := AbsorbInto(ops[0], ops[1..]);
      AbsorbShrinks(ops[0], ops[1..]);
      AbsorbPreserves(ops[0], ops[1..], r.0, r.1);
      MergingPreservesWrites(r.1);
      WritesFirst(ops);
      WritesCons(r.0, MergeAll(r.1), MergeAll(ops));
    }
  }

  lemma WritesCons(op: Operation, rest: seq<Operation>, ops: seq<Operation>)
    requires ops == [op] + rest
    ensures multiset(Writes(ops)) == AllWrites(op, rest)
  {
    assert ops[1..] == rest;
    WritesFirst(ops);
  }

  lemma CombinedPayload(kind: Kind, es: seq<Entity>)
    ensures Payload(Combined(kind, es)) == es
  {
    assert |es| == 1 ==> es == [es[0]];
  }
}
