/** The suspicion timer of one suspected node (memberlist/suspicion.go). */
module SuspicionTimer {
  import opened Base

  type Name = string

  /** Durations and instants are whole nanoseconds. */
  const MILLISECOND := 1_000_000
  const SECOND := 1_000_000_000.0

  /**
   * What is assumed of n |-> log(n+1)/log(k+1): it starts at 0, reaches 1 at
   * n = k and never falls in between.
   */
  ghost predicate IsLogRatio(ratio: int -> real, k: int) {
    k >= 1 ==>
      && ratio(0) == 0.0
      && ratio(k) == 1.0
      && forall i, j :: 0 <= i <= j <= k ==> ratio(i) <= ratio(j)
  }

  // ---------------------------------------------------------------- tallies

  /** The counting part of a timer: k, n and the peers already heard. */
  datatype Tally = Tally(k: int, n: nat, seen: set<Name>)

  function NewTally(from: Name, k: int): Tally {
    Tally(k, 0, {from})
  }

  predicate Accepts(t: Tally, from: Name) {
    t.n < t.k && from !in t.seen
  }

  function Confirmed(t: Tally, from: Name): Tally {
    if Accepts(t, from) then Tally(t.k, t.n + 1, t.seen + {from}) else t
  }

  function ConfirmAll(t: Tally, froms: seq<Name>): Tally {
    if froms == [] then t
    else Confirmed(ConfirmAll(t, froms[..|froms| - 1]), froms[|froms| - 1])
  }

  /** The distinct peers, other than the originator, named by a history of calls. */
  ghost function Peers(origin: Name, froms: seq<Name>): set<Name> {
    Elements(froms) - {origin}
  }

  ghost predicate Heard(t: Tally, origin: Name, peers: set<Name>) {
    && origin !in peers && origin in t.seen
    && t.seen <= peers + {origin}
    && |t.seen| == t.n + 1
    && (t.n == 0 || t.n <= t.k)
    && (t.n < t.k ==> t.seen == peers + {origin})
  }

  lemma ConfirmHeard(t: Tally, origin: Name, peers: set<Name>, from: Name)
    requires Heard(t, origin, peers)
    ensures Heard(Confirmed(t, from), origin, peers + ({from} - {origin}))
  {
  }

  lemma HeardCount(t: Tally, origin: Name, peers: set<Name>)
    requires Heard(t, origin, peers)
    ensures t.n == if |peers| <= t.k then |peers| else if t.k < 0 then 0 else t.k
  {
    assert |peers + {origin}| == |peers| + 1;
    SubsetCard(t.seen, peers + {origin});
  }

  lemma {:induction false} HistoryHeard(origin: Name, k: int, froms: seq<Name>)
    ensures Heard(ConfirmAll(NewTally(origin, k), froms), origin, Peers(origin, froms))
    ensures ConfirmAll(NewTally(origin, k), froms).k == k
  {
    if froms != [] {
      var init, last := froms[..|froms| - 1], froms[|froms| - 1];
      HistoryHeard(origin, k, init);
      ConfirmHeard(ConfirmAll(NewTally(origin, k), init), origin, Peers(origin, init), last);
      PeersGrow(origin, froms);
    }
  }

  lemma PeersGrow(origin: Name, froms: seq<Name>)
    requires froms != []
    ensures Peers(origin, froms) == Peers(origin, froms[..|froms| - 1]) + ({froms[|froms| - 1]} - {origin})
  {
    var init, last := froms[..|froms| - 1], froms[|froms| - 1];
    assert froms == init + [last];
    ElementsAppend(init, [last]);
    assert Elements([last]) == {last};
  }

  /** The count is the number of distinct confirmers other than the originator, capped at k. */
  lemma CountIsDistinctConfirmers(origin: Name, k: int, froms: seq<Name>)
    ensures ConfirmAll(NewTally(origin, k), froms).n ==
      if |Peers(origin, froms)| <= k then |Peers(origin, froms)| else if k < 0 then 0 else k
  {
    HistoryHeard(origin, k, froms);
    HeardCount(ConfirmAll(NewTally(origin, k), froms), origin, Peers(origin, froms));
  }

  // --------------------------------------------------------------- deadlines

  /** The overall timeout after n >= 1 confirmations, before elapsed time is taken off. */
  function Timeout(n: int, min: int, max: int, ratio: int -> real): int {
    var minS, maxS := min as real / SECOND, max as real / SECOND;
    var raw := Interpolate(ratio(n), minS, maxS);
    var timeout := (1000.0 * raw).Floor * MILLISECOND;
    if timeout < min then min else timeout
  }

  /** The time left to wait; negative when the timer is overdue. */
  function RemainingSuspicionTime(n: int, elapsed: int, min: int, max: int, ratio: int -> real): int {
    Timeout(n, min, max, ratio) - elapsed
  }

  /** The deadline, measured from the start, that stands while the count is n. */
  function Scheduled(n: int, k: int, min: int, max: int, ratio: int -> real): int {
    if k < 1 then min else if n == 0 then max else Timeout(n, min, max, ratio)
  }

  /** The interpolation between hi (at 0) and lo (at 1). */
  function Interpolate(f: real, lo: real, hi: real): real {
    hi - f * (hi - lo)
  }

  lemma NonNegative(a: real, b: real)
    requires 0.0 <= a && 0.0 <= b
    ensures 0.0 <= a * b
  {
  }

  lemma InterpolateAntitone(f: real, g: real, lo: real, hi: real)
    requires f <= g && lo <= hi
    ensures Interpolate(g, lo, hi) <= Interpolate(f, lo, hi)
  {
    NonNegative(g - f, hi - lo);
    assert (g - f) * (hi - lo) == g * (hi - lo) - f * (hi - lo);
  }

  lemma FloorMonotone(x: real, y: real)
    requires x <= y
    ensures x.Floor * MILLISECOND <= y.Floor * MILLISECOND
  {
    assert x.Floor <= y.Floor;
  }

  lemma RawBounds(n: int, k: int, min: int, max: int, ratio: int -> real)
    requires IsLogRatio(ratio, k) && 0 <= n <= k && 1 <= k && min <= max
    ensures min <= Timeout(n, min, max, ratio) <= max
    ensures n == k ==> Timeout(n, min, max, ratio) == min
  {
    var minS, maxS := min as real / SECOND, max as real / SECOND;
    InterpolateAntitone(ratio(0), ratio(n), minS, maxS);
    InterpolateAntitone(ratio(n), ratio(k), minS, maxS);
    var raw := Interpolate(ratio(n), minS, maxS);
    assert minS <= raw <= maxS;
    assert (1000.0 * raw).Floor as real * 1_000_000.0 <= max as real;
  }

  lemma LineInSeconds(f: real, min: int, max: int)
    ensures var minS, maxS := min as real / SECOND, max as real / SECOND;
      1000.0 * Interpolate(f, minS, maxS) == (max as real - f * (max - min) as real) / 1_000_000.0
  {
    var minS, maxS := min as real / SECOND, max as real / SECOND;
    assert maxS - minS == (max - min) as real / SECOND;
    assert f * (maxS - minS) == f * (max - min) as real / SECOND;
  }

  lemma LineAboveMin(f: real, min: int, max: int)
    requires f <= 1.0 && min <= max
    ensures min as real <= max as real - f * (max - min) as real
  {
    NonNegative(1.0 - f, (max - min) as real);
    assert (1.0 - f) * (max - min) as real == (max - min) as real - f * (max - min) as real;
  }

  /**
   * While confirmations come in, the wait is on the straight line from the maximum to the minimum, cut down
   * to whole milliseconds but not below the minimum.
   */
  predicate OnLine(wait: int, f: real, min: int, max: int) {
    var raw := max as real - f * (max - min) as real;
    min <= wait && (wait == min || wait as real <= raw) && raw - 1_000_000.0 < wait as real
  }

  lemma CutDown(raw: real, min: int)
    requires min as real <= raw
    ensures var ms := (raw / 1_000_000.0).Floor * MILLISECOND;
      var wait := if ms < min then min else ms;
      min <= wait && (wait == min || wait as real <= raw) && raw - 1_000_000.0 < wait as real
  {
    var ms := (raw / 1_000_000.0).Floor;
    assert ms as real <= raw / 1_000_000.0 < ms as real + 1.0;
    assert (ms * MILLISECOND) as real == ms as real * 1_000_000.0;
  }

  lemma ScheduledOnLine(n: int, k: int, min: int, max: int, ratio: int -> real)
    requires IsLogRatio(ratio, k) && 1 <= n <= k && min <= max
    ensures OnLine(Scheduled(n, k, min, max, ratio), ratio(n), min, max)
  {
    assert ratio(n) <= ratio(k);
    LineInSeconds(ratio(n), min, max);
    LineAboveMin(ratio(n), min, max);
    CutDown(max as real - ratio(n) * (max - min) as real, min);
  }

  /** A confirmation that moves the line by a millisecond, and keeps it above the minimum, moves the deadline earlier. */
  lemma DeadlineMovesEarlier(i: int, j: int, k: int, min: int, max: int, ratio: int -> real)
    requires IsLogRatio(ratio, k) && 0 <= i < j <= k && min <= max
    requires var line := (n: int) => max as real - ratio(n) * (max - min) as real;
      line(j) + 1_000_000.0 <= line(i) && min as real + 1_000_000.0 <= line(i)
    ensures Scheduled(j, k, min, max, ratio) < Scheduled(i, k, min, max, ratio)
  {
    if i > 0 {
      ScheduledOnLine(i, k, min, max, ratio);
    }
    ScheduledOnLine(j, k, min, max, ratio);
  }

  lemma TimeoutAntitone(i: int, j: int, k: int, min: int, max: int, ratio: int -> real)
    requires IsLogRatio(ratio, k) && 0 <= i <= j <= k && 1 <= k && min <= max
    ensures Timeout(j, min, max, ratio) <= Timeout(i, min, max, ratio)
  {
    var minS, maxS := min as real / SECOND, max as real / SECOND;
    InterpolateAntitone(ratio(i), ratio(j), minS, maxS);
    FloorMonotone(1000.0 * Interpolate(ratio(j), minS, maxS), 1000.0 * Interpolate(ratio(i), minS, maxS));
  }

  ghost predicate DeadlinesNeverMoveLater(k: int, min: int, max: int, ratio: int -> real) {
    forall i, j :: 0 <= i <= j <= k ==>
      Scheduled(j, k, min, max, ratio) <= Scheduled(i, k, min, max, ratio)
  }

  /**
   * More confirmations never push the deadline back exactly when the minimum
   * does not exceed the maximum (or no confirmation is awaited at all).
   */
  lemma DeadlinesNeverMoveLaterIff(k: int, min: int, max: int, ratio: int -> real)
    requires IsLogRatio(ratio, k)
    ensures DeadlinesNeverMoveLater(k, min, max, ratio) <==> (k < 1 || min <= max)
  {
    if k >= 1 {
      if min <= max {
        forall i, j | 0 <= i <= j <= k
          ensures Scheduled(j, k, min, max, ratio) <= Scheduled(i, k, min, max, ratio)
        {
          RawBounds(j, k, min, max, ratio);
          TimeoutAntitone(i, j, k, min, max, ratio);
        }
      } else {
        assert Scheduled(1, k, min, max, ratio) > Scheduled(0, k, min, max, ratio);
      }
    }
  }

  /** It does happen: with one confirmation awaited, a minimum of 2ms and a maximum of 1ms, confirming adds a millisecond. */
  lemma DeadlineMovesLater()
    ensures var ratio := (n: int) => n as real;
      && IsLogRatio(ratio, 1)
      && Scheduled(0, 1, 2 * MILLISECOND, MILLISECOND, ratio) == MILLISECOND
      && Scheduled(1, 1, 2 * MILLISECOND, MILLISECOND, ratio) == 2 * MILLISECOND
  {
  }

  lemma ScheduledBounds(n: int, k: int, min: int, max: int, ratio: int -> real)
    requires IsLogRatio(ratio, k) && 0 <= n && (n <= k || n == 0) && min <= max
    ensures min <= Scheduled(n, k, min, max, ratio) <= max
    ensures n >= k ==> Scheduled(n, k, min, max, ratio) == min
  {
    if k >= 1 {
      RawBounds(n, k, min, max, ratio);
    }
  }

  // ------------------------------------------------------------------ the object

  /** The underlying runtime timer: armed with an absolute deadline, or spent. */
  datatype Alarm = Armed(deadline: int) | Spent

  class Suspicion {
    const k: int
    const min: int
    const max: int
    const start: int
    const ratio: int -> real
    var n: nat
    var timer: Alarm
    var confirmations: set<Name>
    /** The instants at which the timeout function was started. */
    ghost var runs: seq<int>

    ghost predicate Valid()
      reads this
    {
      && IsLogRatio(ratio, k)
      && (n == 0 || n <= k)
      && |confirmations| == n + 1
      && |runs| == (if timer.Armed? then 0 else 1)
      && (timer.Armed? ==> timer.deadline == start + Scheduled(n, k, min, max, ratio))
      && (min <= max ==> forall t :: t in runs ==> start + min <= t)
    }

    function View(): Tally
      reads this
    {
      Tally(k, n, confirmations)
    }

    constructor (from: Name, k: int, min: int, max: int, ratio: int -> real, now: int)
      requires IsLogRatio(ratio, k)
      ensures Valid() && View() == NewTally(from, k) && runs == []
      ensures timer == Armed(now + if k < 1 then min else max)
      ensures start == now && this.min == min && this.max == max && this.ratio == ratio
    {
      this.k, this.min, this.max, this.ratio := k, min, max, ratio;
      this.n, this.confirmations := 0, {from};
      this.timer := Armed(now + if k < 1 then min else max);
      this.start := now;
      this.runs := [];
    }

    /** A confirmation arriving at the instant now. */
    method Confirm(from: Name, now: int) returns (isNew: bool)
      modifies this
      ensures isNew == Accepts(old(View()), from)
      ensures View() == Confirmed(old(View()), from)
      ensures !isNew ==> timer == old(timer) && runs == old(runs)
      ensures old(Valid()) ==> Valid()
      ensures old(Valid()) && min <= max && timer.Armed? ==>
        && old(timer).Armed?
        && timer.deadline <= old(timer).deadline
        && start + min <= timer.deadline <= start + max
        && (n >= k ==> timer.deadline == start + min)
      ensures old(Valid()) && runs != old(runs) ==>
        old(runs) == [] && runs == [now] && start + Scheduled(n, k, min, max, ratio) <= now
      ensures old(Valid()) && isNew && old(timer).Armed? ==>
        (timer.Spent? <==> start + Scheduled(n, k, min, max, ratio) <= now)
      ensures old(Valid()) && min <= max && isNew && timer.Armed? ==> OnLine(timer.deadline - start, ratio(n), min, max)
    {
      ghost var sound := Valid() && min <= max;
      if sound {
        ScheduledBounds(n, k, min, max, ratio);
      }
      if n >= k {
        return false;
      }
      if from in confirmations {
        return false;
      }
      confirmations := confirmations + {from};
      n := n + 1;
      var elapsed := now - start;
      var remaining := RemainingSuspicionTime(n, elapsed, min, max, ratio);
      if sound {
        ScheduledBounds(n, k, min, max, ratio);
        ScheduledOnLine(n, k, min, max, ratio);
        DeadlinesNeverMoveLaterIff(k, min, max, ratio);
      }
      if timer.Armed? {
        if remaining > 0 {
          timer := Armed(now + remaining);
        } else {
          timer := Spent;
          runs := runs + [now];
        }
      }
      return true;
    }

    /** The runtime starts the timeout function once the deadline has passed. */
    method Expire(now: int)
      requires Valid() && timer.Armed? && timer.deadline <= now
      modifies this
      ensures Valid() && View() == old(View())
      ensures timer == Spent && runs == [now]
    {
      if min <= max {
        ScheduledBounds(n, k, min, max, ratio);
      }
      timer := Spent;
      runs := runs + [now];
    }
  }
}
