/**
 * FsdEntity: the activity tracker every pilot and plane seen on the FSD
 * network inherits. A stopwatch measures the time since the last position
 * report; Refresh reports a timeout once 60 s have passed and otherwise fires
 * Updated only when the inactive flag (10 s without a report) changes.
 *
 * The stopwatch is an explicit `elapsed` count of milliseconds that only
 * Advance moves, and the two events are recorded in an `events` log.
 */
module FsdEntities {
  import opened Wrappers
  import opened Exceptions

  const InactiveTime: nat := 10000
  const TimeoutTime: nat := 60000

  datatype Event = Updated | TimedOut

  /** IsInactive at a given stopwatch reading. */
  predicate IsInactiveAt(elapsed: nat) {
    elapsed >= InactiveTime
  }

  /** The part of an entity's state the timer logic reads and writes. */
  datatype Activity = Activity(elapsed: nat, prevInactive: bool)

  /** What a construction or a position report leaves: the stopwatch at 0, the flag kept. */
  function WakeUpStep(a: Activity): (r: Activity)
    ensures r.elapsed == 0 && !IsInactiveAt(r.elapsed)
    ensures r.prevInactive == a.prevInactive
  {
    a.(elapsed := 0)
  }

  /** Time passing on the stopwatch. */
  function AdvanceStep(a: Activity, ms: nat): (r: Activity)
    ensures r.elapsed == a.elapsed + ms && r.elapsed >= a.elapsed
    ensures r.prevInactive == a.prevInactive
  {
    a.(elapsed := a.elapsed + ms)
  }

  datatype Refreshed = Refreshed(next: Activity, fired: seq<Event>)

  /**
   * Refresh: at or beyond the timeout it fires TimedOut and changes nothing;
   * otherwise, when the inactive flag differs from the one last reported, it
   * records the new flag and fires Updated; otherwise nothing happens.
   */
  function RefreshStep(a: Activity): (r: Refreshed)
    ensures |r.fired| <= 1 && r.next.elapsed == a.elapsed
    ensures r.fired == [TimedOut] <==> a.elapsed >= TimeoutTime
    ensures r.fired == [Updated] <==> a.elapsed < TimeoutTime && IsInactiveAt(a.elapsed) != a.prevInactive
    ensures r.fired == [] <==> a.elapsed < TimeoutTime && IsInactiveAt(a.elapsed) == a.prevInactive
    ensures r.fired == [Updated] ==> r.next.prevInactive == IsInactiveAt(a.elapsed) != a.prevInactive
    ensures r.fired != [Updated] ==> r.next == a
  {
    if a.elapsed >= TimeoutTime then
      Refreshed(a, [TimedOut])
    else if IsInactiveAt(a.elapsed) != a.prevInactive then
      Refreshed(a.(prevInactive := IsInactiveAt(a.elapsed)), [Updated])
    else
      Refreshed(a, [])
  }

  /** Below the timeout, Refresh settles the flag: a second Refresh without time passing fires nothing. */
  lemma RefreshSettles(a: Activity)
    requires a.elapsed < TimeoutTime
    ensures RefreshStep(a).next.prevInactive == IsInactiveAt(a.elapsed)
    ensures RefreshStep(RefreshStep(a).next).fired == []
  {
  }

  /** TimedOut is not latched: every Refresh at or beyond the timeout fires it again, however much later. */
  lemma TimedOutNotLatched(a: Activity, ms: nat)
    requires a.elapsed >= TimeoutTime
    ensures RefreshStep(AdvanceStep(RefreshStep(a).next, ms)).fired == [TimedOut]
  {
  }

  /**
   * An entity that was reported inactive and receives a report before the
   * timeout is reported active again by exactly one Updated at the next Refresh.
   */
  lemma WakeUpReactivates(a: Activity)
    requires a.prevInactive
    ensures RefreshStep(WakeUpStep(a)).fired == [Updated]
    ensures RefreshStep(WakeUpStep(a)).next == Activity(0, false)
  {
  }

  /** The steps that act on an entity's timer from outside: time passing and Refresh. */
  datatype Tick = Elapse(ms: nat) | RefreshTick

  datatype Trace = Trace(last: Activity, fired: seq<Event>)

  /** The state and the events after a run of ticks in which no report arrives. */
  function Run(a: Activity, ticks: seq<Tick>): (r: Trace)
    ensures r.last.elapsed >= a.elapsed
    decreases |ticks|
  {
    if ticks == [] then Trace(a, [])
    else
      var step := match ticks[0]
        case Elapse(ms) => Refreshed(AdvanceStep(a, ms), [])
        case RefreshTick => RefreshStep(a);
      var rest := Run(step.next, ticks[1..]);
      Trace(rest.last, step.fired + rest.fired)
  }

  function CountUpdated(events: seq<Event>): (n: nat)
    ensures n <= |events|
  {
    if events == [] then 0 else (if events[0] == Updated then 1 else 0) + CountUpdated(events[1..])
  }

  lemma CountUpdatedAppend(a: seq<Event>, b: seq<Event>)
    ensures CountUpdated(a + b) == CountUpdated(a) + CountUpdated(b)
  {
    if a == [] {
      assert a + b == b;
    } else {
      assert (a + b)[1..] == a[1..] + b;
    }
  }

  /**
   * Since the stopwatch never runs backwards, an entity that receives no
   * report fires Updated at most once: when it becomes inactive. The flag
   * reported last is never ahead of the stopwatch.
   */
  lemma {:induction false} UpdatedAtMostOnceWithoutReports(a: Activity, ticks: seq<Tick>)
    requires a.prevInactive ==> IsInactiveAt(a.elapsed)
    ensures Run(a, ticks).last.prevInactive ==> IsInactiveAt(Run(a, ticks).last.elapsed)
    ensures a.prevInactive ==> Run(a, ticks).last.prevInactive
    ensures CountUpdated(Run(a, ticks).fired) == (if Run(a, ticks).last.prevInactive && !a.prevInactive then 1 else 0)
    decreases |ticks|
  {
    if ticks != [] {
      var step := match ticks[0]
        case Elapse(ms) => Refreshed(AdvanceStep(a, ms), [])
        case RefreshTick => RefreshStep(a);
      assert step.next.prevInactive ==> IsInactiveAt(step.next.elapsed);
      assert step.next.prevInactive != a.prevInactive ==> step.fired == [Updated] && !a.prevInactive;
      assert step.next.prevInactive == a.prevInactive ==> CountUpdated(step.fired) == 0;
      UpdatedAtMostOnceWithoutReports(step.next, ticks[1..]);
      CountUpdatedAppend(step.fired, Run(step.next, ticks[1..]).fired);
    }
  }

  /** A fresh entity fires Updated at most once before its next position report. */
  lemma FreshEntityUpdatesAtMostOnce(ticks: seq<Tick>)
    ensures CountUpdated(Run(Activity(0, false), ticks).fired) <= 1
  {
    UpdatedAtMostOnceWithoutReports(Activity(0, false), ticks);
  }

  class FsdEntity {
    /** FsdName: set by the constructor and never changed. */
    const fsdName: string
    var elapsed: nat
    var prevInactive: bool
    /** The Updated and TimedOut events fired so far, oldest first. */
    var events: seq<Event>

    function State(): (a: Activity)
      reads this
      ensures a.elapsed == elapsed && a.prevInactive == prevInactive
    {
      Activity(elapsed, prevInactive)
    }

    /** IsInactive: the stopwatch has reached 10 s. */
    function IsInactive(): (b: bool)
      reads this
      ensures b <==> elapsed >= InactiveTime
    {
      IsInactiveAt(elapsed)
    }

    /** The constructor for a non-empty name: the flag is cleared and the stopwatch started at 0. */
    constructor(fsdName: string)
      requires fsdName != ""
      ensures this.fsdName == fsdName
      ensures State() == WakeUpStep(Activity(0, false)) && events == []
    {
      this.fsdName := fsdName;
      elapsed := 0;
      prevInactive := false;
      events := [];
    }

    /** Time passes on the stopwatch. */
    method Advance(ms: nat)
      modifies this
      ensures State() == AdvanceStep(old(State()), ms)
      ensures events == old(events)
    {
      elapsed := elapsed + ms;
    }

    /** WakeUp: restart the stopwatch; the last reported flag is kept. */
    method WakeUp()
      modifies this
      ensures State() == WakeUpStep(old(State()))
      ensures events == old(events)
    {
      elapsed := 0;
    }

    /** Refresh: the step RefreshStep describes, with its event appended to the log. */
    method Refresh()
      modifies this
      ensures State() == RefreshStep(old(State())).next
      ensures events == old(events) + RefreshStep(old(State())).fired
    {
      if elapsed >= TimeoutTime {
        events := events + [TimedOut];
      } else if (IsInactive() && !prevInactive) || (!IsInactive() && prevInactive) {
        prevInactive := IsInactive();
        events := events + [Updated];
      }
    }

    /** OnUpdated, for the position handlers of the derived entities. */
    method NotifyUpdated()
      modifies this
      ensures State() == old(State())
      ensures events == old(events) + [Updated]
    {
      events := events + [Updated];
    }
  }

  /** The constructor's check: a null or empty name throws ArgumentNullException("fsdName"). */
  method NewEntity(fsdName: string) returns (r: Result<FsdEntity, Exception>)
    ensures fsdName == "" <==> r == Failure(ArgumentNull("fsdName"))
    ensures r.Success? ==> fresh(r.value) && r.value.fsdName == fsdName
    ensures r.Success? ==> r.value.elapsed == 0 && !r.value.prevInactive && r.value.events == []
  {
    if fsdName == "" {
      return Failure(ArgumentNull("fsdName"));
    }
    var e := new FsdEntity(fsdName);
    return Success(e);
  }
}
