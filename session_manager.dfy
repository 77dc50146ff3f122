/**
 * SessionManager: holds the one session that is loaded at a time. Loading a
 * session first closes the current one; closing calls the session's Close and
 * Dispose. Both raise an event. The plugin discovery (GetProviders) is not
 * part of this model.
 */
module SessionManagers {
  import opened Wrappers
  import opened Exceptions

  /** A loaded ISession, known by its identity; null is None where the source allows it. */
  datatype Session = Session(id: nat)

  /** What the manager does outside itself: calls on a session and the two events. */
  datatype Effect = CloseCall(closed: Session) | DisposeCall(disposed: Session) | SessionOpened | SessionClosed

  datatype ManagerState = ManagerState(isLoaded: bool, session: Option<Session>)

  /** IsLoaded holds exactly when a session is held. */
  predicate Consistent(m: ManagerState) {
    m.isLoaded <==> m.session.Some?
  }

  const Initial: ManagerState := ManagerState(false, None)

  datatype Step = Step(next: ManagerState, effects: seq<Effect>)

  /**
   * CloseSession: nothing when no session is loaded; otherwise Close, then
   * Dispose on the session, which is dropped, and SessionClosed once.
   */
  function CloseStep(m: ManagerState): (r: Step)
    requires Consistent(m)
    ensures Consistent(r.next) && !r.next.isLoaded && r.next.session == None
    ensures !m.isLoaded ==> r.effects == []
    ensures m.isLoaded ==> r.effects == [CloseCall(m.session.value), DisposeCall(m.session.value), SessionClosed]
  {
    if !m.isLoaded then Step(m, [])
    else Step(ManagerState(false, None), [CloseCall(m.session.value), DisposeCall(m.session.value), SessionClosed])
  }

  /**
   * LoadSession: null throws ArgumentNullException("session") before anything
   * changes; otherwise the current session is closed, the new one held and
   * SessionOpened raised.
   */
  function LoadStep(m: ManagerState, session: Option<Session>): (r: Result<Step, Exception>)
    requires Consistent(m)
    ensures session.None? <==> r == Failure(ArgumentNull("session"))
    ensures r.Success? ==> Consistent(r.value.next) && r.value.next == ManagerState(true, session)
    ensures r.Success? ==> r.value.effects == CloseStep(m).effects + [SessionOpened]
  {
    if session.None? then Failure(ArgumentNull("session"))
    else Success(Step(ManagerState(true, session), CloseStep(m).effects + [SessionOpened]))
  }

  /** The public operations, for runs of several. */
  datatype Op = Load(session: Option<Session>) | Close

  function Apply(m: ManagerState, op: Op): (r: Step)
    requires Consistent(m)
    ensures Consistent(r.next)
  {
    match op
    case Close => CloseStep(m)
    case Load(s) =>
      match LoadStep(m, s)
      case Success(step) => step
      case Failure(_) => Step(m, [])
  }

  function Replay(m: ManagerState, ops: seq<Op>): (r: Step)
    requires Consistent(m)
    ensures Consistent(r.next)
    decreases |ops|
  {
    if ops == [] then Step(m, [])
    else
      var first := Apply(m, ops[0]);
      var rest := Replay(first.next, ops[1..]);
      Step(rest.next, first.effects + rest.effects)
  }

  function Count(effects: seq<Effect>, e: Effect): (n: nat)
    ensures n <= |effects|
  {
    if effects == [] then 0 else (if effects[0] == e then 1 else 0) + Count(effects[1..], e)
  }

  lemma CountAppend(a: seq<Effect>, b: seq<Effect>, e: Effect)
    ensures Count(a + b, e) == Count(a, e) + Count(b, e)
  {
    if a == [] {
      assert a + b == b;
    } else {
      assert (a + b)[1..] == a[1..] + b;
    }
  }

  /** CloseSession raises no SessionOpened and one SessionClosed exactly when a session was loaded. */
  lemma CloseCounts(m: ManagerState)
    requires Consistent(m)
    ensures Count(CloseStep(m).effects, SessionOpened) == 0
    ensures Count(CloseStep(m).effects, SessionClosed) == (if m.isLoaded then 1 else 0)
  {
    if m.isLoaded {
      var s := m.session.value;
      var effects := [CloseCall(s), DisposeCall(s), SessionClosed];
      assert effects[1..] == [DisposeCall(s), SessionClosed];
      assert effects[1..][1..] == [SessionClosed];
      assert effects[1..][1..][1..] == [];
      assert Count([SessionClosed], SessionOpened) == 0;
      assert Count([SessionClosed], SessionClosed) == 1;
    }
  }

  /**
   * Opened and closed events pair up: over any run, SessionOpened is raised
   * once more than SessionClosed exactly when the run ends with a session
   * loaded that it did not start with, and so on for the other cases.
   */
  lemma {:induction false} EventsBalance(m: ManagerState, ops: seq<Op>)
    requires Consistent(m)
    ensures Count(Replay(m, ops).effects, SessionOpened) + (if m.isLoaded then 1 else 0)
         == Count(Replay(m, ops).effects, SessionClosed) + (if Replay(m, ops).next.isLoaded then 1 else 0)
    decreases |ops|
  {
    if ops != [] {
      var first := Apply(m, ops[0]);
      EventsBalance(first.next, ops[1..]);
      CountAppend(first.effects, Replay(first.next, ops[1..]).effects, SessionOpened);
      CountAppend(first.effects, Replay(first.next, ops[1..]).effects, SessionClosed);
      CloseCounts(m);
      match ops[0]
      case Close =>
      case Load(s) =>
        if s.Some? {
          assert Count([SessionOpened], SessionClosed) == 0;
          CountAppend(CloseStep(m).effects, [SessionOpened], SessionOpened);
          CountAppend(CloseStep(m).effects, [SessionOpened], SessionClosed);
        }
    }
  }

  /** From a fresh manager, SessionClosed never outnumbers SessionOpened, and by at most one. */
  lemma OpenedThenClosed(ops: seq<Op>)
    ensures var effects := Replay(Initial, ops).effects;
      Count(effects, SessionClosed) <= Count(effects, SessionOpened) <= Count(effects, SessionClosed) + 1
  {
    EventsBalance(Initial, ops);
  }

  class SessionManager {
    var isLoaded: bool
    var session: Option<Session>
    /** The calls on sessions and the events raised so far, oldest first. */
    var effects: seq<Effect>

    function State(): (m: ManagerState)
      reads this
      ensures m.isLoaded == isLoaded && m.session == session
    {
      ManagerState(isLoaded, session)
    }

    predicate Valid()
      reads this
    {
      Consistent(State())
    }

    /** Not loaded, no session. */
    constructor()
      ensures Valid() && State() == Initial && effects == []
    {
      isLoaded := false;
      session := None;
      effects := [];
    }

    method CloseSession()
      requires Valid()
      modifies this
      ensures Valid() && State() == CloseStep(old(State())).next
      ensures effects == old(effects) + CloseStep(old(State())).effects
    {
      if !isLoaded {
        return;
      }
      effects := effects + [CloseCall(session.value), DisposeCall(session.value)];
      session := None;
      isLoaded := false;
      effects := effects + [SessionClosed];
    }

    method LoadSession(newSession: Option<Session>) returns (r: Outcome<Exception>)
      requires Valid()
      modifies this
      ensures Valid()
      ensures newSession.None? <==> r == Fail(ArgumentNull("session"))
      ensures r.Fail? ==> State() == old(State()) && effects == old(effects)
      ensures r.Pass? ==> LoadStep(old(State()), newSession).Success?
      ensures r.Pass? ==> State() == LoadStep(old(State()), newSession).value.next
      ensures r.Pass? ==> effects == old(effects) + LoadStep(old(State()), newSession).value.effects
    {
      if newSession.None? {
        return Fail(ArgumentNull("session"));
      }
      CloseSession();
      session := newSession;
      isLoaded := true;
      effects := effects + [SessionOpened];
      r := Pass;
    }
  }
}
