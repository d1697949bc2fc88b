/** The one local game session, shared by demo playback and recording. Every operation takes
    the session lock for its whole effect, so a run is a sequence of atomic steps; guards that
    are still armed and tasks that were spawned but have not run are the pending agents. */
module RuntimeSession {
  import opened Results

  type Uuid = nat

  datatype Session =
    | Idle
    | PlaybackLaunching(token: Uuid)
    | PlaybackActive(token: Uuid)
    | PlaybackStopping(token: Uuid)
    | Recording(jobId: Uuid)

  /** Whoever still owes the session a step. */
  datatype Agent =
    | LaunchGuard(token: Uuid, launched: bool)  // an armed playback reservation
    | ReleaseTask(token: Uuid)                  // spawned by a drop before the launch
    | CleanupTask(token: Uuid)                  // spawned by a drop after the launch
    | StopGuard(token: Uuid)                    // an armed stop reservation
    | ReconcileTask(token: Uuid)                // waiting for the game to answer

  datatype State = State(session: Session, active: Option<Uuid>, pending: multiset<Agent>)

  const INITIAL := State(Idle, None, multiset{})

  datatype Refusal = PlaybackBusy | RecordingBusy | AlreadyActive | StillLaunching | AlreadyStopping | NotActive

  predicate HeldByPlayback(s: Session) {
    s.PlaybackLaunching? || s.PlaybackActive? || s.PlaybackStopping?
  }

  /** One agent leaves, and hands over to the agents of heirs. */
  function Replace(pending: multiset<Agent>, agent: Agent, heirs: multiset<Agent>): multiset<Agent> {
    pending - multiset{agent} + heirs
  }

  function With(pending: multiset<Agent>, agent: Agent): multiset<Agent> {
    pending + multiset{agent}
  }

  // The operations, as functions of the state.

  function ReservePlayback(s: State, token: Uuid): (State, Option<Refusal>) {
    if s.active.Some? then (s.(session := Recording(s.active.value)), Some(RecordingBusy))
    else if !s.session.Idle? then (s, Some(PlaybackBusy))
    else (s.(session := PlaybackLaunching(token), pending := With(s.pending, LaunchGuard(token, false))), None)
  }

  function ReserveRecording(s: State, id: Uuid, allowExisting: bool): (State, Result<bool, Refusal>) {
    if HeldByPlayback(s.session) then (s, Err(PlaybackBusy))
    else if s.active.Some? then
      if s.active.value == id && allowExisting then (s.(session := Recording(id)), Ok(false))
      else (s, Err(if s.active.value == id then AlreadyActive else RecordingBusy))
    else if s.session.Recording? then
      if s.session.jobId == id && allowExisting then (s.(active := Some(id)), Ok(false))
      else (s, Err(RecordingBusy))
    else (s.(session := Recording(id), active := Some(id)), Ok(true))
  }

  function ReleaseRecording(s: State, id: Uuid): State {
    s.(active := if s.active == Some(id) then None else s.active,
       session := if s.session == Recording(id) then Idle else s.session)
  }

  function BeginStop(s: State): (State, Result<Uuid, Refusal>) {
    match s.session
    case PlaybackActive(token) =>
      (s.(session := PlaybackStopping(token), pending := With(s.pending, StopGuard(token))), Ok(token))
    case PlaybackLaunching(_) => (s, Err(StillLaunching))
    case PlaybackStopping(_) => (s, Err(AlreadyStopping))
    case _ => (s, Err(NotActive))
  }

  function Released(session: Session, token: Uuid): Session {
    if HeldByPlayback(session) && session.token == token then Idle else session
  }

  /** A launch guard that goes out of scope hands its duty to a task. */
  function DropLaunch(s: State, token: Uuid, launched: bool): State {
    s.(pending := Replace(s.pending, LaunchGuard(token, launched),
                          multiset{if launched then CleanupTask(token) else ReleaseTask(token)}))
  }

  function Activation(s: State, token: Uuid, launched: bool): (State, bool) {
    if s.session == PlaybackLaunching(token) then
      (s.(session := PlaybackActive(token), pending := Replace(s.pending, LaunchGuard(token, launched), multiset{})), true)
    else
      (DropLaunch(s, token, launched), false)
  }

  function RunRelease(s: State, token: Uuid): State {
    s.(session := Released(s.session, token), pending := Replace(s.pending, ReleaseTask(token), multiset{}))
  }

  function RunCleanup(s: State, token: Uuid): State {
    if s.session == PlaybackLaunching(token) || s.session == PlaybackActive(token) then
      s.(session := PlaybackStopping(token),
         pending := Replace(s.pending, CleanupTask(token), multiset{ReconcileTask(token)}))
    else
      s.(pending := Replace(s.pending, CleanupTask(token), multiset{}))
  }

  function CompleteStop(s: State, token: Uuid): State {
    s.(session := Released(s.session, token), pending := Replace(s.pending, StopGuard(token), multiset{}))
  }

  function DropStop(s: State, token: Uuid): State {
    s.(pending := Replace(s.pending, StopGuard(token), multiset{ReconcileTask(token)}))
  }

  /** stopped is what the game answered: anything but a true stopped field counts as false. */
  function RunReconcile(s: State, token: Uuid, stopped: bool): State {
    s.(session := if s.session != PlaybackStopping(token) then s.session
                  else if stopped then Idle else PlaybackActive(token),
       pending := Replace(s.pending, ReconcileTask(token), multiset{}))
  }

  // Runs.

  datatype Event =
    | Reserve(token: Uuid)
    | Record(id: Uuid, allowExisting: bool)
    | EndRecording(id: Uuid)
    | Stop
    | BeginLaunch(token: Uuid)
    | Activate(token: Uuid, launched: bool)
    | Abandon(token: Uuid, launched: bool)
    | Release(token: Uuid)
    | Cleanup(token: Uuid)
    | Complete(token: Uuid)
    | AbandonStop(token: Uuid)
    | Reconcile(token: Uuid, stopped: bool)

  /** The agent that performs an event, if it takes one. */
  function Actor(e: Event): Option<Agent> {
    match e
    case BeginLaunch(token) => Some(LaunchGuard(token, false))
    case Activate(token, launched) => Some(LaunchGuard(token, launched))
    case Abandon(token, launched) => Some(LaunchGuard(token, launched))
    case Release(token) => Some(ReleaseTask(token))
    case Cleanup(token) => Some(CleanupTask(token))
    case Complete(token) => Some(StopGuard(token))
    case AbandonStop(token) => Some(StopGuard(token))
    case Reconcile(token, _) => Some(ReconcileTask(token))
    case _ => None
  }

  predicate Enabled(s: State, e: Event) {
    Actor(e).Some? ==> Actor(e).value in s.pending
  }

  function Step(s: State, e: Event): State {
    match e
    case Reserve(token) => ReservePlayback(s, token).0
    case Record(id, allowExisting) => ReserveRecording(s, id, allowExisting).0
    case EndRecording(id) => ReleaseRecording(s, id)
    case Stop => BeginStop(s).0
    case BeginLaunch(token) =>
      s.(pending := Replace(s.pending, LaunchGuard(token, false), multiset{LaunchGuard(token, true)}))
    case Activate(token, launched) => Activation(s, token, launched).0
    case Abandon(token, launched) => DropLaunch(s, token, launched)
    case Release(token) => RunRelease(s, token)
    case Cleanup(token) => RunCleanup(s, token)
    case Complete(token) => CompleteStop(s, token)
    case AbandonStop(token) => DropStop(s, token)
    case Reconcile(token, stopped) => RunReconcile(s, token, stopped)
  }

  /** A schedule is any list of events; one whose actor is not there does nothing. */
  function Exec(s: State, schedule: seq<Event>): State
    decreases |schedule|
  {
    if schedule == [] then s
    else Exec(if Enabled(s, schedule[0]) then Step(s, schedule[0]) else s, schedule[1..])
  }

  // What every run keeps.

  predicate Responsible(a: Agent, s: Session) {
    match s
    case PlaybackLaunching(token) => a.token == token && (a.LaunchGuard? || a.ReleaseTask? || a.CleanupTask?)
    case PlaybackStopping(token) => a.token == token && (a.StopGuard? || a.ReconcileTask?)
    case _ => false
  }

  predicate Settled(s: Session) {
    !s.PlaybackLaunching? && !s.PlaybackStopping?
  }

  /** The recording slot mirrors the session; an unsettled session has exactly one pending
      agent and it answers for that session; a settled one has none. */
  ghost predicate Invariant(s: State) {
    && (s.active == if s.session.Recording? then Some(s.session.jobId) else None)
    && if Settled(s.session) then s.pending == multiset{}
       else exists a :: s.pending == multiset{a} && Responsible(a, s.session)
  }

  lemma {:induction false} StepKeepsInvariant(s: State, e: Event)
    requires Invariant(s) && Enabled(s, e)
    ensures Invariant(Step(s, e))
  {
    hide Replace, With;
    if Settled(s.session) {
      match e {
        case Reserve(token) => Alone(LaunchGuard(token, false));
        case Stop =>
          if s.session.PlaybackActive? {
            Alone(StopGuard(s.session.token));
          }
        case _ =>
      }
    } else {
      var a :| s.pending == multiset{a} && Responsible(a, s.session);
      if Actor(e).Some? {
        SoleActorIs(a, s, e);
        SoleActor(s, a, e);
      }
    }
  }

  function Distance(a: Agent): nat {
    match a
    case LaunchGuard(_, false) => 3
    case LaunchGuard(_, true) => 3
    case CleanupTask(_) => 2
    case StopGuard(_) => 2
    case ReleaseTask(_) => 1
    case ReconcileTask(_) => 1
  }

  lemma {:induction false} Alone(a: Agent)
    ensures With(multiset{}, a) == multiset{a}
  {
  }

  lemma {:induction false} Succeeded(pending: multiset<Agent>, a: Agent, heirs: multiset<Agent>)
    requires pending == multiset{a}
    ensures Replace(pending, a, heirs) == heirs
  {
  }

  /** What is left when a, alone, performed e and the session is not settled: one agent that is
      nearer to the end, or as near if e only announced the launch. */
  ghost predicate HandedOver(t: State, a: Agent, e: Event) {
    exists b :: t.pending == multiset{b} && Responsible(b, t.session)
                && (if e.BeginLaunch? then Distance(b) == Distance(a) else Distance(b) < Distance(a))
  }

  lemma {:induction false} SoleActor(s: State, a: Agent, e: Event)
    requires s.pending == multiset{a} && Responsible(a, s.session) && s.active.None? && Actor(e) == Some(a)
    ensures Invariant(Step(s, e))
    ensures !Settled(Step(s, e).session) ==> HandedOver(Step(s, e), a, e)
  {
    hide Replace, With, Invariant, HandedOver;
    var t := Step(s, e);
    match e {
      case BeginLaunch(token) => HandOver(s, t, LaunchGuard(token, true), a, e);
      case Activate(_, _) => LeaveSettled(s, t, a);
      case Abandon(token, launched) =>
        HandOver(s, t, if launched then CleanupTask(token) else ReleaseTask(token), a, e);
      case Release(_) => LeaveSettled(s, t, a);
      case Cleanup(token) => HandOver(s, t, ReconcileTask(token), a, e);
      case Complete(_) => LeaveSettled(s, t, a);
      case AbandonStop(token) => HandOver(s, t, ReconcileTask(token), a, e);
      case Reconcile(_, _) => LeaveSettled(s, t, a);
    }
  }

  lemma {:induction false} HandOver(s: State, t: State, b: Agent, a: Agent, e: Event)
    requires s.pending == multiset{a} && t.pending == Replace(s.pending, a, multiset{b})
    requires t.active.None? && Responsible(b, t.session)
    requires if e.BeginLaunch? then Distance(b) == Distance(a) else Distance(b) < Distance(a)
    ensures Invariant(t) && HandedOver(t, a, e)
  {
    Succeeded(s.pending, a, multiset{b});
  }

  lemma {:induction false} LeaveSettled(s: State, t: State, a: Agent)
    requires s.pending == multiset{a} && t.pending == Replace(s.pending, a, multiset{})
    requires t.active.None? && Settled(t.session) && !t.session.Recording?
    ensures Invariant(t)
  {
    Succeeded(s.pending, a, multiset{});
  }

  lemma {:induction false} SoleActorIs(a: Agent, s: State, e: Event)
    requires s.pending == multiset{a} && Actor(e).Some? && Enabled(s, e)
    ensures Actor(e) == Some(a)
  {
  }

  /** In every interleaving: the session is Recording{j} exactly when the active recording is j,
      and nothing is left without, or with more than, one agent answering for it. */
  lemma {:induction false} RunsKeepInvariant(s: State, schedule: seq<Event>)
    requires Invariant(s)
    ensures Invariant(Exec(s, schedule))
    ensures forall j: Uuid :: Exec(s, schedule).session == Recording(j) <==> Exec(s, schedule).active == Some(j)
    decreases |schedule|
  {
    if schedule != [] {
      if Enabled(s, schedule[0]) {
        StepKeepsInvariant(s, schedule[0]);
        RunsKeepInvariant(Step(s, schedule[0]), schedule[1..]);
      } else {
        RunsKeepInvariant(s, schedule[1..]);
      }
    }
  }

  /** In any state at all, reachable or not: what an agent of one token does leaves the
      recording slot alone, and leaves every session alone that its own token does not hold. */
  lemma {:induction false} AgentsMindTheirOwnToken(s: State, e: Event)
    requires Actor(e).Some?
    ensures Step(s, e).active == s.active
    ensures Step(s, e).session != s.session ==>
      && HeldByPlayback(s.session) && s.session.token == Actor(e).value.token
      && (Step(s, e).session.Idle?
          || (HeldByPlayback(Step(s, e).session) && Step(s, e).session.token == s.session.token))
  {
  }

  /** Operations that are not the responsible agent's get nowhere while the session is unsettled. */
  lemma {:induction false} OthersAreTurnedAway(s: State, e: Event)
    requires Invariant(s) && !Settled(s.session) && Actor(e).None?
    ensures Step(s, e) == s
  {
  }

  // Progress.

  /** How many more turns the pending agents can need. */
  ghost function Remaining(s: State): (n: nat)
    requires Invariant(s)
    ensures n == 0 <==> Settled(s.session)
    ensures n <= 3
  {
    if Settled(s.session) then 0
    else var a :| a in s.pending; Distance(a)
  }

  /** A turn is an event that ends the agent's present life; announcing the launch is not. */
  predicate IsTurn(s: State, e: Event) {
    Actor(e).Some? && Enabled(s, e) && !e.BeginLaunch?
  }

  lemma {:induction false} TurnsMakeProgress(s: State, e: Event)
    requires Invariant(s) && Enabled(s, e) && !Settled(s.session)
    ensures Invariant(Step(s, e))
    ensures Remaining(Step(s, e)) <= Remaining(s)
    ensures IsTurn(s, e) ==> Remaining(Step(s, e)) < Remaining(s)
  {
    hide Replace, With;
    StepKeepsInvariant(s, e);
    var a :| s.pending == multiset{a} && Responsible(a, s.session);
    assert Remaining(s) == Distance(a);
    if Actor(e).None? {
      OthersAreTurnedAway(s, e);
    } else {
      SoleActorIs(a, s, e);
      SoleActor(s, a, e);
    }
  }

  function Turns(s: State, schedule: seq<Event>): nat
    decreases |schedule|
  {
    if schedule == [] then 0
    else (if IsTurn(s, schedule[0]) then 1 else 0)
         + Turns(if Enabled(s, schedule[0]) then Step(s, schedule[0]) else s, schedule[1..])
  }

  /** An unsettled session cannot stay so: its agent can always take a turn, and after at most
      three turns, whatever else is interleaved, the session has been idle or active. */
  lemma {:induction false} NeverStuck(s: State, schedule: seq<Event>) returns (k: nat)
    requires Invariant(s) && Turns(s, schedule) >= Remaining(s)
    ensures k <= |schedule| && Settled(Exec(s, schedule[..k]).session)
    decreases |schedule|
  {
    k := 0;
    if !Settled(s.session) {
      var e := schedule[0];
      var t := if Enabled(s, e) then Step(s, e) else s;
      if Enabled(s, e) {
        TurnsMakeProgress(s, e);
      }
      var j := NeverStuck(t, schedule[1..]);
      k := j + 1;
      assert schedule[..k][0] == e && schedule[..k][1..] == schedule[1..][..j];
    }
  }

  lemma {:induction false} ATurnIsAlwaysPossible(s: State) returns (e: Event)
    requires Invariant(s) && !Settled(s.session)
    ensures IsTurn(s, e)
  {
    var a :| s.pending == multiset{a} && Responsible(a, s.session);
    match a
    case LaunchGuard(token, launched) => e := Abandon(token, launched);
    case ReleaseTask(token) => e := Release(token);
    case CleanupTask(token) => e := Cleanup(token);
    case StopGuard(token) => e := Complete(token);
    case ReconcileTask(token) => e := Reconcile(token, true);
  }

  // Where the steps lead.

  /** Every step out of an unsettled session, and which step can have led where: a stopping session goes
      idle exactly by a completed stop or by the answer that the game has stopped, and active exactly by
      the other answer. */
  lemma {:induction false} StepsOfPlayback(s: State, e: Event, token: Uuid)
    requires Invariant(s) && Enabled(s, e)
    ensures s.session == PlaybackStopping(token) ==>
      && (Step(s, e).session == Idle <==> e == Complete(token) || e == Reconcile(token, true))
      && (Step(s, e).session == PlaybackActive(token) <==> e == Reconcile(token, false))
      && (Step(s, e).session != s.session ==> Step(s, e).session in {Idle, PlaybackActive(token)})
    ensures s.session == PlaybackLaunching(token) ==>
      && (Step(s, e).session == Idle <==> e == Release(token))
      && (Step(s, e).session == PlaybackActive(token) <==> e.Activate?)
      && (Step(s, e).session == PlaybackStopping(token) <==> e == Cleanup(token))
      && (Step(s, e).session != s.session ==>
            Step(s, e).session in {Idle, PlaybackActive(token), PlaybackStopping(token)})
    ensures s.session == PlaybackActive(token) ==>
      Step(s, e).session == if e.Stop? then PlaybackStopping(token) else PlaybackActive(token)
  {
    hide Replace, With;
    if !Settled(s.session) {
      var a :| s.pending == multiset{a} && Responsible(a, s.session);
      if Actor(e).Some? {
        SoleActorIs(a, s, e);
      }
    } else {
      assert Actor(e).None?;
    }
  }

  /** And out of a settled one without playback. */
  lemma {:induction false} StepsOfRecording(s: State, e: Event)
    requires Invariant(s) && Enabled(s, e)
    ensures s.session.Idle? ==>
      Step(s, e).session == match e
                            case Reserve(token) => PlaybackLaunching(token)
                            case Record(id, _) => Recording(id)
                            case _ => Idle
    ensures s.session.Recording? ==>
      Step(s, e).session == if e == EndRecording(s.session.jobId) then Idle else s.session
  {
    hide Replace, With;
    if Settled(s.session) {
      assert Actor(e).None?;
    }
  }

  /** The tokens for which the game may be running: from the beginning of a launch until the game is known
      to have stopped. */
  function Running(plays: set<Uuid>, s: State, e: Event): set<Uuid> {
    if !Enabled(s, e) then plays
    else
      match e
      case BeginLaunch(token) => plays + {token}
      case Complete(token) => plays - {token}
      case Reconcile(token, stopped) => if stopped then plays - {token} else plays
      case _ => plays
  }

  function PlaysAfter(plays: set<Uuid>, s: State, schedule: seq<Event>): set<Uuid>
    decreases |schedule|
  {
    if schedule == [] then plays
    else PlaysAfter(Running(plays, s, schedule[0]), if Enabled(s, schedule[0]) then Step(s, schedule[0]) else s,
                    schedule[1..])
  }

  /** Whoever cleans up after a launch knows that it began; whoever only releases, that it did not. */
  predicate KnowsOfLaunch(a: Agent, plays: set<Uuid>) {
    && (a == LaunchGuard(a.token, true) || a.CleanupTask? ==> a.token in plays)
    && (a == LaunchGuard(a.token, false) || a.ReleaseTask? ==> a.token !in plays)
  }

  ghost predicate OfSession(session: Session, plays: set<Uuid>) {
    forall t <- plays :: HeldByPlayback(session) && session.token == t
  }

  ghost predicate GameIsHeld(s: State, plays: set<Uuid>) {
    OfSession(s.session, plays) && forall a <- s.pending :: KnowsOfLaunch(a, plays)
  }

  lemma HeldByOne(s: State, plays: set<Uuid>, a: Agent)
    requires s.pending == multiset{a}
    ensures GameIsHeld(s, plays) <==> OfSession(s.session, plays) && KnowsOfLaunch(a, plays)
  {
    assert a in s.pending;
  }

  lemma HeldByNone(s: State, plays: set<Uuid>)
    requires s.pending == multiset{}
    ensures GameIsHeld(s, plays) <==> OfSession(s.session, plays)
  {
  }

  lemma {:induction false} StepKeepsGameHeld(s: State, plays: set<Uuid>, e: Event)
    requires Invariant(s) && Enabled(s, e) && GameIsHeld(s, plays)
    ensures GameIsHeld(Step(s, e), Running(plays, s, e))
  {
    hide Replace, With, GameIsHeld;
    if Settled(s.session) {
      HeldByNone(s, plays);
      assert Actor(e).None?;
      SettledKeepsGameHeld(s, plays, e);
    } else {
      var a :| s.pending == multiset{a} && Responsible(a, s.session);
      HeldByOne(s, plays, a);
      if Actor(e).Some? {
        SoleActorIs(a, s, e);
        TurnKeepsGameHeld(s, plays, e, a);
      } else {
        OthersAreTurnedAway(s, e);
      }
    }
  }

  lemma {:induction false} SettledKeepsGameHeld(s: State, plays: set<Uuid>, e: Event)
    requires Invariant(s) && Actor(e).None? && Settled(s.session) && OfSession(s.session, plays)
    ensures GameIsHeld(Step(s, e), Running(plays, s, e))
  {
    hide With, Replace, GameIsHeld;
    var t := Step(s, e);
    match e {
      case Reserve(token) =>
        Alone(LaunchGuard(token, false));
        if s.session.Idle? {
          HeldByOne(t, plays, LaunchGuard(token, false));
        } else {
          HeldByNone(t, plays);
        }
      case Stop =>
        if s.session.PlaybackActive? {
          Alone(StopGuard(s.session.token));
          HeldByOne(t, plays, StopGuard(s.session.token));
        } else {
          HeldByNone(t, plays);
        }
      case Record(_, _) => HeldByNone(t, plays);
      case EndRecording(_) => HeldByNone(t, plays);
      case _ =>
    }
  }

  lemma {:induction false} TurnKeepsGameHeld(s: State, plays: set<Uuid>, e: Event, a: Agent)
    requires s.pending == multiset{a} && Responsible(a, s.session) && Actor(e) == Some(a)
    requires OfSession(s.session, plays) && KnowsOfLaunch(a, plays)
    ensures GameIsHeld(Step(s, e), Running(plays, s, e))
  {
    hide Replace, GameIsHeld;
    var t, after := Step(s, e), Running(plays, s, e);
    assert Enabled(s, e);
    match e {
      case BeginLaunch(token) => Left(s, t, after, a, LaunchGuard(token, true));
      case Abandon(token, launched) =>
        Left(s, t, after, a, if launched then CleanupTask(token) else ReleaseTask(token));
      case Cleanup(token) => Left(s, t, after, a, ReconcileTask(token));
      case AbandonStop(token) => Left(s, t, after, a, ReconcileTask(token));
      case _ =>
        Succeeded(s.pending, a, multiset{});
        HeldByNone(t, after);
    }
  }

  lemma Left(s: State, t: State, plays: set<Uuid>, a: Agent, b: Agent)
    requires s.pending == multiset{a} && t.pending == Replace(s.pending, a, multiset{b})
    requires OfSession(t.session, plays) && KnowsOfLaunch(b, plays)
    ensures GameIsHeld(t, plays)
  {
    Succeeded(s.pending, a, multiset{b});
    HeldByOne(t, plays, b);
  }

  /** In no run is the session idle, or held by a recording or by another token, while the game may be
      running; and a launch that never began is never stopped, but simply released. */
  lemma {:induction false} NeverIdleWhileRunning(s: State, plays: set<Uuid>, schedule: seq<Event>)
    requires Invariant(s) && GameIsHeld(s, plays)
    ensures GameIsHeld(Exec(s, schedule), PlaysAfter(plays, s, schedule))
    ensures PlaysAfter(plays, s, schedule) != {} ==>
      !Exec(s, schedule).session.Idle? && !Exec(s, schedule).session.Recording?
    decreases |schedule|
  {
    hide Replace, With;
    if schedule == [] {
      assert forall t <- plays :: HeldByPlayback(s.session);
    } else {
      var e := schedule[0];
      if Enabled(s, e) {
        StepKeepsInvariant(s, e);
        StepKeepsGameHeld(s, plays, e);
        NeverIdleWhileRunning(Step(s, e), Running(plays, s, e), schedule[1..]);
      } else {
        NeverIdleWhileRunning(s, plays, schedule[1..]);
      }
    }
  }

  lemma GameIsHeldInitially()
    ensures Invariant(INITIAL) && GameIsHeld(INITIAL, {})
  {
  }

  /** So from the start. */
  lemma {:induction false} HeldInEveryRun(schedule: seq<Event>)
    ensures PlaysAfter({}, INITIAL, schedule) != {} ==>
      !Exec(INITIAL, schedule).session.Idle? && !Exec(INITIAL, schedule).session.Recording?
  {
    GameIsHeldInitially();
    NeverIdleWhileRunning(INITIAL, {}, schedule);
  }

  // What callers get.

  /** In a reachable state a session is granted exactly when it is idle, a recording re-enters
      exactly its own session, and the two lines that resynchronise slot and session do nothing. */
  lemma {:induction false} GrantsAreExclusive(s: State, token: Uuid, id: Uuid, allowExisting: bool)
    requires Invariant(s)
    ensures ReservePlayback(s, token).1.None? <==> s.session.Idle?
    ensures ReservePlayback(s, token).1.Some? ==> ReservePlayback(s, token).0 == s
    ensures ReserveRecording(s, id, allowExisting).1 == Ok(true) <==> s.session.Idle?
    ensures ReserveRecording(s, id, allowExisting).1 == Ok(false) <==> (s.session == Recording(id) && allowExisting)
    ensures !s.session.Idle? ==> ReserveRecording(s, id, allowExisting).0 == s
    ensures BeginStop(s).1.Ok? <==> s.session.PlaybackActive?
  {
  }

  /** A refusal names what holds the session. */
  lemma {:induction false} RefusalsNameTheHolder(s: State, token: Uuid, id: Uuid, allowExisting: bool)
    requires Invariant(s)
    ensures ReservePlayback(s, token).1 == Some(RecordingBusy) <==> s.session.Recording?
    ensures ReservePlayback(s, token).1 == Some(PlaybackBusy) <==> HeldByPlayback(s.session)
    ensures ReserveRecording(s, id, allowExisting).1 == Err(PlaybackBusy) <==> HeldByPlayback(s.session)
    ensures ReserveRecording(s, id, allowExisting).1 == Err(AlreadyActive) <==> s.session == Recording(id) && !allowExisting
    ensures ReserveRecording(s, id, allowExisting).1 == Err(RecordingBusy) <==>
      s.session.Recording? && s.session.jobId != id
    ensures forall t: Uuid :: BeginStop(s).1 == Ok(t) <==> s.session == PlaybackActive(t)
    ensures BeginStop(s).1 == Err(StillLaunching) <==> s.session.PlaybackLaunching?
    ensures BeginStop(s).1 == Err(AlreadyStopping) <==> s.session.PlaybackStopping?
    ensures BeginStop(s).1 == Err(NotActive) <==> !HeldByPlayback(s.session)
  {
  }

  /** A reservation that is still armed can always be activated: the failing branch of
      mark_active is never taken. */
  lemma {:induction false} ActivationSucceeds(s: State, token: Uuid, launched: bool)
    requires Invariant(s) && LaunchGuard(token, launched) in s.pending
    ensures Activation(s, token, launched).1
    ensures Activation(s, token, launched).0 == State(PlaybackActive(token), None, multiset{})
  {
    var a :| s.pending == multiset{a} && Responsible(a, s.session);
    assert a == LaunchGuard(token, launched);
    Succeeded(s.pending, a, multiset{});
  }

  // The objects.

  /** The two mutex-held fields, and the agents whose obligations are outstanding. */
  class LocalGame {
    var session: Session
    var activeRecording: Option<Uuid>
    ghost var pending: multiset<Agent>

    ghost function Now(): State
      reads this
    {
      State(session, activeRecording, pending)
    }

    constructor ()
      ensures Now() == INITIAL && Invariant(Now())
    {
      session, activeRecording, pending := Idle, None, multiset{};
    }

    method ReservePlaybackSession(token: Uuid) returns (r: Result<PlaybackReservation, Refusal>)
      modifies this
      ensures Now() == ReservePlayback(old(Now()), token).0
      ensures r.Ok? <==> ReservePlayback(old(Now()), token).1.None?
      ensures r.Ok? ==> fresh(r.value) && r.value.game == this && r.value.token == token && r.value.armed
                        && !r.value.runtimeLaunchStarted && r.value.Valid()
      ensures r.Err? ==> Some(r.error) == ReservePlayback(old(Now()), token).1
    {
      if activeRecording.Some? {
        session := Recording(activeRecording.value);
        return Err(RecordingBusy);
      }
      if !session.Idle? {
        return Err(PlaybackBusy);
      }
      session := PlaybackLaunching(token);
      pending := With(pending, LaunchGuard(token, false));
      var reservation := new PlaybackReservation(this, token);
      return Ok(reservation);
    }

    method ReserveRecordingSession(id: Uuid, allowExisting: bool) returns (r: Result<bool, Refusal>)
      modifies this
      ensures (Now(), r) == ReserveRecording(old(Now()), id, allowExisting)
    {
      match session {
        case PlaybackLaunching(_) => return Err(PlaybackBusy);
        case PlaybackActive(_) => return Err(PlaybackBusy);
        case PlaybackStopping(_) => return Err(PlaybackBusy);
        case _ =>
      }
      if activeRecording.Some? {
        var activeId := activeRecording.value;
        if activeId == id && allowExisting {
          session := Recording(id);
          return Ok(false);
        }
        return Err(if activeId == id then AlreadyActive else RecordingBusy);
      }
      if session.Recording? {
        if session.jobId == id && allowExisting {
          activeRecording := Some(id);
          return Ok(false);
        }
        return Err(RecordingBusy);
      }
      activeRecording := Some(id);
      session := Recording(id);
      return Ok(true);
    }

    method ReleaseRecordingSession(id: Uuid)
      modifies this
      ensures Now() == ReleaseRecording(old(Now()), id)
    {
      if activeRecording == Some(id) {
        activeRecording := None;
      }
      if session == Recording(id) {
        session := Idle;
      }
    }

    method BeginPlaybackStop() returns (r: Result<StopReservation, Refusal>)
      modifies this
      ensures Now() == BeginStop(old(Now())).0
      ensures r.Ok? ==> fresh(r.value) && r.value.game == this && r.value.armed && r.value.Valid()
                        && Ok(r.value.token) == BeginStop(old(Now())).1
      ensures r.Err? ==> Err(r.error) == BeginStop(old(Now())).1
    {
      match session {
        case PlaybackActive(token) =>
          session := PlaybackStopping(token);
          pending := With(pending, StopGuard(token));
          var reservation := new StopReservation(this, token);
          return Ok(reservation);
        case PlaybackLaunching(_) => return Err(StillLaunching);
        case PlaybackStopping(_) => return Err(AlreadyStopping);
        case Idle => return Err(NotActive);
        case Recording(_) => return Err(NotActive);
      }
    }

    method ReleasePlaybackSession(token: Uuid)
      modifies this`session
      ensures session == Released(old(session), token)
    {
      if HeldByPlayback(session) && session.token == token {
        session := Idle;
      }
    }

    /** What a drop before the launch spawns. */
    method RunReleaseTask(token: Uuid)
      requires ReleaseTask(token) in pending
      modifies this
      ensures Now() == RunRelease(old(Now()), token)
    {
      ReleasePlaybackSession(token);
      pending := Replace(pending, ReleaseTask(token), multiset{});
    }

    /** The first half of what a drop after the launch spawns; it goes on as a reconciliation. */
    method RunCleanupTask(token: Uuid)
      requires CleanupTask(token) in pending
      modifies this
      ensures Now() == RunCleanup(old(Now()), token)
    {
      if session != PlaybackLaunching(token) && session != PlaybackActive(token) {
        pending := Replace(pending, CleanupTask(token), multiset{});
        return;
      }
      session := PlaybackStopping(token);
      pending := Replace(pending, CleanupTask(token), multiset{ReconcileTask(token)});
    }

    method ReconcilePlaybackStop(token: Uuid, stopped: bool)
      requires ReconcileTask(token) in pending
      modifies this
      ensures Now() == RunReconcile(old(Now()), token, stopped)
    {
      pending := Replace(pending, ReconcileTask(token), multiset{});
      if session != PlaybackStopping(token) {
        return;
      }
      session := if stopped then Idle else PlaybackActive(token);
    }

    /** What the status route reports. The debug assertion on the recording slot never fires. */
    method Snapshot() returns (status: string, job: Option<Uuid>)
      requires Invariant(Now())
      ensures job == activeRecording
      ensures job.Some? <==> status == "recording"
    {
      match session {
        case Idle => return "idle", None;
        case PlaybackLaunching(_) => return "playback_launching", None;
        case PlaybackActive(_) => return "playback", None;
        case PlaybackStopping(_) => return "playback_stopping", None;
        case Recording(jobId) =>
          assert activeRecording == Some(jobId);
          return "recording", Some(jobId);
      }
    }
  }

  class PlaybackReservation {
    const game: LocalGame
    const token: Uuid
    var runtimeLaunchStarted: bool
    var armed: bool

    constructor (game: LocalGame, token: Uuid)
      ensures this.game == game && this.token == token && !runtimeLaunchStarted && armed
    {
      this.game, this.token, runtimeLaunchStarted, armed := game, token, false, true;
    }

    ghost predicate Valid()
      reads this, game
    {
      armed ==> LaunchGuard(token, runtimeLaunchStarted) in game.pending
    }

    method BeginRuntimeLaunch()
      requires Valid() && armed
      modifies this`runtimeLaunchStarted, game`pending
      ensures Valid()
      ensures game.Now() == if old(runtimeLaunchStarted) then old(game.Now())
                            else Step(old(game.Now()), BeginLaunch(token))
    {
      if !runtimeLaunchStarted {
        game.pending := Replace(game.pending, LaunchGuard(token, false), multiset{LaunchGuard(token, true)});
      }
      runtimeLaunchStarted := true;
    }

    /** Consumes the reservation, so it ends with the drop. */
    method MarkActive() returns (activated: bool)
      requires Valid() && armed
      modifies this, game
      ensures (game.Now(), activated) == Activation(old(game.Now()), token, old(runtimeLaunchStarted))
      ensures !armed
    {
      activated := false;
      if game.session == PlaybackLaunching(token) {
        game.session := PlaybackActive(token);
        activated := true;
      }
      if activated {
        armed := false;
        game.pending := Replace(game.pending, LaunchGuard(token, runtimeLaunchStarted), multiset{});
      }
      Drop();
    }

    method Drop()
      requires Valid()
      modifies this, game`pending
      ensures !armed && runtimeLaunchStarted == old(runtimeLaunchStarted)
      ensures game.Now() == if old(armed) then DropLaunch(old(game.Now()), token, runtimeLaunchStarted)
                            else old(game.Now())
    {
      if !armed {
        return;
      }
      if !runtimeLaunchStarted {
        game.pending := Replace(game.pending, LaunchGuard(token, false), multiset{ReleaseTask(token)});
      } else {
        game.pending := Replace(game.pending, LaunchGuard(token, true), multiset{CleanupTask(token)});
      }
      armed := false;
    }
  }

  class StopReservation {
    const game: LocalGame
    const token: Uuid
    var armed: bool

    constructor (game: LocalGame, token: Uuid)
      ensures this.game == game && this.token == token && armed
    {
      this.game, this.token, armed := game, token, true;
    }

    ghost predicate Valid()
      reads this, game
    {
      armed ==> StopGuard(token) in game.pending
    }

    method Complete()
      requires Valid() && armed
      modifies this, game
      ensures game.Now() == CompleteStop(old(game.Now()), token)
      ensures !armed
    {
      game.ReleasePlaybackSession(token);
      armed := false;
      game.pending := Replace(game.pending, StopGuard(token), multiset{});
      Drop();
    }

    method Drop()
      requires Valid()
      modifies this, game`pending
      ensures !armed
      ensures game.Now() == if old(armed) then DropStop(old(game.Now()), token) else old(game.Now())
    {
      if armed {
        game.pending := Replace(game.pending, StopGuard(token), multiset{ReconcileTask(token)});
        armed := false;
      }
    }
  }
}
