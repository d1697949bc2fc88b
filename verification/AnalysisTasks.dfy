/** The registry that decides, per analysis run, between committing and cancelling. Every
    registry method holds the entries lock throughout, so a run is a sequence of atomic steps. */
module AnalysisTasks {
  import opened Results

  type Uuid = nat

  datatype Phase = Running | Cancelling | Committing

  datatype Completion = Pending | Cancelled(run: Uuid) | CleanupFailed | OwnerStopped

  datatype TaskError = AlreadyOwned | OwnerUnavailable | CommitInProgress | OwnerGone | CancellationRequested
                     | CancellationCleanupFailed

  datatype Entry = Entry(phase: Phase, channel: nat)

  /** The watch channel of one registration, and its cancellation flag. */
  datatype Channel = Channel(value: Completion, open: bool, cancelRequested: bool)

  datatype Owner = Owner(run: Uuid, live: bool)

  /** How an owner ended: one of the three finish calls, or a drop without any. */
  datatype Report = ReportCancelled(run: Uuid) | ReportCleanupFailed | ReportTerminal | Dropped

  /** Registrations are numbered: the k-th owner has the k-th channel. */
  datatype Happening = CommitBegan(registration: nat) | CancelAccepted(registration: nat)
                     | Ended(registration: nat, report: Report)

  datatype State = State(entries: map<Uuid, Entry>, channels: seq<Channel>, owners: seq<Owner>, history: seq<Happening>)

  const INITIAL := State(map[], [], [], [])

  /** What the owner's ending leaves in the channel. */
  function Left(report: Report): Completion {
    match report
    case ReportCancelled(run) => Cancelled(run)
    case ReportCleanupFailed => CleanupFailed
    case ReportTerminal => Pending
    case Dropped => OwnerStopped
  }

  // The operations. As in the code, they find an entry by run id alone.

  function Registered(s: State, run: Uuid): (State, Option<TaskError>) {
    if run in s.entries then (s, Some(AlreadyOwned))
    else (State(s.entries[run := Entry(Running, |s.channels|)], s.channels + [Channel(Pending, true, false)],
                s.owners + [Owner(run, true)], s.history), None)
  }

  ghost predicate ChannelsExist(s: State) {
    forall run <- s.entries :: s.entries[run].channel < |s.channels|
  }

  /** The waiter is the number of the channel it subscribed to. */
  function CancelRequested(s: State, run: Uuid): (State, Result<nat, TaskError>)
    requires ChannelsExist(s)
  {
    if run !in s.entries then (s, Err(OwnerUnavailable))
    else
      var entry := s.entries[run];
      match entry.phase
      case Running =>
        (s.(entries := s.entries[run := entry.(phase := Cancelling)],
            channels := s.channels[entry.channel := s.channels[entry.channel].(cancelRequested := true)],
            history := s.history + [CancelAccepted(entry.channel)]),
         Ok(entry.channel))
      case Cancelling => (s, Ok(entry.channel))
      case Committing => (s, Err(CommitInProgress))
  }

  function CommitTried(s: State, run: Uuid): (State, CommitReply)
  {
    if run !in s.entries then (s, Refused(OwnerUnavailable))
    else
      var entry := s.entries[run];
      match entry.phase
      case Running =>
        (s.(entries := s.entries[run := entry.(phase := Committing)],
            history := s.history + [CommitBegan(entry.channel)]), Begun)
      case Cancelling => (s, Refused(CancellationRequested))
      case Committing => (s, Refused(CommitInProgress))
  }

  datatype CommitReply = Begun | Refused(error: TaskError)

  /** The entry of the run goes, its channel gets its last value and closes. */
  function Finish(s: State, owner: nat, report: Report): State
    requires ChannelsExist(s) && owner < |s.owners|
  {
    var run := s.owners[owner].run;
    var t := s.(owners := s.owners[owner := Owner(run, false)], history := s.history + [Ended(owner, report)]);
    if run !in s.entries then t
    else
      var c := s.entries[run].channel;
      t.(entries := s.entries - {run},
         channels := s.channels[c := s.channels[c].(value := if report.ReportTerminal? then s.channels[c].value else Left(report),
                                                    open := false)])
  }

  // Runs.

  datatype Event = Enrol(run: Uuid) | AskCancel(run: Uuid) | TryCommit(owner: nat) | End(owner: nat, report: Report)

  /** Owners act only while they exist and are not consumed. */
  predicate Enabled(s: State, e: Event) {
    (e.TryCommit? || e.End?) ==> e.owner < |s.owners| && s.owners[e.owner].live
  }

  function Step(s: State, e: Event): State
    requires ChannelsExist(s) && Enabled(s, e)
  {
    match e
    case Enrol(run) => Registered(s, run).0
    case AskCancel(run) => CancelRequested(s, run).0
    case TryCommit(owner) => CommitTried(s, s.owners[owner].run).0
    case End(owner, report) => Finish(s, owner, report)
  }

  /** Any list of events is a schedule; one whose owner is not there does nothing. */
  ghost function Exec(s: State, schedule: seq<Event>): (t: State)
    requires Invariant(s)
    ensures Invariant(t)
    decreases |schedule|
  {
    if schedule == [] then s
    else if Enabled(s, schedule[0]) then
      StepKeepsInvariant(s, schedule[0]);
      Exec(Step(s, schedule[0]), schedule[1..])
    else Exec(s, schedule[1..])
  }

  // What every run keeps.

  /** An entry and an unfinished owner belong together, one to one. */
  ghost predicate Owned(s: State) {
    && |s.owners| == |s.channels|
    && (forall run <- s.entries :: s.entries[run].channel < |s.owners| && s.owners[s.entries[run].channel] == Owner(run, true))
    && (forall k :: 0 <= k < |s.owners| && s.owners[k].live ==>
          s.owners[k].run in s.entries && s.entries[s.owners[k].run].channel == k)
  }

  ghost predicate Decided(s: State, k: nat)
    requires Owned(s) && k < |s.owners|
  {
    && (s.channels[k].cancelRequested <==> CancelAccepted(k) in s.history)
    && !(CommitBegan(k) in s.history && CancelAccepted(k) in s.history)
    && (s.owners[k].live ==>
          var phase := s.entries[s.owners[k].run].phase;
          && (phase.Committing? <==> CommitBegan(k) in s.history)
          && (phase.Cancelling? <==> CancelAccepted(k) in s.history))
  }

  ghost predicate Reported(s: State, k: nat)
    requires Owned(s) && k < |s.owners|
  {
    && s.channels[k].open == s.owners[k].live
    && (s.owners[k].live ==> s.channels[k].value == Pending)
    && (forall r :: Ended(k, r) in s.history <==> !s.owners[k].live && s.channels[k].value == Left(r))
  }

  ghost predicate Invariant(s: State) {
    && Owned(s)
    && (forall k :: 0 <= k < |s.owners| ==> Decided(s, k) && Reported(s, k))
    && (forall h <- s.history :: h.registration < |s.owners|)
    && (forall i, j :: 0 <= i < j < |s.history| ==> s.history[i] != s.history[j])
  }

  lemma OwnedHasChannels(s: State)
    requires Owned(s)
    ensures ChannelsExist(s)
  {
  }

  lemma StepKeepsInvariant(s: State, e: Event)
    requires Invariant(s) && Enabled(s, e)
    ensures ChannelsExist(s)
    ensures Invariant(Step(s, e))
  {
    OwnedHasChannels(s);
    match e {
      case Enrol(run) => RegisterKeepsInvariant(s, run);
      case AskCancel(run) => CancelKeepsInvariant(s, run);
      case TryCommit(owner) => CommitKeepsInvariant(s, s.owners[owner].run);
      case End(owner, report) => FinishKeepsInvariant(s, owner, report);
    }
  }

  lemma RegisterKeepsInvariant(s: State, run: Uuid)
    requires Invariant(s)
    ensures Invariant(Registered(s, run).0)
  {
    var t := Registered(s, run).0;
    forall k | 0 <= k < |t.owners|
      ensures Decided(t, k) && Reported(t, k)
    {
      if k < |s.owners| {
        assert Decided(s, k) && Reported(s, k);
      }
    }
  }

  lemma CancelKeepsInvariant(s: State, run: Uuid)
    requires Invariant(s) && ChannelsExist(s)
    ensures Invariant(CancelRequested(s, run).0)
  {
    var t := CancelRequested(s, run).0;
    assert run in s.entries ==> Decided(s, s.entries[run].channel);
    forall k | 0 <= k < |t.owners|
      ensures Decided(t, k) && Reported(t, k)
    {
      assert Decided(s, k) && Reported(s, k);
    }
  }

  lemma CommitKeepsInvariant(s: State, run: Uuid)
    requires Invariant(s)
    ensures Invariant(CommitTried(s, run).0)
  {
    var t := CommitTried(s, run).0;
    assert run in s.entries ==> Decided(s, s.entries[run].channel);
    forall k | 0 <= k < |t.owners|
      ensures Decided(t, k) && Reported(t, k)
    {
      assert Decided(s, k) && Reported(s, k);
    }
  }

  lemma FinishKeepsInvariant(s: State, owner: nat, report: Report)
    requires Invariant(s) && ChannelsExist(s) && owner < |s.owners| && s.owners[owner].live
    ensures Invariant(Finish(s, owner, report))
  {
    var t := Finish(s, owner, report);
    assert Reported(s, owner);
    forall k | 0 <= k < |t.owners|
      ensures Decided(t, k) && Reported(t, k)
    {
      assert Decided(s, k) && Reported(s, k);
    }
  }

  /** In any run, of one registration's commit and cancellation at most one ever happens, and it
      happens once; a second cancellation request joins the first. */
  lemma CommitOrCancel(schedule: seq<Event>, i: nat, j: nat)
    requires var h := Exec(INITIAL, schedule).history;
             && i < |h| && j < |h| && !h[i].Ended? && !h[j].Ended?
             && h[i].registration == h[j].registration
    ensures i == j
  {
    var s := Exec(INITIAL, schedule);
    var h := s.history;
    assert h[i] in h && h[j] in h;
    assert Decided(s, h[i].registration);
    assert h[i] == h[j];
  }

  /** What the owner is told is what has happened: it may begin exactly if neither a commit nor a
      cancellation came before, and then the commit has begun. */
  lemma CommitReplyMeans(s: State, k: nat)
    requires Invariant(s) && k < |s.owners| && s.owners[k].live
    ensures var (t, reply) := CommitTried(s, s.owners[k].run);
            && (reply == Begun <==> CommitBegan(k) !in s.history && CancelAccepted(k) !in s.history)
            && (reply == Refused(CancellationRequested) <==> CancelAccepted(k) in s.history)
            && (reply == Refused(CommitInProgress) <==> CommitBegan(k) in s.history)
            && t.history == (if reply == Begun then s.history + [CommitBegan(k)] else s.history)
            && (reply.Refused? ==> t == s)
  {
    assert Decided(s, k);
  }

  /** The run's unfinished owner is the k-th. */
  predicate HeldBy(s: State, run: Uuid, k: nat) {
    k < |s.owners| && s.owners[k] == Owner(run, true)
  }

  /** Who asks for a cancellation gets to wait on the run's owner exactly if that is cancelled, now or
      before; is told of a commit exactly if one has begun; and of no owner exactly if there is none. */
  lemma CancelReplyMeans(s: State, run: Uuid, k: nat)
    requires Invariant(s) && ChannelsExist(s)
    ensures var (t, reply) := CancelRequested(s, run);
            && (reply == Ok(k) <==> HeldBy(s, run, k) && CancelAccepted(k) in t.history)
            && (reply == Err(CommitInProgress) <==>
                  exists j: nat :: HeldBy(s, run, j) && CommitBegan(j) in s.history)
            && (reply == Err(OwnerUnavailable) <==> forall j: nat :: !HeldBy(s, run, j))
            && (reply.Ok? || reply.error.CommitInProgress? || reply.error.OwnerUnavailable?)
            && (forall j: nat :: CancelAccepted(j) in t.history ==> CancelAccepted(j) in s.history || reply == Ok(j))
            && s.history <= t.history && (reply.Err? ==> t == s)
            && (reply == Ok(k) ==> t.channels[k].cancelRequested && CommitBegan(k) !in t.history)
  {
    CancelKeepsInvariant(s, run);
    var t := CancelRequested(s, run).0;
    if run in s.entries {
      var c := s.entries[run].channel;
      assert HeldBy(s, run, c) && Decided(s, c) && Decided(t, c);
      assert forall j: nat :: HeldBy(s, run, j) ==> j == c;
    }
  }

  // What a whole run of callers is told.

  datatype Reply = CommitReplied(registration: nat, reply: CommitReply)
                 | CancelReplied(run: Uuid, answer: Result<nat, TaskError>)

  function ReplyTo(s: State, e: Event): Option<Reply>
    requires ChannelsExist(s) && Enabled(s, e)
  {
    match e
    case TryCommit(owner) => Some(CommitReplied(owner, CommitTried(s, s.owners[owner].run).1))
    case AskCancel(run) => Some(CancelReplied(run, CancelRequested(s, run).1))
    case _ => None
  }

  ghost function Replies(s: State, schedule: seq<Event>): seq<Reply>
    requires Invariant(s)
    decreases |schedule|
  {
    if schedule == [] then []
    else if Enabled(s, schedule[0]) then
      StepKeepsInvariant(s, schedule[0]);
      var reply := ReplyTo(s, schedule[0]);
      (if reply.Some? then [reply.value] else []) + Replies(Step(s, schedule[0]), schedule[1..])
    else Replies(s, schedule[1..])
  }

  lemma StepExtendsHistory(s: State, e: Event)
    requires Invariant(s) && ChannelsExist(s) && Enabled(s, e)
    ensures s.history <= Step(s, e).history
  {
  }

  lemma {:induction false} RunExtendsHistory(s: State, schedule: seq<Event>)
    requires Invariant(s)
    ensures s.history <= Exec(s, schedule).history
    decreases |schedule|
  {
    if schedule != [] {
      if Enabled(s, schedule[0]) {
        StepKeepsInvariant(s, schedule[0]);
        StepExtendsHistory(s, schedule[0]);
        RunExtendsHistory(Step(s, schedule[0]), schedule[1..]);
      } else {
        RunExtendsHistory(s, schedule[1..]);
      }
    }
  }

  predicate Permits(reply: Reply, k: nat) {
    reply == CommitReplied(k, Begun)
  }

  predicate Cancels(reply: Reply, k: nat) {
    reply.CancelReplied? && reply.answer == Ok(k)
  }

  lemma ReplyIsBacked(s: State, e: Event, k: nat)
    requires Invariant(s) && ChannelsExist(s) && Enabled(s, e) && ReplyTo(s, e).Some?
    ensures Permits(ReplyTo(s, e).value, k) ==> CommitBegan(k) !in s.history && CommitBegan(k) in Step(s, e).history
    ensures Cancels(ReplyTo(s, e).value, k) ==> CancelAccepted(k) in Step(s, e).history
  {
    hide CommitTried, CancelRequested;
    match e {
      case TryCommit(owner) => CommitReplyMeans(s, owner);
      case AskCancel(run) => CancelReplyMeans(s, run, k);
      case _ =>
    }
  }

  lemma {:induction false} RepliesAreBacked(s: State, schedule: seq<Event>, i: nat, k: nat)
    requires Invariant(s) && i < |Replies(s, schedule)|
    ensures Permits(Replies(s, schedule)[i], k) ==>
      CommitBegan(k) !in s.history && CommitBegan(k) in Exec(s, schedule).history
    ensures Cancels(Replies(s, schedule)[i], k) ==> CancelAccepted(k) in Exec(s, schedule).history
    decreases |schedule|
  {
    hide ReplyTo, Step, Permits, Cancels;
    if Enabled(s, schedule[0]) {
      StepKeepsInvariant(s, schedule[0]);
      StepExtendsHistory(s, schedule[0]);
      var t, rest := Step(s, schedule[0]), schedule[1..];
      RunExtendsHistory(t, rest);
      if ReplyTo(s, schedule[0]).None? {
        RepliesAreBacked(t, rest, i, k);
      } else if i == 0 {
        ReplyIsBacked(s, schedule[0], k);
      } else {
        RepliesAreBacked(t, rest, i - 1, k);
      }
    } else {
      RepliesAreBacked(s, schedule[1..], i, k);
    }
  }

  lemma {:induction false} PermittedOnce(s: State, schedule: seq<Event>, i: nat, j: nat, k: nat)
    requires Invariant(s) && i < j < |Replies(s, schedule)|
    requires Permits(Replies(s, schedule)[i], k)
    ensures !Permits(Replies(s, schedule)[j], k)
    decreases |schedule|
  {
    hide ReplyTo, Step, Permits;
    if Enabled(s, schedule[0]) {
      StepKeepsInvariant(s, schedule[0]);
      var t, rest := Step(s, schedule[0]), schedule[1..];
      if ReplyTo(s, schedule[0]).None? {
        PermittedOnce(t, rest, i, j, k);
      } else if i > 0 {
        PermittedOnce(t, rest, i - 1, j - 1, k);
      } else {
        ReplyIsBacked(s, schedule[0], k);
        RepliesAreBacked(t, rest, j - 1, k);
      }
    } else {
      PermittedOnce(s, schedule[1..], i, j, k);
    }
  }

  /** In no run is one registration told both to commit and that it is cancelled, in whatever order; and
      it is told to commit at most once. */
  lemma NeverBothReplies(schedule: seq<Event>, i: nat, j: nat, k: nat)
    requires var replies := Replies(INITIAL, schedule); i < |replies| && j < |replies| && Permits(replies[i], k)
    ensures var replies := Replies(INITIAL, schedule);
            !Cancels(replies[j], k) && (i != j ==> !Permits(replies[j], k))
  {
    var t := Exec(INITIAL, schedule);
    RepliesAreBacked(INITIAL, schedule, i, k);
    RepliesAreBacked(INITIAL, schedule, j, k);
    assert CommitBegan(k) in t.history ==> Decided(t, k);
    if i < j {
      PermittedOnce(INITIAL, schedule, i, j, k);
    } else if j < i && Permits(Replies(INITIAL, schedule)[j], k) {
      PermittedOnce(INITIAL, schedule, j, i, k);
    }
  }

  /** In any reachable state a run has an entry exactly while one unfinished owner holds it. */
  lemma EntryWhileOwned(s: State, run: Uuid)
    requires Invariant(s)
    ensures run in s.entries <==> exists k: nat :: k < |s.owners| && s.owners[k] == Owner(run, true)
    ensures forall j: nat, k: nat ::
      j < |s.owners| && k < |s.owners| && s.owners[j] == Owner(run, true) == s.owners[k] ==> j == k
  {
    if run in s.entries {
      assert s.owners[s.entries[run].channel] == Owner(run, true);
    }
  }

  /** An owner that ends, however late, takes away its own entry and closes its own channel:
      every other registration, of the same run or not, is left alone. */
  lemma EndsOnlyItself(s: State, owner: nat, report: Report)
    requires Invariant(s) && ChannelsExist(s) && owner < |s.owners| && s.owners[owner].live
    ensures var t := Finish(s, owner, report);
            && t.entries == s.entries - {s.owners[owner].run}
            && s.entries[s.owners[owner].run].channel == owner
            && t.channels == s.channels[owner := t.channels[owner]]
            && t.channels[owner].value == Left(report)
  {
    assert Reported(s, owner);
  }

  // Waiters.

  /** What wait returns when it looks at a channel, unless it has to wait on. */
  function Look(c: Channel): Option<Result<Uuid, TaskError>> {
    match c.value
    case Cancelled(run) => Some(Ok(run))
    case CleanupFailed => Some(Err(CancellationCleanupFailed))
    case OwnerStopped => Some(Err(OwnerGone))
    case Pending => if c.open then None else Some(Err(OwnerGone))
  }

  /** A waiter waits exactly as long as the owner lives; then it gets what the owner reported,
      and Cancelled only if the owner reported it. */
  lemma OutcomeIsTheReport(s: State, k: nat)
    requires Invariant(s) && k < |s.owners|
    ensures Look(s.channels[k]).None? <==> s.owners[k].live
    ensures forall run: Uuid :: Look(s.channels[k]) == Some(Ok(run)) <==> Ended(k, ReportCancelled(run)) in s.history
    ensures Look(s.channels[k]) == Some(Err(CancellationCleanupFailed)) <==> Ended(k, ReportCleanupFailed) in s.history
    ensures Look(s.channels[k]) == Some(Err(OwnerGone)) <==>
      (Ended(k, Dropped) in s.history || Ended(k, ReportTerminal) in s.history)
  {
    assert Reported(s, k);
    assert forall run: Uuid :: Left(ReportCancelled(run)) == Cancelled(run);
    assert Left(ReportCleanupFailed) == CleanupFailed && Left(Dropped) == OwnerStopped && Left(ReportTerminal) == Pending;
  }

  lemma StepKeepsOutcome(s: State, e: Event, k: nat)
    requires Invariant(s) && Enabled(s, e) && ChannelsExist(s)
    requires k < |s.channels| && Look(s.channels[k]).Some?
    ensures k < |Step(s, e).channels| && Look(Step(s, e).channels[k]) == Look(s.channels[k])
  {
    assert Reported(s, k);
  }

  /** Once an outcome is there, every waiter, however late it looks, gets that one. */
  lemma {:induction false} OneOutcome(s: State, schedule: seq<Event>, k: nat)
    requires Invariant(s) && k < |s.channels| && Look(s.channels[k]).Some?
    ensures k < |Exec(s, schedule).channels| && Look(Exec(s, schedule).channels[k]) == Look(s.channels[k])
    decreases |schedule|
  {
    if schedule != [] {
      if Enabled(s, schedule[0]) {
        StepKeepsInvariant(s, schedule[0]);
        StepKeepsOutcome(s, schedule[0], k);
        OneOutcome(Step(s, schedule[0]), schedule[1..], k);
      } else {
        OneOutcome(s, schedule[1..], k);
      }
    }
  }

  /** The waiting loop over the versions of the channel it gets to see, the last of which is
      the present one. It ends with the first that settles it. */
  method Wait(versions: seq<Channel>) returns (r: Option<Result<Uuid, TaskError>>)
    ensures r.None? <==> forall i :: 0 <= i < |versions| ==> Look(versions[i]).None?
    ensures r.Some? ==> exists i :: 0 <= i < |versions| && Look(versions[i]) == r
                                    && forall j :: 0 <= j < i ==> Look(versions[j]).None?
  {
    for i := 0 to |versions|
      invariant forall j :: 0 <= j < i ==> Look(versions[j]).None?
    {
      match versions[i].value {
        case Pending =>
        case Cancelled(run) => return Some(Ok(run));
        case CleanupFailed => return Some(Err(CancellationCleanupFailed));
        case OwnerStopped => return Some(Err(OwnerGone));
      }
      if !versions[i].open {
        return Some(Err(OwnerGone));
      }
    }
    return None;
  }

  // The objects.

  class AnalysisTaskRegistry {
    var entries: map<Uuid, Entry>
    var channels: seq<Channel>
    ghost var owners: seq<Owner>
    ghost var history: seq<Happening>

    ghost function Now(): State
      reads this
    {
      State(entries, channels, owners, history)
    }

    constructor ()
      ensures Now() == INITIAL && Invariant(Now())
    {
      entries, channels, owners, history := map[], [], [], [];
    }

    method Register(run: Uuid) returns (r: Result<AnalysisTaskOwner, TaskError>)
      requires Invariant(Now())
      modifies this
      ensures Invariant(Now()) && Now() == Registered(old(Now()), run).0
      ensures r.Err? <==> run in old(entries)
      ensures r.Err? ==> r.error == AlreadyOwned
      ensures r.Ok? ==> fresh(r.value) && r.value.registry == this && r.value.runId == run && !r.value.finished
                        && r.value.registration == |old(owners)| && r.value.Valid()
    {
      hide Decided, Reported;
      RegisterKeepsInvariant(Now(), run);
      if run in entries {
        return Err(AlreadyOwned);
      }
      entries := entries[run := Entry(Running, |channels|)];
      channels := channels + [Channel(Pending, true, false)];
      owners := owners + [Owner(run, true)];
      var owner := new AnalysisTaskOwner(this, run, |owners| - 1);
      return Ok(owner);
    }

    method RequestCancel(run: Uuid) returns (r: Result<nat, TaskError>)
      requires Invariant(Now()) && ChannelsExist(Now())
      modifies this
      ensures Invariant(Now()) && (Now(), r) == CancelRequested(old(Now()), run)
    {
      hide Decided, Reported;
      CancelKeepsInvariant(Now(), run);
      if run !in entries {
        return Err(OwnerUnavailable);
      }
      var entry := entries[run];
      match entry.phase {
        case Running =>
          entries := entries[run := entry.(phase := Cancelling)];
          channels := channels[entry.channel := channels[entry.channel].(cancelRequested := true)];
          history := history + [CancelAccepted(entry.channel)];
        case Cancelling =>
        case Committing => return Err(CommitInProgress);
      }
      return Ok(entry.channel);
    }

    method TryBeginCommit(run: Uuid) returns (o: CommitReply)
      requires Invariant(Now())
      modifies this
      ensures Invariant(Now()) && (Now(), o) == CommitTried(old(Now()), run)
    {
      hide Decided, Reported;
      CommitKeepsInvariant(Now(), run);
      if run !in entries {
        return Refused(OwnerUnavailable);
      }
      var entry := entries[run];
      match entry.phase {
        case Running =>
          entries := entries[run := entry.(phase := Committing)];
          history := history + [CommitBegan(entry.channel)];
          return Begun;
        case Cancelling => return Refused(CancellationRequested);
        case Committing => return Refused(CommitInProgress);
      }
    }

    /** The common shape of the three finish calls and of owner_stopped. */
    method Remove(run: Uuid, report: Report, ghost owner: nat)
      requires Invariant(Now()) && ChannelsExist(Now())
      requires owner < |owners| && owners[owner] == Owner(run, true)
      modifies this
      ensures Invariant(Now()) && Now() == Finish(old(Now()), owner, report)
    {
      hide Decided, Reported;
      FinishKeepsInvariant(Now(), owner, report);
      owners, history := owners[owner := Owner(run, false)], history + [Ended(owner, report)];
      if run in entries {
        var c := entries[run].channel;
        entries := entries - {run};
        if !report.ReportTerminal? {
          channels := channels[c := channels[c].(value := Left(report))];
        }
        channels := channels[c := channels[c].(open := false)];
      }
      assert Now() == Finish(old(Now()), owner, report);
    }
  }

  class AnalysisTaskOwner {
    const registry: AnalysisTaskRegistry
    const runId: Uuid
    ghost const registration: nat
    var finished: bool

    constructor (registry: AnalysisTaskRegistry, runId: Uuid, ghost registration: nat)
      ensures this.registry == registry && this.runId == runId && this.registration == registration && !finished
    {
      this.registry, this.runId, this.registration, finished := registry, runId, registration, false;
    }

    ghost predicate Valid()
      reads this, registry
    {
      !finished ==> registration < |registry.owners| && registry.owners[registration] == Owner(runId, true)
    }

    /** Each finish call consumes the owner, so it ends with the drop, which then does nothing. */
    method End(report: Report)
      requires Valid() && !finished && Invariant(registry.Now()) && ChannelsExist(registry.Now())
      requires !report.Dropped?
      modifies this, registry
      ensures finished && Invariant(registry.Now())
      ensures registry.Now() == Finish(old(registry.Now()), registration, report)
    {
      registry.Remove(runId, report, registration);
      finished := true;
      OwnedHasChannels(registry.Now());
      Drop();
    }

    method Drop()
      requires Valid() && Invariant(registry.Now()) && ChannelsExist(registry.Now())
      modifies registry
      ensures Invariant(registry.Now())
      ensures registry.Now() == if finished then old(registry.Now())
                                else Finish(old(registry.Now()), registration, Dropped)
    {
      if !finished {
        registry.Remove(runId, Dropped, registration);
      }
    }
  }
}
