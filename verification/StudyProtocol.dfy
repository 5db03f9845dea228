/**
 The life of one study row shared by the processes that run it, the users that cancel it, the sweep
 that fails silent studies and the view that could not start a process. Every database operation
 is one step; steps interleave freely.
 */
module StudyProtocol {
  import opened Wrappers
  import opened Floats
  import HpoStudySpec

  type Params = HpoStudySpec.Params

  datatype Status = CREATED | RUNNING | FINISHED | FAILED | CANCELED {
    predicate Terminal() { FINISHED? || FAILED? || CANCELED? }
  }

  /** What the error column says. */
  datatype Cause = Nothing | NotStarted | NoHeartbeat | Traceback

  datatype Row = Row(status: Status, cancelRequested: bool, bestParams: Option<Params>, bestScore: Option<Float>,
                     error: Cause, created: int, started: Option<int>, heartbeat: Option<int>) {
    /** The time the sweep compares with its cutoff. */
    function LastSign(): int {
      if heartbeat.Some? then heartbeat.value else if started.Some? then started.value else created
    }
  }

  /** Where a process stands in run_study. */
  datatype Pc =
    | Refused                    // the conditional update matched no row
    | Searching
    | Confirmed(params: Params)  // the poll after the search answered "not canceled"
    | Stopping                   // StudyCanceled was raised
    | Failing                    // another exception was raised
    | Ended(status: Status)      // _finish has written this status
    | Crashed {
    predicate Live() { Searching? || Confirmed? || Stopping? || Failing? }
  }

  /** `sweeps` holds the cutoff of every sweep that has read the study as silent and not yet written it. */
  datatype State = State(row: Row, pcs: map<nat, Pc>, cancelers: set<nat>, sweeps: map<nat, int>) {
    predicate Claimed(p: nat) { p in pcs && pcs[p] != Refused }
    predicate LiveAt(p: nat) { p in pcs && pcs[p].Live() }
  }

  datatype Event =
    | Claim(p: nat, now: int)
    | Touch(p: nat, now: int)
    | Poll(p: nat)
    | Confirm(p: nat, best: Params)
    | Raise(p: nat)
    | Finish(p: nat, score: Float, now: int)
    | FinishCanceled(p: nat, now: int)
    | FinishFailed(p: nat, now: int)
    | Crash(p: nat)
    | SetFlag(c: nat)
    | CancelCreated(c: nat)
    | SweepRead(w: nat, cutoff: int)
    | SweepWrite(w: nat)
    | StartFailed

  function Start(created: int): State {
    State(Row(CREATED, false, None, None, Nothing, created, None, None), map[], {}, map[])
  }

  function Move(s: State, p: nat, pc: Pc): State {
    s.(pcs := s.pcs[p := pc])
  }

  function SetStatus(s: State, status: Status, error: Cause): State {
    s.(row := s.row.(status := status, error := error))
  }

  /** One operation; an event that its actor cannot perform in this state changes nothing. */
  function Apply(s: State, e: Event): State {
    match e
    case Claim(p, now) =>
      if p in s.pcs then s
      else if s.row.status.CREATED? then
        Move(s.(row := s.row.(status := RUNNING, started := Some(now), heartbeat := Some(now), error := Nothing)),
             p, Searching)
      else Move(s, p, Refused)
    case Touch(p, now) =>
      if s.LiveAt(p) then s.(row := s.row.(heartbeat := Some(now))) else s
    case Poll(p) =>
      if s.LiveAt(p) && !s.pcs[p].Failing? && s.row.cancelRequested then Move(s, p, Stopping) else s
    case Confirm(p, best) =>
      if s.LiveAt(p) && s.pcs[p].Searching? then
        Move(s, p, if s.row.cancelRequested then Stopping else Confirmed(best))
      else s
    case Raise(p) =>
      if s.LiveAt(p) && (s.pcs[p].Searching? || s.pcs[p].Confirmed?) then Move(s, p, Failing) else s
    case Finish(p, score, now) =>
      if s.LiveAt(p) && s.pcs[p].Confirmed? then
        if score.Finite? then
          Move(s.(row := s.row.(status := FINISHED, heartbeat := Some(now), bestParams := Some(s.pcs[p].params),
                                bestScore := Some(score))), p, Ended(FINISHED))
        else Move(s, p, Failing)
      else s
    case FinishCanceled(p, now) =>
      if s.LiveAt(p) && s.pcs[p].Stopping? then
        Move(s.(row := s.row.(status := CANCELED, heartbeat := Some(now))), p, Ended(CANCELED))
      else s
    case FinishFailed(p, now) =>
      if s.LiveAt(p) && s.pcs[p].Failing? then
        Move(s.(row := s.row.(status := FAILED, heartbeat := Some(now), error := Traceback)), p, Ended(FAILED))
      else s
    case Crash(p) =>
      if s.LiveAt(p) then Move(s, p, Crashed) else s
    case SetFlag(c) =>
      s.(row := s.row.(cancelRequested := true), cancelers := s.cancelers + {c})
    case CancelCreated(c) =>
      if c !in s.cancelers then s
      else
        var t := s.(cancelers := s.cancelers - {c});
        if s.row.status.CREATED? then t.(row := t.row.(status := CANCELED)) else t
    case SweepRead(w, cutoff) =>
      if w !in s.sweeps && s.row.status.RUNNING? && s.row.LastSign() < cutoff then s.(sweeps := s.sweeps[w := cutoff])
      else s
    case SweepWrite(w) =>
      if w !in s.sweeps then s
      else
        var t := s.(sweeps := s.sweeps - {w});
        if s.row.status.RUNNING? then SetStatus(t, FAILED, NoHeartbeat) else t
    case StartFailed =>
      if s.row.status.CREATED? then SetStatus(s, FAILED, NotStarted) else s
  }

  /** The state after the events, in order. */
  function After(s: State, es: seq<Event>): State {
    if es == [] then s else Apply(After(s, es[..|es| - 1]), es[|es| - 1])
  }

  lemma {:induction false} AfterConcat(s: State, es: seq<Event>, fs: seq<Event>)
    ensures After(s, es + fs) == After(After(s, es), fs)
    decreases |fs|
  {
    if fs == [] {
      assert es + fs == es;
    } else {
      assert (es + fs)[..|es + fs| - 1] == es + fs[..|fs| - 1];
      AfterConcat(s, es, fs[..|fs| - 1]);
    }
  }

  lemma Two(s: State, a: Event, b: Event)
    ensures After(s, [a, b]) == Apply(Apply(s, a), b)
  {
    assert [a, b][..1] == [a];
    assert [a][..0] == [];
    assert After(s, [a]) == Apply(s, a);
  }

  // ---------------------------------------------------------------- the ways of a process

  /** The process that performs this event. */
  function Actor(e: Event): Option<nat> {
    match e
    case Claim(p, _) => Some(p)
    case Touch(p, _) => Some(p)
    case Poll(p) => Some(p)
    case Confirm(p, _) => Some(p)
    case Raise(p) => Some(p)
    case Finish(p, _, _) => Some(p)
    case FinishCanceled(p, _) => Some(p)
    case FinishFailed(p, _) => Some(p)
    case Crash(p) => Some(p)
    case _ => None
  }

  /** A claim of a CREATED study starts it and is its first sign of life; any other claim leaves the row alone. */
  lemma ClaimStarts(s: State, p: nat, now: int)
    requires p !in s.pcs
    ensures var t := Apply(s, Claim(p, now));
            if s.row.status.CREATED? then
              && t.row.status.RUNNING? && t.row.LastSign() == now && t.row.started == Some(now) && t.row.error == Nothing
              && t.row.cancelRequested == s.row.cancelRequested && t.LiveAt(p) && t.pcs == s.pcs[p := Searching]
            else t.row == s.row && !t.LiveAt(p) && !t.Claimed(p)
  {
  }

  /** A process that was refused, has ended or has crashed changes nothing any more. */
  lemma OnlyLiveProcessesAct(s: State, e: Event, p: nat)
    requires Actor(e) == Some(p) && p in s.pcs && !s.LiveAt(p)
    ensures Apply(s, e) == s
  {
  }

  /** A crash is silent: the row stays as it is. */
  lemma CrashIsSilent(s: State, p: nat)
    ensures Apply(s, Crash(p)).row == s.row && !Apply(s, Crash(p)).LiveAt(p)
  {
  }

  /** The regular end: the confirmed parameters and the finite final score are stored. */
  lemma RegularEnd(s: State, p: nat, best: Params, score: real, now: int)
    requires s.LiveAt(p) && s.pcs[p].Searching? && !s.row.cancelRequested
    ensures var t := After(s, [Confirm(p, best), Finish(p, Finite(score), now)]);
            && t.row == s.row.(status := FINISHED, bestParams := Some(best), bestScore := Some(Finite(score)),
                               heartbeat := Some(now))
            && p in t.pcs && t.pcs[p] == Ended(FINISHED)
  {
    Two(s, Confirm(p, best), Finish(p, Finite(score), now));
  }

  /** A final score that is not finite, and any other exception, ends the study as FAILED with its traceback. */
  lemma FailedEnd(s: State, p: nat, e: Event, now: int)
    requires s.LiveAt(p)
    requires (e == Raise(p) && (s.pcs[p].Searching? || s.pcs[p].Confirmed?))
             || (e.Finish? && e.p == p && s.pcs[p].Confirmed? && !e.score.Finite?)
    ensures var t := After(s, [e, FinishFailed(p, now)]);
            && t.row == s.row.(status := FAILED, error := Traceback, heartbeat := Some(now))
            && p in t.pcs && t.pcs[p] == Ended(FAILED)
  {
    Two(s, e, FinishFailed(p, now));
  }

  /** Every poll of a live process that sees the cancel request ends the study as CANCELED. */
  lemma PollStops(s: State, p: nat, e: Event, now: int)
    requires s.row.cancelRequested && s.LiveAt(p) && !s.pcs[p].Failing?
    requires e == Poll(p) || (e.Confirm? && e.p == p && s.pcs[p].Searching?)
    ensures Apply(s, e).pcs == s.pcs[p := Stopping] && Apply(s, e).row == s.row
    ensures var t := After(s, [e, FinishCanceled(p, now)]);
            t.row == s.row.(status := CANCELED, heartbeat := Some(now)) && p in t.pcs
            && t.pcs[p] == Ended(CANCELED)
  {
    Two(s, e, FinishCanceled(p, now));
  }

  /** A poll that sees no request changes nothing. */
  lemma QuietPoll(s: State, p: nat)
    requires !s.row.cancelRequested
    ensures Apply(s, Poll(p)) == s
  {
  }

  predicate StoppedAt(s: State, p: nat) {
    p in s.pcs && (s.pcs[p].Stopping? || s.pcs[p].Crashed? || s.pcs[p] == Ended(CANCELED))
  }

  /** Once it has seen the request, a process can only cancel the study or crash. */
  lemma {:induction false} StoppedForGood(s: State, p: nat, fs: seq<Event>)
    requires StoppedAt(s, p)
    ensures StoppedAt(After(s, fs), p)
  {
    hide Apply, StoppedAt;
    if fs != [] {
      StoppedForGood(s, p, fs[..|fs| - 1]);
      StepStopped(After(s, fs[..|fs| - 1]), p, fs[|fs| - 1]);
    }
  }

  lemma StepStopped(s: State, p: nat, e: Event)
    requires StoppedAt(s, p)
    ensures StoppedAt(Apply(s, e), p)
  {
  }

  /** A cancel request settles a CREATED study at once and leaves only its flag on any other. */
  lemma CancelRequest(s: State, c: nat)
    ensures var t := After(s, [SetFlag(c), CancelCreated(c)]);
            && t.row == s.row.(cancelRequested := true, status := if s.row.status.CREATED? then CANCELED else s.row.status)
            && t.pcs == s.pcs && t.sweeps == s.sweeps
  {
    Two(s, SetFlag(c), CancelCreated(c));
  }

  /** A start that failed ends a CREATED study and touches no other one. */
  lemma StartFails(s: State)
    ensures var t := Apply(s, StartFailed);
            if s.row.status.CREATED? then t == s.(row := s.row.(status := FAILED, error := NotStarted)) else t == s
  {
  }

  /** An undisturbed sweep fails exactly the RUNNING studies whose last sign is below its cutoff. */
  lemma UndisturbedSweep(s: State, w: nat, cutoff: int)
    requires w !in s.sweeps
    ensures var t := After(s, [SweepRead(w, cutoff), SweepWrite(w)]);
            && t.pcs == s.pcs && t.sweeps == s.sweeps
            && t.row == if s.row.status.RUNNING? && s.row.LastSign() < cutoff
                        then s.row.(status := FAILED, error := NoHeartbeat) else s.row
  {
    Two(s, SweepRead(w, cutoff), SweepWrite(w));
    assert s.sweeps[w := cutoff] - {w} == s.sweeps;
  }

  // ---------------------------------------------------------------- the invariant

  ghost predicate Unclaimed(s: State) {
    forall p: nat :: !s.Claimed(p)
  }

  ghost predicate OwnedBy(s: State, p: nat) {
    s.Claimed(p) && forall q: nat :: s.Claimed(q) ==> q == p
  }

  predicate RowBefore(r: Row) {
    && r.bestParams.None? && r.bestScore.None?
    && match r.status
       case CREATED => r.error == Nothing
       case CANCELED => r.cancelRequested && r.error == Nothing
       case FAILED => r.error == NotStarted
       case _ => false
  }

  predicate RowDuring(r: Row, pc: Pc) {
    && ((r.status.RUNNING? && r.error == Nothing) || (r.status.FAILED? && r.error == NoHeartbeat))
    && r.bestParams.None? && r.bestScore.None?
    && (pc.Stopping? ==> r.cancelRequested)
  }

  predicate RowEnded(r: Row, status: Status) {
    && r.status == status
    && (!status.FINISHED? ==> r.bestParams.None? && r.bestScore.None?)
    && match status
       case FINISHED => r.bestParams.Some? && r.bestScore.Some? && r.bestScore.value.Finite?
                        && (r.error == Nothing || r.error == NoHeartbeat)
       case CANCELED => r.cancelRequested && (r.error == Nothing || r.error == NoHeartbeat)
       case FAILED => r.error == Traceback
       case _ => false
  }

  ghost predicate Inv(s: State) {
    && (s.cancelers != {} ==> s.row.cancelRequested)
    && ((Unclaimed(s) && RowBefore(s.row)) || exists p: nat :: Owned(s, p))
  }

  ghost predicate Owned(s: State, p: nat) {
    && OwnedBy(s, p)
    && if s.pcs[p].Ended? then RowEnded(s.row, s.pcs[p].status) else RowDuring(s.row, s.pcs[p])
  }

  /** Only the owner moves its process or, through it, the row. */
  lemma OnlyOwnerActs(s: State, e: Event, p: nat, q: nat)
    requires OwnedBy(s, p) && !s.row.status.CREATED?
    ensures Apply(s, e).Claimed(q) <==> q == p
  {
    assert s.Claimed(q) ==> q == p;
  }

  lemma StepOwned(s: State, e: Event, p: nat)
    requires Owned(s, p)
    ensures Owned(Apply(s, e), p)
  {
    forall q: nat ensures Apply(s, e).Claimed(q) <==> q == p { OnlyOwnerActs(s, e, p, q); }
    forall q: nat ensures s.LiveAt(q) ==> q == p { assert s.LiveAt(q) ==> s.Claimed(q); }
    assert OwnedBy(Apply(s, e), p);
  }

  lemma StepUnclaimed(s: State, e: Event)
    requires Inv(s) && Unclaimed(s)
    ensures Inv(Apply(s, e))
  {
    var t := Apply(s, e);
    assert RowBefore(s.row) by {
      forall p: nat ensures !Owned(s, p) { assert !s.Claimed(p); }
    }
    forall q: nat
      ensures t.Claimed(q) <==> e.Claim? && q == e.p && e.p !in s.pcs && s.row.status.CREATED?
      ensures !s.LiveAt(q)
    {
      assert !s.Claimed(q);
    }
    if e.Claim? && e.p !in s.pcs && s.row.status.CREATED? {
      assert OwnedBy(t, e.p);
      assert Owned(t, e.p);
    } else {
      assert Unclaimed(t);
    }
  }

  lemma StepInv(s: State, e: Event)
    requires Inv(s)
    ensures Inv(Apply(s, e))
  {
    if Unclaimed(s) {
      StepUnclaimed(s, e);
    } else {
      var p: nat :| Owned(s, p);
      StepOwned(s, e, p);
      hide Owned, Unclaimed;
    }
  }

  lemma {:induction false} InvHolds(s: State, es: seq<Event>)
    requires Inv(s)
    ensures Inv(After(s, es))
  {
    hide Apply, Inv;
    if es != [] {
      InvHolds(s, es[..|es| - 1]);
      StepInv(After(s, es[..|es| - 1]), es[|es| - 1]);
    }
  }

  /** Every interleaving, from the creation of the study. */
  lemma Reachable(created: int, es: seq<Event>)
    ensures Inv(After(Start(created), es))
  {
    InvHolds(Start(created), es);
  }

  // ---------------------------------------------------------------- claims

  /** The conditional update of this event matches the CREATED row. */
  predicate Wins(s: State, e: Event) {
    e.Claim? && e.p !in s.pcs && s.row.status.CREATED?
  }

  function ClaimsWon(s: State, es: seq<Event>): nat {
    if es == [] then 0
    else ClaimsWon(s, es[..|es| - 1]) + if Wins(After(s, es[..|es| - 1]), es[|es| - 1]) then 1 else 0
  }

  /** A study is claimed exactly as often as it has an owner: never, or once. */
  lemma {:induction false} AtMostOneClaim(created: int, es: seq<Event>)
    ensures ClaimsWon(Start(created), es) <= 1
    ensures ClaimsWon(Start(created), es) == 0 <==> Unclaimed(After(Start(created), es))
    ensures forall p: nat, q: nat ::
              After(Start(created), es).Claimed(p) && After(Start(created), es).Claimed(q) ==> p == q
  {
    Reachable(created, es);
    if es != [] {
      var s, e := After(Start(created), es[..|es| - 1]), es[|es| - 1];
      Reachable(created, es[..|es| - 1]);
      AtMostOneClaim(created, es[..|es| - 1]);
      if Unclaimed(s) {
        forall q: nat ensures Apply(s, e).Claimed(q) <==> Wins(s, e) && q == e.p { assert !s.Claimed(q); }
        if Wins(s, e) {
          assert Apply(s, e).Claimed(e.p);
        }
      } else {
        var p: nat :| Owned(s, p);
        StepOwned(s, e, p);
      }
    }
  }

  lemma StepNotCreated(s: State, e: Event)
    requires !s.row.status.CREATED?
    ensures !Apply(s, e).row.status.CREATED?
  {
  }

  lemma {:induction false} NeverCreatedAgain(s: State, fs: seq<Event>)
    requires !s.row.status.CREATED?
    ensures !After(s, fs).row.status.CREATED?
    ensures ClaimsWon(s, fs) == 0
  {
    hide Apply;
    if fs != [] {
      NeverCreatedAgain(s, fs[..|fs| - 1]);
      StepNotCreated(After(s, fs[..|fs| - 1]), fs[|fs| - 1]);
    }
  }

  // ---------------------------------------------------------------- what a status means

  lemma StatusMeaning(created: int, es: seq<Event>)
    ensures var r := After(Start(created), es).row;
            && (r.status.CANCELED? ==> r.cancelRequested)
            && (r.status.FINISHED? <==> r.bestParams.Some?)
            && (r.status.FINISHED? <==> r.bestScore.Some? && r.bestScore.value.Finite?)
            && (r.status.CREATED? ==> r.error == Nothing)
            && (r.status.FAILED? <==> r.error != Nothing && !r.status.FINISHED? && !r.status.CANCELED?)
  {
    Reachable(created, es);
  }

  // ---------------------------------------------------------------- finality

  lemma StepSwept(s: State, e: Event, p: nat)
    requires Owned(s, p)
    ensures !Apply(s, e).pcs[p].Ended? && s.row.status.FAILED? ==> Apply(s, e).row.status.FAILED?
    ensures s.pcs[p].Ended? || s.pcs[p].Crashed? ==> Apply(s, e).pcs[p] == s.pcs[p]
  {
    StepOwned(s, e, p);
  }

  lemma {:induction false} OwnedStays(s: State, fs: seq<Event>, p: nat)
    requires Owned(s, p)
    ensures Owned(After(s, fs), p)
    ensures s.pcs[p].Ended? ==> After(s, fs).pcs[p] == s.pcs[p]
  {
    hide Apply, Owned;
    if fs != [] {
      OwnedStays(s, fs[..|fs| - 1], p);
      StepOwned(After(s, fs[..|fs| - 1]), fs[|fs| - 1], p);
      StepSwept(After(s, fs[..|fs| - 1]), fs[|fs| - 1], p);
    }
  }

  /** The status that _finish writes is the status of the study from then on. */
  lemma FinishIsFinal(created: int, es: seq<Event>, p: nat, fs: seq<Event>)
    requires var s := After(Start(created), es); p in s.pcs && s.pcs[p].Ended?
    ensures After(Start(created), es + fs).row.status == After(Start(created), es).pcs[p].status
  {
    var s := After(Start(created), es);
    Reachable(created, es);
    assert s.Claimed(p);
    var q: nat :| Owned(s, q);
    OwnedStays(s, fs, p);
    AfterConcat(Start(created), es, fs);
  }

  /** A study that ended before any process claimed it. */
  ghost predicate Unstarted(s: State, status: Status) {
    Unclaimed(s) && RowBefore(s.row) && s.row.status == status && status.Terminal()
  }

  lemma StepUnstarted(s: State, e: Event, status: Status)
    requires Unstarted(s, status)
    ensures Unstarted(Apply(s, e), status) && !Wins(s, e)
  {
    forall q: nat
      ensures !Apply(s, e).Claimed(q) && !s.LiveAt(q)
    {
      assert !s.Claimed(q);
    }
  }

  lemma {:induction false} UnstartedStays(s: State, fs: seq<Event>)
    requires Unstarted(s, s.row.status)
    ensures Unstarted(After(s, fs), s.row.status) && ClaimsWon(s, fs) == 0
  {
    hide Apply, Unstarted, Wins;
    if fs != [] {
      UnstartedStays(s, fs[..|fs| - 1]);
      StepUnstarted(After(s, fs[..|fs| - 1]), fs[|fs| - 1], s.row.status);
    }
  }

  /** The sweep has failed the study while its process can still write another status. */
  predicate Revivable(s: State, p: nat) {
    s.row.status.FAILED? && s.row.error == NoHeartbeat && s.LiveAt(p) && !s.pcs[p].Failing?
  }

  /** A way for the process to end with a status other than FAILED. */
  function Revival(s: State, p: nat): (fs: seq<Event>)
    requires s.LiveAt(p)
  {
    match s.pcs[p]
    case Stopping => [FinishCanceled(p, 0)]
    case Confirmed(_) => [Finish(p, Finite(0.0), 0)]
    case _ => [Confirm(p, map[]), if s.row.cancelRequested then FinishCanceled(p, 0) else Finish(p, Finite(0.0), 0)]
  }

  lemma RevivalWorks(s: State, p: nat)
    requires Revivable(s, p)
    ensures After(s, Revival(s, p)).row.status != s.row.status
  {
    var fs := Revival(s, p);
    assert fs[..|fs| - 1][..0] == [];
    if s.pcs[p].Searching? {
      assert fs[..1] == [fs[0]];
      assert After(s, [fs[0]]) == Apply(s, fs[0]);
    }
  }

  /**
   A terminal status can change in some continuation if and only if it is the sweep's FAILED over a live
   process that has not itself failed; the new status is then the one this process writes.
   */
  lemma TerminalCanChange(created: int, es: seq<Event>)
    requires After(Start(created), es).row.status.Terminal()
    ensures var s := After(Start(created), es);
            (exists fs :: After(s, fs).row.status != s.row.status) <==> (exists p: nat :: Revivable(s, p))
  {
    var s := After(Start(created), es);
    if p: nat :| Revivable(s, p) {
      RevivalWorks(s, p);
    }
    if fs :| After(s, fs).row.status != s.row.status {
      var p := TerminalChange(created, es, fs);
      if s.pcs[p].Failing? {
        StillFailing(s, fs, p);
      } else {
        assert Revivable(s, p);
      }
    }
  }

  lemma TerminalChange(created: int, es: seq<Event>, fs: seq<Event>) returns (p: nat)
    requires var s := After(Start(created), es); s.row.status.Terminal() && After(s, fs).row.status != s.row.status
    ensures var s, t := After(Start(created), es), After(After(Start(created), es), fs);
            && s.row.status.FAILED? && s.row.error == NoHeartbeat && s.LiveAt(p)
            && Owned(s, p) && t.Claimed(p) && t.pcs[p] == Ended(t.row.status)
  {
    var s := After(Start(created), es);
    Reachable(created, es);
    if Unclaimed(s) {
      forall q: nat ensures !Owned(s, q) { assert !s.Claimed(q); }
      UnstartedStays(s, fs);
    }
    p :| Owned(s, p);
    OwnedStays(s, fs, p);
    SweptStays(s, fs, p);
  }

  lemma {:induction false} SweptStays(s: State, fs: seq<Event>, p: nat)
    requires Owned(s, p) && s.row.status.FAILED?
    ensures Owned(After(s, fs), p)
    ensures var t := After(s, fs); !t.pcs[p].Ended? ==> t.row.status.FAILED?
    ensures s.pcs[p].Crashed? ==> After(s, fs).pcs[p].Crashed?
  {
    hide Apply, Owned;
    if fs != [] {
      SweptStays(s, fs[..|fs| - 1], p);
      StepOwned(After(s, fs[..|fs| - 1]), fs[|fs| - 1], p);
      StepSwept(After(s, fs[..|fs| - 1]), fs[|fs| - 1], p);
    }
  }

  ghost predicate FailingOrAfter(s: State, p: nat) {
    Owned(s, p) && (s.pcs[p].Failing? || s.pcs[p].Crashed? || s.pcs[p] == Ended(FAILED))
  }

  lemma StepFailing(s: State, e: Event, p: nat)
    requires FailingOrAfter(s, p)
    ensures FailingOrAfter(Apply(s, e), p)
  {
    StepOwned(s, e, p);
  }

  lemma {:induction false} StillFailing(s: State, fs: seq<Event>, p: nat)
    requires FailingOrAfter(s, p)
    ensures FailingOrAfter(After(s, fs), p)
  {
    hide Apply, FailingOrAfter;
    if fs != [] {
      StillFailing(s, fs[..|fs| - 1], p);
      StepFailing(After(s, fs[..|fs| - 1]), fs[|fs| - 1], p);
    }
  }

  // ---------------------------------------------------------------- cancellation

  /**
   Once the second update of request_cancel has run, the study is not CREATED; if no process had
   claimed it, its status never changes again and no process ever claims it.
   */
  lemma CanceledBeforeTheClaim(created: int, es: seq<Event>, c: nat, fs: seq<Event>)
    requires c in After(Start(created), es).cancelers
    ensures var t := Apply(After(Start(created), es), CancelCreated(c));
            && !t.row.status.CREATED?
            && (Unclaimed(t) ==> After(t, fs).row.status == t.row.status && ClaimsWon(t, fs) == 0)
            && (After(Start(created), es).row.status.CREATED? ==> After(t, fs).row.status.CANCELED?)
  {
    var s := After(Start(created), es);
    var t := Apply(s, CancelCreated(c));
    Reachable(created, es);
    if Unclaimed(s) {
      forall q: nat ensures !t.Claimed(q) && !Owned(s, q) { assert !s.Claimed(q); }
      UnstartedStays(t, fs);
    } else {
      var p: nat :| Owned(s, p);
      assert t.Claimed(p);
    }
  }

  /**
   A running study whose process polls after a request ends CANCELED for good, the polls of the final evaluation
   included; whatever happens after such a poll, the process never finishes the study.
   */
  lemma CancelIsSeen(created: int, es: seq<Event>, p: nat, now: int, fs: seq<Event>)
    requires var s := After(Start(created), es); s.row.cancelRequested && s.LiveAt(p) && !s.pcs[p].Failing?
    ensures After(Start(created), es + [Poll(p), FinishCanceled(p, now)] + fs).row.status.CANCELED?
    ensures var t := After(Start(created), es + [Poll(p)] + fs);
            StoppedAt(t, p) && !t.row.status.FINISHED? && (t.pcs[p].Ended? ==> t.row.status.CANCELED?)
  {
    var s, polled, ended := After(Start(created), es), es + [Poll(p)], es + [Poll(p), FinishCanceled(p, now)];
    PollStops(s, p, Poll(p), now);
    AfterConcat(Start(created), es, [Poll(p), FinishCanceled(p, now)]);
    FinishIsFinal(created, ended, p, fs);
    assert polled[..|es|] == es;
    AfterConcat(Start(created), polled, fs);
    StoppedForGood(After(Start(created), polled), p, fs);
    Reachable(created, polled + fs);
    var t := After(Start(created), polled + fs);
    assert t.Claimed(p);
    var q: nat :| Owned(t, q);
  }

  /** Nobody is past the poll after the search, and the study is not FINISHED. */
  ghost predicate Cancelable(s: State) {
    s.row.cancelRequested && !s.row.status.FINISHED? && forall p: nat :: p in s.pcs ==> !s.pcs[p].Confirmed?
  }

  lemma StepCancelable(s: State, e: Event)
    requires Cancelable(s)
    ensures Cancelable(Apply(s, e))
  {
  }

  /** A cancel request that arrives before the poll after the search is not lost: the study never finishes. */
  lemma {:induction false} CancelIsNotLost(s: State, fs: seq<Event>)
    requires Cancelable(s)
    ensures Cancelable(After(s, fs))
  {
    hide Apply, Cancelable;
    if fs != [] {
      CancelIsNotLost(s, fs[..|fs| - 1]);
      StepCancelable(After(s, fs[..|fs| - 1]), fs[|fs| - 1]);
    }
  }

  /** The poll after the search is the last chance: from CONFIRMED, a request can still be overtaken. */
  lemma CancelCanBeOvertaken(created: int, es: seq<Event>, p: nat, score: real)
    requires var s := After(Start(created), es); p in s.pcs && s.pcs[p].Confirmed?
    ensures var s := After(After(Start(created), es), [SetFlag(0), Finish(p, Finite(score), 0)]);
            s.row.status.FINISHED? && s.row.cancelRequested
  {
    var fs := [SetFlag(0), Finish(p, Finite(score), 0)];
    assert fs[..1] == [SetFlag(0)];
    var s := After(Start(created), es);
    assert After(s, [SetFlag(0)][..0]) == s;
    assert After(s, fs[..1]) == Apply(s, SetFlag(0));
  }

  // ---------------------------------------------------------------- the sweep

  /** Event i is the read of a sweep that finds the RUNNING row's last sign older than its cutoff. */
  predicate SilentAt(created: int, es: seq<Event>, i: nat) {
    && i < |es| && es[i].SweepRead?
    && var s := After(Start(created), es[..i]);
       es[i].w !in s.sweeps && s.row.status.RUNNING? && s.row.LastSign() < es[i].cutoff
  }

  /** The sweep that found the study silent at i has not written since. */
  predicate PendingSince(created: int, es: seq<Event>, i: nat, w: nat) {
    SilentAt(created, es, i) && es[i].w == w && SweepWrite(w) !in es[i + 1..]
  }

  /** The sweep that found the study silent at i fails it at j: its next write, while the row is still RUNNING. */
  predicate FailedBy(created: int, es: seq<Event>, i: nat, j: nat) {
    && i < j < |es| && es[j].SweepWrite? && PendingSince(created, es[..j], i, es[j].w)
    && After(Start(created), es[..j]).row.status.RUNNING?
  }

  /** The time of the last heartbeat that a live process gives in these events. */
  function LastTouch(s: State, fs: seq<Event>): Option<int> {
    if fs == [] then None
    else
      var e := fs[|fs| - 1];
      if e.Touch? && After(s, fs[..|fs| - 1]).LiveAt(e.p) then Some(e.now) else LastTouch(s, fs[..|fs| - 1])
  }

  lemma RunningStep(s: State, e: Event)
    requires !s.row.status.CREATED? && Apply(s, e).row.status.RUNNING?
    ensures s.row.status.RUNNING?
    ensures Apply(s, e).row.LastSign() == if e.Touch? && s.LiveAt(e.p) then e.now else s.row.LastSign()
  {
  }

  /** While the study runs, its last sign is the last heartbeat. */
  lemma {:induction false} WhileRunning(s: State, fs: seq<Event>)
    requires s.row.status.RUNNING? && After(s, fs).row.status.RUNNING?
    ensures After(s, fs).row.LastSign()
         == if LastTouch(s, fs).Some? then LastTouch(s, fs).value else s.row.LastSign()
  {
    hide Apply;
    if fs != [] {
      NeverCreatedAgain(s, fs[..|fs| - 1]);
      RunningStep(After(s, fs[..|fs| - 1]), fs[|fs| - 1]);
      WhileRunning(s, fs[..|fs| - 1]);
    }
  }

  /** What one event does to the pending sweep w. */
  lemma SweepStep(s: State, e: Event, w: nat)
    ensures var t := Apply(s, e);
            if w in s.sweeps then
              if e == SweepWrite(w) then w !in t.sweeps else w in t.sweeps && t.sweeps[w] == s.sweeps[w]
            else
              w in t.sweeps <==> e.SweepRead? && e.w == w && s.row.status.RUNNING? && s.row.LastSign() < e.cutoff
    ensures Apply(s, e).row.error == NoHeartbeat && s.row.error != NoHeartbeat ==>
              e.SweepWrite? && e.w in s.sweeps && s.row.status.RUNNING?
  {
  }

  lemma SweepFails(s: State, w: nat)
    requires w in s.sweeps && s.row.status.RUNNING?
    ensures var r := Apply(s, SweepWrite(w)).row;
            r.status.FAILED? && r.error == NoHeartbeat && r.LastSign() == s.row.LastSign()
  {
  }

  /** A sweep keeps its cutoff until it writes. */
  lemma {:induction false} SweepWaits(s: State, fs: seq<Event>, w: nat)
    requires w in s.sweeps && SweepWrite(w) !in fs
    ensures w in After(s, fs).sweeps && After(s, fs).sweeps[w] == s.sweeps[w]
  {
    hide Apply;
    if fs != [] {
      SweepWaits(s, fs[..|fs| - 1], w);
      SweepStep(After(s, fs[..|fs| - 1]), fs[|fs| - 1], w);
    }
  }

  lemma SplitAt(created: int, es: seq<Event>, i: nat)
    requires i < |es|
    ensures After(Start(created), es[..i + 1]) == Apply(After(Start(created), es[..i]), es[i])
    ensures After(Start(created), es) == After(After(Start(created), es[..i + 1]), es[i + 1..])
  {
    hide Apply, Start;
    assert es[..i + 1][..i] == es[..i];
    assert es == es[..i + 1] + es[i + 1..];
    AfterConcat(Start(created), es[..i + 1], es[i + 1..]);
  }

  lemma PendingKnows(created: int, es: seq<Event>, i: nat, w: nat)
    requires PendingSince(created, es, i, w)
    ensures var s := After(Start(created), es); w in s.sweeps && s.sweeps[w] == es[i].cutoff
  {
    hide Apply;
    SplitAt(created, es, i);
    ReadIsPending(created, es, i);
    SweepWaits(After(Start(created), es[..i + 1]), es[i + 1..], w);
  }

  lemma ReadIsPending(created: int, es: seq<Event>, i: nat)
    requires SilentAt(created, es, i)
    ensures var s := After(Start(created), es[..i + 1]);
            && es[i].w in s.sweeps && s.sweeps[es[i].w] == es[i].cutoff
            && s.row == After(Start(created), es[..i]).row
  {
    SplitAt(created, es, i);
  }

  /**
   A sweep fails the study with a sign at or above its own cutoff if and only if the last heartbeat between its read
   and its write carries such a time: only then is the study failed although its heartbeat is not too old.
   */
  lemma FailsAFreshStudyIff(created: int, es: seq<Event>, i: nat, j: nat)
    requires FailedBy(created, es, i, j)
    ensures var u := After(Start(created), es[..j + 1]).row;
            var touch := LastTouch(After(Start(created), es[..i + 1]), es[i + 1..j]);
            && u.status.FAILED? && u.error == NoHeartbeat
            && (u.LastSign() >= es[i].cutoff <==> touch.Some? && touch.value >= es[i].cutoff)
  {
    hide Apply;
    var before := es[..j];
    assert before[..i + 1] == es[..i + 1] && before[..i] == es[..i] && before[i + 1..] == es[i + 1..j];
    PendingKnows(created, before, i, es[j].w);
    ReadIsPending(created, before, i);
    SplitAt(created, before, i);
    SplitAt(created, es, j);
    SweepFails(After(Start(created), before), es[j].w);
    WhileRunning(After(Start(created), es[..i + 1]), es[i + 1..j]);
  }

  lemma {:induction false} PendingFrom(created: int, es: seq<Event>, w: nat)
    requires w in After(Start(created), es).sweeps
    ensures exists i: nat :: PendingSince(created, es, i, w)
  {
    hide Apply;
    assert es != [];
    var before, e := es[..|es| - 1], es[|es| - 1];
    SweepStep(After(Start(created), before), e, w);
    if w in After(Start(created), before).sweeps {
      PendingFrom(created, before, w);
      var i: nat :| PendingSince(created, before, i, w);
      assert before[..i] == es[..i] && es[i + 1..] == before[i + 1..] + [e];
      assert PendingSince(created, es, i, w);
    } else {
      assert es[|es|..] == [];
      assert PendingSince(created, es, |es| - 1, w);
    }
  }

  lemma FailedByLonger(created: int, es: seq<Event>, i: nat, j: nat)
    requires es != [] && FailedBy(created, es[..|es| - 1], i, j)
    ensures FailedBy(created, es, i, j)
  {
    assert es[..|es| - 1][..j] == es[..j];
  }

  /** A study that shows the sweep's error was failed by a sweep that had itself found it silent. */
  lemma {:induction false} SweptWasSilent(created: int, es: seq<Event>)
    requires After(Start(created), es).row.error == NoHeartbeat
    ensures exists i: nat, j: nat :: FailedBy(created, es, i, j)
  {
    hide Apply;
    assert es != [];
    var before, e := es[..|es| - 1], es[|es| - 1];
    var s := After(Start(created), before);
    SweepStep(s, e, 0);
    if s.row.error == NoHeartbeat {
      SweptWasSilent(created, before);
      var i: nat, j: nat :| FailedBy(created, before, i, j);
      FailedByLonger(created, es, i, j);
    } else {
      PendingFrom(created, before, e.w);
      var i: nat :| PendingSince(created, before, i, e.w);
      assert FailedBy(created, es, i, |es| - 1);
    }
  }

  lemma StepTerminal(s: State, e: Event)
    requires s.row.status.Terminal()
    ensures Apply(s, e).row.status.Terminal()
  {
  }

  lemma {:induction false} NeverRunningAgain(s: State, fs: seq<Event>)
    requires s.row.status.Terminal()
    ensures After(s, fs).row.status.Terminal()
  {
    hide Apply;
    if fs != [] {
      NeverRunningAgain(s, fs[..|fs| - 1]);
      StepTerminal(After(s, fs[..|fs| - 1]), fs[|fs| - 1]);
    }
  }

  lemma PendingEarlier(created: int, es: seq<Event>, i: nat, w: nat, n: nat)
    requires PendingSince(created, es, i, w) && i < n <= |es|
    ensures PendingSince(created, es[..n], i, w)
  {
    assert es[..n][..i] == es[..i] && es[..n][i + 1..] <= es[i + 1..];
  }

  /** No study is failed by two sweeps, and the read belongs to the sweep that writes. */
  lemma FailedOnce(created: int, es: seq<Event>, i: nat, j: nat, i': nat, j': nat)
    requires FailedBy(created, es, i, j) && FailedBy(created, es, i', j') && j <= j'
    ensures j == j' && i == i'
  {
    if j < j' {
      FailsAFreshStudyIff(created, es, i, j);
      assert es[..j'][..j + 1] == es[..j + 1];
      SplitAt(created, es[..j'], j);
      NeverRunningAgain(After(Start(created), es[..j + 1]), es[..j'][j + 1..]);
    } else if i != i' {
      var first, second := if i < i' then i else i', if i < i' then i' else i;
      PendingEarlier(created, es[..j], first, es[j].w, second);
      PendingKnows(created, es[..j][..second], first, es[j].w);
    }
  }

  /** Reading and writing are two operations: a study that gives a sign between them is failed all the same. */
  lemma SweepCanFailAStudyWithAFreshHeartbeat()
    ensures exists es: seq<Event> ::
              var s := After(Start(0), es);
              FailedBy(0, es, 1, 3) && s.row.error == NoHeartbeat && s.row.LastSign() >= es[1].cutoff && s.LiveAt(0)
  {
    var a, b, c, d := Claim(0, 0), SweepRead(0, 10), Touch(0, 20), SweepWrite(0);
    var es := [a, b, c, d];
    assert es[..3] == [a, b, c] && es[..3][..2] == [a, b] && es[..3][..2][..1] == [a] && [a][..0] == [];
    var s1 := Apply(Start(0), a);
    assert After(Start(0), [a]) == s1;
    var s2 := Apply(s1, b);
    assert After(Start(0), [a, b]) == s2;
    var s3 := Apply(s2, c);
    assert After(Start(0), [a, b, c]) == s3;
    assert After(Start(0), es) == Apply(s3, d);
    assert es[..3][2..] == [c] && es[..3][..1] == [a];
    assert FailedBy(0, es, 1, 3);
  }
}
