/** Any number of requests forwarded at once, sharing one rotator with the admin
    side: a state machine whose steps are the rotator's locked sections and the
    arrival of upstream outcomes, interleaved in every possible way. */
module Protocol {
  import opened Common
  import opened Scheduler
  import opened Selection
  import opened History
  import opened Relay

  datatype Pc =
    | Choosing
    | Calling(worker: string)
    | Marking(worker: string, outcome: Outcome, todo: seq<Kind>)
    | Finished(final: Final)

  /** One request in flight: the local variables of its loop, and its attempts so far. */
  datatype Request = Request(pc: Pc, attempt: nat, tried: set<string>,
                             lastResult: Option<Response>, lastErr: Option<string>, hist: seq<Attempt>)

  datatype System = System(rot: Rot, requests: map<nat, Request>, log: seq<Entry>)

  datatype Step =
    | Arrive(k: nat)
    | ChooseWorker(k: nat, now: Time)
    | Respond(k: nat, outcome: Outcome)
    | IssueMark(k: nat, now: Time, midnight: Time)
    | Resync(specs: seq<Spec>)

  function Start(rot: Rot): System {
    System(rot, map[], [])
  }

  const ARRIVED := Request(Choosing, 0, {}, None, None, [])

  function StampedMark(kind: Kind, now: Time, midnight: Time): (m: Mark)
    ensures KindOf(m) == kind
  {
    match kind
    case KSuccess => Success
    case KCooldown => Cooldown(now)
    case KBan(dur) => Ban(dur, now, midnight)
    case KError(message) => Error(message, now)
  }

  /** Once an attempt's marks are issued: return, try again, or give up. */
  function Settle(q: Request): Request {
    if q.pc.Marking? && q.pc.todo == [] then
      if q.pc.outcome.Final() then
        q.(pc := Finished(Ok(Response(q.pc.outcome.status, q.pc.outcome.body, q.pc.worker))))
      else if q.attempt + 1 < MAX_WORKER_ATTEMPTS then
        q.(pc := Choosing, attempt := q.attempt + 1)
      else
        q.(pc := Finished(Surface(q.lastResult, q.lastErr)))
    else q
  }

  function AfterPick(q: Request, picked: Option<string>): Request {
    match picked
    case None => q.(pc := Finished(Surface(q.lastResult, q.lastErr)))
    case Some(id) => q.(pc := Calling(id), tried := q.tried + {id})
  }

  function AfterOutcome(q: Request, o: Outcome): Request
    requires q.pc.Calling?
  {
    var w := q.pc.worker;
    Settle(q.(pc := Marking(w, o, Kinds(o)), hist := q.hist + [Attempt(w, o)],
              lastResult := if o.Answer? then Some(Response(o.status, o.body, w)) else q.lastResult,
              lastErr := if o.Answer? then q.lastErr else Some(FailureOf(o))))
  }

  /** A step that is not enabled changes nothing. */
  function Exec(s: System, step: Step): System {
    match step
    case Arrive(k) =>
      if k in s.requests then s else s.(requests := s.requests[k := ARRIVED])
    case ChooseWorker(k, now) =>
      if k in s.requests && s.requests[k].pc.Choosing? then
        var op := PickOp(now, s.requests[k].tried);
        System(Apply(s.rot, op), s.requests[k := AfterPick(s.requests[k], PickedId(s.rot, op))],
               s.log + [Entry(Some(k), op)])
      else s
    case Respond(k, o) =>
      if k in s.requests && s.requests[k].pc.Calling? then
        s.(requests := s.requests[k := AfterOutcome(s.requests[k], o)])
      else s
    case IssueMark(k, now, midnight) =>
      if k in s.requests && s.requests[k].pc.Marking? && s.requests[k].pc.todo != [] then
        var q := s.requests[k];
        var op := MarkOp(q.pc.worker, StampedMark(q.pc.todo[0], now, midnight));
        System(Apply(s.rot, op), s.requests[k := Settle(q.(pc := q.pc.(todo := q.pc.todo[1..])))],
               s.log + [Entry(Some(k), op)])
      else s
    case Resync(specs) =>
      System(Apply(s.rot, SyncOp(specs)), s.requests, s.log + [Entry(None, SyncOp(specs))])
  }

  function ExecAll(s: System, steps: seq<Step>): System {
    if steps == [] then s else Exec(ExecAll(s, Init(steps)), Last(steps))
  }

  /** What a request's variables say about the calls it has made so far. */
  predicate RequestInv(q: Request, calls: seq<Call>, picks: seq<Option<string>>) {
    && q.lastResult == LastAnswer(q.hist)
    && q.lastErr == LastFailure(q.hist)
    && match q.pc
       case Choosing =>
         && q.attempt == |q.hist| < MAX_WORKER_ATTEMPTS && Unfinished(q.hist) && q.tried == Tried(q.hist)
         && calls == Calls(q.hist) && picks == Workers(q.hist)
       case Calling(w) =>
         && q.attempt == |q.hist| < MAX_WORKER_ATTEMPTS && Unfinished(q.hist) && q.tried == Tried(q.hist) + {w}
         && calls == Calls(q.hist) + [CPick(Tried(q.hist))] && picks == Workers(q.hist) + [Some(w)]
       case Marking(w, o, todo) =>
         && |q.hist| == q.attempt + 1 <= MAX_WORKER_ATTEMPTS && Last(q.hist) == Attempt(w, o)
         && Unfinished(Init(q.hist)) && q.tried == Tried(q.hist)
         && calls + CMarks(w, todo) == Calls(q.hist) && picks == Workers(q.hist)
       case Finished(final) =>
         final == ResultOf(q.hist) && Served(q.hist, calls, picks)
  }

  /** Request k has made exactly the calls its own attempts account for. */
  ghost predicate InvFor(s: System, rot: Rot, k: nat) {
    if k in s.requests then RequestInv(s.requests[k], CallsBy(s.log, k), PicksBy(rot, s.log, k))
    else CallsBy(s.log, k) == [] && PicksBy(rot, s.log, k) == []
  }

  /** The rotator is what its log makes of the initial one, and so is every request. */
  ghost predicate Inv(s: System, rot: Rot) {
    && s.rot == Run(rot, OpsOf(s.log))
    && forall k: nat :: InvFor(s, rot, k)
  }

  lemma {:induction false} SettleKeepsInv(q: Request, calls: seq<Call>, picks: seq<Option<string>>)
    requires RequestInv(q, calls, picks) && q.pc.Marking?
    ensures RequestInv(Settle(q), calls, picks)
  {
    if q.pc.todo == [] {
      assert CMarks(q.pc.worker, []) == [];
      assert forall i :: 0 <= i < |q.hist| - 1 ==> q.hist[i] == Init(q.hist)[i];
      if !q.pc.outcome.Final() {
        assert Unfinished(q.hist);
      }
    }
  }

  lemma {:induction false} PickKeepsInv(q: Request, calls: seq<Call>, picks: seq<Option<string>>,
                                        picked: Option<string>)
    requires RequestInv(q, calls, picks) && q.pc.Choosing?
    ensures RequestInv(AfterPick(q, picked), calls + [CPick(q.tried)], picks + [picked])
  {
  }

  lemma {:induction false} OutcomeKeepsInv(q: Request, calls: seq<Call>, picks: seq<Option<string>>, o: Outcome)
    requires RequestInv(q, calls, picks) && q.pc.Calling?
    ensures RequestInv(AfterOutcome(q, o), calls, picks)
  {
    HistGrows(q.hist, Attempt(q.pc.worker, o));
    TriedGrows(q.hist, Attempt(q.pc.worker, o));
    var w := q.pc.worker;
    var q' := q.(pc := Marking(w, o, Kinds(o)), hist := q.hist + [Attempt(w, o)],
                 lastResult := if o.Answer? then Some(Response(o.status, o.body, w)) else q.lastResult,
                 lastErr := if o.Answer? then q.lastErr else Some(FailureOf(o)));
    SettleKeepsInv(q', calls, picks);
  }

  lemma {:induction false} MarkKeepsInv(q: Request, calls: seq<Call>, picks: seq<Option<string>>)
    requires RequestInv(q, calls, picks) && q.pc.Marking? && q.pc.todo != []
    ensures var q' := Settle(q.(pc := q.pc.(todo := q.pc.todo[1..])));
            RequestInv(q', calls + [CMark(q.pc.worker, q.pc.todo[0])], picks)
  {
    var todo := q.pc.todo;
    assert CMarks(q.pc.worker, todo) == [CMark(q.pc.worker, todo[0])] + CMarks(q.pc.worker, todo[1..]);
    assert calls + [CMark(q.pc.worker, todo[0])] + CMarks(q.pc.worker, todo[1..]) == Calls(q.hist);
    SettleKeepsInv(q.(pc := q.pc.(todo := todo[1..])), calls + [CMark(q.pc.worker, todo[0])], picks);
  }

  /** A locked section entered by someone else leaves request j as it was. */
  lemma {:induction false} OthersEntryKeepsInvFor(s: System, rot: Rot, e: Entry, s': System, j: nat)
    requires InvFor(s, rot, j) && e.who != Some(j) && s'.log == s.log + [e]
    requires j in s.requests <==> j in s'.requests
    requires j in s.requests ==> s'.requests[j] == s.requests[j]
    ensures InvFor(s', rot, j)
  {
    hide RequestInv;
    LogGrowsFor(rot, s.log, e, j);
    assert CallsBy(s.log, j) + [] == CallsBy(s.log, j);
    assert PicksBy(rot, s.log, j) + [] == PicksBy(rot, s.log, j);
  }

  /** One more locked section by request k, after which its variables are q. */
  lemma {:induction false} LoggedStepKeepsInv(s: System, rot: Rot, k: nat, op: Op, q: Request)
    requires Inv(s, rot)
    requires RequestInv(q, CallsBy(s.log, k) + [CallOf(op)],
                        PicksBy(rot, s.log, k) + (if op.PickOp? then [PickedId(s.rot, op)] else []))
    ensures Inv(System(Apply(s.rot, op), s.requests[k := q], s.log + [Entry(Some(k), op)]), rot)
  {
    var e := Entry(Some(k), op);
    LogGrows(rot, s.log, e);
    var s' := System(Apply(s.rot, op), s.requests[k := q], s.log + [e]);
    LogGrowsFor(rot, s.log, e, k);
    assert InvFor(s', rot, k);
    forall j: nat | j != k ensures InvFor(s', rot, j) {
      assert InvFor(s, rot, j);
      OthersEntryKeepsInvFor(s, rot, e, s', j);
    }
  }

  lemma {:induction false} ChooseKeepsInv(s: System, k: nat, now: Time, rot: Rot)
    requires Inv(s, rot) && k in s.requests && s.requests[k].pc.Choosing?
    ensures Inv(Exec(s, ChooseWorker(k, now)), rot)
  {
    assert InvFor(s, rot, k);
    var q, op := s.requests[k], PickOp(now, s.requests[k].tried);
    PickKeepsInv(q, CallsBy(s.log, k), PicksBy(rot, s.log, k), PickedId(s.rot, op));
    LoggedStepKeepsInv(s, rot, k, op, AfterPick(q, PickedId(s.rot, op)));
  }

  lemma {:induction false} IssueMarkKeepsInv(s: System, k: nat, now: Time, midnight: Time, rot: Rot)
    requires Inv(s, rot) && k in s.requests && s.requests[k].pc.Marking? && s.requests[k].pc.todo != []
    ensures Inv(Exec(s, IssueMark(k, now, midnight)), rot)
  {
    assert InvFor(s, rot, k);
    var q := s.requests[k];
    var op := MarkOp(q.pc.worker, StampedMark(q.pc.todo[0], now, midnight));
    MarkKeepsInv(q, CallsBy(s.log, k), PicksBy(rot, s.log, k));
    assert PicksBy(rot, s.log, k) + [] == PicksBy(rot, s.log, k);
    LoggedStepKeepsInv(s, rot, k, op, Settle(q.(pc := q.pc.(todo := q.pc.todo[1..]))));
  }

  lemma {:induction false} ResyncKeepsInv(s: System, specs: seq<Spec>, rot: Rot)
    requires Inv(s, rot)
    ensures Inv(Exec(s, Resync(specs)), rot)
  {
    var e := Entry(None, SyncOp(specs));
    LogGrows(rot, s.log, e);
    forall j: nat ensures InvFor(Exec(s, Resync(specs)), rot, j) {
      assert InvFor(s, rot, j);
      OthersEntryKeepsInvFor(s, rot, e, Exec(s, Resync(specs)), j);
    }
  }

  /** A step of request k that takes no lock. */
  lemma {:induction false} LocalStepKeepsInv(s: System, rot: Rot, k: nat, q: Request)
    requires Inv(s, rot) && RequestInv(q, CallsBy(s.log, k), PicksBy(rot, s.log, k))
    ensures Inv(s.(requests := s.requests[k := q]), rot)
  {
    var s' := s.(requests := s.requests[k := q]);
    forall j: nat ensures InvFor(s', rot, j) {
      assert InvFor(s, rot, j);
    }
  }

  lemma {:induction false} StepKeepsInv(s: System, step: Step, rot: Rot)
    requires Inv(s, rot)
    ensures Inv(Exec(s, step), rot)
  {
    match step
    case Arrive(k) =>
      if k !in s.requests {
        assert InvFor(s, rot, k);
        LocalStepKeepsInv(s, rot, k, ARRIVED);
      }
    case ChooseWorker(k, now) =>
      if k in s.requests && s.requests[k].pc.Choosing? {
        ChooseKeepsInv(s, k, now, rot);
      }
    case Respond(k, o) =>
      if k in s.requests && s.requests[k].pc.Calling? {
        assert InvFor(s, rot, k);
        OutcomeKeepsInv(s.requests[k], CallsBy(s.log, k), PicksBy(rot, s.log, k), o);
        LocalStepKeepsInv(s, rot, k, AfterOutcome(s.requests[k], o));
      }
    case IssueMark(k, now, midnight) =>
      if k in s.requests && s.requests[k].pc.Marking? && s.requests[k].pc.todo != [] {
        IssueMarkKeepsInv(s, k, now, midnight, rot);
      }
    case Resync(specs) => ResyncKeepsInv(s, specs, rot);
  }

  lemma {:induction false} ReachableInv(rot: Rot, steps: seq<Step>)
    ensures Inv(ExecAll(Start(rot), steps), rot)
  {
    if steps != [] {
      ReachableInv(rot, Init(steps));
      StepKeepsInv(ExecAll(Start(rot), Init(steps)), Last(steps), rot);
    }
  }

  /** In every interleaving a finished request was served: at most three attempts,
      each on the worker its pick returned, with the result its own outcomes give
      and no other effect on the rotator than the marks of its attempts. */
  lemma {:induction false} FinishedRequestServed(rot: Rot, steps: seq<Step>, k: nat)
    requires var s := ExecAll(Start(rot), steps); k in s.requests && s.requests[k].pc.Finished?
    ensures var s := ExecAll(Start(rot), steps);
            var q := s.requests[k];
            && Served(q.hist, CallsBy(s.log, k), PicksBy(rot, s.log, k))
            && q.pc.final == ResultOf(q.hist)
            && ClockMarks(CallsBy(s.log, k)) == MarkedAttempts(q.hist)
  {
    ReachableInv(rot, steps);
    assert InvFor(ExecAll(Start(rot), steps), rot, k);
    var q := ExecAll(Start(rot), steps).requests[k];
    OneClockMarkPerAttempt(q.hist);
    ClockMarksAppend(Calls(q.hist), [CPick(Tried(q.hist))]);
    assert Init([CPick(Tried(q.hist))]) == [];
  }

  /** At every moment, finished or not, no request has made more than three attempts
      or more clock marks than attempts, and the cursor is in range. */
  lemma {:induction false} AlwaysBounded(rot: Rot, steps: seq<Step>, k: nat)
    requires rot.Valid()
    ensures var s := ExecAll(Start(rot), steps);
            && s.rot.Valid()
            && (k in s.requests ==> |s.requests[k].hist| <= MAX_WORKER_ATTEMPTS)
            && ClockMarks(CallsBy(s.log, k)) <= if k in s.requests then |s.requests[k].hist| else 0
  {
    ReachableInv(rot, steps);
    var s := ExecAll(Start(rot), steps);
    RunValid(rot, OpsOf(s.log));
    assert InvFor(s, rot, k);
    if k in s.requests {
      var q := s.requests[k];
      OneClockMarkPerAttempt(q.hist);
      ClockMarksAppend(Calls(q.hist), [CPick(Tried(q.hist))]);
      assert Init([CPick(Tried(q.hist))]) == [];
      if q.pc.Marking? {
        ClockMarksAppend(CallsBy(s.log, k), CMarks(q.pc.worker, q.pc.todo));
      }
    }
  }

  /** The worker a pick may return, given the ids already tried. */
  ghost predicate ForcedChoice(r: Rot, now: Time, tried: set<string>, w: string) {
    && (w in tried ==> forall j :: 0 <= j < |r.workers| && r.workers[j].Ready(now) ==> r.workers[j].spec.id in tried)
    && (exists j :: && 0 <= j < |r.workers| && r.workers[j].spec.id == w
                    && (|| r.workers[j].Ready(now)
                        || (r.workers[j].Cooling(now)
                            && forall i :: 0 <= i < |r.workers| ==> !r.workers[i].Ready(now))))
  }

  lemma {:induction false} PickForced(r: Rot, now: Time, tried: set<string>)
    requires r.Valid()
    ensures var o := PickedId(r, PickOp(now, tried)); o.Some? ==> ForcedChoice(r, now, tried, o.value)
  {
    if j :| 0 <= j < |r.workers| && Eligible(r, now, tried, j) {
      PickNearestUntried(r, now, tried, j);
    } else if j :| 0 <= j < |r.workers| && r.workers[j].Ready(now) {
      PickRetriesOnlyIfForced(r, now, tried, j);
      forall i | 0 <= i < |r.workers| && r.workers[i].Ready(now) ensures r.workers[i].spec.id in tried {
        assert !Eligible(r, now, tried, i);
      }
    } else {
      PickWhenNoneReady(r, now, tried);
    }
  }

  /** In every interleaving a request retries a worker only at a pick where every
      ready worker had been tried, and uses one that is not ready only when none is. */
  lemma {:induction false} RetryOnlyWhenForced(rot: Rot, steps: seq<Step>, k: nat, now: Time)
    requires rot.Valid()
    requires var s := ExecAll(Start(rot), steps); k in s.requests && s.requests[k].pc.Choosing?
    ensures var s := ExecAll(Start(rot), steps);
            var q := Exec(s, ChooseWorker(k, now)).requests[k];
            q.pc.Calling? ==> ForcedChoice(s.rot, now, Tried(s.requests[k].hist), q.pc.worker)
  {
    ReachableInv(rot, steps);
    var s := ExecAll(Start(rot), steps);
    RunValid(rot, OpsOf(s.log));
    assert InvFor(s, rot, k);
    PickForced(s.rot, now, s.requests[k].tried);
  }

  lemma {:induction false} RunAppend(r: Rot, a: seq<Op>, b: seq<Op>)
    ensures Run(r, a + b) == Run(Run(r, a), b)
  {
    if b == [] {
      assert a + b == a;
    } else {
      assert (a + b)[..|a + b| - 1] == a + b[..|b| - 1];
      RunAppend(r, a, b[..|b| - 1]);
    }
  }

  /** Entry i of a log is a free-limit ban of a configured worker, whose id is not repeated
      at that moment or else banned in its further entries already; the resyncs after it
      keep the id and its later bans are given no earlier in the calendar. */
  ghost predicate BannedAt(rot: Rot, log: seq<Op>, i: nat)
    requires i < |log|
  {
    && log[i].MarkOp? && log[i].mark.Ban? && log[i].mark.dur == BAN_DURATION
    && OthersBanned(Run(rot, log[..i]), log[i].id, NextMidnight(log[i].mark.midnight))
    && LaterBansOnly(log[i + 1..], log[i].id, log[i].mark.midnight)
  }

  lemma {:induction false} BanHoldsInLog(rot: Rot, log: seq<Op>, i: nat, k: nat)
    requires rot.Valid() && i < k < |log| && BannedAt(rot, log, i)
    requires log[k].PickOp? && log[k].now < NextMidnight(log[i].mark.midnight)
    ensures PickedId(Run(rot, log[..k]), log[k]) != Some(log[i].id)
  {
    var before, rest := Run(rot, log[..i]), log[i + 1..];
    var m := log[i].mark;
    hide Pick, Run, OthersBanned;
    RunValid(rot, log[..i]);
    BanSafety(before, log[i].id, m.now, m.midnight, rest, k - i - 1);
    RunInParts(rot, log, i, k);
  }

  /** Exactly when a request fails for want of a worker: at its first pick every worker, if
      any is configured, is banned or at the instant its later clock runs out. */
  lemma {:induction false} NoWorkerIff(rot: Rot, steps: seq<Step>, k: nat, now: Time)
    requires rot.Valid()
    requires var s := ExecAll(Start(rot), steps); k in s.requests && s.requests[k].pc.Choosing?
    ensures var s := ExecAll(Start(rot), steps);
            var q := Exec(s, ChooseWorker(k, now)).requests[k];
            q.pc == Finished(NoWorker) <==>
              && s.requests[k].hist == []
              && forall j :: 0 <= j < |s.rot.workers| ==>
                   s.rot.workers[j].Banned(now) || now == LastClock(s.rot.workers[j])
  {
    hide Pick, LastAnswer, LastFailure;
    ReachableInv(rot, steps);
    var s := ExecAll(Start(rot), steps);
    RunValid(rot, OpsOf(s.log));
    assert InvFor(s, rot, k);
    PickFailsIff(s.rot, now, s.requests[k].tried);
    PickSafe(s.rot, now, s.requests[k].tried);
    SurfacesNothingIff(s.requests[k].hist);
  }

  lemma {:induction false} SurfacesNothingIff(hist: seq<Attempt>)
    ensures Surface(LastAnswer(hist), LastFailure(hist)) == NoWorker <==> hist == []
  {
  }

  /** And at no other step. */
  lemma {:induction false} NoWorkerMeansNoAttempt(rot: Rot, steps: seq<Step>, k: nat)
    requires var s := ExecAll(Start(rot), steps); k in s.requests && s.requests[k].pc == Finished(NoWorker)
    ensures var s := ExecAll(Start(rot), steps);
            s.requests[k].hist == [] && PicksBy(rot, s.log, k) == [None]
  {
    hide ResultOf;
    FinishedRequestServed(rot, steps, k);
    var s := ExecAll(Start(rot), steps);
    ResultMeaning(s.requests[k].hist, CallsBy(s.log, k), PicksBy(rot, s.log, k));
  }

  /** A run up to k is the run up to i, operation i, and the run of what follows. */
  lemma {:induction false} RunInParts(rot: Rot, log: seq<Op>, i: nat, k: nat)
    requires i < k <= |log|
    ensures Run(rot, log[..k]) == Run(Apply(Run(rot, log[..i]), log[i]), log[i + 1..][..k - i - 1])
  {
    hide Apply;
    var rest := log[i + 1..];
    assert log[..i + 1][..i] == log[..i];
    assert log[..k] == log[..i + 1] + rest[..k - i - 1];
    RunAppend(rot, log[..i + 1], rest[..k - i - 1]);
  }

  /** Ban safety for the whole system: once a configured worker got a free-limit ban,
      no request, however the requests and resyncs interleave, picks it at any time
      before the next midnight. */
  lemma {:induction false} NoRequestUsesBannedWorker(rot: Rot, steps: seq<Step>, i: nat, k: nat)
    requires rot.Valid()
    requires var s := ExecAll(Start(rot), steps);
             var log := OpsOf(s.log);
             && i < k < |s.log| && BannedAt(rot, log, i)
             && log[k].PickOp? && log[k].now < NextMidnight(log[i].mark.midnight)
    ensures var s := ExecAll(Start(rot), steps);
            var log := OpsOf(s.log);
            && s.rot == Run(rot, log)
            && PickedId(Run(rot, log[..k]), log[k]) != Some(log[i].id)
  {
    ReachableInv(rot, steps);
    BanHoldsInLog(rot, OpsOf(ExecAll(Start(rot), steps).log), i, k);
  }
}
