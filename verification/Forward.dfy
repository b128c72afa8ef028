/** The retry loop of one request as the code runs it, with no other request in
    between: its rotator calls and its result are those of the specification the
    interleaved protocol is proved against. */
module Forwarding {
  import opened Common
  import opened Scheduler
  import opened History
  import opened Relay

  /** The name this request goes by in its log. */
  const ME: nat := 0

  /** The rotator before the request, and the locked sections entered since. */
  datatype Trail = Trail(start: Rot, log: seq<Entry>)
  {
    function Calls(): seq<Call> {
      CallsBy(log, ME)
    }

    function Picks(): seq<Option<string>> {
      PicksBy(start, log, ME)
    }

    function Then(op: Op): Trail {
      Trail(start, log + [Entry(Some(ME), op)])
    }
  }

  lemma {:induction false} TrailGrows(t: Trail, op: Op)
    ensures Run(t.start, OpsOf(t.Then(op).log)) == Apply(Run(t.start, OpsOf(t.log)), op)
    ensures t.Then(op).Calls() == t.Calls() + [CallOf(op)]
    ensures t.Then(op).Picks() ==
            t.Picks() + (if op.PickOp? then [PickedId(Run(t.start, OpsOf(t.log)), op)] else [])
  {
    LogGrows(t.start, t.log, Entry(Some(ME), op));
    LogGrowsFor(t.start, t.log, Entry(Some(ME), op), ME);
  }

  /** The marks attemptOne issues itself; Forward issues the rest. */
  function AttemptKinds(o: Outcome): seq<Kind> {
    if o.Answer? && o.status != 429 then [] else Kinds(o)
  }

  class Client {
    const rot: Rotator

    constructor (rot: Rotator)
      ensures this.rot == rot
    {
      this.rot := rot;
    }

    /** The rotator is where the trail leads. */
    ghost predicate On(t: Trail)
      reads rot, rot.workers
    {
      rot.Valid() && rot.View() == Run(t.start, OpsOf(t.log))
    }

    /** Before the first pick nothing has been called. */
    lemma {:induction false} StartsOn()
      requires rot.Valid()
      ensures var t := Trail(rot.View(), []);
              On(t) && t.Calls() == Calls([]) && t.Picks() == Workers([])
      ensures Unfinished([]) && Tried([]) == {} && forall upstream :: Met([], upstream)
      ensures LastAnswer([]) == None && LastFailure([]) == None
    {
    }

    method Pick(exclude: set<string>, ghost t: Trail) returns (w: State?, ghost t': Trail)
      requires On(t)
      modifies rot`nextIdx
      ensures On(t') && t'.start == t.start
      ensures t'.Calls() == t.Calls() + [CPick(exclude)]
      ensures t'.Picks() == t.Picks() + [if w == null then None else Some(w.id)]
    {
      var now: Time := *;
      ghost var op := PickOp(now, exclude);
      TrailGrows(t, op);
      w := rot.PickExcluding(now, exclude);
      t' := t.Then(op);
    }

    method Mark(id: string, kind: Kind, ghost t: Trail) returns (ghost t': Trail)
      requires On(t)
      modifies rot.workers
      ensures On(t') && t'.start == t.start
      ensures t'.Calls() == t.Calls() + [CMark(id, kind)]
      ensures t'.Picks() == t.Picks()
    {
      hide Scheduler.MarkById, Run;
      var now: Time, midnight: Time := *, *;
      match kind {
        case KSuccess =>
          rot.MarkSuccess(id);
          t' := t.Then(MarkOp(id, Success));
          TrailGrows(t, MarkOp(id, Success));
        case KCooldown =>
          rot.MarkCooldown(id, now);
          t' := t.Then(MarkOp(id, Cooldown(now)));
          TrailGrows(t, MarkOp(id, Cooldown(now)));
        case KBan(dur) =>
          rot.MarkBan(id, dur, now, midnight);
          t' := t.Then(MarkOp(id, Ban(dur, now, midnight)));
          TrailGrows(t, MarkOp(id, Ban(dur, now, midnight)));
        case KError(message) =>
          rot.MarkError(id, message, now);
          t' := t.Then(MarkOp(id, Error(message, now)));
          TrailGrows(t, MarkOp(id, Error(message, now)));
      }
    }

    /** A failed attempt: its message, then a cooldown or a ban. */
    method MarkFailure(worker: string, message: string, kind: Kind, ghost t: Trail) returns (ghost t': Trail)
      requires On(t)
      modifies rot.workers
      ensures On(t') && t'.start == t.start
      ensures t'.Calls() == t.Calls() + [CMark(worker, KError(message)), CMark(worker, kind)]
      ensures t'.Picks() == t.Picks()
    {
      t' := Mark(worker, KError(message), t);
      t' := Mark(worker, kind, t');
    }

    /** One upstream request on a worker. A 429 and a failure on the way are marked here. */
    method AttemptOne(worker: string, o: Outcome, ghost t: Trail)
      returns (result: Option<Response>, err: string, ghost t': Trail)
      requires On(t)
      modifies rot.workers
      ensures On(t') && t'.start == t.start
      ensures t'.Calls() == t.Calls() + CMarks(worker, AttemptKinds(o))
      ensures t'.Picks() == t.Picks()
      ensures result == if o.Answer? then Some(Response(o.status, o.body, worker)) else None
      ensures !o.Answer? ==> err == FailureOf(o)
    {
      result, err, t' := None, "", t;
      match o {
        case BuildFailed(e) =>
          err := "build upstream request: " + e;
        case ProxyFailed(e) =>
          t' := MarkFailure(worker, "proxy transport: " + e, KCooldown, t');
          err := "build proxy transport: " + e;
        case TransportFailed(e) =>
          t' := MarkFailure(worker, e, KCooldown, t');
          err := "upstream request failed: " + e;
        case Answer(status, body) =>
          if status == 429 {
            var kind := if IsFreeUsageLimit(body) then KBan(BAN_DURATION) else KCooldown;
            t' := MarkFailure(worker, RateLimitMessage(body), kind, t');
          }
          result := Some(Response(status, body, worker));
      }
      TwoMarks(worker, Kinds(o));
    }

    /** One round of the loop after its pick: the attempt, then the marks of its answer. */
    method Round(id: string, o: Outcome, ghost t: Trail)
      returns (result: Option<Response>, err: string, stop: bool, ghost t': Trail)
      requires On(t)
      modifies rot.workers
      ensures On(t') && t'.start == t.start
      ensures t'.Calls() == t.Calls() + CMarks(id, Kinds(o)) && t'.Picks() == t.Picks()
      ensures result == if o.Answer? then Some(Response(o.status, o.body, id)) else None
      ensures !o.Answer? ==> err == FailureOf(o)
      ensures stop <==> o.Final()
    {
      result, err, t' := AttemptOne(id, o, t);
      if result.None? {
        return result, err, false, t';
      }
      var status := result.value.status;
      if 200 <= status < 400 {
        t' := Mark(id, KSuccess, t');
        assert CMarks(id, Kinds(o)) == [CMark(id, KSuccess)];
        return result, err, true, t';
      } else if status == 429 {
        return result, err, false, t';
      } else if status >= 500 {
        t' := Mark(id, KCooldown, t');
        assert CMarks(id, Kinds(o)) == [CMark(id, KCooldown)];
        return result, err, false, t';
      } else {
        return result, err, true, t';
      }
    }

    /** Relays one request; the i-th attempt, if there is one, meets upstream[i]. */
    method Forward(upstream: seq<Outcome>)
      returns (final: Final, ghost hist: seq<Attempt>, ghost t: Trail)
      requires rot.Valid() && |upstream| == MAX_WORKER_ATTEMPTS
      modifies rot, rot.workers
      ensures On(t) && t.start == old(rot.View())
      ensures Served(hist, t.Calls(), t.Picks()) && Met(hist, upstream)
      ensures final == ResultOf(hist)
    {
      hide Calls, CMarks, Kinds, FailureOf, CallsBy, PicksBy, OpsOf, Run, On;
      hide LastAnswer, LastFailure, Workers, Tried, Unfinished, Met;
      StartsOn();
      t, hist := Trail(rot.View(), []), [];
      var tried: set<string> := {};
      var lastResult: Option<Response> := None;
      var lastErr: Option<string> := None;
      for attempt := 0 to MAX_WORKER_ATTEMPTS
        invariant On(t) && t.start == old(rot.View()) && rot.workers == old(rot.workers)
        invariant |hist| == attempt && Unfinished(hist) && tried == Tried(hist) && Met(hist, upstream)
        invariant t.Calls() == Calls(hist) && t.Picks() == Workers(hist)
        invariant lastResult == LastAnswer(hist) && lastErr == LastFailure(hist)
      {
        var worker;
        worker, t := Pick(tried, t);
        if worker == null {
          return Surface(lastResult, lastErr), hist, t;
        }
        var id := worker.id;
        tried := tried + {id};
        AttemptGrows(hist, Attempt(id, upstream[attempt]), upstream);
        hist := hist + [Attempt(id, upstream[attempt])];
        var result, err, stop;
        result, err, stop, t := Round(id, upstream[attempt], t);
        if result.None? {
          lastErr := Some(err);
        } else {
          lastResult := result;
          if stop {
            return Ok(result.value), hist, t;
          }
        }
      }
      UnfinishedBefore(hist);
      return Surface(lastResult, lastErr), hist, t;
    }
  }

  lemma {:induction false} UnfinishedBefore(hist: seq<Attempt>)
    requires hist != [] && Unfinished(hist)
    ensures Unfinished(Init(hist))
  {
  }

  lemma {:induction false} TwoMarks(worker: string, kinds: seq<Kind>)
    ensures |kinds| == 2 ==> CMarks(worker, kinds) == [CMark(worker, kinds[0]), CMark(worker, kinds[1])]
    ensures kinds == [] ==> CMarks(worker, kinds) == []
  {
  }

  /** The attempts met the given upstream outcomes in order. */
  predicate Met(hist: seq<Attempt>, upstream: seq<Outcome>) {
    |hist| <= |upstream| && forall i :: 0 <= i < |hist| ==> hist[i].outcome == upstream[i]
  }

  lemma {:induction false} AttemptGrows(hist: seq<Attempt>, a: Attempt, upstream: seq<Outcome>)
    requires Met(hist, upstream) && |hist| < |upstream| && a.outcome == upstream[|hist|]
    ensures var hist' := hist + [a];
            && Met(hist', upstream) && Init(hist') == hist && Last(hist') == a
            && Calls(hist') == Calls(hist) + [CPick(Tried(hist))] + CMarks(a.worker, Kinds(a.outcome))
            && Tried(hist') == Tried(hist) + {a.worker}
            && Workers(hist') == Workers(hist) + [Some(a.worker)]
            && LastAnswer(hist') == (if a.outcome.Answer? then Some(ResponseOf(a)) else LastAnswer(hist))
            && LastFailure(hist') == (if a.outcome.Answer? then LastFailure(hist) else Some(FailureOf(a.outcome)))
            && (Unfinished(hist) && !a.outcome.Final() ==> Unfinished(hist'))
  {
    HistGrows(hist, a);
    TriedGrows(hist, a);
  }
}
