/** One forwarded request: up to three attempts, each on a worker the rotator
    picks, each answered by an arbitrary upstream outcome. */
module Relay {
  import opened Common
  import opened Scheduler
  import opened History

  const MAX_WORKER_ATTEMPTS := 3

  /** What the upstream, or the way to it, does with one attempt. */
  datatype Outcome =
    | BuildFailed(error: string)
    | ProxyFailed(error: string)
    | TransportFailed(error: string)
    | Answer(status: int, body: string)
  {
    /** An answer no other worker would improve on. */
    predicate Final() {
      Answer? && status != 429 && status < 500
    }
  }

  datatype Response = Response(status: int, body: string, workerId: string)

  datatype Final = Ok(response: Response) | Failed(error: string) | NoWorker

  predicate Contains(s: string, t: string) {
    t <= s || (s != [] && Contains(s[1..], t))
  }

  predicate IsFreeUsageLimit(body: string) {
    Contains(body, "FreeUsageLimitError")
  }

  function Truncate(s: string, n: nat): string {
    if |s| <= n then s else s[..n] + "\U{2026}"
  }

  function RateLimitMessage(body: string): string {
    "bad response status code 429, message: " + Truncate(body, 300)
  }

  /** A rotator call without its clock readings. */
  datatype Kind = KSuccess | KCooldown | KBan(dur: Time) | KError(message: string)

  datatype Call = CPick(exclude: set<string>) | CMark(id: string, kind: Kind) | CSync(specs: seq<Spec>)

  function KindOf(m: Mark): Kind {
    match m
    case Success => KSuccess
    case Cooldown(_) => KCooldown
    case Ban(dur, _, _) => KBan(dur)
    case Error(message, _) => KError(message)
  }

  function CallOf(op: Op): Call {
    match op
    case PickOp(_, exclude) => CPick(exclude)
    case MarkOp(id, m) => CMark(id, KindOf(m))
    case SyncOp(specs) => CSync(specs)
  }

  /** The marks an attempt with this outcome issues, in order. */
  function Kinds(o: Outcome): (ks: seq<Kind>)
    ensures |ks| <= 2
  {
    match o
    case BuildFailed(_) => []
    case ProxyFailed(e) => [KError("proxy transport: " + e), KCooldown]
    case TransportFailed(e) => [KError(e), KCooldown]
    case Answer(status, body) =>
      if status == 429 then
        [KError(RateLimitMessage(body)), if IsFreeUsageLimit(body) then KBan(BAN_DURATION) else KCooldown]
      else if 200 <= status < 400 then [KSuccess]
      else if status >= 500 then [KCooldown]
      else []
  }

  function FailureOf(o: Outcome): string
    requires !o.Answer?
  {
    match o
    case BuildFailed(e) => "build upstream request: " + e
    case ProxyFailed(e) => "build proxy transport: " + e
    case TransportFailed(e) => "upstream request failed: " + e
  }

  // ---- the attempts of one request, and what they must have called ----

  datatype Attempt = Attempt(worker: string, outcome: Outcome)

  function Tried(hist: seq<Attempt>): set<string> {
    set i | 0 <= i < |hist| :: hist[i].worker
  }

  function CMarks(id: string, kinds: seq<Kind>): seq<Call> {
    seq(|kinds|, i requires 0 <= i < |kinds| => CMark(id, kinds[i]))
  }

  function Calls(hist: seq<Attempt>): seq<Call> {
    if hist == [] then []
    else Calls(Init(hist)) + [CPick(Tried(Init(hist)))] + CMarks(Last(hist).worker, Kinds(Last(hist).outcome))
  }

  function Workers(hist: seq<Attempt>): seq<Option<string>> {
    seq(|hist|, i requires 0 <= i < |hist| => Some(hist[i].worker))
  }

  predicate Unfinished(hist: seq<Attempt>) {
    forall i :: 0 <= i < |hist| ==> !hist[i].outcome.Final()
  }

  function ResponseOf(a: Attempt): Response
    requires a.outcome.Answer?
  {
    Response(a.outcome.status, a.outcome.body, a.worker)
  }

  function LastAnswer(hist: seq<Attempt>): Option<Response> {
    if hist == [] then None
    else if Last(hist).outcome.Answer? then Some(ResponseOf(Last(hist)))
    else LastAnswer(Init(hist))
  }

  function LastFailure(hist: seq<Attempt>): Option<string> {
    if hist == [] then None
    else if !Last(hist).outcome.Answer? then Some(FailureOf(Last(hist).outcome))
    else LastFailure(Init(hist))
  }

  /** What is surfaced when no attempt gave a final answer. */
  function Surface(lastResult: Option<Response>, lastErr: Option<string>): Final {
    if lastResult.Some? then Ok(lastResult.value)
    else if lastErr.Some? then Failed(lastErr.value)
    else NoWorker
  }

  function ResultOf(hist: seq<Attempt>): Final {
    Surface(LastAnswer(hist), LastFailure(hist))
  }

  /** A complete request: it stopped at a final answer, after three attempts, or
      because a pick found no worker; and the calls it made are those its attempts
      account for, each attempt running on the worker its pick returned. */
  predicate Served(hist: seq<Attempt>, calls: seq<Call>, picks: seq<Option<string>>) {
    && |hist| <= MAX_WORKER_ATTEMPTS
    && (|| (&& hist != [] && Unfinished(Init(hist))
            && (Last(hist).outcome.Final() || |hist| == MAX_WORKER_ATTEMPTS)
            && calls == Calls(hist) && picks == Workers(hist))
        || (&& |hist| < MAX_WORKER_ATTEMPTS && Unfinished(hist)
            && calls == Calls(hist) + [CPick(Tried(hist))] && picks == Workers(hist) + [None]))
  }

  lemma {:induction false} LastAnswerMeaning(hist: seq<Attempt>)
    ensures match LastAnswer(hist)
            case None => forall j :: 0 <= j < |hist| ==> !hist[j].outcome.Answer?
            case Some(resp) =>
              exists i :: && 0 <= i < |hist| && hist[i].outcome.Answer? && resp == ResponseOf(hist[i])
                          && forall j :: i < j < |hist| ==> !hist[j].outcome.Answer?
  {
    hide ResponseOf;
    if hist != [] && !Last(hist).outcome.Answer? {
      LastAnswerMeaning(Init(hist));
      if LastAnswer(hist).Some? {
        var i :| && 0 <= i < |Init(hist)| && Init(hist)[i].outcome.Answer?
                 && LastAnswer(hist).value == ResponseOf(Init(hist)[i])
                 && forall j :: i < j < |Init(hist)| ==> !Init(hist)[j].outcome.Answer?;
        assert hist[i] == Init(hist)[i];
        assert forall j :: i < j < |Init(hist)| ==> hist[j] == Init(hist)[j];
      }
    } else if hist != [] {
      assert hist[|hist| - 1].outcome.Answer?;
    }
  }

  /** The result of a served request: the first final answer if there is one, else
      the latest answer even when later attempts failed on the way, else the latest
      failure; and no worker exactly when nothing was attempted. */
  lemma {:induction false} ResultMeaning(hist: seq<Attempt>, calls: seq<Call>, picks: seq<Option<string>>)
    requires Served(hist, calls, picks)
    ensures ResultOf(hist).NoWorker? <==> hist == []
    ensures ResultOf(hist).Failed? <==> hist != [] && forall j :: 0 <= j < |hist| ==> !hist[j].outcome.Answer?
    ensures ResultOf(hist).Failed? ==> ResultOf(hist).error == FailureOf(Last(hist).outcome)
    ensures ResultOf(hist).Ok? ==>
      exists i :: && 0 <= i < |hist| && hist[i].outcome.Answer? && ResultOf(hist).response == ResponseOf(hist[i])
                  && (hist[i].outcome.Final() || Unfinished(hist))
                  && forall j :: i < j < |hist| ==> !hist[j].outcome.Answer?
    ensures forall i :: 0 <= i < |hist| && hist[i].outcome.Final() ==>
      ResultOf(hist) == Ok(ResponseOf(hist[i])) && i == |hist| - 1
  {
    LastAnswerMeaning(hist);
    if hist != [] {
      assert forall i :: 0 <= i < |hist| - 1 ==> hist[i] == Init(hist)[i];
    }
  }

  /** The same in plain terms, with the constants spelled out: at most three attempts; the
      first answer that is neither 429 nor 5xx is returned and ends the request; a request
      that stops short of three attempts without one had a pick that found no worker. */
  lemma {:induction false} ServedInPlainTerms(hist: seq<Attempt>, calls: seq<Call>, picks: seq<Option<string>>)
    requires Served(hist, calls, picks)
    ensures |hist| <= 3
    ensures forall i :: 0 <= i < |hist| && hist[i].outcome.Answer? && hist[i].outcome.status != 429
                        && hist[i].outcome.status < 500 ==>
              i == |hist| - 1 &&
              ResultOf(hist) == Ok(Response(hist[i].outcome.status, hist[i].outcome.body, hist[i].worker))
    ensures |hist| < 3 && (hist == [] || !Last(hist).outcome.Answer? || Last(hist).outcome.status == 429
                           || Last(hist).outcome.status >= 500) ==>
              |picks| == |hist| + 1 && Last(picks) == None
    ensures ResultOf(hist).Failed? ==>
              && hist != [] && !Last(hist).outcome.Answer?
              && var o := Last(hist).outcome;
                 ResultOf(hist).error ==
                 (if o.BuildFailed? then "build upstream request: " + o.error
                  else if o.ProxyFailed? then "build proxy transport: " + o.error
                  else "upstream request failed: " + o.error)
  {
    hide Calls, Kinds;
    ResultMeaning(hist, calls, picks);
  }

  // ---- counting the marks ----

  predicate TouchesClocks(c: Call) {
    c.CMark? && !c.kind.KError?
  }

  function ClockMarks(calls: seq<Call>): nat {
    if calls == [] then 0 else ClockMarks(Init(calls)) + (if TouchesClocks(Last(calls)) then 1 else 0)
  }

  /** An attempt that gives up before it is sent, or returns at once on another
      status (a 4xx that is not 429, or one below 200), is not marked. */
  predicate Marked(o: Outcome) {
    match o
    case BuildFailed(_) => false
    case ProxyFailed(_) => true
    case TransportFailed(_) => true
    case Answer(status, _) => status == 429 || 200 <= status < 400 || status >= 500
  }

  function MarkedAttempts(hist: seq<Attempt>): nat {
    if hist == [] then 0 else MarkedAttempts(Init(hist)) + (if Marked(Last(hist).outcome) then 1 else 0)
  }

  lemma {:induction false} ClockMarksAppend(a: seq<Call>, b: seq<Call>)
    ensures ClockMarks(a + b) == ClockMarks(a) + ClockMarks(b)
  {
    if b == [] {
      assert a + b == a;
    } else {
      assert Init(a + b) == a + Init(b);
      ClockMarksAppend(a, Init(b));
    }
  }

  lemma {:induction false} OneClockMarkEach(id: string, o: Outcome)
    ensures ClockMarks(CMarks(id, Kinds(o))) == if Marked(o) then 1 else 0
  {
    var calls := CMarks(id, Kinds(o));
    forall c ensures ClockMarks([c]) == if TouchesClocks(c) then 1 else 0 {
      assert Init([c]) == [];
    }
    if |calls| == 1 {
      assert calls == [calls[0]];
    } else if |calls| == 2 {
      assert calls == [calls[0]] + [calls[1]];
      ClockMarksAppend([calls[0]], [calls[1]]);
    }
  }

  /** Every attempt issues exactly one of success, cooldown and ban, except the
      attempts that issue none. */
  lemma {:induction false} OneClockMarkPerAttempt(hist: seq<Attempt>)
    ensures ClockMarks(Calls(hist)) == MarkedAttempts(hist) <= |hist|
  {
    if hist != [] {
      OneClockMarkPerAttempt(Init(hist));
      var pick := [CPick(Tried(Init(hist)))];
      var marks := CMarks(Last(hist).worker, Kinds(Last(hist).outcome));
      OneClockMarkEach(Last(hist).worker, Last(hist).outcome);
      ClockMarksAppend(Calls(Init(hist)) + pick, marks);
      ClockMarksAppend(Calls(Init(hist)), pick);
      assert Init(pick) == [];
    }
  }

  lemma {:induction false} ContainsMeaning(s: string, t: string)
    ensures Contains(s, t) <==> exists k :: 0 <= k <= |s| && t <= s[k..]
  {
    assert s[0..] == s;
    if s != [] {
      ContainsMeaning(s[1..], t);
      forall k | 0 <= k < |s|
        ensures s[1..][k..] == s[k + 1..]
      {
      }
      if k :| 0 <= k <= |s[1..]| && t <= s[1..][k..] {
        assert t <= s[k + 1..];
      }
      if k :| 0 < k <= |s| && t <= s[k..] {
        assert t <= s[1..][k - 1..];
      }
    }
  }

  /** The text that tells a used-up free quota from other rate limits stands in the body. */
  ghost predicate QuotaUsedUp(body: string) {
    exists k :: 0 <= k <= |body| && "FreeUsageLimitError" <= body[k..]
  }

  lemma {:induction false} FreeUsageLimitMeaning(body: string)
    ensures IsFreeUsageLimit(body) <==> QuotaUsedUp(body)
  {
    ContainsMeaning(body, "FreeUsageLimitError");
  }

  /** What an attempt has to meet for a mark on its worker. */
  ghost predicate Earned(o: Outcome, kind: Kind) {
    match kind
    case KSuccess => o.Answer? && 200 <= o.status < 400
    case KBan(dur) => o.Answer? && o.status == 429 && QuotaUsedUp(o.body) && dur == 86_400_000_000_000
    case KCooldown =>
      o.ProxyFailed? || o.TransportFailed? ||
      (o.Answer? && (o.status >= 500 || (o.status == 429 && !QuotaUsedUp(o.body))))
    case KError(message) =>
      match o
      case BuildFailed(_) => false
      case ProxyFailed(e) => message == "proxy transport: " + e
      case TransportFailed(e) => message == e
      case Answer(status, body) =>
        status == 429 && message == "bad response status code 429, message: "
                                    + (if |body| <= 300 then body else body[..300] + "\U{2026}")
  }

  /** Each mark is issued once, and a message before the mark that moves a clock. */
  lemma {:induction false} KindsAreEarned(o: Outcome, kind: Kind)
    ensures kind in Kinds(o) <==> Earned(o, kind)
    ensures forall i :: 0 <= i < |Kinds(o)| ==> (Kinds(o)[i].KError? <==> i == 0 && |Kinds(o)| == 2)
  {
    if o.Answer? {
      FreeUsageLimitMeaning(o.body);
    }
    hide IsFreeUsageLimit, QuotaUsedUp;
  }

  /** A rate limit in plain terms: an answer 429 is marked with its message, then with the
      ban of 24 hours if the body has the text, and else with a cooldown. */
  lemma {:induction false} RateLimitMarks(body: string)
    ensures var ks := Kinds(Answer(429, body));
            && |ks| == 2 && ks[0].KError?
            && (ks[1] == KBan(86_400_000_000_000) <==>
                  exists k :: 0 <= k <= |body| && "FreeUsageLimitError" <= body[k..])
            && (ks[1] != KBan(86_400_000_000_000) ==> ks[1] == KCooldown)
  {
    FreeUsageLimitMeaning(body);
    hide IsFreeUsageLimit;
  }

  lemma {:induction false} CallsHaveMark(hist: seq<Attempt>, id: string, kind: Kind)
    requires hist != []
    ensures CMark(id, kind) in Calls(hist) <==>
            CMark(id, kind) in Calls(Init(hist)) || (Last(hist).worker == id && kind in Kinds(Last(hist).outcome))
  {
    hide Kinds, Tried;
    var marks := CMarks(Last(hist).worker, Kinds(Last(hist).outcome));
    assert CMark(id, kind) in marks <==> (Last(hist).worker == id && kind in Kinds(Last(hist).outcome)) by {
      if kind in Kinds(Last(hist).outcome) && Last(hist).worker == id {
        var i :| 0 <= i < |Kinds(Last(hist).outcome)| && Kinds(Last(hist).outcome)[i] == kind;
        assert marks[i] == CMark(id, kind);
      }
    }
  }

  /** A request marks a worker exactly when one of its attempts on that worker met what
      earns the mark: in particular a ban means that the worker answered 429 with the text
      of a used-up free quota in the body. */
  lemma {:induction false} MarkedIffEarned(hist: seq<Attempt>, id: string, kind: Kind)
    ensures CMark(id, kind) in Calls(hist) <==>
            exists i :: 0 <= i < |hist| && hist[i].worker == id && Earned(hist[i].outcome, kind)
  {
    hide Kinds, Earned;
    if hist != [] {
      MarkedIffEarned(Init(hist), id, kind);
      CallsHaveMark(hist, id, kind);
      KindsAreEarned(Last(hist).outcome, kind);
      assert forall i :: 0 <= i < |hist| - 1 ==> hist[i] == Init(hist)[i];
    }
  }

  // ---- logs ----

  /** One locked section, and the request that entered it (none for the admin side). */
  datatype Entry = Entry(who: Option<nat>, op: Op)

  function OpsOf(log: seq<Entry>): (ops: seq<Op>)
    ensures |ops| == |log| && forall i :: 0 <= i < |log| ==> ops[i] == log[i].op
  {
    seq(|log|, i requires 0 <= i < |log| => log[i].op)
  }

  function CallsBy(log: seq<Entry>, k: nat): seq<Call> {
    if log == [] then []
    else CallsBy(Init(log), k) + (if Last(log).who == Some(k) then [CallOf(Last(log).op)] else [])
  }

  /** The worker id a pick returns. */
  function PickedId(r: Rot, op: Op): Option<string>
    requires op.PickOp?
  {
    match Pick(r, op.now, op.exclude).1
    case None => None
    case Some(i) => if i < |r.workers| then Some(r.workers[i].spec.id) else None
  }

  /** What the picks of request k returned, in order. */
  function PicksBy(r: Rot, log: seq<Entry>, k: nat): seq<Option<string>> {
    if log == [] then []
    else PicksBy(r, Init(log), k) +
         (if Last(log).who == Some(k) && Last(log).op.PickOp? then [PickedId(Run(r, OpsOf(Init(log))), Last(log).op)]
          else [])
  }

  lemma {:induction false} LogGrows(r: Rot, log: seq<Entry>, e: Entry)
    ensures Run(r, OpsOf(log + [e])) == Apply(Run(r, OpsOf(log)), e.op)
  {
    assert OpsOf(log + [e])[..|log|] == OpsOf(log);
  }

  lemma {:induction false} LogGrowsFor(r: Rot, log: seq<Entry>, e: Entry, k: nat)
    ensures CallsBy(log + [e], k) == CallsBy(log, k) + (if e.who == Some(k) then [CallOf(e.op)] else [])
    ensures PicksBy(r, log + [e], k) ==
            PicksBy(r, log, k) +
            (if e.who == Some(k) && e.op.PickOp? then [PickedId(Run(r, OpsOf(log)), e.op)] else [])
  {
    assert Init(log + [e]) == log;
  }

  lemma {:induction false} TriedGrows(hist: seq<Attempt>, a: Attempt)
    ensures Tried(hist + [a]) == Tried(hist) + {a.worker}
  {
    forall i | 0 <= i < |hist| ensures hist[i].worker in Tried(hist + [a]) {
      assert (hist + [a])[i] == hist[i];
    }
    assert (hist + [a])[|hist|] == a;
  }

  lemma {:induction false} HistGrows(hist: seq<Attempt>, a: Attempt)
    ensures Init(hist + [a]) == hist && Last(hist + [a]) == a
    ensures Calls(hist + [a]) == Calls(hist) + [CPick(Tried(hist))] + CMarks(a.worker, Kinds(a.outcome))
    ensures Workers(hist + [a]) == Workers(hist) + [Some(a.worker)]
    ensures LastAnswer(hist + [a]) == if a.outcome.Answer? then Some(ResponseOf(a)) else LastAnswer(hist)
    ensures LastFailure(hist + [a]) == if a.outcome.Answer? then LastFailure(hist) else Some(FailureOf(a.outcome))
  {
    assert Init(hist + [a]) == hist;
  }
}
