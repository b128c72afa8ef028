/** What one passed-through response adds to the usage counters, and what of its body
    the client gets. */
module Accounting {
  import opened Common
  import opened Sse
  import opened Stats
  import opened Dashboard

  const BODY_LIMIT: nat := 33_554_432

  /** A response as the relay hands it over. Whether its content type is that of an event
      stream, or JSON, is read off a header; the body arrives in chunks, after which the
      connection ends cleanly or breaks. */
  datatype Upstream = Upstream(worker: string, status: int, streaming: bool, json: bool,
                               chunks: seq<seq<byte>>, broken: bool)
  {
    function Body(): seq<byte> {
      Flatten(chunks)
    }

    predicate Success() {
      200 <= status < 300
    }

    /** A success that is not a stream is read up to the limit before it is passed on. */
    predicate Buffered() {
      Success() && !streaming
    }

    /** Reading it fails only if the connection breaks before the limit is reached. */
    predicate Readable() {
      |Body()| >= BODY_LIMIT || !broken
    }
  }

  function FirstBytes(s: seq<byte>, n: nat): seq<byte> {
    if |s| > n then s[..n] else s
  }

  const MODELS_SUFFIX := "/models"

  function KindOf(path: string): Kind {
    if |path| >= |MODELS_SUFFIX| && path[|path| - |MODELS_SUFFIX|..] == MODELS_SUFFIX then Models else Chat
  }

  /** The client is gone when chunk goneAt is to be written to it, if there is such a chunk. */
  predicate Lost(chunks: seq<seq<byte>>, goneAt: nat) {
    goneAt < |chunks| && chunks[goneAt] != []
  }

  /** The usage a response is charged with: of a stream, what the last megabyte shows of the
      part that was read before the client had gone; of a JSON body, what the part within
      the limit shows; of anything else, none. */
  function Charged(decode: Decoder, res: Upstream, goneAt: nat): Option<JsonUsage> {
    if !res.Success() then None
    else if res.streaming then Usage(decode, Tail(Flatten(res.chunks[..Observed(res.chunks, goneAt)]), WINDOW))
    else if res.Readable() && res.json then decode(FirstBytes(res.Body(), BODY_LIMIT))
    else None
  }

  /** What a response adds to the history of the store. */
  function EventsOf(decode: Decoder, path: string, res: Upstream, goneAt: nat): seq<Event> {
    [Recorded(res.worker, KindOf(path), res.status)]
    + match Charged(decode, res, goneAt) case None => [] case Some(u) => [Used(res.worker, ToTokenUsage(u))]
  }

  /** What reaches the client by writes that do not fail; a buffered body is one write. */
  function Passed(res: Upstream, goneAt: nat): seq<byte> {
    if res.Buffered() then (if res.Readable() && goneAt > 0 then FirstBytes(res.Body(), BODY_LIMIT) else [])
    else if Lost(res.chunks, goneAt) then Flatten(res.chunks[..goneAt])
    else res.Body()
  }

  /** Exactly when the client gets the bytes upstream sent: it does not go away before the
      last of them, and a success that is not a stream is no longer than the limit and does
      not break off after its first bytes. */
  lemma {:induction false} PassedWhole(res: Upstream, goneAt: nat)
    ensures Passed(res, goneAt) == res.Body() <==>
            if res.Buffered() then
              res.Body() == [] || (goneAt > 0 && |res.Body()| <= BODY_LIMIT && res.Readable())
            else !Lost(res.chunks, goneAt)
  {
    if Lost(res.chunks, goneAt) {
      FlattenNext(res.chunks, goneAt);
      FlattenPrefix(res.chunks, goneAt + 1);
    }
  }

  /** A stream whose client stays is charged with the usage of its whole body, if the last
      line with usage lies in the last megabyte. */
  lemma {:induction false} StreamCharged(decode: Decoder, res: Upstream, goneAt: nat, start: nat, end: nat)
    requires res.Success() && res.streaming && !Lost(res.chunks, goneAt)
    requires IsLastUsageLine(decode, res.Body(), start, end) && |res.Body()| <= start + WINDOW
    ensures Charged(decode, res, goneAt) == Usage(decode, res.Body()) == LineUsage(decode, res.Body()[start..end])
  {
    hide Usage, LineUsage, IsLastUsageLine;
    assert res.chunks[..|res.chunks|] == res.chunks;
    TailSuffices(decode, res.Body(), start, end);
  }

  /** What is charged, in plain terms: nothing outside 200 to 299; of a buffered JSON body of
      up to 32 MiB that arrives whole, the usage it decodes to; of a longer one, that of its
      first 32 MiB; of one that breaks off before, or is not JSON, nothing. */
  lemma {:induction false} ChargedMeaning(decode: Decoder, res: Upstream, goneAt: nat)
    ensures res.status < 200 || 300 <= res.status ==> Charged(decode, res, goneAt) == None
    ensures 200 <= res.status < 300 && !res.streaming ==>
              var body := Flatten(res.chunks);
              Charged(decode, res, goneAt) ==
              if !res.json || (res.broken && |body| < 33_554_432) then None
              else if |body| > 33_554_432 then decode(body[..33_554_432])
              else decode(body)
    ensures 200 <= res.status < 300 && res.streaming ==>
              Charged(decode, res, goneAt) == Usage(decode, Tail(SeenOf(res.chunks, goneAt), 1_048_576))
  {
    assert res.chunks[..|res.chunks|] == res.chunks;
  }

  /** What is read of a stream: all of it, or up to and with the chunk the client does not
      take any more. */
  function SeenOf(chunks: seq<seq<byte>>, goneAt: nat): seq<byte> {
    if goneAt < |chunks| && chunks[goneAt] != [] then Flatten(chunks[..goneAt + 1]) else Flatten(chunks)
  }

  /** What the client gets, in plain terms. */
  lemma {:induction false} PassedMeaning(res: Upstream, goneAt: nat)
    ensures var body := Flatten(res.chunks);
            200 <= res.status < 300 && !res.streaming ==>
              Passed(res, goneAt) ==
              if goneAt == 0 || (res.broken && |body| < 33_554_432) then []
              else if |body| > 33_554_432 then body[..33_554_432]
              else body
    ensures res.status < 200 || 300 <= res.status || res.streaming ==>
              Passed(res, goneAt) ==
              if goneAt < |res.chunks| && res.chunks[goneAt] != [] then Flatten(res.chunks[..goneAt])
              else Flatten(res.chunks)
  {
  }

  /** A request counts as a model list exactly if its path ends so. */
  lemma {:induction false} KindMeaning(path: string)
    ensures KindOf(path) == Models <==> exists prefix :: path == prefix + "/models"
    ensures KindOf(path) != Models ==> KindOf(path) == Chat
  {
    var n := |"/models"|;
    if KindOf(path) == Models {
      assert path == path[..|path| - n] + "/models";
    }
    if prefix :| path == prefix + "/models" {
      assert path[|path| - n..] == "/models";
    }
  }

  /** So every response adds one request to its worker's row, a success if its status is 200
      to 399, under the kind its path ends in. */
  lemma {:induction false} EventsMeaning(decode: Decoder, path: string, res: Upstream, goneAt: nat)
    ensures var es := EventsOf(decode, path, res, goneAt);
            && 1 <= |es| <= 2
            && es[0] == Recorded(res.worker, KindOf(path), res.status)
            && (|es| == 2 <==> Charged(decode, res, goneAt).Some?)
            && (|es| == 2 ==> es[1] == Used(res.worker, ToTokenUsage(Charged(decode, res, goneAt).value)))
  {
  }

  /** The three ways a body reaches the client, and the usage seen on the way. */
  method PassOn(res: Upstream, decode: Decoder, goneAt: nat) returns (written: seq<byte>, usage: Option<TokenUsage>)
    ensures written == Passed(res, goneAt)
    ensures usage == match Charged(decode, res, goneAt) case None => None case Some(u) => Some(ToTokenUsage(u))
  {
    hide Usage;
    if 200 <= res.status < 300 && res.streaming {
      var parser := new SseUsageParser();
      written := CopyResponseWithHook(res.chunks, goneAt, parser);
      assert goneAt + 1 == |res.chunks| && res.chunks[goneAt] == [] ==> written == res.Body() by {
        if goneAt + 1 == |res.chunks| && res.chunks[goneAt] == [] {
          assert Init(res.chunks) == res.chunks[..goneAt] && Last(res.chunks) == [];
        }
      }
      usage := parser.GetUsage(decode);
      return;
    }
    usage := None;
    if 200 <= res.status < 300 {
      var body, ok := ReadLimited(res.chunks, res.broken);
      if !ok {
        return [], None;
      }
      if res.json && decode(body).Some? {
        usage := Some(ToTokenUsage(decode(body).value));
      }
      return if goneAt > 0 then body else [], usage;
    }
    written := CopyResponse(res.chunks, goneAt);
  }

  /** The copy without an observer. */
  method CopyResponse(chunks: seq<seq<byte>>, goneAt: nat) returns (written: seq<byte>)
    ensures written == if Lost(chunks, goneAt) then Flatten(chunks[..goneAt]) else Flatten(chunks)
  {
    written := [];
    for i := 0 to |chunks|
      invariant goneAt < i ==> chunks[goneAt] == []
      invariant written == Flatten(chunks[..i])
    {
      if |chunks[i]| > 0 && i == goneAt {
        return;
      }
      FlattenNext(chunks, i);
      written := written + chunks[i];
    }
    assert chunks[..|chunks|] == chunks;
  }

  /** Reads chunks until they end or the limit is reached; what is over the limit is
      never asked for. */
  method ReadLimited(chunks: seq<seq<byte>>, broken: bool) returns (body: seq<byte>, ok: bool)
    ensures ok <==> |Flatten(chunks)| >= BODY_LIMIT || !broken
    ensures ok ==> body == FirstBytes(Flatten(chunks), BODY_LIMIT)
  {
    body := [];
    var i := 0;
    while i < |chunks| && |body| < BODY_LIMIT
      invariant 0 <= i <= |chunks| && body == FirstBytes(Flatten(chunks[..i]), BODY_LIMIT)
    {
      FlattenNext(chunks, i);
      var room := BODY_LIMIT - |body|;
      body := body + (if |chunks[i]| > room then chunks[i][..room] else chunks[i]);
      i := i + 1;
    }
    FlattenPrefix(chunks, i);
    assert i == |chunks| ==> chunks[..i] == chunks;
    TakePrefix(Flatten(chunks[..i]), Flatten(chunks));
    ok := |body| >= BODY_LIMIT || !broken;
  }

  lemma {:induction false} FlattenNext(chunks: seq<seq<byte>>, i: nat)
    requires i < |chunks|
    ensures Flatten(chunks[..i + 1]) == Flatten(chunks[..i]) + chunks[i]
  {
    assert Init(chunks[..i + 1]) == chunks[..i] && Last(chunks[..i + 1]) == chunks[i];
  }

  lemma {:induction false} FlattenPrefix(chunks: seq<seq<byte>>, i: nat)
    requires i <= |chunks|
    ensures Flatten(chunks[..i]) <= Flatten(chunks)
    decreases |chunks| - i
  {
    if i == |chunks| {
      assert chunks[..i] == chunks;
    } else {
      FlattenNext(chunks, i);
      FlattenPrefix(chunks, i + 1);
    }
  }

  lemma {:induction false} TakePrefix(p: seq<byte>, s: seq<byte>)
    requires p <= s && (|p| >= BODY_LIMIT || p == s)
    ensures FirstBytes(p, BODY_LIMIT) == FirstBytes(s, BODY_LIMIT)
  {
  }

  /** Accounts for a response and passes it on, to a client that may go away meanwhile. */
  method HandleV1(path: string, res: Upstream, decode: Decoder, store: Store, goneAt: nat) returns (written: seq<byte>)
    requires store.Valid()
    modifies store, store.stats.Values
    ensures store.Valid()
    ensures store.View() == Stats.Run(old(store.View()), EventsOf(decode, path, res, goneAt))
    ensures written == Passed(res, goneAt)
  {
    hide Stats.Apply, Charged;
    ghost var rows := store.View();
    ghost var first := Recorded(res.worker, KindOf(path), res.status);
    RunOne(rows, first);
    var kind := Chat;
    if |path| >= |MODELS_SUFFIX| && path[|path| - |MODELS_SUFFIX|..] == MODELS_SUFFIX {
      kind := Models;
    }
    store.RecordRequest(res.worker, kind, res.status);
    assert store.View() == Stats.Run(rows, [first]);
    var usage: Option<TokenUsage>;
    written, usage := PassOn(res, decode, goneAt);
    if usage.Some? {
      ghost var second := Used(res.worker, usage.value);
      RunNext(rows, [first], second);
      assert EventsOf(decode, path, res, goneAt) == [first] + [second];
      store.AddTokens(res.worker, usage.value);
    }
  }

  // ---- whole runs ----

  datatype Act = Handle(path: string, res: Upstream, goneAt: nat) | ResetStats

  function ActEvents(decode: Decoder, act: Act): seq<Event> {
    match act
    case Handle(path, res, goneAt) => EventsOf(decode, path, res, goneAt)
    case ResetStats => [Reset]
  }

  function History(decode: Decoder, acts: seq<Act>): seq<Event> {
    if acts == [] then [] else History(decode, Init(acts)) + ActEvents(decode, Last(acts))
  }

  /** How many responses were handled since the last reset. */
  function HandledSince(acts: seq<Act>): nat {
    if acts == [] || Last(acts).ResetStats? then 0 else HandledSince(Init(acts)) + 1
  }

  lemma {:induction false} EventGrows(events: seq<Event>, e: Event)
    requires KnownKinds(events) && KnownKind(e)
    ensures KnownKinds(events + [e])
    ensures Requests(events + [e]) == if e.Reset? then 0 else Requests(events) + One(e.Recorded?)
  {
    assert Init(events + [e]) == events && Last(events + [e]) == e;
  }

  lemma {:induction false} HistoryCounts(decode: Decoder, acts: seq<Act>)
    ensures KnownKinds(History(decode, acts)) && Requests(History(decode, acts)) == HandledSince(acts)
  {
    if acts != [] {
      HistoryCounts(decode, Init(acts));
      var before := History(decode, Init(acts));
      match Last(acts) {
        case ResetStats => EventGrows(before, Reset);
        case Handle(path, res, goneAt) =>
          var first := Recorded(res.worker, KindOf(path), res.status);
          EventGrows(before, first);
          match Charged(decode, res, goneAt) {
            case None => assert before + ([first] + []) == before + [first];
            case Some(u) =>
              var second := Used(res.worker, ToTokenUsage(u));
              EventGrows(before + [first], second);
              assert before + ([first] + [second]) == before + [first] + [second];
          }
      }
    }
  }

  /** While the numbers stay below 2^63 the dashboard shows the responses handled since the
      last reset, each once as a success or an error and once as chat or models, and no
      others: exactly if no live worker that served one is listed twice. */
  lemma {:induction false} DashboardCounts(decode: Decoder, acts: seq<Act>, live: seq<string>, recorded: seq<string>)
    requires var events := History(decode, acts);
             && HandledSince(acts) + Surplus(events, live).requests < 0x8000_0000_0000_0000
             && Enumerates(recorded, Stats.Run(map[], events))
    ensures var events := History(decode, acts);
            var o := Overall(Stats.Run(map[], events), StatusIds(live, recorded));
            && o.requests == o.successes + o.errors == o.chats + o.models
            && (o.requests == HandledSince(acts) <==> !RequestsRepeated(events, live))
            && (NoDuplicates(live) ==> o.requests == HandledSince(acts))
  {
    hide Stats.Run, Overall, Surplus, RequestsRepeated;
    HistoryCounts(decode, acts);
    OverallBalances(History(decode, acts), live, recorded);
    if NoDuplicates(live) {
      NoSurplus(History(decode, acts), live);
    }
  }
}
