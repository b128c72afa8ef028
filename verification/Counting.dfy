/** What every counter of the store and of the dashboard counts, told event by event. */
module Counting {
  import opened Common
  import opened Sse
  import opened Stats
  import opened Dashboard

  datatype Counter =
    | Requests | Successes | Errors | Chats | ModelLists
    | PromptTokens | CompletionTokens | TotalTokens | CacheReadTokens | CacheWriteTokens

  function Field(r: Row, c: Counter): int {
    match c
    case Requests => r.requests
    case Successes => r.successes
    case Errors => r.errors
    case Chats => r.chats
    case ModelLists => r.models
    case PromptTokens => r.tokens.promptTokens
    case CompletionTokens => r.tokens.completionTokens
    case TotalTokens => r.tokens.totalTokens
    case CacheReadTokens => r.tokens.cacheReadTokens
    case CacheWriteTokens => r.tokens.cacheWriteTokens
  }

  /** What an event adds to a counter: 1 for a request the counter is about, or the number
      of tokens reported under its name. */
  function Adds(e: Event, c: Counter): int {
    match e
    case Recorded(_, kind, status) =>
      (match c
       case Requests => 1
       case Successes => if 200 <= status < 400 then 1 else 0
       case Errors => if status < 200 || 400 <= status then 1 else 0
       case Chats => if kind == Chat then 1 else 0
       case ModelLists => if kind == Models then 1 else 0
       case _ => 0)
    case Used(_, usage) =>
      (match c
       case PromptTokens => usage.promptTokens
       case CompletionTokens => usage.completionTokens
       case TotalTokens => usage.totalTokens
       case CacheReadTokens => usage.cacheReadTokens
       case CacheWriteTokens => usage.cacheWriteTokens
       case _ => 0)
    case Reset => 0
  }

  /** The events that count for one account; nameless ones count for "unknown". */
  predicate CountsFor(e: Event, id: string) {
    !e.Reset? && (if e.account == "" then id == "unknown" else id == e.account)
  }

  /** The sum over one account's events since the last reset. */
  function OfAccount(events: seq<Event>, id: string, c: Counter): int {
    if events == [] || Last(events).Reset? then 0
    else OfAccount(Init(events), id, c) + (if CountsFor(Last(events), id) then Adds(Last(events), c) else 0)
  }

  /** The sum over all events since the last reset. */
  function OfAll(events: seq<Event>, c: Counter): int {
    if events == [] || Last(events).Reset? then 0 else OfAll(Init(events), c) + Adds(Last(events), c)
  }

  lemma {:induction false} DeltaAdds(e: Event, c: Counter)
    ensures Field(Delta(e), c) == Adds(e, c)
  {
  }

  lemma {:induction false} FieldOfSum(a: Row, b: Row, c: Counter)
    ensures Field(Plus(a, b), c) == Field(a, c) + Field(b, c)
    ensures Field(Wrap(a), c) == Int64(Field(a, c))
    ensures Field(ZERO, c) == 0
  {
    hide Int64;
  }

  lemma {:induction false} TallyCounts(events: seq<Event>, id: string, c: Counter)
    ensures Field(Tally(map[], events, id), c) == OfAccount(events, id, c)
  {
    hide Delta, Plus, Field, Adds;
    FieldOfSum(ZERO, ZERO, c);
    if events != [] && !Last(events).Reset? {
      TallyCounts(Init(events), id, c);
      DeltaAdds(Last(events), c);
      FieldOfSum(Tally(map[], Init(events), id), Delta(Last(events)), c);
    }
  }

  lemma {:induction false} TotalAdds(events: seq<Event>, c: Counter)
    ensures Field(Total(ZERO, events), c) == OfAll(events, c)
  {
    hide Delta, Plus, Field, Adds;
    FieldOfSum(ZERO, ZERO, c);
    if events != [] && !Last(events).Reset? {
      TotalAdds(Init(events), c);
      DeltaAdds(Last(events), c);
      FieldOfSum(Total(ZERO, Init(events)), Delta(Last(events)), c);
    }
  }

  /** After every history from an empty store, every counter of every account's row is the
      64-bit image of the sum over the account's own events since the last reset; an account
      without a row has none. */
  lemma {:induction false} RowCounts(events: seq<Event>, id: string, c: Counter)
    ensures id in Run(map[], events) ==> Field(Run(map[], events)[id], c) == Int64(OfAccount(events, id, c))
    ensures id !in Run(map[], events) ==> OfAccount(events, id, c) == 0
  {
    hide Run, Tally, Wrap, Field, OfAccount, Int64;
    RowIsTally(map[], events, id);
    TallyCounts(events, id, c);
    FieldOfSum(Tally(map[], events, id), ZERO, c);
    FieldOfSum(ZERO, ZERO, c);
  }

  /** Over distinct live workers, every counter of the overall row is the 64-bit image of the
      sum over all events since the last reset. */
  lemma {:induction false} OverallCounts(events: seq<Event>, live: seq<string>, recorded: seq<string>, c: Counter)
    requires NoDuplicates(live) && Enumerates(recorded, Run(map[], events))
    ensures Field(Overall(Run(map[], events), StatusIds(live, recorded)), c) == Int64(OfAll(events, c))
  {
    hide Run, Overall, Total, Wrap, Field, OfAll, Int64, StatusIds, Surplus;
    OverallConserved(events, live, recorded);
    TotalAdds(events, c);
    FieldOfSum(Total(ZERO, events), ZERO, c);
  }

  /** A sum that fits 64 bits is shown as it is; any other goes round by multiples of 2^64. */
  lemma {:induction false} Int64Meaning(x: int) returns (turns: int)
    ensures -0x8000_0000_0000_0000 <= Int64(x) < 0x8000_0000_0000_0000
    ensures Int64(x) == x + turns * 0x1_0000_0000_0000_0000
    ensures -0x8000_0000_0000_0000 <= x < 0x8000_0000_0000_0000 ==> Int64(x) == x
    decreases if x < 0 then -x - 1 else x
  {
    turns := 0;
    if x >= 0x8000_0000_0000_0000 {
      turns := Int64Meaning(x - 0x1_0000_0000_0000_0000);
      turns := turns - 1;
    } else if x < -0x8000_0000_0000_0000 {
      turns := Int64Meaning(x + 0x1_0000_0000_0000_0000);
      turns := turns + 1;
    }
  }

  /** How a usage object of a payload is reported: prompt and input tokens together as
      prompt tokens, completion and output tokens as completion tokens, both names of cache
      reads as cache reads; total and cache writes as they are. */
  lemma {:induction false} UsageReported(account: string, u: JsonUsage)
    ensures var e := Used(account, ToTokenUsage(u));
            && Adds(e, PromptTokens) == Int64(u.promptTokens + u.inputTokens)
            && Adds(e, CompletionTokens) == Int64(u.completionTokens + u.outputTokens)
            && Adds(e, TotalTokens) == u.totalTokens
            && Adds(e, CacheReadTokens) == Int64(u.cacheReadTokens + u.promptCacheHit)
            && Adds(e, CacheWriteTokens) == u.cacheWriteTokens
            && Adds(e, Requests) == 0
  {
  }
}
