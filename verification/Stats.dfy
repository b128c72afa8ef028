/** Usage counters per worker: what every history of requests, token reports and
    resets leaves in the store, and what the dashboard adds up from it. */
module Stats {
  import opened Common
  import opened Sse

  /** The counters of one worker, or what one event adds to them. */
  datatype Row = Row(requests: int, chats: int, models: int, successes: int, errors: int, tokens: TokenUsage)
  {
    /** Every request counts once by outcome and once by kind. */
    predicate Balanced() {
      requests == successes + errors == chats + models
    }

    /** Every counter holds a 64-bit value. */
    predicate InRange() {
      this == Wrap(this)
    }
  }

  const NO_TOKENS := TokenUsage(0, 0, 0, 0, 0)
  const ZERO := Row(0, 0, 0, 0, 0, NO_TOKENS)

  function PlusTokens(a: TokenUsage, b: TokenUsage): TokenUsage {
    TokenUsage(a.promptTokens + b.promptTokens, a.completionTokens + b.completionTokens,
               a.totalTokens + b.totalTokens, a.cacheReadTokens + b.cacheReadTokens,
               a.cacheWriteTokens + b.cacheWriteTokens)
  }

  function WrapTokens(a: TokenUsage): TokenUsage {
    TokenUsage(Int64(a.promptTokens), Int64(a.completionTokens), Int64(a.totalTokens),
               Int64(a.cacheReadTokens), Int64(a.cacheWriteTokens))
  }

  /** The exact sum of two rows. */
  function Plus(a: Row, b: Row): Row {
    Row(a.requests + b.requests, a.chats + b.chats, a.models + b.models,
        a.successes + b.successes, a.errors + b.errors, PlusTokens(a.tokens, b.tokens))
  }

  /** The 64-bit counters that represent a row of exact numbers. */
  function Wrap(a: Row): Row {
    Row(Int64(a.requests), Int64(a.chats), Int64(a.models), Int64(a.successes), Int64(a.errors),
        WrapTokens(a.tokens))
  }

  lemma {:induction false} TokensAbsorb(a: TokenUsage, b: TokenUsage)
    ensures WrapTokens(PlusTokens(WrapTokens(a), b)) == WrapTokens(PlusTokens(a, b))
  {
    Int64Absorbs(a.promptTokens, b.promptTokens);
    Int64Absorbs(a.completionTokens, b.completionTokens);
    Int64Absorbs(a.totalTokens, b.totalTokens);
    Int64Absorbs(a.cacheReadTokens, b.cacheReadTokens);
    Int64Absorbs(a.cacheWriteTokens, b.cacheWriteTokens);
  }

  /** Wrapping at every step of a sum comes to wrapping the exact sum once. */
  lemma {:induction false} WrapAbsorbs(a: Row, b: Row)
    ensures Wrap(Plus(Wrap(a), b)) == Wrap(Plus(a, b))
  {
    Int64Absorbs(a.requests, b.requests);
    Int64Absorbs(a.chats, b.chats);
    Int64Absorbs(a.models, b.models);
    Int64Absorbs(a.successes, b.successes);
    Int64Absorbs(a.errors, b.errors);
    TokensAbsorb(a.tokens, b.tokens);
  }

  lemma {:induction false} WrapAbsorbsBoth(a: Row, b: Row)
    ensures Wrap(Plus(Wrap(a), Wrap(b))) == Wrap(Plus(a, b))
  {
    WrapAbsorbs(a, Wrap(b));
    WrapAbsorbs(b, a);
    assert Plus(a, Wrap(b)) == Plus(Wrap(b), a) && Plus(a, b) == Plus(b, a);
  }

  lemma {:induction false} PlusSwap(a: Row, b: Row, c: Row)
    ensures Plus(Plus(a, b), c) == Plus(Plus(a, c), b)
    ensures Plus(a, Plus(b, c)) == Plus(Plus(a, b), c)
  {
  }

  lemma {:induction false} PlusZero(a: Row)
    ensures Plus(a, ZERO) == a == Plus(ZERO, a)
  {
  }

  lemma {:induction false} PlusBalanced(a: Row, b: Row)
    requires a.Balanced() && b.Balanced()
    ensures Plus(a, b).Balanced()
  {
  }

  lemma {:induction false} Int64Cancels(a: int, b: int)
    ensures Int64(a + b) == Int64(a) <==> Int64(b) == 0
  {
    Int64Absorbs(b, a);
    if Int64(a + b) == Int64(a) {
      Int64Absorbs(a + b, -a);
      Int64Absorbs(a, -a);
    }
  }

  lemma {:induction false} TokensCancel(a: TokenUsage, b: TokenUsage)
    ensures WrapTokens(PlusTokens(a, b)) == WrapTokens(a) <==> WrapTokens(b) == NO_TOKENS
  {
    hide Int64;
    Int64Cancels(a.promptTokens, b.promptTokens);
    Int64Cancels(a.completionTokens, b.completionTokens);
    Int64Cancels(a.totalTokens, b.totalTokens);
    Int64Cancels(a.cacheReadTokens, b.cacheReadTokens);
    Int64Cancels(a.cacheWriteTokens, b.cacheWriteTokens);
  }

  /** What is added to a row shows in it unless every counter goes round a whole number of times. */
  lemma {:induction false} WrapCancels(a: Row, b: Row)
    ensures Wrap(Plus(a, b)) == Wrap(a) <==> Wrap(b) == ZERO
  {
    hide Int64;
    Int64Cancels(a.requests, b.requests);
    Int64Cancels(a.chats, b.chats);
    Int64Cancels(a.models, b.models);
    Int64Cancels(a.successes, b.successes);
    Int64Cancels(a.errors, b.errors);
    TokensCancel(a.tokens, b.tokens);
  }

  // ---- the store as a value ----

  type Rows = map<string, Row>

  /** The counter a request goes to beside the common ones; Other goes to none. */
  datatype Kind = Chat | Models | Other(name: string)

  datatype Event =
    | Recorded(account: string, kind: Kind, status: int)
    | Used(account: string, usage: TokenUsage)
    | Reset

  /** The row an account counts in. */
  function AccountId(account: string): string {
    if account == "" then "unknown" else account
  }

  function One(b: bool): nat {
    if b then 1 else 0
  }

  predicate Succeeded(status: int) {
    200 <= status < 400
  }

  /** What an event adds to its account. */
  function Delta(e: Event): Row {
    match e
    case Recorded(_, kind, status) =>
      Row(1, One(kind.Chat?), One(kind.Models?), One(Succeeded(status)), One(!Succeeded(status)), NO_TOKENS)
    case Used(_, usage) => Row(0, 0, 0, 0, 0, usage)
    case Reset => ZERO
  }

  function Get(rows: Rows, id: string): Row {
    if id in rows then rows[id] else ZERO
  }

  function Apply(rows: Rows, e: Event): Rows {
    if e.Reset? then map[]
    else
      var id := AccountId(e.account);
      rows[id := Wrap(Plus(Get(rows, id), Delta(e)))]
  }

  function Run(rows: Rows, events: seq<Event>): Rows {
    if events == [] then rows else Apply(Run(rows, Init(events)), Last(events))
  }

  lemma {:induction false} RunOne(rows: Rows, e: Event)
    ensures Run(rows, [e]) == Apply(rows, e)
  {
    assert Init([e]) == [] && Last([e]) == e;
  }

  lemma {:induction false} RunNext(rows: Rows, events: seq<Event>, e: Event)
    ensures Run(rows, events + [e]) == Apply(Run(rows, events), e)
  {
    assert Init(events + [e]) == events && Last(events + [e]) == e;
  }

  /** What the dashboard adds up over the given ids; an id without a row adds nothing. */
  function Overall(rows: Rows, ids: seq<string>): Row {
    if ids == [] then ZERO
    else if Last(ids) in rows then Wrap(Plus(Overall(rows, Init(ids)), rows[Last(ids)]))
    else Overall(rows, Init(ids))
  }

  // ---- the exact numbers ----

  /** What happened to one account since the last reset, in exact numbers. */
  function Tally(start: Rows, events: seq<Event>, id: string): Row {
    if events == [] then Get(start, id)
    else if Last(events).Reset? then ZERO
    else if AccountId(Last(events).account) == id then Plus(Tally(start, Init(events), id), Delta(Last(events)))
    else Tally(start, Init(events), id)
  }

  /** What happened altogether since the last reset. */
  function Total(start: Row, events: seq<Event>): Row {
    if events == [] then start
    else if Last(events).Reset? then ZERO
    else Plus(Total(start, Init(events)), Delta(Last(events)))
  }

  /** How many requests were recorded since the last reset. */
  function Requests(events: seq<Event>): nat {
    if events == [] || Last(events).Reset? then 0
    else Requests(Init(events)) + One(Last(events).Recorded?)
  }

  ghost predicate RowsInRange(rows: Rows) {
    forall id :: id in rows ==> rows[id].InRange()
  }

  /** Every row is the 64-bit image of its account's exact numbers. */
  lemma {:induction false} RowIsTally(start: Rows, events: seq<Event>, id: string)
    requires RowsInRange(start)
    ensures Get(Run(start, events), id) == Wrap(Tally(start, events, id))
    ensures id !in Run(start, events) ==> Tally(start, events, id) == ZERO
  {
    if events == [] {
      if id in start {
        assert start[id].InRange();
      }
    } else if !Last(events).Reset? {
      RowIsTally(start, Init(events), id);
      if AccountId(Last(events).account) == id {
        WrapAbsorbs(Tally(start, Init(events), id), Delta(Last(events)));
      }
    }
  }

  predicate KnownKind(e: Event) {
    e.Recorded? ==> !e.kind.Other?
  }

  predicate KnownKinds(events: seq<Event>) {
    events == [] || (KnownKinds(Init(events)) && KnownKind(Last(events)))
  }

  lemma {:induction false} DeltaBalanced(e: Event)
    requires KnownKind(e)
    ensures Delta(e).Balanced() && Delta(e).requests == One(e.Recorded?)
  {
  }

  /** From an empty store, requests are successes and errors, and chats and models. */
  lemma {:induction false} RowsBalance(events: seq<Event>, id: string)
    requires KnownKinds(events)
    ensures Tally(map[], events, id).Balanced()
  {
    if events != [] && !Last(events).Reset? {
      RowsBalance(Init(events), id);
      if AccountId(Last(events).account) == id {
        DeltaBalanced(Last(events));
        PlusBalanced(Tally(map[], Init(events), id), Delta(Last(events)));
      }
    }
  }

  lemma {:induction false} TotalBalances(events: seq<Event>)
    requires KnownKinds(events)
    ensures Total(ZERO, events).Balanced()
  {
    if events != [] && !Last(events).Reset? {
      TotalBalances(Init(events));
      DeltaBalanced(Last(events));
      PlusBalanced(Total(ZERO, Init(events)), Delta(Last(events)));
    }
  }

  lemma {:induction false} TotalCounts(events: seq<Event>)
    ensures Total(ZERO, events).requests == Requests(events)
  {
    if events != [] && !Last(events).Reset? {
      TotalCounts(Init(events));
    }
  }

  // ---- the sum over accounts ----

  /** The exact numbers of the given ids, each counted as often as it is listed. */
  function Sum(start: Rows, events: seq<Event>, ids: seq<string>): Row {
    if ids == [] then ZERO
    else Plus(Sum(start, events, Init(ids)), Tally(start, events, Last(ids)))
  }

  lemma {:induction false} OverallIsSum(start: Rows, events: seq<Event>, ids: seq<string>)
    requires RowsInRange(start)
    ensures Overall(Run(start, events), ids) == Wrap(Sum(start, events, ids))
  {
    if ids != [] {
      OverallIsSum(start, events, Init(ids));
      RowIsTally(start, events, Last(ids));
      WrapAbsorbsBoth(Sum(start, events, Init(ids)), Tally(start, events, Last(ids)));
      PlusZero(Sum(start, events, Init(ids)));
    }
  }

  lemma {:induction false} SumAfterReset(start: Rows, events: seq<Event>, ids: seq<string>)
    requires events != [] && Last(events).Reset?
    ensures Sum(start, events, ids) == ZERO
  {
    if ids != [] {
      SumAfterReset(start, events, Init(ids));
    }
  }

  /** An event adds its delta to the sum once, if its account is listed once. */
  lemma {:induction false} SumGrows(start: Rows, events: seq<Event>, ids: seq<string>)
    requires events != [] && !Last(events).Reset? && NoDuplicates(ids)
    ensures var before := Sum(start, Init(events), ids);
            Sum(start, events, ids) ==
            if AccountId(Last(events).account) in ids then Plus(before, Delta(Last(events))) else before
  {
    if ids != [] {
      assert ids == Init(ids) + [Last(ids)];
      assert Last(ids) !in Init(ids);
      SumGrows(start, events, Init(ids));
      PlusSwap(Sum(start, Init(events), Init(ids)), Delta(Last(events)), Tally(start, Init(events), Last(ids)));
      PlusSwap(Sum(start, Init(events), Init(ids)), Tally(start, Init(events), Last(ids)), Delta(Last(events)));
    }
  }

  lemma {:induction false} AccountKept(rows: Rows, events: seq<Event>)
    requires events != [] && !Last(events).Reset?
    ensures Run(rows, events).Keys == Run(rows, Init(events)).Keys + {AccountId(Last(events).account)}
  {
  }

  /** Over ids that list every account once, the sum is the total: no request and no
      token is lost or counted twice, whichever other ids are listed and in any order. */
  lemma {:induction false} SumIsTotal(start: Rows, events: seq<Event>, ids: seq<string>)
    requires NoDuplicates(ids) && forall id :: id in Run(start, events) ==> id in ids
    ensures Sum(start, events, ids) == Total(Sum(start, [], ids), events)
  {
    if events != [] {
      if Last(events).Reset? {
        SumAfterReset(start, events, ids);
      } else {
        AccountKept(start, events);
        SumIsTotal(start, Init(events), ids);
        SumGrows(start, events, ids);
        assert AccountId(Last(events).account) in Run(start, events);
      }
    }
  }

  lemma {:induction false} NothingAtStart(ids: seq<string>)
    ensures Sum(map[], [], ids) == ZERO
  {
    if ids != [] {
      NothingAtStart(Init(ids));
    }
  }

  ghost predicate Enumerates(ids: seq<string>, rows: Rows) {
    NoDuplicates(ids) && forall id :: id in ids <==> id in rows
  }

  /** A restart that loads the rows as they were saved goes on counting where it stopped. */
  lemma {:induction false} RestartKeepsCounting(start: Rows, before: seq<Event>, later: seq<Event>)
    ensures Run(Run(start, before), later) == Run(start, before + later)
  {
    hide Apply;
    if later == [] {
      assert before + later == before;
    } else {
      assert Init(before + later) == before + Init(later);
      RestartKeepsCounting(start, before, Init(later));
    }
  }

  // ---- the mutable objects ----

  class WorkerStat {
    const accountId: string
    var requestCount: int64
    var chatCount: int64
    var modelsCount: int64
    var successCount: int64
    var errorCount: int64
    var promptTokens: int64
    var completionTokens: int64
    var totalTokens: int64
    var cacheReadTokens: int64
    var cacheWriteTokens: int64

    constructor (id: string)
      ensures View() == ZERO && accountId == id
    {
      accountId := id;
      requestCount, chatCount, modelsCount, successCount, errorCount := 0, 0, 0, 0, 0;
      promptTokens, completionTokens, totalTokens, cacheReadTokens, cacheWriteTokens := 0, 0, 0, 0, 0;
    }

    function View(): (r: Row)
      reads this
      ensures r.InRange()
    {
      Row(requestCount, chatCount, modelsCount, successCount, errorCount,
          TokenUsage(promptTokens, completionTokens, totalTokens, cacheReadTokens, cacheWriteTokens))
    }

    method Count(kind: Kind, status: int, ghost account: string)
      modifies this
      ensures View() == Wrap(Plus(old(View()), Delta(Recorded(account, kind, status))))
    {
      requestCount := Int64(requestCount + 1);
      match kind {
        case Chat => chatCount := Int64(chatCount + 1);
        case Models => modelsCount := Int64(modelsCount + 1);
        case Other(_) =>
      }
      if 200 <= status < 400 {
        successCount := Int64(successCount + 1);
      } else {
        errorCount := Int64(errorCount + 1);
      }
    }

    method Accumulate(u: TokenUsage, ghost account: string)
      modifies this
      ensures View() == Wrap(Plus(old(View()), Delta(Used(account, u))))
    {
      promptTokens := Int64(promptTokens + u.promptTokens);
      completionTokens := Int64(completionTokens + u.completionTokens);
      totalTokens := Int64(totalTokens + u.totalTokens);
      cacheReadTokens := Int64(cacheReadTokens + u.cacheReadTokens);
      cacheWriteTokens := Int64(cacheWriteTokens + u.cacheWriteTokens);
    }
  }

  class Store {
    var stats: map<string, WorkerStat>
    const persist: bool
    /** A token for the saver is waiting in the one-place channel. */
    var dirty: bool

    constructor (persist: bool)
      ensures Valid() && View() == map[] && !dirty && this.persist == persist && fresh(stats.Values)
    {
      this.persist := persist;
      stats, dirty := map[], false;
    }

    /** Rows are not shared between accounts. */
    ghost predicate Valid()
      reads this`stats
    {
      forall a, b :: a in stats && b in stats && stats[a] == stats[b] ==> a == b
    }

    ghost function View(): Rows
      reads this`stats, stats.Values
    {
      map id | id in stats :: stats[id].View()
    }

    /** The row of the event's account, fresh or present, has counted it; no other row differs. */
    lemma {:induction false} Counted(before: Rows, e: Event)
      requires !e.Reset?
      requires var key := AccountId(e.account);
               && key in stats && stats.Keys == before.Keys + {key}
               && stats[key].View() == Wrap(Plus(Get(before, key), Delta(e)))
               && forall id :: id in before && id != key ==> stats[id].View() == before[id]
      ensures View() == Apply(before, e)
    {
      hide Wrap, Plus, Delta;
    }

    method Ensure(id: string) returns (w: WorkerStat)
      requires Valid()
      modifies this`stats
      ensures Valid() && fresh(stats.Values - old(stats.Values))
      ensures var key := AccountId(id);
              && key in stats && w == stats[key] && w.View() == Get(old(View()), key)
              && stats.Keys == old(stats.Keys) + {key}
      ensures forall a :: a in old(stats) ==> stats[a] == old(stats[a])
    {
      var key := id;
      if key == "" {
        key := "unknown";
      }
      if key !in stats {
        w := new WorkerStat(key);
        stats := stats[key := w];
      } else {
        w := stats[key];
      }
    }

    method Touch()
      modifies this`dirty
      ensures dirty == (persist || old(dirty))
    {
      if !persist {
        return;
      }
      dirty := true;
    }

    method RecordRequest(account: string, kind: Kind, status: int)
      requires Valid()
      modifies this, stats.Values
      ensures Valid() && fresh(stats.Values - old(stats.Values))
      ensures View() == Apply(old(View()), Recorded(account, kind, status))
      ensures dirty == (persist || old(dirty))
    {
      hide Wrap, Plus, Delta, Apply;
      ghost var before := View();
      var w := Ensure(account);
      w.Count(kind, status, account);
      Counted(before, Recorded(account, kind, status));
      Touch();
    }

    method AddTokens(account: string, u: TokenUsage)
      requires Valid()
      modifies this, stats.Values
      ensures Valid() && fresh(stats.Values - old(stats.Values))
      ensures View() == Apply(old(View()), Used(account, u))
      ensures dirty == (persist || old(dirty))
    {
      hide Wrap, Plus, Delta, Apply;
      ghost var before := View();
      var w := Ensure(account);
      w.Accumulate(u, account);
      Counted(before, Used(account, u));
      Touch();
    }

    method ResetAll()
      modifies this
      ensures Valid() && View() == Apply(old(View()), Reset) && stats.Values == {}
      ensures dirty == (persist || old(dirty))
    {
      stats := map[];
      Touch();
    }

    /** Every account with a row, in any order. */
    method AllAccounts() returns (out: seq<string>)
      ensures Enumerates(out, View())
    {
      out := [];
      var rest := stats.Keys;
      while rest != {}
        invariant rest <= stats.Keys && NoDuplicates(out)
        invariant forall id :: id in stats ==> (id in out <==> id !in rest)
        invariant forall id :: id in out ==> id in stats
        decreases rest
      {
        var id :| id in rest;
        out := out + [id];
        rest := rest - {id};
      }
    }

    /** The rows of the given ids, zero for those without one. */
    method ForAccounts(ids: seq<string>) returns (out: seq<Row>)
      ensures |out| == |ids| && forall i :: 0 <= i < |ids| ==> out[i] == Get(View(), ids[i])
    {
      out := [];
      for i := 0 to |ids|
        invariant |out| == i && forall j :: 0 <= j < i ==> out[j] == Get(View(), ids[j])
      {
        if ids[i] in stats {
          out := out + [stats[ids[i]].View()];
        } else {
          out := out + [ZERO];
        }
      }
    }

    method Totals(ids: seq<string>) returns (t: TokenUsage)
      ensures t == Overall(View(), ids).tokens
    {
      t := NO_TOKENS;
      for i := 0 to |ids|
        invariant t == Overall(View(), ids[..i]).tokens
      {
        assert Init(ids[..i + 1]) == ids[..i] && Last(ids[..i + 1]) == ids[i];
        if ids[i] in stats {
          var w := stats[ids[i]];
          t := TokenUsage(Int64(t.promptTokens + w.promptTokens), Int64(t.completionTokens + w.completionTokens),
                          Int64(t.totalTokens + w.totalTokens), Int64(t.cacheReadTokens + w.cacheReadTokens),
                          Int64(t.cacheWriteTokens + w.cacheWriteTokens));
        }
      }
      assert ids[..|ids|] == ids;
    }

    method OverallStats(ids: seq<string>) returns (o: Row)
      ensures o == Overall(View(), ids)
    {
      o := ZERO;
      for i := 0 to |ids|
        invariant o == Overall(View(), ids[..i])
      {
        assert Init(ids[..i + 1]) == ids[..i] && Last(ids[..i + 1]) == ids[i];
        if ids[i] in stats {
          var w := stats[ids[i]];
          o := Row(Int64(o.requests + w.requestCount), Int64(o.chats + w.chatCount), Int64(o.models + w.modelsCount),
                   Int64(o.successes + w.successCount), Int64(o.errors + w.errorCount),
                   TokenUsage(Int64(o.tokens.promptTokens + w.promptTokens),
                              Int64(o.tokens.completionTokens + w.completionTokens),
                              Int64(o.tokens.totalTokens + w.totalTokens),
                              Int64(o.tokens.cacheReadTokens + w.cacheReadTokens),
                              Int64(o.tokens.cacheWriteTokens + w.cacheWriteTokens)));
        }
      }
      assert ids[..|ids|] == ids;
    }
  }
}
