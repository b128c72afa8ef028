/** The status page: which accounts it lists, and what its overall row shows of everything
    recorded, also when workers are listed twice and when requests come in while it is built. */
module Dashboard {
  import opened Common
  import opened Sse
  import opened Stats

  /** The live ids, then the recorded ids that are not live. */
  function StatusIds(live: seq<string>, recorded: seq<string>): seq<string> {
    if recorded == [] then live
    else StatusIds(live, Init(recorded)) + (if Last(recorded) in live then [] else [Last(recorded)])
  }

  lemma {:induction false} StatusIdsMeaning(live: seq<string>, recorded: seq<string>)
    ensures forall id :: id in StatusIds(live, recorded) <==> id in live || id in recorded
    ensures NoDuplicates(recorded) ==> (NoDuplicates(StatusIds(live, recorded)) <==> NoDuplicates(live))
    ensures live <= StatusIds(live, recorded)
  {
    if recorded != [] {
      assert recorded == Init(recorded) + [Last(recorded)];
      StatusIdsMeaning(live, Init(recorded));
      if NoDuplicates(recorded) {
        assert Last(recorded) !in Init(recorded);
        var before, id := StatusIds(live, Init(recorded)), Last(recorded);
        if id !in live {
          OneMore(before, id);
        } else {
          assert before + [] == before;
        }
      }
    }
  }

  lemma {:induction false} OneMore(ids: seq<string>, id: string)
    requires id !in ids
    ensures NoDuplicates(ids + [id]) <==> NoDuplicates(ids)
  {
    if NoDuplicates(ids + [id]) {
      assert forall i :: 0 <= i < |ids| ==> (ids + [id])[i] == ids[i];
    }
  }

  // ---- what is shown, missed and shown twice ----

  /** What the listed accounts recorded since the last reset, each counted once. */
  function TotalIn(events: seq<Event>, ids: seq<string>): Row {
    if events == [] || Last(events).Reset? then ZERO
    else if AccountId(Last(events).account) in ids then Plus(TotalIn(Init(events), ids), Delta(Last(events)))
    else TotalIn(Init(events), ids)
  }

  /** What all other accounts recorded. */
  function TotalOut(events: seq<Event>, ids: seq<string>): Row {
    if events == [] || Last(events).Reset? then ZERO
    else if AccountId(Last(events).account) in ids then TotalOut(Init(events), ids)
    else Plus(TotalOut(Init(events), ids), Delta(Last(events)))
  }

  /** What is counted again: the tally of an account for every further place it is listed at. */
  function Surplus(events: seq<Event>, ids: seq<string>): Row {
    if ids == [] then ZERO
    else if Last(ids) in Init(ids) then Plus(Surplus(events, Init(ids)), Tally(map[], events, Last(ids)))
    else Surplus(events, Init(ids))
  }

  lemma {:induction false} TotalSplits(events: seq<Event>, ids: seq<string>)
    ensures Total(ZERO, events) == Plus(TotalIn(events, ids), TotalOut(events, ids))
  {
    hide Delta, Plus;
    PlusZero(ZERO);
    if events != [] && !Last(events).Reset? {
      TotalSplits(Init(events), ids);
      var a, b, d := TotalIn(Init(events), ids), TotalOut(Init(events), ids), Delta(Last(events));
      PlusSwap(a, b, d);
    }
  }

  lemma {:induction false} TotalInNothing(events: seq<Event>)
    ensures TotalIn(events, []) == ZERO
  {
    if events != [] && !Last(events).Reset? {
      TotalInNothing(Init(events));
    }
  }

  lemma {:induction false} TotalInSame(events: seq<Event>, a: seq<string>, b: seq<string>)
    requires forall id :: id in a <==> id in b
    ensures TotalIn(events, a) == TotalIn(events, b)
  {
    if events != [] && !Last(events).Reset? {
      TotalInSame(Init(events), a, b);
    }
  }

  lemma {:induction false} TotalInGrows(events: seq<Event>, ids: seq<string>, id: string)
    requires id !in ids
    ensures TotalIn(events, ids + [id]) == Plus(TotalIn(events, ids), Tally(map[], events, id))
  {
    hide Delta, Plus;
    if events == [] || Last(events).Reset? {
      PlusZero(ZERO);
    } else {
      TotalInGrows(Init(events), ids, id);
      var a, t, d := TotalIn(Init(events), ids), Tally(map[], Init(events), id), Delta(Last(events));
      PlusSwap(a, t, d);
    }
  }

  /** Over any ids, repeated ones included: the exact sum is what the listed accounts
      recorded, and once more what is listed again. */
  lemma {:induction false} SumSplits(events: seq<Event>, ids: seq<string>)
    ensures Sum(map[], events, ids) == Plus(TotalIn(events, ids), Surplus(events, ids))
  {
    hide Tally, TotalIn;
    if ids == [] {
      TotalInNothing(events);
      PlusZero(ZERO);
    } else {
      var init, t := Init(ids), Tally(map[], events, Last(ids));
      assert ids == init + [Last(ids)];
      SumSplits(events, init);
      if Last(ids) in init {
        TotalInSame(events, init, ids);
        PlusSwap(TotalIn(events, init), Surplus(events, init), t);
      } else {
        TotalInGrows(events, init, Last(ids));
        PlusSwap(TotalIn(events, init), Surplus(events, init), t);
      }
    }
  }

  lemma {:induction false} OverallIsTotal(events: seq<Event>, ids: seq<string>)
    ensures Overall(Run(map[], events), ids) == Wrap(Plus(TotalIn(events, ids), Surplus(events, ids)))
  {
    OverallIsSum(map[], events, ids);
    SumSplits(events, ids);
  }

  lemma {:induction false} StatusSurplus(events: seq<Event>, live: seq<string>, recorded: seq<string>)
    requires NoDuplicates(recorded)
    ensures Surplus(events, StatusIds(live, recorded)) == Surplus(events, live)
  {
    if recorded != [] {
      assert recorded == Init(recorded) + [Last(recorded)] && Last(recorded) !in Init(recorded);
      StatusSurplus(events, live, Init(recorded));
      StatusIdsMeaning(live, Init(recorded));
      var before, ids := StatusIds(live, Init(recorded)), StatusIds(live, recorded);
      if Last(recorded) in live {
        assert ids == before;
      } else {
        assert Init(ids) == before && Last(ids) == Last(recorded);
      }
    }
  }

  lemma {:induction false} NoSurplus(events: seq<Event>, ids: seq<string>)
    requires NoDuplicates(ids)
    ensures Surplus(events, ids) == ZERO
  {
    if ids != [] {
      assert ids == Init(ids) + [Last(ids)];
      assert Last(ids) !in Init(ids);
      NoSurplus(events, Init(ids));
    }
  }

  /** Nothing recorded before the accounts were listed is missed, whatever came after. */
  lemma {:induction false} OutIsLater(before: seq<Event>, later: seq<Event>, ids: seq<string>)
    requires forall id :: id in Run(map[], before) ==> id in ids
    ensures TotalOut(before + later, ids) == TotalOut(later, ids)
  {
    hide Delta;
    if later != [] {
      assert Init(before + later) == before + Init(later) && Last(before + later) == Last(later);
      OutIsLater(before, Init(later), ids);
    } else {
      assert before + later == before;
      if before != [] && !Last(before).Reset? {
        AccountKept(map[], before);
        assert AccountId(Last(before).account) in Run(map[], before);
        OutIsLater(Init(before), [], ids);
        assert Init(before) + [] == Init(before);
      }
    }
  }

  // ---- the overall row ----

  /** The overall row, for any live workers and for events recorded before and after the
      accounts were listed. It is the 64-bit image of everything recorded since the last
      reset, but for what accounts that are neither live nor listed recorded meanwhile, and
      with what a live id recorded once more for every further place it is listed at. It
      does not depend on the order in which the store lists its accounts. */
  lemma {:induction false} OverallShows(before: seq<Event>, later: seq<Event>, live: seq<string>, recorded: seq<string>)
    requires Enumerates(recorded, Run(map[], before))
    ensures var events, ids := before + later, StatusIds(live, recorded);
            && Overall(Run(map[], events), ids) == Wrap(Plus(TotalIn(events, ids), Surplus(events, live)))
            && Total(ZERO, events) == Plus(TotalIn(events, ids), TotalOut(later, ids))
  {
    hide Run;
    var events, ids := before + later, StatusIds(live, recorded);
    StatusIdsMeaning(live, recorded);
    StatusSurplus(events, live, recorded);
    OverallIsTotal(events, ids);
    TotalSplits(events, ids);
    OutIsLater(before, later, ids);
  }

  /** With nothing recorded meanwhile the row is everything recorded since the last reset,
      plus the surplus. Deleting a worker that is listed once changes nothing. */
  lemma {:induction false} OverallConserved(events: seq<Event>, live: seq<string>, recorded: seq<string>)
    requires Enumerates(recorded, Run(map[], events))
    ensures Overall(Run(map[], events), StatusIds(live, recorded)) ==
            Wrap(Plus(Total(ZERO, events), Surplus(events, live)))
    ensures NoDuplicates(live) ==> Surplus(events, live) == ZERO
    ensures NoDuplicates(live) ==> Overall(Run(map[], events), StatusIds(live, recorded)) == Wrap(Total(ZERO, events))
  {
    hide Run, Wrap, Plus, Total, TotalIn, Surplus, StatusIds, Overall;
    assert events + [] == events;
    OverallShows(events, [], live, recorded);
    PlusZero(TotalIn(events, StatusIds(live, recorded)));
    if NoDuplicates(live) {
      NoSurplus(events, live);
      PlusZero(Total(ZERO, events));
    }
  }

  /** Exactly when the row is right. */
  lemma {:induction false} OverallRightIff(events: seq<Event>, live: seq<string>, recorded: seq<string>)
    requires Enumerates(recorded, Run(map[], events))
    ensures Overall(Run(map[], events), StatusIds(live, recorded)) == Wrap(Total(ZERO, events)) <==>
            Wrap(Surplus(events, live)) == ZERO
  {
    hide Run, Wrap;
    OverallConserved(events, live, recorded);
    WrapCancels(Total(ZERO, events), Surplus(events, live));
  }

  predicate NaturalCounts(r: Row) {
    0 <= r.requests && 0 <= r.chats && 0 <= r.models && 0 <= r.successes && 0 <= r.errors
  }

  lemma {:induction false} TotalNatural(events: seq<Event>)
    ensures NaturalCounts(Total(ZERO, events))
  {
    if events != [] {
      TotalNatural(Init(events));
    }
  }

  lemma {:induction false} TallyNatural(events: seq<Event>, id: string)
    ensures NaturalCounts(Tally(map[], events, id))
  {
    if events != [] {
      TallyNatural(Init(events), id);
    }
  }

  /** An account has a request recorded and is listed again. */
  predicate RequestsRepeated(events: seq<Event>, ids: seq<string>) {
    exists i :: 0 <= i < |ids| && ids[i] in ids[..i] && Tally(map[], events, ids[i]).requests > 0
  }

  lemma {:induction false} SurplusBalanced(events: seq<Event>, ids: seq<string>)
    requires KnownKinds(events)
    ensures NaturalCounts(Surplus(events, ids)) && Surplus(events, ids).Balanced()
  {
    hide Tally;
    if ids != [] {
      SurplusBalanced(events, Init(ids));
      TallyNatural(events, Last(ids));
      RowsBalance(events, Last(ids));
    }
  }

  lemma {:induction false} RepeatedGrows(events: seq<Event>, ids: seq<string>)
    requires ids != []
    ensures RequestsRepeated(events, ids) <==>
            || RequestsRepeated(events, Init(ids))
            || (Last(ids) in Init(ids) && Tally(map[], events, Last(ids)).requests > 0)
  {
    hide Tally;
    var init, n := Init(ids), |ids| - 1;
    assert ids[..n] == init && ids[n] == Last(ids);
    assert forall i :: 0 <= i < n ==> ids[i] == init[i] && ids[..i] == init[..i];
    if RequestsRepeated(events, init) {
      var i :| 0 <= i < n && init[i] in init[..i] && Tally(map[], events, init[i]).requests > 0;
      assert ids[i] in ids[..i];
    }
  }

  lemma {:induction false} SurplusMeaning(events: seq<Event>, ids: seq<string>)
    requires KnownKinds(events)
    ensures Surplus(events, ids).requests > 0 <==> RequestsRepeated(events, ids)
  {
    hide Tally, RequestsRepeated;
    if ids == [] {
      NothingRepeated(events);
    } else {
      RepeatedGrows(events, ids);
      SurplusMeaning(events, Init(ids));
      SurplusBalanced(events, Init(ids));
      TallyNatural(events, Last(ids));
    }
  }

  lemma {:induction false} NothingRepeated(events: seq<Event>)
    ensures !RequestsRepeated(events, [])
  {
  }

  /** While the numbers stay below 2^63: every request counts once by outcome and once by
      kind, and the number of requests is right if and only if no live worker that has any
      is listed twice. */
  lemma {:induction false} OverallBalances(events: seq<Event>, live: seq<string>, recorded: seq<string>)
    requires Enumerates(recorded, Run(map[], events)) && KnownKinds(events)
    requires Requests(events) + Surplus(events, live).requests < 0x8000_0000_0000_0000
    ensures var o := Overall(Run(map[], events), StatusIds(live, recorded));
            && o.Balanced() && o.requests == Requests(events) + Surplus(events, live).requests
            && (o.requests == Requests(events) <==> !RequestsRepeated(events, live))
  {
    hide Run, Overall, Total, Surplus, RequestsRepeated;
    OverallConserved(events, live, recorded);
    TotalBalances(events);
    TotalCounts(events);
    TotalNatural(events);
    SurplusMeaning(events, live);
    SurplusBalanced(events, live);
    SmallRow(Total(ZERO, events), Surplus(events, live));
  }

  lemma {:induction false} SmallRow(a: Row, b: Row)
    requires NaturalCounts(a) && a.Balanced() && NaturalCounts(b) && b.Balanced()
    requires a.requests + b.requests < 0x8000_0000_0000_0000
    ensures Wrap(Plus(a, b)).Balanced() && Wrap(Plus(a, b)).requests == a.requests + b.requests
  {
  }

  lemma {:induction false} TwiceIsRepeated(events: seq<Event>, id: string)
    ensures Surplus(events, [id, id]) == Tally(map[], events, id)
  {
    hide Tally;
    assert Init([id, id]) == [id] && Last([id, id]) == id && Init([id]) == [];
    assert Surplus(events, [id]) == ZERO;
    PlusZero(Tally(map[], events, id));
  }

  /** A store with one account, and a live list that names it twice: the page shows twice
      the requests there were. */
  lemma {:induction false} DuplicateIdCountsTwice(events: seq<Event>, id: string)
    requires Enumerates([id], Run(map[], events)) && KnownKinds(events)
    requires 0 < Requests(events) < 0x4000_0000_0000_0000
    ensures Tally(map[], events, id).requests == Requests(events)
    ensures Overall(Run(map[], events), StatusIds([id, id], [id])).requests == 2 * Requests(events)
    ensures Overall(Run(map[], events), StatusIds([id, id], [id])) != Wrap(Total(ZERO, events))
  {
    hide Run, Overall, Surplus, Wrap, StatusIds, RequestsRepeated;
    OneAccount(events, id);
    TwiceIsRepeated(events, id);
    OverallBalances(events, [id, id], [id]);
    TotalCounts(events);
    TotalNatural(events);
    Int64OfSmall(Total(ZERO, events));
  }

  lemma {:induction false} Int64OfSmall(r: Row)
    requires 0 <= r.requests < 0x8000_0000_0000_0000
    ensures Wrap(r).requests == r.requests
  {
  }

  lemma {:induction false} OneAccount(events: seq<Event>, id: string)
    requires forall k :: k in Run(map[], events) ==> k == id
    ensures Tally(map[], events, id).requests == Requests(events)
  {
    if events != [] && !Last(events).Reset? {
      AccountKept(map[], events);
      assert AccountId(Last(events).account) in Run(map[], events);
      OneAccount(Init(events), id);
    }
  }

  // ---- what is missed ----

  /** Since the last reset some account that is not listed recorded a request. */
  predicate RequestOutside(events: seq<Event>, ids: seq<string>) {
    events != [] && !Last(events).Reset? &&
    (RequestOutside(Init(events), ids) || (Last(events).Recorded? && AccountId(Last(events).account) !in ids))
  }

  lemma {:induction false} MissedIff(later: seq<Event>, ids: seq<string>)
    ensures NaturalCounts(TotalOut(later, ids))
    ensures TotalOut(later, ids).requests > 0 <==> RequestOutside(later, ids)
  {
    if later != [] && !Last(later).Reset? {
      MissedIff(Init(later), ids);
    }
  }

  // ---- the page ----

  /** The ids the dashboard shows: live ones, then recorded ones that are gone. */
  method UnionIds(workers: seq<string>, recorded: seq<string>) returns (live: seq<string>)
    ensures live == StatusIds(workers, recorded)
  {
    live := workers;
    var seen: set<string> := {};
    for i := 0 to |workers|
      invariant seen == set id | id in workers[..i]
    {
      seen := seen + {workers[i]};
    }
    for i := 0 to |recorded|
      invariant live == StatusIds(workers, recorded[..i])
    {
      assert Init(recorded[..i + 1]) == recorded[..i] && Last(recorded[..i + 1]) == recorded[i];
      if recorded[i] !in seen {
        live := live + [recorded[i]];
      }
    }
    assert recorded[..|recorded|] == recorded;
  }

  /** Whatever else reaches the store while the page holds no lock. */
  method Meanwhile(store: Store, ghost events: seq<Event>) returns (ghost events': seq<Event>)
    requires store.Valid() && store.View() == Run(map[], events)
    modifies store, store.stats.Values
    ensures store.Valid() && fresh(store.stats.Values - old(store.stats.Values))
    ensures events <= events' && store.View() == Run(map[], events')
  {
    events' := events;
    var i, n: int := 0, *;
    while i < n
      invariant store.Valid() && fresh(store.stats.Values - old(store.stats.Values))
      invariant events <= events' && store.View() == Run(map[], events')
    {
      events' := Something(store, events');
      i := i + 1;
    }
  }

  method Something(store: Store, ghost events: seq<Event>) returns (ghost events': seq<Event>)
    requires store.Valid() && store.View() == Run(map[], events)
    modifies store, store.stats.Values
    ensures store.Valid() && fresh(store.stats.Values - old(store.stats.Values))
    ensures events <= events' && store.View() == Run(map[], events')
  {
    hide Stats.Apply, Run;
    ghost var e;
    if * {
      var account: string, kind: Kind, status: int := *, *, *;
      store.RecordRequest(account, kind, status);
      e := Recorded(account, kind, status);
    } else if * {
      var account: string, usage: TokenUsage := *, *;
      store.AddTokens(account, usage);
      e := Used(account, usage);
    } else {
      store.ResetAll();
      e := Reset;
    }
    RunNext(map[], events, e);
    events' := events + [e];
  }

  /** What the page's parts show, each of what had been recorded by the time of its lock. */
  datatype Page = Page(rows: seq<Row>, totals: TokenUsage, overall: Row)

  lemma {:induction false} RowsShow(events: seq<Event>, ids: seq<string>, rows: seq<Row>)
    requires |rows| == |ids| && forall i :: 0 <= i < |ids| ==> rows[i] == Get(Run(map[], events), ids[i])
    ensures forall i :: 0 <= i < |ids| ==> rows[i] == Wrap(Tally(map[], events, ids[i]))
  {
    hide Run, Wrap, Tally;
    forall i | 0 <= i < |ids| ensures rows[i] == Wrap(Tally(map[], events, ids[i])) {
      RowIsTally(map[], events, ids[i]);
    }
  }

  lemma {:induction false} PageShows(events: seq<Event>, now: seq<Event>, live: seq<string>, recorded: seq<string>)
    requires events <= now && Enumerates(recorded, Run(map[], events))
    ensures var ids := StatusIds(live, recorded);
            && Overall(Run(map[], now), ids) == Wrap(Plus(TotalIn(now, ids), Surplus(now, live)))
            && Total(ZERO, now) == Plus(TotalIn(now, ids), TotalOut(now[|events|..], ids))
  {
    hide Run, Overall, Wrap, Plus, Total, TotalIn, TotalOut, Surplus, StatusIds;
    assert now == events + now[|events|..];
    OverallShows(events, now[|events|..], live, recorded);
  }

  /** One part of the page: the rows, under a lock taken some time later. */
  method RowsLater(store: Store, ids: seq<string>, ghost events: seq<Event>)
    returns (rows: seq<Row>, ghost now: seq<Event>)
    requires store.Valid() && store.View() == Run(map[], events)
    modifies store, store.stats.Values
    ensures store.Valid() && fresh(store.stats.Values - old(store.stats.Values))
    ensures events <= now && store.View() == Run(map[], now)
    ensures |rows| == |ids| && forall i :: 0 <= i < |ids| ==> rows[i] == Wrap(Tally(map[], now, ids[i]))
  {
    hide Run, Wrap, Tally;
    now := Meanwhile(store, events);
    rows := store.ForAccounts(ids);
    RowsShow(now, ids, rows);
  }

  /** Another part: the token totals. */
  method TotalsLater(store: Store, ids: seq<string>, ghost events: seq<Event>)
    returns (totals: TokenUsage, ghost now: seq<Event>)
    requires store.Valid() && store.View() == Run(map[], events)
    modifies store, store.stats.Values
    ensures store.Valid() && fresh(store.stats.Values - old(store.stats.Values))
    ensures events <= now && store.View() == Run(map[], now)
    ensures totals == Overall(Run(map[], now), ids).tokens
  {
    hide Run, Overall;
    now := Meanwhile(store, events);
    totals := store.Totals(ids);
  }

  /** The last part: the overall row. */
  method OverallLater(store: Store, ids: seq<string>, ghost events: seq<Event>)
    returns (overall: Row, ghost now: seq<Event>)
    requires store.Valid() && store.View() == Run(map[], events)
    modifies store, store.stats.Values
    ensures store.Valid() && fresh(store.stats.Values - old(store.stats.Values))
    ensures events <= now && store.View() == Run(map[], now)
    ensures overall == Overall(Run(map[], now), ids)
  {
    hide Run, Overall;
    now := Meanwhile(store, events);
    overall := store.OverallStats(ids);
  }

  /** The status page as it is built: it lists the accounts, takes their rows, adds up the
      tokens, then the overall row, each under a lock of its own; other requests come in
      between. The history as it was at the last three is first, second and third. */
  method Status(store: Store, workers: seq<string>, ghost events: seq<Event>)
    returns (page: Page, ghost ids: seq<string>,
             ghost first: seq<Event>, ghost second: seq<Event>, ghost third: seq<Event>)
    requires store.Valid() && store.View() == Run(map[], events)
    modifies store, store.stats.Values
    ensures events <= first <= second <= third
    ensures forall id :: id in ids <==> id in workers || id in Run(map[], events)
    ensures |page.rows| == |ids| && forall i :: 0 <= i < |ids| ==> page.rows[i] == Wrap(Tally(map[], first, ids[i]))
    ensures page.totals == Wrap(Plus(TotalIn(second, ids), Surplus(second, workers))).tokens
    ensures page.overall == Wrap(Plus(TotalIn(third, ids), Surplus(third, workers)))
    ensures Total(ZERO, third) == Plus(TotalIn(third, ids), TotalOut(third[|events|..], ids))
  {
    hide Run, Overall, Wrap, Plus, Total, TotalIn, TotalOut, Surplus, StatusIds, Tally;
    var recorded := store.AllAccounts();
    var live := UnionIds(workers, recorded);
    ids := live;
    StatusIdsMeaning(workers, recorded);
    var rows, totals, overall;
    rows, first := RowsLater(store, live, events);
    totals, second := TotalsLater(store, live, first);
    overall, third := OverallLater(store, live, second);
    PageShows(events, second, workers, recorded);
    PageShows(events, third, workers, recorded);
    page := Page(rows, totals, overall);
  }
}
