/** What the pool operations keep, and that the settings file loses nothing. */
module PoolLaws {
  import opened Common
  import opened Text
  import opened ProxyPool

  type Pair = (string, int)

  /** host:port is read back unambiguously, also when the host contains colons. */
  lemma {:induction false} KeyInjective(h: string, p: int, h': string, p': int)
    requires HostPort(h, p) == HostPort(h', p')
    ensures h == h' && p == p'
  {
    forall c | c in Itoa(p) ensures c != ':' {
      ItoaCharacters(p, c);
    }
    forall c | c in Itoa(p') ensures c != ':' {
      ItoaCharacters(p', c);
    }
    assert h + [':'] + Itoa(p) == HostPort(h, p);
    assert h' + [':'] + Itoa(p') == HostPort(h', p');
    SplitAtLast(h, Itoa(p), h', Itoa(p'), ':');
    ItoaInjective(p, p');
  }

  // ---- import is exact ----

  function PairOf(p: Parsed): Pair {
    (p.host, p.port)
  }

  function PairOfItem(it: Item): Pair {
    (it.host, it.port)
  }

  /** The host and port pairs of the listed entries. */
  function PairsIn(items: map<string, Item>, order: seq<string>): set<Pair> {
    if order == [] then {}
    else PairsIn(items, Init(order)) + {PairOfItem(Get(items, Last(order)))}
  }

  function LinePairs(parsed: seq<Parsed>): set<Pair> {
    if parsed == [] then {} else LinePairs(Init(parsed)) + {PairOf(Last(parsed))}
  }

  /** The lines that are the first of their host and port, of pairs the pool lacks. */
  function NewOnes(known: set<Pair>, parsed: seq<Parsed>): seq<Parsed> {
    if parsed == [] then []
    else
      var before := Init(parsed);
      NewOnes(known, before) + (if PairOf(Last(parsed)) in known + LinePairs(before) then [] else [Last(parsed)])
  }

  /** The pool with the kept lines appended in order, under the new ids. */
  function Extended(m: Pool, kept: seq<Parsed>, newIds: seq<string>): Pool
    requires |kept| <= |newIds|
  {
    if kept == [] then m
    else Append(Extended(m, Init(kept), newIds), NewItem(newIds[|kept| - 1], Last(kept)))
  }

  lemma {:induction false} KeysArePairs(items: map<string, Item>, order: seq<string>, pair: Pair)
    ensures HostPort(pair.0, pair.1) in KeysOf(items, order) <==> pair in PairsIn(items, order)
  {
    if order != [] {
      KeysArePairs(items, Init(order), pair);
      var it := Get(items, Last(order));
      if HostPort(pair.0, pair.1) == HostPort(it.host, it.port) {
        KeyInjective(pair.0, pair.1, it.host, it.port);
      }
    }
  }

  lemma {:induction false} SeenArePairs(m: Pool, parsed: seq<Parsed>, newIds: seq<string>, pair: Pair)
    requires |parsed| <= |newIds|
    ensures HostPort(pair.0, pair.1) in AfterImport(m, parsed, newIds).seen <==>
            pair in PairsIn(m.items, m.order) + LinePairs(parsed)
  {
    if parsed == [] {
      KeysArePairs(m.items, m.order, pair);
    } else {
      SeenArePairs(m, Init(parsed), newIds, pair);
      if HostPort(pair.0, pair.1) == Last(parsed).Key() {
        KeyInjective(pair.0, pair.1, Last(parsed).host, Last(parsed).port);
      }
    }
  }

  /** One more line is skipped exactly when its pair is known by then. */
  lemma {:induction false} ImportStep(m: Pool, parsed: seq<Parsed>, newIds: seq<string>)
    requires parsed != [] && |parsed| <= |newIds|
    ensures var g, p := AfterImport(m, Init(parsed), newIds), Last(parsed);
            AfterImport(m, parsed, newIds) ==
            if PairOf(p) in PairsIn(m.items, m.order) + LinePairs(Init(parsed)) then g.(skipped := g.skipped + 1)
            else Progress(Append(g.pool, NewItem(newIds[|g.ids|], p)), g.ids + [newIds[|g.ids|]], g.skipped,
                          g.seen + {p.Key()})
  {
    SeenArePairs(m, Init(parsed), newIds, PairOf(Last(parsed)));
  }

  lemma {:induction false} ExtendOne(m: Pool, kept: seq<Parsed>, p: Parsed, newIds: seq<string>)
    requires |kept| < |newIds|
    ensures Extended(m, kept + [p], newIds) == Append(Extended(m, kept, newIds), NewItem(newIds[|kept|], p))
    ensures newIds[..|kept| + 1] == newIds[..|kept|] + [newIds[|kept|]]
  {
    assert Init(kept + [p]) == kept;
  }

  /** An import of n lines that kept the given ones. */
  predicate Appended(m: Pool, g: Progress, kept: seq<Parsed>, n: nat, newIds: seq<string>) {
    && |g.ids| == |kept| <= n <= |newIds|
    && |g.ids| + g.skipped == n
    && g.ids == newIds[..|kept|]
    && g.pool == Extended(m, kept, newIds)
  }

  lemma {:induction false} AppendedOne(m: Pool, g: Progress, kept: seq<Parsed>, n: nat, newIds: seq<string>,
                                       p: Parsed, seen: set<string>)
    requires Appended(m, g, kept, n, newIds) && n < |newIds|
    ensures var id := newIds[|g.ids|];
            var g' := Progress(Append(g.pool, NewItem(id, p)), g.ids + [id], g.skipped, seen);
            Appended(m, g', kept + [p], n + 1, newIds)
  {
    ExtendOne(m, kept, p, newIds);
  }

  /** An import appends exactly the first line of each host and port the pool lacks,
      in input order, under the new ids; it changes no other entry, and the lines it
      adds and skips are all the lines. */
  lemma {:induction false} ImportExact(m: Pool, parsed: seq<Parsed>, newIds: seq<string>)
    requires |parsed| <= |newIds|
    ensures Appended(m, AfterImport(m, parsed, newIds), NewOnes(PairsIn(m.items, m.order), parsed), |parsed|, newIds)
  {
    if parsed != [] {
      ImportExact(m, Init(parsed), newIds);
      ImportStep(m, parsed, newIds);
      var g, kept := AfterImport(m, Init(parsed), newIds), NewOnes(PairsIn(m.items, m.order), Init(parsed));
      AppendedOne(m, g, kept, |parsed| - 1, newIds, Last(parsed), g.seen + {Last(parsed).Key()});
      assert kept + [] == kept;
    }
  }

  /** New ids are pairwise different and used by no entry, as random ids are. */
  predicate FreshIds(m: Pool, newIds: seq<string>) {
    NoDuplicates(newIds) && forall i :: 0 <= i < |newIds| ==> newIds[i] !in m.items && newIds[i] != ""
  }

  /** No two entries share host and port. */
  predicate PairsDistinct(items: map<string, Item>, order: seq<string>) {
    order == [] ||
    (PairOfItem(Get(items, Last(order))) !in PairsIn(items, Init(order)) && PairsDistinct(items, Init(order)))
  }

  lemma {:induction false} PairsFrame(items: map<string, Item>, order: seq<string>, it: Item)
    requires it.id !in order
    ensures PairsIn(items[it.id := it], order) == PairsIn(items, order)
    ensures PairsDistinct(items[it.id := it], order) == PairsDistinct(items, order)
  {
    if order != [] {
      assert Last(order) in order && forall x :: x in Init(order) ==> x in order;
      PairsFrame(items, Init(order), it);
    }
  }

  lemma {:induction false} AppendedOrder(m: Pool, id: string, p: Parsed)
    ensures Append(m, NewItem(id, p)).order == m.order + [id]
  {
  }

  lemma {:induction false} ExtendedIds(m: Pool, kept: seq<Parsed>, newIds: seq<string>)
    requires |kept| <= |newIds|
    ensures Extended(m, kept, newIds).order == m.order + newIds[..|kept|]
  {
    hide NewItem, Append;
    if kept != [] {
      ExtendedIds(m, Init(kept), newIds);
      AppendedOrder(Extended(m, Init(kept), newIds), newIds[|kept| - 1], Last(kept));
      assert newIds[..|kept|] == newIds[..|kept| - 1] + [newIds[|kept| - 1]];
    }
  }

  lemma {:induction false} NextIdUnused(m: Pool, newIds: seq<string>, n: nat)
    requires m.Valid() && FreshIds(m, newIds) && n < |newIds|
    ensures newIds[n] !in m.order + newIds[..n]
  {
    assert newIds[n] !in newIds[..n];
  }

  lemma {:induction false} AppendPairs(m: Pool, it: Item)
    requires it.id !in m.order
    ensures var m' := Append(m, it);
            && PairsIn(m'.items, m'.order) == PairsIn(m.items, m.order) + {PairOfItem(it)}
            && (PairsDistinct(m'.items, m'.order) <==>
                  PairsDistinct(m.items, m.order) && PairOfItem(it) !in PairsIn(m.items, m.order))
  {
    assert Init(m.order + [it.id]) == m.order;
    PairsFrame(m.items, m.order, it);
  }

  lemma {:induction false} NextAddedIsUnused(m: Pool, parsed: seq<Parsed>, newIds: seq<string>)
    requires m.Valid() && |parsed| < |newIds| && FreshIds(m, newIds)
    ensures var g := AfterImport(m, parsed, newIds); newIds[|g.ids|] !in g.pool.order
  {
    ImportExact(m, parsed, newIds);
    ExtendedIds(m, NewOnes(PairsIn(m.items, m.order), parsed), newIds);
    NextIdUnused(m, newIds, |AfterImport(m, parsed, newIds).ids|);
  }

  /** After an import the pool has exactly the pairs it had and those of the lines,
      and host and port stay unique if they were. */
  lemma {:induction false} ImportPairs(m: Pool, parsed: seq<Parsed>, newIds: seq<string>)
    requires m.Valid() && |parsed| <= |newIds| && FreshIds(m, newIds)
    ensures var m' := AfterImport(m, parsed, newIds).pool;
            && PairsIn(m'.items, m'.order) == PairsIn(m.items, m.order) + LinePairs(parsed)
            && (PairsDistinct(m.items, m.order) ==> PairsDistinct(m'.items, m'.order))
  {
    if parsed != [] {
      var g, p := AfterImport(m, Init(parsed), newIds), Last(parsed);
      ImportPairs(m, Init(parsed), newIds);
      NextAddedIsUnused(m, Init(parsed), newIds);
      ImportStep(m, parsed, newIds);
      AppendPairs(g.pool, NewItem(newIds[|g.ids|], p));
    }
  }

  /** The entry of a line: its endpoint and credentials, in use at once. */
  predicate EntryOfLine(it: Item, p: Parsed) {
    && it.typ == p.typ && it.host == p.host && it.port == p.port
    && it.username == p.username && it.password == p.password
    && it.enabled && it.usable && it.source == "txt"
    && it.name == p.typ + "://" + (p.host + ":" + Itoa(p.port))
  }

  lemma {:induction false} ExtendedEntries(m: Pool, kept: seq<Parsed>, newIds: seq<string>, i: nat)
    requires i < |kept| <= |newIds| && NoDuplicates(newIds)
    ensures var items := Extended(m, kept, newIds).items;
            newIds[i] in items && EntryOfLine(items[newIds[i]], kept[i])
  {
    if i < |kept| - 1 {
      ExtendedEntries(m, Init(kept), newIds, i);
    }
  }

  /** Every kept line is found under its new id as it was written, enabled and usable. */
  lemma {:induction false} ImportedEntries(m: Pool, parsed: seq<Parsed>, newIds: seq<string>, i: nat)
    requires |parsed| <= |newIds| && FreshIds(m, newIds)
    requires i < |NewOnes(PairsIn(m.items, m.order), parsed)|
    ensures var g := AfterImport(m, parsed, newIds);
            && i < |g.ids| && g.ids[i] in g.pool.items
            && EntryOfLine(g.pool.items[g.ids[i]], NewOnes(PairsIn(m.items, m.order), parsed)[i])
  {
    ImportExact(m, parsed, newIds);
    ExtendedEntries(m, NewOnes(PairsIn(m.items, m.order), parsed), newIds, i);
  }

  // ---- every operation keeps the registry consistent and restorable ----

  /** An entry the settings file reproduces as it is. */
  predicate Restorable(it: Item) {
    it.id != "" && it.host != "" && it.port > 0 && it.typ != "" && it.name != ""
  }

  predicate AllRestorable(m: Pool) {
    forall id :: id in m.items ==> Restorable(m.items[id])
  }

  ghost predicate Good(m: Pool) {
    m.Valid() && AllRestorable(m)
  }

  /** What a successfully parsed line looks like. */
  predicate WellParsed(p: Parsed) {
    p.typ in {"http", "socks5"} && p.host != "" && 1 <= p.port <= 65535
  }

  lemma {:induction false} NewItemRestorable(id: string, p: Parsed)
    requires WellParsed(p) && id != ""
    ensures Restorable(NewItem(id, p))
  {
    assert |NewItem(id, p).name| >= |p.typ| + 3;
  }

  lemma {:induction false} AppendKeepsGood(m: Pool, it: Item)
    requires Good(m) && it.id !in m.items && Restorable(it)
    ensures Good(Append(m, it))
  {
  }

  lemma {:induction false} ExtendedKeepsGood(m: Pool, kept: seq<Parsed>, newIds: seq<string>)
    requires Good(m) && |kept| <= |newIds| && FreshIds(m, newIds)
    requires forall i :: 0 <= i < |kept| ==> WellParsed(kept[i])
    ensures Good(Extended(m, kept, newIds))
    ensures forall id :: id in m.items ==>
              id in Extended(m, kept, newIds).items && Extended(m, kept, newIds).items[id] == m.items[id]
  {
    if kept != [] {
      var n := |kept| - 1;
      ExtendedKeepsGood(m, Init(kept), newIds);
      ExtendedIds(m, Init(kept), newIds);
      NextIdUnused(m, newIds, n);
      NewItemRestorable(newIds[n], Last(kept));
      AppendKeepsGood(Extended(m, Init(kept), newIds), NewItem(newIds[n], Last(kept)));
    }
  }

  lemma {:induction false} NewOnesAreLines(known: set<Pair>, parsed: seq<Parsed>)
    ensures forall p :: p in NewOnes(known, parsed) ==> p in parsed
  {
    if parsed != [] {
      NewOnesAreLines(known, Init(parsed));
      assert parsed == Init(parsed) + [Last(parsed)];
    }
  }

  lemma {:induction false} ImportKeepsGood(m: Pool, parsed: seq<Parsed>, newIds: seq<string>)
    requires Good(m) && |parsed| <= |newIds| && FreshIds(m, newIds)
    requires forall p :: p in parsed ==> WellParsed(p)
    ensures var m' := AfterImport(m, parsed, newIds).pool;
            && Good(m')
            && forall id :: id in m.items ==> id in m'.items && m'.items[id] == m.items[id]
  {
    var kept := NewOnes(PairsIn(m.items, m.order), parsed);
    ImportExact(m, parsed, newIds);
    NewOnesAreLines(PairsIn(m.items, m.order), parsed);
    ExtendedKeepsGood(m, kept, newIds);
  }

  lemma {:induction false} RemoveFirstMeaning(order: seq<string>, id: string)
    requires NoDuplicates(order)
    ensures var s := RemoveFirst(order, id);
            NoDuplicates(s) && forall x :: x in s <==> x in order && x != id
  {
    if order != [] {
      assert order == [order[0]] + order[1..];
      assert forall j :: 0 <= j < |order| - 1 ==> order[1..][j] == order[j + 1];
      assert order[0] !in order[1..];
      RemoveFirstMeaning(order[1..], id);
    }
  }

  lemma {:induction false} RemoveFirstKeepsOrder(order: seq<string>, id: string)
    ensures Subsequence(RemoveFirst(order, id), order)
  {
    if i :| 0 <= i < |order| && order[i] == id && forall j :: 0 <= j < i ==> order[j] != id {
      RemoveFirstAt(order, id, i);
      OneLeftOut(order[..i], id, order[i + 1..]);
      assert order[..i] + [id] + order[i + 1..] == order;
    } else {
      NoFirst(order, id, |order|);
      RemoveFirstAt(order, id, |order|);
      SubsequenceOfSelf(order);
    }
  }

  /** Without a first occurrence there is none at all. */
  lemma {:induction false} NoFirst(order: seq<string>, id: string, n: nat)
    requires n <= |order|
    requires forall i :: 0 <= i < |order| && order[i] == id ==> exists j :: 0 <= j < i && order[j] == id
    ensures forall i :: 0 <= i < n ==> order[i] != id
  {
    if n > 0 {
      NoFirst(order, id, n - 1);
    }
  }

  /** Removal takes out one entry and leaves the others as they were, in their order. */
  lemma {:induction false} RemoveKeepsGood(m: Pool, id: string)
    requires Good(m)
    ensures var m' := AfterRemove(m, id);
            && Good(m') && m'.items == m.items - {id}
            && (forall x :: x in m'.order <==> x in m.order && x != id)
            && Subsequence(m'.order, m.order)
  {
    RemoveFirstMeaning(m.order, id);
    RemoveFirstKeepsOrder(m.order, id);
    SubsequenceOfSelf(m.order);
  }

  lemma {:induction false} SelectMeaning(m: Pool, order: seq<string>, alive: bool)
    requires NoDuplicates(order)
    ensures var s := Select(m, order, alive);
            NoDuplicates(s) && forall id :: id in s <==> id in order && Alive(m, id) == alive
  {
    if order != [] {
      SelectMeaning(m, Init(order), alive);
      assert order == Init(order) + [Last(order)];
    }
  }

  lemma {:induction false} SelectKeepsOrder(m: Pool, order: seq<string>, alive: bool)
    ensures Subsequence(Select(m, order, alive), order)
  {
    if order != [] {
      SelectKeepsOrder(m, Init(order), alive);
      FilterStep(Select(m, Init(order), alive), order, Alive(m, Last(order)) == alive);
    }
  }

  /** Pruning keeps exactly the entries that are enabled and usable, as they were and in
      their order, and reports exactly the others. */
  lemma {:induction false} PruneKeepsGood(m: Pool)
    requires Good(m)
    ensures var m' := AfterPrune(m);
            && Good(m')
            && (forall id :: id in m'.items <==> id in m.items && m.items[id].enabled && m.items[id].usable)
            && (forall id :: id in m'.items <==> id in m.items && Alive(m, id))
            && (forall id :: id in m'.items ==> m'.items[id] == m.items[id])
            && (forall id :: id in Select(m, m.order, false) <==> id in m.items && !Alive(m, id))
            && Subsequence(m'.order, m.order)
  {
    SelectKeepsOrder(m, m.order, true);
    SelectMeaning(m, m.order, true);
    SelectMeaning(m, m.order, false);
  }

  lemma {:induction false} RestoreKeepsGood(m: Pool, list: seq<PoolProxy>)
    requires Good(m)
    ensures Good(AfterRestore(m, list))
  {
    if list != [] {
      RestoreKeepsGood(m, Init(list));
      var before, p := AfterRestore(m, Init(list)), Last(list);
      if RestoreOne(before, p) != before {
        RestoredRestorable(p);
        AppendKeepsGood(before, Restored(p));
      }
    }
  }

  // ---- the settings file ----

  lemma {:induction false} RestoredRestorable(p: PoolProxy)
    requires p.id != "" && p.host != "" && p.port > 0
    ensures Restorable(Restored(p))
  {
  }

  /** The first n entries of a pool. */
  ghost function FirstEntries(m: Pool, n: nat): Pool
    requires n <= |m.order|
  {
    Pool(map id | id in m.items && id in m.order[..n] :: m.items[id], m.order[..n])
  }

  lemma {:induction false} FirstEntriesGrow(m: Pool, n: nat)
    requires m.Valid() && n < |m.order|
    ensures m.order[n] !in FirstEntries(m, n).items
    ensures FirstEntries(m, n + 1) == Append(FirstEntries(m, n), m.items[m.order[n]])
  {
    assert m.order[..n + 1] == m.order[..n] + [m.order[n]];
    assert m.order[n] !in m.order[..n];
    assert FirstEntries(m, n + 1).items == Append(FirstEntries(m, n), m.items[m.order[n]]).items;
  }

  lemma {:induction false} PersistedGrows(m: Pool, n: nat)
    requires m.Valid() && 0 < n <= |m.order|
    ensures Init(Persisted(m)[..n]) == Persisted(m)[..n - 1]
    ensures Last(Persisted(m)[..n]) == ToConfig(m.items[m.order[n - 1]])
  {
  }

  lemma {:induction false} RestorableReturns(m: Pool, it: Item)
    requires Restorable(it) && it.id !in m.items
    ensures RestoreOne(m, ToConfig(it)) == Append(m, it)
  {
  }

  lemma {:induction false} RestoreFirst(m: Pool, n: nat)
    requires Good(m) && n <= |m.order|
    ensures AfterRestore(EMPTY, Persisted(m)[..n]) == FirstEntries(m, n)
  {
    hide RestoreOne, Append, ToConfig;
    if n > 0 {
      RestoreFirst(m, n - 1);
      FirstEntriesGrow(m, n - 1);
      PersistedGrows(m, n);
      RestorableReturns(FirstEntries(m, n - 1), m.items[m.order[n - 1]]);
    }
  }

  lemma {:induction false} RestoredAreRestorable(m: Pool, list: seq<PoolProxy>)
    requires AllRestorable(m)
    ensures AllRestorable(AfterRestore(m, list))
  {
    if list != [] {
      RestoredAreRestorable(m, Init(list));
      var p := Last(list);
      if p.id != "" && p.host != "" && p.port > 0 {
        RestoredRestorable(p);
      }
    }
  }

  /** Restoring the persisted list into an empty manager gives back the same entries,
      ids and order exactly when every entry has an id, a host, a positive port, a
      type and a name. */
  lemma {:induction false} RoundTrip(m: Pool)
    requires m.Valid()
    ensures AfterRestore(EMPTY, Persisted(m)) == m <==> AllRestorable(m)
  {
    if AllRestorable(m) {
      RestoreFirst(m, |m.order|);
      assert Persisted(m)[..|m.order|] == Persisted(m) && m.order[..|m.order|] == m.order;
      assert FirstEntries(m, |m.order|).items == m.items;
    }
    RestoredAreRestorable(EMPTY, Persisted(m));
  }

  lemma {:induction false} FindFrom(m: Pool, id: string, n: nat)
    requires m.Valid() && n <= |m.order|
    ensures FindPoolProxy(Persisted(m)[n..], id) ==
            if id in m.order[n..] then Some(ToConfig(m.items[id])) else None
    decreases |m.order| - n
  {
    var list := Persisted(m)[n..];
    if n < |m.order| {
      FindFrom(m, id, n + 1);
      assert list[1..] == Persisted(m)[n + 1..];
      assert m.order[n..] == [m.order[n]] + m.order[n + 1..];
    }
  }

  /** The relay's linear lookup in the settings agrees with the registry's map. */
  lemma {:induction false} LookupAgrees(m: Pool, id: string)
    requires m.Valid()
    ensures FindPoolProxy(Persisted(m), id) == if id in m.items then Some(ToConfig(m.items[id])) else None
  {
    FindFrom(m, id, 0);
    assert Persisted(m)[0..] == Persisted(m) && m.order[0..] == m.order;
  }
}
