/** The proxy pool: a registry of entries by id together with their insertion
    order. `Pool` is its abstract value; the class `Manager` holds the mutable
    fields and the loops. Every operation is one atomic step. */
module ProxyPool {
  import opened Common
  import opened Text

  datatype Parsed = Parsed(typ: string, host: string, port: int, username: string, password: string)
  {
    function Key(): string {
      HostPort(host, port)
    }
  }

  function HostPort(host: string, port: int): string {
    host + ":" + Itoa(port)
  }

  datatype Item = Item(id: string, name: string, typ: string, host: string, port: int, username: string,
                       password: string, enabled: bool, usable: bool, source: string)

  /** The form an entry has in the settings file. */
  datatype PoolProxy = PoolProxy(id: string, name: string, typ: string, host: string, port: int, username: string,
                                 password: string, enabled: bool, usable: bool, source: string)

  /** What a lookup of a missing id yields. */
  const ZERO_ITEM := Item("", "", "", "", 0, "", "", false, false, "")

  function Get(items: map<string, Item>, id: string): Item {
    if id in items then items[id] else ZERO_ITEM
  }

  datatype Pool = Pool(items: map<string, Item>, order: seq<string>)
  {
    /** The order lists exactly the registered ids, each once, and entries know their id. */
    ghost predicate Valid() {
      && NoDuplicates(order)
      && (forall id :: id in items <==> id in order)
      && (forall id :: id in items ==> items[id].id == id)
    }

    /** All entries in insertion order. */
    function All(): seq<Item> {
      seq(|order|, i requires 0 <= i < |order| => Get(items, order[i]))
    }
  }

  const EMPTY := Pool(map[], [])

  /** A further entry at the end of the order. */
  function Append(m: Pool, it: Item): Pool {
    Pool(m.items[it.id := it], m.order + [it.id])
  }

  // ---- import ----

  /** A newly imported entry; it counts as usable before any probe. */
  function NewItem(id: string, p: Parsed): Item {
    Item(id, p.typ + "://" + p.Key(), p.typ, p.host, p.port, p.username, p.password, true, true, "txt")
  }

  function KeysOf(items: map<string, Item>, order: seq<string>): set<string> {
    if order == [] then {}
    else KeysOf(items, Init(order)) + {HostPort(Get(items, Last(order)).host, Get(items, Last(order)).port)}
  }

  /** An import under way: the pool, the new ids, how many were skipped, the keys seen. */
  datatype Progress = Progress(pool: Pool, ids: seq<string>, skipped: nat, seen: set<string>)

  function ImportOne(g: Progress, p: Parsed, id: string): Progress {
    if p.Key() in g.seen then g.(skipped := g.skipped + 1)
    else Progress(Append(g.pool, NewItem(id, p)), g.ids + [id], g.skipped, g.seen + {p.Key()})
  }

  /** Imports lines in order; the k-th entry added gets the k-th of the given new ids. */
  function AfterImport(m: Pool, parsed: seq<Parsed>, newIds: seq<string>): (g: Progress)
    requires |parsed| <= |newIds|
    ensures |g.ids| + g.skipped == |parsed|
  {
    if parsed == [] then Progress(m, [], 0, KeysOf(m.items, m.order))
    else
      var g := AfterImport(m, Init(parsed), newIds);
      ImportOne(g, Last(parsed), newIds[|g.ids|])
  }

  // ---- removal ----

  /** The sequence without its first occurrence of id. */
  function RemoveFirst(order: seq<string>, id: string): seq<string> {
    if order == [] then [] else if order[0] == id then order[1..] else [order[0]] + RemoveFirst(order[1..], id)
  }

  function AfterRemove(m: Pool, id: string): Pool {
    if id in m.items then Pool(m.items - {id}, RemoveFirst(m.order, id)) else m
  }

  predicate Alive(m: Pool, id: string) {
    Get(m.items, id).enabled && Get(m.items, id).usable
  }

  function Select(m: Pool, order: seq<string>, alive: bool): seq<string> {
    if order == [] then []
    else Select(m, Init(order), alive) + (if Alive(m, Last(order)) == alive then [Last(order)] else [])
  }

  /** What is left of the entries when Prune has gone through the given ids. */
  function Swept(m: Pool, ids: seq<string>): map<string, Item> {
    map id | id in m.items && (Alive(m, id) || id !in ids) :: m.items[id]
  }

  /** Drops every disabled or unusable entry. */
  function AfterPrune(m: Pool): Pool {
    Pool(Swept(m, m.order), Select(m, m.order, true))
  }

  // ---- flags ----

  function AfterSetUsable(m: Pool, id: string, usable: bool): Pool {
    if id in m.items then m.(items := m.items[id := m.items[id].(usable := usable)]) else m
  }

  function AfterSetEnabled(m: Pool, id: string, enabled: bool): Pool {
    if id in m.items then m.(items := m.items[id := m.items[id].(enabled := enabled)]) else m
  }

  function AfterSetSource(m: Pool, id: string, source: string): Pool {
    if id in m.items then m.(items := m.items[id := m.items[id].(source := source)]) else m
  }

  // ---- persistence ----

  function ToConfig(it: Item): PoolProxy {
    PoolProxy(it.id, it.name, it.typ, it.host, it.port, it.username, it.password, it.enabled, it.usable, it.source)
  }

  /** The list written to the settings. */
  function Persisted(m: Pool): seq<PoolProxy> {
    seq(|m.order|, i requires 0 <= i < |m.order| => ToConfig(m.All()[i]))
  }

  function Restored(p: PoolProxy): Item {
    var typ := if p.typ == "" then "http" else p.typ;
    var name := if p.name == "" then typ + "://" + HostPort(p.host, p.port) else p.name;
    Item(p.id, name, typ, p.host, p.port, p.username, p.password, p.enabled, p.usable, p.source)
  }

  function RestoreOne(m: Pool, p: PoolProxy): Pool {
    if p.id == "" || p.host == "" || p.port <= 0 || p.id in m.items then m
    else Append(m, Restored(p))
  }

  function AfterRestore(m: Pool, list: seq<PoolProxy>): Pool {
    if list == [] then m else RestoreOne(AfterRestore(m, Init(list)), Last(list))
  }

  /** The relay's linear lookup. */
  function FindPoolProxy(list: seq<PoolProxy>, id: string): Option<PoolProxy> {
    if list == [] then None else if list[0].id == id then Some(list[0]) else FindPoolProxy(list[1..], id)
  }

  // ---- the mutable registry ----

  class Manager {
    var items: map<string, Item>
    var order: seq<string>

    function View(): Pool
      reads this
    {
      Pool(items, order)
    }

    constructor ()
      ensures View() == EMPTY
    {
      items, order := map[], [];
    }

    method ListAll() returns (out: seq<Item>)
      ensures out == View().All()
    {
      out := [];
      for i := 0 to |order|
        invariant |out| == i && forall j :: 0 <= j < i ==> out[j] == Get(items, order[j])
      {
        out := out + [Get(items, order[i])];
      }
    }

    /** The dedupe keys in use. */
    method SeenKeys() returns (seen: map<string, string>)
      ensures seen.Keys == KeysOf(items, order)
    {
      seen := map[];
      for i := 0 to |order|
        invariant seen.Keys == KeysOf(items, order[..i])
      {
        KeysOfGrows(items, order, i);
        var it := Get(items, order[i]);
        seen := seen[HostPort(it.host, it.port) := order[i]];
      }
      assert order[..|order|] == order;
    }

    method Import(parsed: seq<Parsed>, newIds: seq<string>) returns (added: nat, skipped: nat, ids: seq<string>)
      requires |parsed| <= |newIds|
      modifies this
      ensures var g := AfterImport(old(View()), parsed, newIds);
              View() == g.pool && ids == g.ids && skipped == g.skipped && added == |g.ids|
    {
      var seen := SeenKeys();
      added, skipped, ids := ImportLines(parsed, newIds, seen);
    }

    method ImportLines(parsed: seq<Parsed>, newIds: seq<string>, known: map<string, string>)
      returns (added: nat, skipped: nat, ids: seq<string>)
      requires |parsed| <= |newIds| && known.Keys == KeysOf(items, order)
      modifies this
      ensures var g := AfterImport(old(View()), parsed, newIds);
              View() == g.pool && ids == g.ids && skipped == g.skipped && added == |g.ids|
    {
      var seen := known;
      skipped, ids := 0, [];
      for i := 0 to |parsed|
        invariant AfterImport(old(View()), parsed[..i], newIds) == Progress(View(), ids, skipped, seen.Keys)
      {
        AfterImportGrows(old(View()), parsed, newIds, i);
        seen, skipped, ids := ImportLine(parsed[i], newIds[|ids|], seen, skipped, ids);
      }
      assert parsed[..|parsed|] == parsed;
      added := |ids|;
    }

    /** One line: added under the new id unless its host and port are known. */
    method ImportLine(p: Parsed, id: string, known: map<string, string>, skippedBefore: nat, idsBefore: seq<string>)
      returns (seen: map<string, string>, skipped: nat, ids: seq<string>)
      modifies this
      ensures Progress(View(), ids, skipped, seen.Keys) ==
              ImportOne(Progress(old(View()), idsBefore, skippedBefore, known.Keys), p, id)
    {
      var key := p.Key();
      seen, skipped, ids := known, skippedBefore, idsBefore;
      if key in seen {
        skipped := skipped + 1;
        return;
      }
      var it := NewItem(id, p);
      items, order := items[id := it], order + [id];
      seen, ids := seen[key := id], ids + [id];
    }

    method Remove(id: string) returns (existed: bool)
      modifies this
      ensures View() == AfterRemove(old(View()), id) && existed == (id in old(items))
    {
      if id !in items {
        return false;
      }
      items := items - {id};
      for i := 0 to |order|
        invariant order == old(order) && items == old(items) - {id}
        invariant forall j :: 0 <= j < i ==> order[j] != id
      {
        if order[i] == id {
          RemoveFirstAt(order, id, i);
          order := order[..i] + order[i + 1..];
          return true;
        }
      }
      RemoveFirstAt(order, id, |order|);
      return true;
    }

    method Prune() returns (removed: nat, ids: seq<string>)
      modifies this
      ensures View() == AfterPrune(old(View()))
      ensures ids == Select(old(View()), old(order), false) && removed == |ids|
    {
      ghost var m := View();
      var keep: seq<string> := [];
      removed, ids := 0, [];
      for i := 0 to |order|
        invariant order == m.order && removed == |ids|
        invariant keep == Select(m, order[..i], true) && ids == Select(m, order[..i], false)
        invariant items == Swept(m, order[..i])
      {
        SelectGrows(m, i);
        SweptGrows(m, i);
        var id := order[i];
        var it := Get(items, id);
        if !it.enabled || !it.usable {
          items := items - {id};
          ids := ids + [id];
          removed := removed + 1;
          continue;
        }
        keep := keep + [id];
      }
      assert order[..|order|] == order;
      order := keep;
    }

    method SetUsable(id: string, usable: bool)
      modifies this
      ensures View() == AfterSetUsable(old(View()), id, usable)
    {
      if id in items {
        items := items[id := items[id].(usable := usable)];
      }
    }

    method SetEnabled(id: string, enabled: bool)
      modifies this
      ensures View() == AfterSetEnabled(old(View()), id, enabled)
    {
      if id in items {
        items := items[id := items[id].(enabled := enabled)];
      }
    }

    method SetSource(id: string, source: string)
      modifies this
      ensures View() == AfterSetSource(old(View()), id, source)
    {
      if id in items {
        items := items[id := items[id].(source := source)];
      }
    }

    method Restore(list: seq<PoolProxy>) returns (restored: nat)
      modifies this
      ensures View() == AfterRestore(old(View()), list)
      ensures |order| == old(|order|) + restored
    {
      restored := 0;
      for i := 0 to |list|
        invariant View() == AfterRestore(old(View()), list[..i]) && |order| == old(|order|) + restored
      {
        assert Init(list[..i + 1]) == list[..i];
        var p := list[i];
        if p.id == "" || p.host == "" || p.port <= 0 {
          continue;
        }
        if p.id in items {
          continue;
        }
        items := items[p.id := Restored(p)];
        order := order + [p.id];
        restored := restored + 1;
      }
      assert list[..|list|] == list;
    }
  }

  /** The first occurrence, if there is one, is the one left out. */
  lemma {:induction false} RemoveFirstAt(order: seq<string>, id: string, i: nat)
    requires i <= |order| && (forall j :: 0 <= j < i ==> order[j] != id) && (i < |order| ==> order[i] == id)
    ensures RemoveFirst(order, id) == if i < |order| then order[..i] + order[i + 1..] else order
  {
    if order != [] && i > 0 {
      RemoveFirstAt(order[1..], id, i - 1);
      assert order == [order[0]] + order[1..];
    }
  }

  lemma {:induction false} KeysOfGrows(items: map<string, Item>, order: seq<string>, i: nat)
    requires i < |order|
    ensures KeysOf(items, order[..i + 1]) ==
            KeysOf(items, order[..i]) + {HostPort(Get(items, order[i]).host, Get(items, order[i]).port)}
  {
    assert Init(order[..i + 1]) == order[..i] && Last(order[..i + 1]) == order[i];
  }

  lemma {:induction false} AfterImportGrows(m: Pool, parsed: seq<Parsed>, newIds: seq<string>, i: nat)
    requires i < |parsed| <= |newIds|
    ensures var g := AfterImport(m, parsed[..i], newIds);
            |g.ids| <= i && AfterImport(m, parsed[..i + 1], newIds) == ImportOne(g, parsed[i], newIds[|g.ids|])
  {
    assert Init(parsed[..i + 1]) == parsed[..i] && Last(parsed[..i + 1]) == parsed[i];
  }

  lemma {:induction false} SelectGrows(m: Pool, i: nat)
    requires i < |m.order|
    ensures forall alive :: Select(m, m.order[..i + 1], alive) ==
                            Select(m, m.order[..i], alive)
                            + (if Alive(m, m.order[i]) == alive then [m.order[i]] else [])
  {
    assert Init(m.order[..i + 1]) == m.order[..i] && Last(m.order[..i + 1]) == m.order[i];
  }

  lemma {:induction false} SweptGrows(m: Pool, i: nat)
    requires i < |m.order|
    ensures Alive(Pool(Swept(m, m.order[..i]), []), m.order[i]) == Alive(m, m.order[i])
    ensures Swept(m, m.order[..i + 1]) ==
            if Alive(m, m.order[i]) then Swept(m, m.order[..i]) else Swept(m, m.order[..i]) - {m.order[i]}
  {
    assert m.order[..i + 1] == m.order[..i] + [m.order[i]];
  }
}
