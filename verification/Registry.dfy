/** The admin side: what each handler does to the proxy pool, the configured
    workers, the settings file and the rotator. `Gateway` is the abstract state;
    the class `Server` below runs the handlers on the mutable objects. */
module Registry {
  import opened Common
  import opened Text
  import opened Naming
  import opened ProxyPool
  import opened Scheduler
  import H = History

  /** The part of the settings the handlers touch. */
  datatype Settings = Settings(workers: seq<Spec>, proxyPool: seq<PoolProxy>)

  datatype Gateway = Gateway(pool: Pool, cfg: Settings, disk: Settings, rot: Rot)

  function IdsOf(workers: seq<Spec>): set<string> {
    set w | w in workers :: w.id
  }

  /** Writing the settings file may fail; the handler then stops before the resync. */
  function Save(g: Gateway, ok: bool): Gateway {
    if ok then g.(disk := g.cfg) else g
  }

  function Resync(g: Gateway): Gateway {
    g.(rot := SyncTo(g.rot, g.cfg.workers))
  }

  function SaveAndResync(g: Gateway, ok: bool): Gateway {
    if ok then Resync(Save(g, true)) else g
  }

  function Reflect(g: Gateway): Gateway {
    g.(cfg := g.cfg.(proxyPool := Persisted(g.pool)))
  }

  /** One worker for each new proxy, under the first free name. */
  function WithWorkers(workers: seq<Spec>, items: map<string, Item>, ids: seq<string>): seq<Spec> {
    if ids == [] then workers
    else
      var before := WithWorkers(workers, items, Init(ids));
      if Last(ids) in items then
        before + [Spec(UniqueName(items[Last(ids)].host, IdsOf(before)), "public", Last(ids))]
      else before
  }

  function Unbound(workers: seq<Spec>, dead: set<string>): seq<Spec> {
    if workers == [] then []
    else Unbound(Init(workers), dead) +
         (if Last(workers).proxyId != "" && Last(workers).proxyId in dead then [] else [Last(workers)])
  }

  function Without(workers: seq<Spec>, id: string): seq<Spec> {
    if workers == [] then [] else Without(Init(workers), id) + (if Last(workers).id != id then [Last(workers)] else [])
  }

  function Updated(w: Spec, apiKey: Option<string>, proxyId: Option<string>): Spec {
    Spec(w.id, if apiKey.Some? then apiKey.value else w.apiKey, if proxyId.Some? then proxyId.value else w.proxyId)
  }

  /** The first worker with the id is updated, or one is added at the end. */
  function Edited(workers: seq<Spec>, id: string, apiKey: Option<string>, proxyId: Option<string>): seq<Spec> {
    if workers == [] then [Updated(Spec(id, "", ""), apiKey, proxyId)]
    else if workers[0].id == id then [Updated(workers[0], apiKey, proxyId)] + workers[1..]
    else [workers[0]] + Edited(workers[1..], id, apiKey, proxyId)
  }

  lemma {:induction false} EditedAt(workers: seq<Spec>, id: string, apiKey: Option<string>, proxyId: Option<string>,
                                    i: nat)
    requires i <= |workers| && forall j :: 0 <= j < i ==> workers[j].id != id
    requires i < |workers| ==> workers[i].id == id
    ensures Edited(workers, id, apiKey, proxyId) ==
            if i < |workers| then workers[..i] + [Updated(workers[i], apiKey, proxyId)] + workers[i + 1..]
            else workers + [Updated(Spec(id, "", ""), apiKey, proxyId)]
  {
    hide Updated;
    if i > 0 {
      EditedAt(workers[1..], id, apiKey, proxyId, i - 1);
      assert workers == [workers[0]] + workers[1..];
      if i < |workers| {
        ConsAround(workers[0], workers[1..], Updated(workers[i], apiKey, proxyId), i - 1);
      }
    }
  }

  lemma {:induction false} ConsAround(w: Spec, rest: seq<Spec>, x: Spec, i: nat)
    requires i < |rest|
    ensures [w] + (rest[..i] + [x] + rest[i + 1..]) == ([w] + rest)[..i + 1] + [x] + ([w] + rest)[i + 2..]
  {
  }

  // ---- handlers ----

  function AfterApiImport(g: Gateway, parsed: seq<Parsed>, newIds: seq<string>, ok: bool): Gateway
    requires |parsed| <= |newIds|
  {
    var im := AfterImport(g.pool, parsed, newIds);
    var workers := WithWorkers(g.cfg.workers, im.pool.items, im.ids);
    SaveAndResync(Reflect(g.(pool := im.pool, cfg := g.cfg.(workers := workers))), ok)
  }

  function AfterApiPrune(g: Gateway, ok: bool): Gateway {
    var dead := set id | id in Select(g.pool, g.pool.order, false);
    SaveAndResync(Reflect(g.(pool := AfterPrune(g.pool), cfg := g.cfg.(workers := Unbound(g.cfg.workers, dead)))), ok)
  }

  function AfterApiRemove(g: Gateway, id: string, ok: bool): Gateway {
    if id == "" then g
    else
      var workers := Unbound(g.cfg.workers, set x | x in [id]);
      SaveAndResync(Reflect(g.(pool := AfterRemove(g.pool, id), cfg := g.cfg.(workers := workers))), ok)
  }

  function Toggled(m: Pool, id: string): Pool {
    if id in m.items then AfterSetEnabled(m, id, !m.items[id].enabled) else m
  }

  function AfterApiToggle(g: Gateway, id: string, ok: bool): Gateway {
    if id == "" then g else Save(Reflect(g.(pool := Toggled(g.pool, id))), ok)
  }

  function AfterDeleteWorker(g: Gateway, id: string, ok: bool): Gateway {
    SaveAndResync(g.(cfg := g.cfg.(workers := Without(g.cfg.workers, id))), ok)
  }

  function AfterEditWorker(g: Gateway, id: string, apiKey: Option<string>, proxyId: Option<string>, ok: bool): Gateway {
    if Blank(id) then g
    else SaveAndResync(g.(cfg := g.cfg.(workers := Edited(g.cfg.workers, id, apiKey, proxyId))), ok)
  }

  /** A restart reads the file and hydrates a fresh pool and rotator from it. */
  function AfterRestart(g: Gateway): Gateway {
    Gateway(AfterRestore(EMPTY, g.disk.proxyPool), g.disk, g.disk, SyncTo(H.EMPTY, g.disk.workers))
  }

  /** The proxy a worker's requests leave through: its bound pool entry if that is
      there, enabled and usable; else none, and the request goes out directly. */
  function Resolve(cfg: Settings, w: Spec): Option<PoolProxy> {
    if w.proxyId == "" then None
    else match FindPoolProxy(cfg.proxyPool, w.proxyId)
      case None => None
      case Some(p) => if p.enabled && p.usable then Some(p) else None
  }

  // ---- the mutable server ----

  class Server {
    const pool: Manager
    const rot: Rotator
    var workers: seq<Spec>
    var proxyPool: seq<PoolProxy>
    var disk: Settings

    ghost function View(): Gateway
      reads this, pool, rot, rot.workers
    {
      Gateway(pool.View(), Settings(workers, proxyPool), disk, rot.View())
    }

    constructor (cfg: Settings, pool: Manager, rot: Rotator)
      ensures this.pool == pool && this.rot == rot
      ensures View() == Gateway(pool.View(), cfg, cfg, rot.View())
    {
      this.pool, this.rot := pool, rot;
      workers, proxyPool, disk := cfg.workers, cfg.proxyPool, cfg;
    }

    method PersistConfig(ok: bool)
      modifies this
      ensures View() == Save(old(View()), ok)
    {
      if ok {
        disk := Settings(workers, proxyPool);
      }
    }

    /** Reflects the pool into the settings and saves them. */
    method PersistPool(ok: bool)
      modifies this
      ensures View() == Save(Reflect(old(View())), ok)
    {
      var items := pool.ListAll();
      var out: seq<PoolProxy> := [];
      for i := 0 to |items|
        invariant |out| == i && forall j :: 0 <= j < i ==> out[j] == ToConfig(items[j])
      {
        out := out + [ToConfig(items[i])];
      }
      assert out == Persisted(pool.View());
      proxyPool := out;
      PersistConfig(ok);
    }

    method ResyncRotator()
      requires rot.Valid()
      modifies rot
      ensures rot.Valid() && View() == Resync(old(View()))
    {
      rot.Sync(workers);
    }

    method WorkerExists(id: string) returns (found: bool)
      ensures found <==> id in IdsOf(workers)
    {
      for i := 0 to |workers|
        invariant forall j :: 0 <= j < i ==> workers[j].id != id
      {
        if workers[i].id == id {
          return true;
        }
      }
      return false;
    }

    /** The name search: it ends, with the first free candidate. */
    method NewWorkerID(host: string) returns (id: string)
      ensures id == UniqueName(host, IdsOf(workers))
    {
      ghost var used := IdsOf(workers);
      var n := 1;
      id := host;
      var exists' := WorkerExists(id);
      while exists'
        invariant n >= 1 && id == Candidate(host, n) && (exists' <==> id in used)
        invariant forall k :: 1 <= k < n ==> Candidate(host, k) in used
        invariant FirstFree(host, used, 1) == FirstFree(host, used, n)
        decreases |used| + 1 - n
      {
        TakenCandidates(host, used, n);
        n := n + 1;
        id := host + "-" + Itoa(n);
        exists' := WorkerExists(id);
      }
    }

    method DeleteWorkersByProxyIDs(ids: seq<string>)
      modifies this`workers
      ensures workers == Unbound(old(workers), set id | id in ids)
    {
      var dead := set id | id in ids;
      var kept: seq<Spec> := [];
      for i := 0 to |workers|
        invariant workers == old(workers) && kept == Unbound(workers[..i], dead)
      {
        assert Init(workers[..i + 1]) == workers[..i] && Last(workers[..i + 1]) == workers[i];
        if workers[i].proxyId != "" && workers[i].proxyId in dead {
          continue;
        }
        kept := kept + [workers[i]];
      }
      assert workers[..|workers|] == workers;
      workers := kept;
    }

    /** Saves are followed by a resync only when they succeed. */
    method FinishPoolEdit(ok: bool)
      requires rot.Valid()
      modifies this, rot
      ensures rot.Valid() && View() == SaveAndResync(Reflect(old(View())), ok)
    {
      PersistPool(ok);
      if ok {
        ResyncRotator();
      }
    }

    method AddWorkers(ids: seq<string>)
      modifies this`workers
      ensures workers == WithWorkers(old(workers), pool.items, ids)
    {
      for i := 0 to |ids|
        invariant workers == WithWorkers(old(workers), pool.items, ids[..i])
      {
        assert Init(ids[..i + 1]) == ids[..i] && Last(ids[..i + 1]) == ids[i];
        if ids[i] !in pool.items {
          continue;
        }
        var id := NewWorkerID(pool.items[ids[i]].host);
        workers := workers + [Spec(id, "public", ids[i])];
      }
      assert ids[..|ids|] == ids;
    }

    method ApiPoolImport(parsed: seq<Parsed>, newIds: seq<string>, ok: bool)
      requires rot.Valid() && |parsed| <= |newIds|
      modifies this, pool, rot
      ensures rot.Valid() && View() == AfterApiImport(old(View()), parsed, newIds, ok)
    {
      hide SaveAndResync, Reflect, AfterImport, WithWorkers;
      var added, skipped, ids := pool.Import(parsed, newIds);
      AddWorkers(ids);
      FinishPoolEdit(ok);
    }

    method ApiPoolPrune(ok: bool)
      requires rot.Valid()
      modifies this, pool, rot
      ensures rot.Valid() && View() == AfterApiPrune(old(View()), ok)
    {
      hide SaveAndResync, Reflect, AfterPrune, Unbound;
      var removed, ids := pool.Prune();
      DeleteWorkersByProxyIDs(ids);
      FinishPoolEdit(ok);
    }

    method ApiPoolRemove(id: string, ok: bool)
      requires rot.Valid()
      modifies this, pool, rot
      ensures rot.Valid() && View() == AfterApiRemove(old(View()), id, ok)
    {
      if id == "" {
        return;
      }
      hide SaveAndResync, Reflect, AfterRemove, Unbound;
      var existed := pool.Remove(id);
      DeleteWorkersByProxyIDs([id]);
      FinishPoolEdit(ok);
    }

    method ApiPoolToggle(id: string, ok: bool)
      requires rot.Valid()
      modifies this, pool
      ensures rot.Valid() && View() == AfterApiToggle(old(View()), id, ok)
    {
      if id == "" {
        return;
      }
      if id in pool.items {
        pool.SetEnabled(id, !pool.items[id].enabled);
      }
      PersistPool(ok);
    }

    method ApiDeleteWorker(id: string, ok: bool)
      requires rot.Valid()
      modifies this, rot
      ensures rot.Valid() && View() == AfterDeleteWorker(old(View()), id, ok)
    {
      var kept: seq<Spec> := [];
      for i := 0 to |workers|
        invariant unchanged(this) && unchanged(rot) && kept == Without(workers[..i], id)
      {
        assert Init(workers[..i + 1]) == workers[..i] && Last(workers[..i + 1]) == workers[i];
        if workers[i].id != id {
          kept := kept + [workers[i]];
        }
      }
      assert workers[..|workers|] == workers;
      workers := kept;
      PersistConfig(ok);
      if ok {
        ResyncRotator();
      }
    }

    method UpdateOrAdd(id: string, apiKey: Option<string>, proxyId: Option<string>)
      modifies this`workers
      ensures workers == Edited(old(workers), id, apiKey, proxyId)
    {
      for i := 0 to |workers|
        invariant workers == old(workers) && forall j :: 0 <= j < i ==> workers[j].id != id
      {
        if workers[i].id == id {
          EditedAt(workers, id, apiKey, proxyId, i);
          workers := workers[..i] + [Updated(workers[i], apiKey, proxyId)] + workers[i + 1..];
          return;
        }
      }
      EditedAt(workers, id, apiKey, proxyId, |workers|);
      workers := workers + [Updated(Spec(id, "", ""), apiKey, proxyId)];
    }

    method ApiEditWorker(id: string, apiKey: Option<string>, proxyId: Option<string>, ok: bool)
      requires rot.Valid()
      modifies this, rot
      ensures rot.Valid() && View() == AfterEditWorker(old(View()), id, apiKey, proxyId, ok)
    {
      if Blank(id) {
        return;
      }
      UpdateOrAdd(id, apiKey, proxyId);
      PersistConfig(ok);
      if ok {
        ResyncRotator();
      }
    }
  }
}
