/** Every run of the admin handlers, probes, traffic and restarts keeps the proxy
    registry, the settings, the settings file and the rotator in agreement. */
module GatewayRuns {
  import opened Common
  import opened Text
  import opened Naming
  import opened Scheduler
  import opened ProxyPool
  import opened PoolLaws
  import opened Registry
  import H = History

  datatype Step =
    | ImportLines(parsed: seq<Parsed>, newIds: seq<string>, ok: bool)
    | PruneDead(ok: bool)
    | RemoveProxy(id: string, ok: bool)
    | ToggleProxy(id: string, ok: bool)
    | ProbeEnds(id: string, usable: bool)  // the result of a probe begun at any earlier time
    | PersistProbes(ok: bool)
    | EditWorker(id: string, apiKey: Option<string>, proxyId: Option<string>, ok: bool)
    | DeleteWorker(id: string, ok: bool)
    | SaveSettings(ok: bool)  // the settings and call-key handlers save everything and do not resync
    | Traffic(op: H.Op)
    | Restart

  /** stale: a failed save skipped the last resync.
      unreflected: a probe result is not in the settings yet. */
  datatype State = State(g: Gateway, stale: bool, unreflected: bool)

  function Start(cfg: Settings): State {
    State(Gateway(AfterRestore(ProxyPool.EMPTY, cfg.proxyPool), cfg, cfg, SyncTo(H.EMPTY, cfg.workers)), false, false)
  }

  ghost predicate Bound(workers: seq<Spec>, m: Pool) {
    forall w :: w in workers && w.proxyId != "" ==> w.proxyId in m.items
  }

  /** Settings from which a restart loses nothing: the pool list reproduces itself,
      worker ids are distinct, and no worker is bound to a missing proxy. */
  ghost predicate Consistent(cfg: Settings) {
    var m := AfterRestore(ProxyPool.EMPTY, cfg.proxyPool);
    Good(m) && Persisted(m) == cfg.proxyPool && DistinctSpecs(cfg.workers) && Bound(cfg.workers, m)
  }

  ghost predicate SameButUsable(a: Pool, b: Pool) {
    && a.order == b.order && a.items.Keys == b.items.Keys
    && forall id :: id in a.items ==> a.items[id].(usable := true) == b.items[id].(usable := true)
  }

  ghost predicate Inv(s: State) {
    && Good(s.g.pool)
    && Consistent(s.g.cfg)
    && Consistent(s.g.disk)
    && SameButUsable(AfterRestore(ProxyPool.EMPTY, s.g.cfg.proxyPool), s.g.pool)
    && (!s.unreflected ==> s.g.cfg.proxyPool == Persisted(s.g.pool))
    && (!s.stale ==> H.SpecsOf(s.g.rot) == s.g.cfg.workers)
  }

  /** New ids are fresh, lines parsed well, and the operator binds only existing proxies. */
  ghost predicate Allowed(s: State, step: Step) {
    match step
    case ImportLines(parsed, newIds, _) =>
      |parsed| <= |newIds| && FreshIds(s.g.pool, newIds) && forall p :: p in parsed ==> WellParsed(p)
    case EditWorker(_, _, proxyId, _) =>
      proxyId.Some? && proxyId.value != "" ==> proxyId.value in s.g.pool.items
    case Traffic(op) => !op.SyncOp?
    case _ => true
  }

  function Exec(s: State, step: Step): State {
    match step
    case ImportLines(parsed, newIds, ok) =>
      if |parsed| > |newIds| then s else State(AfterApiImport(s.g, parsed, newIds, ok), !ok, false)
    case PruneDead(ok) => State(AfterApiPrune(s.g, ok), !ok, false)
    case RemoveProxy(id, ok) => if id == "" then s else State(AfterApiRemove(s.g, id, ok), !ok, false)
    case ToggleProxy(id, ok) =>
      if id == "" then s else s.(g := AfterApiToggle(s.g, id, ok), unreflected := false)
    case ProbeEnds(id, usable) =>
      s.(g := s.g.(pool := AfterSetUsable(s.g.pool, id, usable)), unreflected := s.unreflected || id in s.g.pool.items)
    case PersistProbes(ok) => s.(g := Save(Reflect(s.g), ok), unreflected := false)
    case EditWorker(id, apiKey, proxyId, ok) =>
      if Blank(id) then s else s.(g := AfterEditWorker(s.g, id, apiKey, proxyId, ok), stale := !ok)
    case DeleteWorker(id, ok) => s.(g := AfterDeleteWorker(s.g, id, ok), stale := !ok)
    case SaveSettings(ok) => s.(g := Save(s.g, ok))
    case Traffic(op) => s.(g := s.g.(rot := H.Apply(s.g.rot, op)))
    case Restart => State(AfterRestart(s.g), false, false)
  }

  // ---- the settings after a reflect ----

  lemma {:induction false} ReflectedConsistent(g: Gateway)
    requires Good(g.pool) && DistinctSpecs(g.cfg.workers) && Bound(g.cfg.workers, g.pool)
    ensures Consistent(Reflect(g).cfg)
    ensures AfterRestore(ProxyPool.EMPTY, Reflect(g).cfg.proxyPool) == g.pool
  {
    RoundTrip(g.pool);
  }

  lemma {:induction false} ResyncedSpecs(r: Rot, specs: seq<Spec>)
    ensures H.SpecsOf(SyncTo(r, specs)) == specs
  {
  }

  /** The common end of every handler that edits pool and workers together. */
  lemma {:induction false} FinishKeepsInv(g: Gateway, ok: bool)
    requires Good(g.pool) && DistinctSpecs(g.cfg.workers) && Bound(g.cfg.workers, g.pool) && Consistent(g.disk)
    ensures Inv(State(SaveAndResync(Reflect(g), ok), !ok, false))
  {
    ReflectedConsistent(g);
    ResyncedSpecs(g.rot, g.cfg.workers);
  }

  // ---- what the handlers do to the workers ----

  lemma {:induction false} AddedSpecDistinct(workers: seq<Spec>, w: Spec)
    requires DistinctSpecs(workers) && w.id !in IdsOf(workers)
    ensures DistinctSpecs(workers + [w])
  {
    forall i | 0 <= i < |workers| ensures workers[i].id != w.id {
      assert workers[i] in workers;
    }
  }

  function ProxyIdsOf(workers: seq<Spec>): seq<string> {
    seq(|workers|, i requires 0 <= i < |workers| => workers[i].proxyId)
  }

  lemma {:induction false} WithWorkersDistinct(workers: seq<Spec>, items: map<string, Item>, ids: seq<string>)
    requires DistinctSpecs(workers)
    ensures DistinctSpecs(WithWorkers(workers, items, ids))
  {
    if ids != [] && Last(ids) in items {
      WithWorkersDistinct(workers, items, Init(ids));
      var before := WithWorkers(workers, items, Init(ids));
      AddedSpecDistinct(before, Spec(UniqueName(items[Last(ids)].host, IdsOf(before)), "public", Last(ids)));
    } else if ids != [] {
      WithWorkersDistinct(workers, items, Init(ids));
    }
  }

  /** An import keeps the workers there are and adds one for each new proxy, bound to
      it, in order. */
  lemma {:induction false} WithWorkersMeaning(workers: seq<Spec>, items: map<string, Item>, ids: seq<string>)
    requires forall id :: id in ids ==> id in items
    ensures workers <= WithWorkers(workers, items, ids)
    ensures ProxyIdsOf(WithWorkers(workers, items, ids)) == ProxyIdsOf(workers) + ids
    ensures forall w :: w in WithWorkers(workers, items, ids)[|workers|..] ==> w.apiKey == "public"
  {
    if ids != [] {
      assert ids == Init(ids) + [Last(ids)];
      WithWorkersMeaning(workers, items, Init(ids));
      var before := WithWorkers(workers, items, Init(ids));
      var w := Spec(UniqueName(items[Last(ids)].host, IdsOf(before)), "public", Last(ids));
      assert ProxyIdsOf(before + [w]) == ProxyIdsOf(before) + [w.proxyId];
    }
  }

  lemma {:induction false} WithWorkersBound(workers: seq<Spec>, m: Pool, ids: seq<string>)
    requires Bound(workers, m) && forall id :: id in ids ==> id in m.items
    ensures Bound(WithWorkers(workers, m.items, ids), m)
  {
    if ids != [] {
      assert ids == Init(ids) + [Last(ids)];
      WithWorkersBound(workers, m, Init(ids));
    }
  }

  /** Exactly the workers bound to a dead proxy go. */
  lemma {:induction false} UnboundMeaning(workers: seq<Spec>, dead: set<string>)
    ensures forall w :: w in Unbound(workers, dead) <==> w in workers && !(w.proxyId != "" && w.proxyId in dead)
    ensures DistinctSpecs(workers) ==> DistinctSpecs(Unbound(workers, dead))
  {
    if workers != [] {
      UnboundMeaning(Init(workers), dead);
      assert workers == Init(workers) + [Last(workers)];
      if DistinctSpecs(workers) {
        LastIsUnlisted(workers);
      }
    }
  }

  lemma {:induction false} LastIsUnlisted(workers: seq<Spec>)
    requires workers != [] && DistinctSpecs(workers)
    ensures DistinctSpecs(Init(workers))
    ensures forall w :: w in Init(workers) ==> w.id != Last(workers).id
  {
  }

  lemma {:induction false} WithoutMeaning(workers: seq<Spec>, id: string)
    ensures forall w :: w in Without(workers, id) <==> w in workers && w.id != id
    ensures DistinctSpecs(workers) ==> DistinctSpecs(Without(workers, id))
  {
    if workers != [] {
      WithoutMeaning(Init(workers), id);
      assert workers == Init(workers) + [Last(workers)];
      if DistinctSpecs(workers) {
        LastIsUnlisted(workers);
      }
    }
  }

  /** The workers that stay keep their order, and with it their place in the round. */
  lemma {:induction false} RemovalsKeepOrder(workers: seq<Spec>, dead: set<string>, id: string)
    ensures Subsequence(Unbound(workers, dead), workers)
    ensures Subsequence(Without(workers, id), workers)
  {
    if workers != [] {
      RemovalsKeepOrder(Init(workers), dead, id);
      var last := Last(workers);
      FilterStep(Unbound(Init(workers), dead), workers, !(last.proxyId != "" && last.proxyId in dead));
      FilterStep(Without(Init(workers), id), workers, Last(workers).id != id);
    }
  }

  lemma {:induction false} HeadAndRest(workers: seq<Spec>)
    requires workers != []
    ensures workers == [workers[0]] + workers[1..]
    ensures DistinctSpecs(workers) <==>
            DistinctSpecs(workers[1..]) && forall w :: w in workers[1..] ==> w.id != workers[0].id
  {
    var rest := workers[1..];
    assert forall i :: 0 <= i < |rest| ==> rest[i] == workers[i + 1];
    if DistinctSpecs(rest) && forall w :: w in rest ==> w.id != workers[0].id {
      forall i, j | 0 <= i < j < |workers| ensures workers[i].id != workers[j].id {
        assert workers[j] == rest[j - 1];
        assert i > 0 ==> workers[i] == rest[i - 1];
      }
    }
  }

  /** The worker a successful edit leaves: each field as given, or else as it was. */
  ghost predicate EditedWorker(w: Spec, workers: seq<Spec>, id: string,
                               apiKey: Option<string>, proxyId: Option<string>) {
    var old_ := H.FindSpec(workers, id);
    && w.apiKey == (if apiKey.Some? then apiKey.value else if old_.Some? then old_.value.apiKey else "")
    && w.proxyId == (if proxyId.Some? then proxyId.value else if old_.Some? then old_.value.proxyId else "")
  }

  lemma {:induction false} EditedFields(workers: seq<Spec>, id: string, apiKey: Option<string>, proxyId: Option<string>)
    ensures var found := H.FindSpec(Edited(workers, id, apiKey, proxyId), id);
            found.Some? && EditedWorker(found.value, workers, id, apiKey, proxyId)
  {
    if workers != [] && workers[0].id != id {
      EditedFields(workers[1..], id, apiKey, proxyId);
      assert Edited(workers, id, apiKey, proxyId)[1..] == Edited(workers[1..], id, apiKey, proxyId);
    }
  }

  /** An edit touches no worker but the one with the id, and there is one afterwards. */
  lemma {:induction false} EditedMeaning(workers: seq<Spec>, id: string,
                                         apiKey: Option<string>, proxyId: Option<string>)
    requires DistinctSpecs(workers)
    ensures var ws := Edited(workers, id, apiKey, proxyId);
            && DistinctSpecs(ws)
            && (forall w: Spec :: w.id != id ==> (w in ws <==> w in workers))
            && id in IdsOf(ws)
  {
    var ws := Edited(workers, id, apiKey, proxyId);
    if workers != [] {
      HeadAndRest(workers);
      HeadAndRest(ws);
      if workers[0].id != id {
        EditedMeaning(workers[1..], id, apiKey, proxyId);
        assert ws[1..] == Edited(workers[1..], id, apiKey, proxyId);
      } else {
        assert ws[1..] == workers[1..] && ws[0] in ws;
      }
    } else {
      assert ws[0] in ws;
    }
  }

  /** Exactly a binding to a missing proxy breaks the agreement: the handler does not
      check the proxy id it is given. */
  lemma {:induction false} EditedBound(workers: seq<Spec>, id: string, apiKey: Option<string>, proxyId: Option<string>,
                                       m: Pool)
    requires Bound(workers, m)
    ensures Bound(Edited(workers, id, apiKey, proxyId), m) <==>
            (proxyId.Some? && proxyId.value != "" ==> proxyId.value in m.items)
  {
    var ws := Edited(workers, id, apiKey, proxyId);
    assert ws[0] in ws;
    if workers != [] {
      assert workers == [workers[0]] + workers[1..];
      if workers[0].id != id {
        EditedBound(workers[1..], id, apiKey, proxyId, m);
      }
    }
  }

  // ---- one step ----

  lemma {:induction false} SpecsKept(r: Rot, op: H.Op)
    requires !op.SyncOp?
    ensures H.SpecsOf(H.Apply(r, op)) == H.SpecsOf(r)
  {
  }

  lemma {:induction false} FlagKeepsGood(m: Pool, id: string, it: Item)
    requires Good(m) && id in m.items && it.id == id && Restorable(it)
    ensures Good(m.(items := m.items[id := it]))
  {
  }

  lemma {:induction false} ImportKeepsInv(s: State, parsed: seq<Parsed>, newIds: seq<string>, ok: bool)
    requires Inv(s) && Allowed(s, ImportLines(parsed, newIds, ok))
    ensures Inv(Exec(s, ImportLines(parsed, newIds, ok)))
  {
    var im := AfterImport(s.g.pool, parsed, newIds);
    ImportKeepsGood(s.g.pool, parsed, newIds);
    AddedAreRegistered(s.g.pool, parsed, newIds);
    var workers := WithWorkers(s.g.cfg.workers, im.pool.items, im.ids);
    WithWorkersDistinct(s.g.cfg.workers, im.pool.items, im.ids);
    WithWorkersBound(s.g.cfg.workers, im.pool, im.ids);
    FinishKeepsInv(s.g.(pool := im.pool, cfg := s.g.cfg.(workers := workers)), ok);
  }

  predicate Registered(g: Progress) {
    forall id :: id in g.ids ==> id in g.pool.items
  }

  lemma {:induction false} AddedAreRegistered(m: Pool, parsed: seq<Parsed>, newIds: seq<string>)
    requires |parsed| <= |newIds|
    ensures Registered(AfterImport(m, parsed, newIds))
  {
    if parsed != [] {
      AddedAreRegistered(m, Init(parsed), newIds);
    }
  }

  lemma {:induction false} RemovalKeepsInv(s: State, m: Pool, dead: set<string>, ok: bool)
    requires Inv(s) && Good(m)
    requires forall id :: id in m.items <==> id in s.g.pool.items && id !in dead
    ensures var g := s.g.(pool := m, cfg := s.g.cfg.(workers := Unbound(s.g.cfg.workers, dead)));
            Inv(State(SaveAndResync(Reflect(g), ok), !ok, false))
  {
    UnboundMeaning(s.g.cfg.workers, dead);
    FinishKeepsInv(s.g.(pool := m, cfg := s.g.cfg.(workers := Unbound(s.g.cfg.workers, dead))), ok);
  }

  lemma {:induction false} ToggleKeepsInv(s: State, id: string, ok: bool)
    requires Inv(s)
    ensures Inv(Exec(s, ToggleProxy(id, ok)))
  {
    if id in s.g.pool.items {
      FlagKeepsGood(s.g.pool, id, s.g.pool.items[id].(enabled := !s.g.pool.items[id].enabled));
    }
    if id != "" {
      ReflectedConsistent(s.g.(pool := Toggled(s.g.pool, id)));
    }
  }

  lemma {:induction false} UsableKeepsSame(a: Pool, b: Pool, id: string, usable: bool)
    requires SameButUsable(a, b) && id in b.items
    ensures SameButUsable(a, AfterSetUsable(b, id, usable))
  {
  }

  lemma {:induction false} ProbeKeepsInv(s: State, id: string, usable: bool)
    requires Inv(s)
    ensures Inv(Exec(s, ProbeEnds(id, usable)))
    ensures id !in s.g.pool.items ==> Exec(s, ProbeEnds(id, usable)) == s
  {
    if id in s.g.pool.items {
      FlagKeepsGood(s.g.pool, id, s.g.pool.items[id].(usable := usable));
      UsableKeepsSame(AfterRestore(ProxyPool.EMPTY, s.g.cfg.proxyPool), s.g.pool, id, usable);
    }
  }

  lemma {:induction false} WorkersKeepInv(s: State, workers: seq<Spec>, ok: bool)
    requires Inv(s) && DistinctSpecs(workers) && Bound(workers, s.g.pool)
    ensures Inv(s.(g := SaveAndResync(s.g.(cfg := s.g.cfg.(workers := workers)), ok), stale := !ok))
  {
    ResyncedSpecs(s.g.rot, workers);
  }

  lemma {:induction false} RestartKeepsInv(s: State)
    requires Inv(s)
    ensures Inv(Exec(s, Restart))
  {
    ResyncedSpecs(H.EMPTY, s.g.disk.workers);
  }

  lemma {:induction false} StepKeepsInv(s: State, step: Step)
    requires Inv(s) && Allowed(s, step)
    ensures Inv(Exec(s, step))
  {
    match step
    case ImportLines(parsed, newIds, ok) => ImportKeepsInv(s, parsed, newIds, ok);
    case PruneDead(ok) =>
      PruneKeepsGood(s.g.pool);
      RemovalKeepsInv(s, AfterPrune(s.g.pool), (set id | id in Select(s.g.pool, s.g.pool.order, false)), ok);
    case RemoveProxy(id, ok) =>
      if id != "" {
        RemoveKeepsGood(s.g.pool, id);
        RemovalKeepsInv(s, AfterRemove(s.g.pool, id), (set x | x in [id]), ok);
      }
    case ToggleProxy(id, ok) => ToggleKeepsInv(s, id, ok);
    case ProbeEnds(id, usable) => ProbeKeepsInv(s, id, usable);
    case PersistProbes(ok) => ReflectedConsistent(s.g);
    case EditWorker(id, apiKey, proxyId, ok) =>
      EditedMeaning(s.g.cfg.workers, id, apiKey, proxyId);
      EditedBound(s.g.cfg.workers, id, apiKey, proxyId, s.g.pool);
      WorkersKeepInv(s, Edited(s.g.cfg.workers, id, apiKey, proxyId), ok);
    case DeleteWorker(id, ok) =>
      WithoutMeaning(s.g.cfg.workers, id);
      WorkersKeepInv(s, Without(s.g.cfg.workers, id), ok);
    case SaveSettings(ok) =>
    case Traffic(op) => SpecsKept(s.g.rot, op);
    case Restart => RestartKeepsInv(s);
  }

  // ---- whole runs ----

  function ExecAll(s: State, steps: seq<Step>): State {
    if steps == [] then s else Exec(ExecAll(s, Init(steps)), Last(steps))
  }

  ghost predicate AllAllowed(s: State, steps: seq<Step>) {
    steps == [] || (AllAllowed(s, Init(steps)) && Allowed(ExecAll(s, Init(steps)), Last(steps)))
  }

  /** Started from consistent settings, every run keeps the order duplicate-free with
      exactly the registered ids, worker ids distinct, no worker bound to a missing
      proxy, and settings, file and rotator in agreement. */
  lemma {:induction false} RunKeepsInv(cfg: Settings, steps: seq<Step>)
    requires Consistent(cfg) && AllAllowed(Start(cfg), steps)
    ensures Inv(ExecAll(Start(cfg), steps))
  {
    if steps == [] {
      ResyncedSpecs(H.EMPTY, cfg.workers);
    } else {
      RunKeepsInv(cfg, Init(steps));
      StepKeepsInv(ExecAll(Start(cfg), Init(steps)), Last(steps));
    }
  }

  /** The defaults are consistent, so the premise can be met. */
  lemma {:induction false} DefaultsConsistent()
    ensures Consistent(Settings([Spec("default", "", "")], []))
  {
  }

  // ---- a probe that ends late ----

  predicate Unlisted(list: seq<PoolProxy>, id: string) {
    forall p :: p in list ==> p.id != id
  }

  /** The id is known neither to the registry nor to the settings, nor, if disk is set, to
      the settings file. */
  predicate Forgotten(s: State, id: string, disk: bool) {
    id !in s.g.pool.items && Unlisted(s.g.cfg.proxyPool, id) && (disk ==> Unlisted(s.g.disk.proxyPool, id))
  }

  /** The step cannot bring the id back: no import draws it again as a new id, and no restart
      reads it from a file that still has it. */
  predicate LeavesForgotten(step: Step, id: string, disk: bool) {
    match step
    case ImportLines(_, newIds, _) => id !in newIds
    case Restart => disk
    case _ => true
  }

  lemma {:induction false} PersistedUnlisted(m: Pool, id: string)
    requires m.Valid() && id !in m.items
    ensures Unlisted(Persisted(m), id)
  {
    forall p | p in Persisted(m) ensures p.id != id {
      var i :| 0 <= i < |m.order| && Persisted(m)[i] == p;
      assert m.order[i] in m.order;
    }
  }

  lemma {:induction false} RestoredListed(list: seq<PoolProxy>, id: string)
    requires Unlisted(list, id)
    ensures id !in AfterRestore(ProxyPool.EMPTY, list).items
  {
    if list != [] {
      InitAndLast(list);
      assert Last(list) in list;
      RestoredListed(Init(list), id);
    }
  }

  lemma {:induction false} ImportedIds(m: Pool, parsed: seq<Parsed>, newIds: seq<string>, id: string)
    requires |parsed| <= |newIds| && id !in m.items && id !in newIds
    ensures id !in AfterImport(m, parsed, newIds).pool.items
  {
    if parsed != [] {
      ImportedIds(m, Init(parsed), newIds, id);
    }
  }

  lemma {:induction false} StepForgets(s: State, step: Step, id: string, disk: bool)
    requires Inv(s) && Allowed(s, step) && Forgotten(s, id, disk) && LeavesForgotten(step, id, disk)
    ensures Forgotten(Exec(s, step), id, disk)
  {
    StepKeepsInv(s, step);
    hide Inv, Consistent, Allowed;
    PoolForgets(s, step, id, disk);
    PersistedUnlisted(Exec(s, step).g.pool, id) by {
      assert Good(Exec(s, step).g.pool) by {
        PoolIsGood(Exec(s, step));
      }
    }
    ListsOf(s, step);
  }

  lemma {:induction false} PoolIsGood(s: State)
    requires Inv(s)
    ensures Good(s.g.pool)
  {
  }

  lemma {:induction false} PoolForgets(s: State, step: Step, id: string, disk: bool)
    requires Forgotten(s, id, disk) && LeavesForgotten(step, id, disk)
    ensures id !in Exec(s, step).g.pool.items
  {
    match step
    case ImportLines(parsed, newIds, _) =>
      if |parsed| <= |newIds| {
        ImportedIds(s.g.pool, parsed, newIds, id);
      }
    case Restart => RestoredListed(s.g.disk.proxyPool, id);
    case _ =>
  }

  /** The lists of settings and file after a step are old ones, or that of the registry. */
  lemma {:induction false} ListsOf(s: State, step: Step)
    ensures var g, g' := s.g, Exec(s, step).g;
            && (g'.cfg.proxyPool == Persisted(g'.pool) || g'.cfg.proxyPool == g.cfg.proxyPool
                || (step.Restart? && g'.cfg.proxyPool == g.disk.proxyPool))
            && (g'.disk.proxyPool == g.disk.proxyPool || g'.disk.proxyPool == g'.cfg.proxyPool)
  {
    hide AfterImport, AfterPrune, AfterRemove, Persisted, Unbound, WithWorkers, Edited, Without, AfterRestore;
  }

  predicate AllLeaveForgotten(steps: seq<Step>, id: string, disk: bool) {
    forall i :: 0 <= i < |steps| ==> LeavesForgotten(steps[i], id, disk)
  }

  lemma {:induction false} RemovalForgets(s: State, id: string, saved: bool)
    requires Inv(s) && id != ""
    ensures Forgotten(Exec(s, RemoveProxy(id, saved)), id, saved)
  {
    RemoveKeepsGood(s.g.pool, id);
    hide Inv, Consistent, Unbound;
    PersistedUnlisted(AfterRemove(s.g.pool, id), id);
  }

  lemma {:induction false} StaysForgotten(cfg: Settings, steps: seq<Step>, id: string, saved: bool, more: seq<Step>)
    requires Consistent(cfg) && id != ""
    requires AllAllowed(Start(cfg), steps + [RemoveProxy(id, saved)] + more) && AllLeaveForgotten(more, id, saved)
    ensures Forgotten(ExecAll(Start(cfg), steps + [RemoveProxy(id, saved)] + more), id, saved)
  {
    hide Consistent, Forgotten, Exec, Allowed, LeavesForgotten, Inv;
    var removed := steps + [RemoveProxy(id, saved)];
    if more == [] {
      assert removed + more == removed;
      assert Init(removed) == steps && Last(removed) == RemoveProxy(id, saved);
      RunKeepsInv(cfg, steps);
      RemovalForgets(ExecAll(Start(cfg), steps), id, saved);
    } else {
      var all, init := removed + more, removed + Init(more);
      assert Init(all) == init && Last(all) == Last(more);
      assert LeavesForgotten(more[|more| - 1], id, saved);
      StaysForgotten(cfg, steps, id, saved, Init(more));
      RunKeepsInv(cfg, init);
      StepForgets(ExecAll(Start(cfg), init), Last(more), id, saved);
    }
  }

  /** A probe never brings a removed entry back: after a removal and any further steps that
      do not draw the id again, a result that comes in late changes nothing. If saving the
      removal failed there has to be no restart in between, as that reads the old file. */
  lemma {:induction false} LateProbeIsDropped(cfg: Settings, steps: seq<Step>, id: string, saved: bool, more: seq<Step>,
                                              usable: bool)
    requires Consistent(cfg) && id != ""
    requires AllAllowed(Start(cfg), steps + [RemoveProxy(id, saved)] + more) && AllLeaveForgotten(more, id, saved)
    ensures var all := steps + [RemoveProxy(id, saved)] + more;
            && id !in ExecAll(Start(cfg), all).g.pool.items
            && ExecAll(Start(cfg), all + [ProbeEnds(id, usable)]) == ExecAll(Start(cfg), all)
  {
    var all := steps + [RemoveProxy(id, saved)] + more;
    hide Consistent, AllAllowed, AllLeaveForgotten;
    StaysForgotten(cfg, steps, id, saved, more);
    assert Init(all + [ProbeEnds(id, usable)]) == all && Last(all + [ProbeEnds(id, usable)]) == ProbeEnds(id, usable);
  }

  predicate SameEndpoint(p: PoolProxy, it: Item) {
    && p.typ == it.typ && p.host == it.host && p.port == it.port
    && p.username == it.username && p.password == it.password
  }

  /** The step writes the settings file, successfully. */
  predicate Saves(step: Step) {
    match step
    case ImportLines(_, _, ok) => ok
    case PruneDead(ok) => ok
    case RemoveProxy(id, ok) => id != "" && ok
    case ToggleProxy(id, ok) => id != "" && ok
    case PersistProbes(ok) => ok
    case EditWorker(id, _, _, ok) => !Blank(id) && ok
    case DeleteWorker(_, ok) => ok
    case SaveSettings(ok) => ok
    case _ => false
  }

  /** The handler ends with a resync of the rotator. */
  predicate Resyncs(step: Step) {
    step.ImportLines? || step.PruneDead? || step.RemoveProxy? || step.EditWorker? || step.DeleteWorker?
  }

  /** A restart drops every ban and cooldown: they are not in the settings file. */
  lemma {:induction false} RestartDropsClocks(g: Gateway, i: nat)
    requires i < |AfterRestart(g).rot.workers|
    ensures i < |g.disk.workers| && AfterRestart(g).rot.workers[i] == Fresh(g.disk.workers[i])
    ensures forall now :: now > ZERO_TIME ==> AfterRestart(g).rot.workers[i].Ready(now)
  {
  }

  /** When a handler reports success a restart would lose nothing: the file holds the
      current settings, and unless only workers were edited since a probe result came in,
      those list the registry as it is. */
  lemma {:induction false} SuccessIsDurable(cfg: Settings, steps: seq<Step>, step: Step)
    requires Consistent(cfg) && AllAllowed(Start(cfg), steps + [step]) && Saves(step)
    ensures var s := ExecAll(Start(cfg), steps + [step]);
            && s.g.disk == s.g.cfg
            && (!s.unreflected ==> AfterRestart(s.g).pool == s.g.pool)
            && (Resyncs(step) || !s.stale ==> H.SpecsOf(AfterRestart(s.g).rot) == H.SpecsOf(s.g.rot))
  {
    var s := ExecAll(Start(cfg), steps + [step]);
    RunKeepsInv(cfg, steps + [step]);
    assert Init(steps + [step]) == steps && Last(steps + [step]) == step;
    SavedIsCurrent(ExecAll(Start(cfg), steps), step);
    RoundTrip(s.g.pool);
    ResyncedSpecs(H.EMPTY, s.g.disk.workers);
  }

  lemma {:induction false} SavedIsCurrent(s: State, step: Step)
    requires Allowed(s, step) && Saves(step)
    ensures Exec(s, step).g.disk == Exec(s, step).g.cfg
    ensures Resyncs(step) ==> !Exec(s, step).stale
  {
  }

  /** In any run a bound worker's proxy is found in the settings the relay reads, with
      the endpoint and credentials of the registry's entry; once no probe result is
      outstanding the relay uses it exactly when the entry is enabled and usable. */
  lemma {:induction false} BindingsResolve(cfg: Settings, steps: seq<Step>, w: Spec)
    requires Consistent(cfg) && AllAllowed(Start(cfg), steps)
    requires var s := ExecAll(Start(cfg), steps); w in s.g.cfg.workers && w.proxyId != ""
    ensures var s := ExecAll(Start(cfg), steps);
            var found := FindPoolProxy(s.g.cfg.proxyPool, w.proxyId);
            && w.proxyId in s.g.pool.items
            && found.Some?
            && SameEndpoint(found.value, s.g.pool.items[w.proxyId])
            && found.value.enabled == s.g.pool.items[w.proxyId].enabled
            && (!s.unreflected ==> (Resolve(s.g.cfg, w).Some? <==> Alive(s.g.pool, w.proxyId)))
  {
    RunKeepsInv(cfg, steps);
    var s := ExecAll(Start(cfg), steps);
    LookupAgrees(AfterRestore(ProxyPool.EMPTY, s.g.cfg.proxyPool), w.proxyId);
    LookupAgrees(s.g.pool, w.proxyId);
  }

  /** A restart loses no entry and no binding of the settings file: the registry,
      the relay's lookups and the rotator's workers are those the file lists. */
  lemma {:induction false} RestartKeepsBindings(cfg: Settings, steps: seq<Step>, id: string)
    requires Consistent(cfg) && AllAllowed(Start(cfg), steps)
    ensures var before := ExecAll(Start(cfg), steps).g;
            var after := AfterRestart(before);
            && Persisted(after.pool) == before.disk.proxyPool == after.cfg.proxyPool
            && H.SpecsOf(after.rot) == before.disk.workers == after.cfg.workers
            && FindPoolProxy(before.disk.proxyPool, id) ==
               (if id in after.pool.items then Some(ToConfig(after.pool.items[id])) else None)
            && (before.disk == before.cfg && before.cfg.proxyPool == Persisted(before.pool) ==>
                  after.pool == before.pool)
  {
    RunKeepsInv(cfg, steps);
    var before := ExecAll(Start(cfg), steps).g;
    LookupAgrees(AfterRestore(ProxyPool.EMPTY, before.disk.proxyPool), id);
    ResyncedSpecs(H.EMPTY, before.disk.workers);
    RoundTrip(before.pool);
  }

  // ---- after a failed save ----

  lemma {:induction false} InitAndLast<T>(s: seq<T>)
    requires s != []
    ensures s == Init(s) + [Last(s)]
  {
  }

  lemma {:induction false} UnboundIsShorter(workers: seq<Spec>, dead: set<string>)
    ensures |Unbound(workers, dead)| <= |workers|
  {
    if workers != [] {
      UnboundIsShorter(Init(workers), dead);
    }
  }

  ghost predicate NoneBoundTo(workers: seq<Spec>, dead: set<string>) {
    forall w :: w in workers ==> !(w.proxyId != "" && w.proxyId in dead)
  }

  lemma {:induction false} UnboundSame(workers: seq<Spec>, dead: set<string>)
    ensures Unbound(workers, dead) == workers <==> NoneBoundTo(workers, dead)
  {
    if workers != [] {
      UnboundSame(Init(workers), dead);
      UnboundIsShorter(Init(workers), dead);
      InitAndLast(workers);
    }
  }

  lemma {:induction false} WithoutIsShorter(workers: seq<Spec>, id: string)
    ensures |Without(workers, id)| <= |workers|
  {
    if workers != [] {
      WithoutIsShorter(Init(workers), id);
    }
  }

  lemma {:induction false} WithoutSame(workers: seq<Spec>, id: string)
    ensures Without(workers, id) == workers <==> forall w :: w in workers ==> w.id != id
  {
    if workers != [] {
      WithoutSame(Init(workers), id);
      WithoutIsShorter(Init(workers), id);
      InitAndLast(workers);
    }
  }

  lemma {:induction false} EditedSame(workers: seq<Spec>, id: string, apiKey: Option<string>, proxyId: Option<string>)
    ensures Edited(workers, id, apiKey, proxyId) == workers <==>
            H.FindSpec(workers, id).Some? && Updated(H.FindSpec(workers, id).value, apiKey, proxyId) ==
                                             H.FindSpec(workers, id).value
  {
    hide Updated;
    if workers != [] {
      assert workers == [workers[0]] + workers[1..];
      var edited := Edited(workers, id, apiKey, proxyId);
      if workers[0].id != id {
        EditedSame(workers[1..], id, apiKey, proxyId);
        assert edited[1..] == Edited(workers[1..], id, apiKey, proxyId);
      } else {
        assert edited[0] == Updated(workers[0], apiKey, proxyId) && edited[1..] == workers[1..];
      }
    }
  }

  lemma {:induction false} NoneNewIff(known: set<Pair>, parsed: seq<Parsed>)
    ensures NewOnes(known, parsed) == [] <==> LinePairs(parsed) <= known
  {
    if parsed != [] {
      NoneNewIff(known, Init(parsed));
    }
  }

  lemma {:induction false} ImportSame(workers: seq<Spec>, m: Pool, parsed: seq<Parsed>, newIds: seq<string>)
    requires |parsed| <= |newIds|
    ensures var im := AfterImport(m, parsed, newIds);
            WithWorkers(workers, im.pool.items, im.ids) == workers <==> LinePairs(parsed) <= PairsIn(m.items, m.order)
  {
    NoneNewIff(PairsIn(m.items, m.order), parsed);
    hide AfterImport, NewOnes, LinePairs;
    var im := AfterImport(m, parsed, newIds);
    ImportExact(m, parsed, newIds);
    AddedAreRegistered(m, parsed, newIds);
    WithWorkersMeaning(workers, im.pool.items, im.ids);
    if im.ids != [] {
      assert |ProxyIdsOf(WithWorkers(workers, im.pool.items, im.ids))| == |workers| + |im.ids|;
    }
  }

  /** The request changes the worker list: its lines have a host and port the pool lacks;
      a worker is bound to a registered proxy that is disabled or unusable, or to the proxy
      to be removed; the worker to be deleted exists; the one to be edited is new, or gets
      another key or proxy than it has. */
  ghost predicate ChangesWorkers(s: State, step: Step) {
    var workers, m := s.g.cfg.workers, s.g.pool;
    match step
    case ImportLines(parsed, _, _) => !(LinePairs(parsed) <= PairsIn(m.items, m.order))
    case PruneDead(_) => exists w :: w in workers && w.proxyId != "" && w.proxyId in m.items && !Alive(m, w.proxyId)
    case RemoveProxy(id, _) => id != "" && exists w :: w in workers && w.proxyId == id
    case EditWorker(id, apiKey, proxyId, _) =>
      !Blank(id) && (H.FindSpec(workers, id).Some? ==>
        var w := H.FindSpec(workers, id).value;
        (apiKey.Some? && apiKey.value != w.apiKey) || (proxyId.Some? && proxyId.value != w.proxyId))
    case DeleteWorker(id, _) => exists w :: w in workers && w.id == id
    case _ => false
  }

  /** The step's save does not succeed. */
  predicate FailsToSave(step: Step) {
    match step
    case ImportLines(_, _, ok) => !ok
    case PruneDead(ok) => !ok
    case RemoveProxy(_, ok) => !ok
    case EditWorker(_, _, _, ok) => !ok
    case DeleteWorker(_, ok) => !ok
    case _ => false
  }

  lemma {:induction false} PruneChanges(s: State)
    requires Good(s.g.pool)
    ensures Unbound(s.g.cfg.workers, set id | id in Select(s.g.pool, s.g.pool.order, false)) != s.g.cfg.workers <==>
            ChangesWorkers(s, PruneDead(false))
  {
    PruneKeepsGood(s.g.pool);
    hide Alive, Select, Unbound, AfterPrune, Good;
    UnboundSame(s.g.cfg.workers, set id | id in Select(s.g.pool, s.g.pool.order, false));
  }

  lemma {:induction false} RemoveChanges(s: State, id: string)
    requires id != ""
    ensures Unbound(s.g.cfg.workers, set x | x in [id]) != s.g.cfg.workers <==>
            ChangesWorkers(s, RemoveProxy(id, false))
  {
    hide Unbound;
    UnboundSame(s.g.cfg.workers, set x | x in [id]);
  }

  lemma {:induction false} EditChanges(s: State, id: string, apiKey: Option<string>, proxyId: Option<string>)
    requires !Blank(id)
    ensures Edited(s.g.cfg.workers, id, apiKey, proxyId) != s.g.cfg.workers <==>
            ChangesWorkers(s, EditWorker(id, apiKey, proxyId, false))
  {
    hide Edited;
    EditedSame(s.g.cfg.workers, id, apiKey, proxyId);
  }

  /** The worker list a failing request leaves in the settings. */
  lemma {:induction false} WorkersAfter(s: State, step: Step)
    requires FailsToSave(step)
    ensures Exec(s, step).g.cfg.workers ==
            match step
            case ImportLines(parsed, newIds, _) =>
              if |parsed| > |newIds| then s.g.cfg.workers
              else
                var im := AfterImport(s.g.pool, parsed, newIds);
                WithWorkers(s.g.cfg.workers, im.pool.items, im.ids)
            case PruneDead(_) => Unbound(s.g.cfg.workers, set id | id in Select(s.g.pool, s.g.pool.order, false))
            case RemoveProxy(id, _) => if id == "" then s.g.cfg.workers else Unbound(s.g.cfg.workers, set x | x in [id])
            case EditWorker(id, apiKey, proxyId, _) =>
              if Blank(id) then s.g.cfg.workers else Edited(s.g.cfg.workers, id, apiKey, proxyId)
            case DeleteWorker(id, _) => Without(s.g.cfg.workers, id)
    ensures Exec(s, step).g.rot == s.g.rot && Exec(s, step).g.disk == s.g.disk
  {
  }

  lemma {:induction false} ChangesWorkersMeaning(s: State, step: Step)
    requires Inv(s) && Allowed(s, step) && FailsToSave(step)
    ensures Exec(s, step).g.cfg.workers != s.g.cfg.workers <==> ChangesWorkers(s, step)
  {
    hide Exec, Unbound, Edited, Without, WithWorkers, NewOnes, AfterImport, Select, Alive, Good, Consistent;
    WorkersAfter(s, step);
    match step
    case ImportLines(parsed, newIds, _) => ImportSame(s.g.cfg.workers, s.g.pool, parsed, newIds);
    case PruneDead(_) => PruneChanges(s);
    case RemoveProxy(id, _) => if id != "" { RemoveChanges(s, id); }
    case EditWorker(id, apiKey, proxyId, _) => if !Blank(id) { EditChanges(s, id, apiKey, proxyId); }
    case DeleteWorker(id, _) => WithoutSame(s.g.cfg.workers, id);
  }

  /** A handler resyncs only after a successful save. When the save fails, rotator and file
      stay as they were, and the settings' workers change exactly if the request is one that
      changes them; so a rotator that was up to date disagrees with them exactly then. */
  lemma {:induction false} FailedSaveSkipsResync(s: State, step: Step)
    requires Inv(s) && Allowed(s, step) && FailsToSave(step)
    ensures var s' := Exec(s, step);
            && s'.g.rot == s.g.rot && s'.g.disk == s.g.disk
            && (s'.g.cfg.workers == s.g.cfg.workers <==> !ChangesWorkers(s, step))
            && (H.SpecsOf(s.g.rot) == s.g.cfg.workers ==>
                  (H.SpecsOf(s'.g.rot) == s'.g.cfg.workers <==> !ChangesWorkers(s, step)))
  {
    hide ChangesWorkers, Exec, Good, Consistent, SameButUsable;
    WorkersAfter(s, step);
    ChangesWorkersMeaning(s, step);
  }

  /** The step ends with a successful save and a resync. */
  predicate ResyncSucceeds(step: Step) {
    Resyncs(step) && Saves(step)
  }

  /** The workers the last successful resync of a run saw, or the last restart read. */
  function LastSynced(cfg: Settings, steps: seq<Step>): seq<Spec> {
    if steps == [] then cfg.workers
    else if Last(steps).Restart? then ExecAll(Start(cfg), Init(steps)).g.disk.workers
    else if ResyncSucceeds(Last(steps)) then ExecAll(Start(cfg), steps).g.cfg.workers
    else LastSynced(cfg, Init(steps))
  }

  /** In every run, however many saves fail in a row, the rotator's list is exactly that. */
  lemma {:induction false} RotatorIsLastSynced(cfg: Settings, steps: seq<Step>)
    requires AllAllowed(Start(cfg), steps)
    ensures H.SpecsOf(ExecAll(Start(cfg), steps).g.rot) == LastSynced(cfg, steps)
  {
    hide Exec, Allowed;
    if steps == [] {
      ResyncedSpecs(H.EMPTY, cfg.workers);
    } else {
      RotatorIsLastSynced(cfg, Init(steps));
      StepSyncs(ExecAll(Start(cfg), Init(steps)), Last(steps));
    }
  }

  lemma {:induction false} StepSyncs(s: State, step: Step)
    requires Allowed(s, step)
    ensures H.SpecsOf(Exec(s, step).g.rot) ==
            if step.Restart? then s.g.disk.workers
            else if ResyncSucceeds(step) then Exec(s, step).g.cfg.workers
            else H.SpecsOf(s.g.rot)
  {
    hide AfterImport, AfterPrune, AfterRemove, Persisted, Unbound, WithWorkers, Edited, Without, AfterRestore;
    if step.Traffic? {
      SpecsKept(s.g.rot, step.op);
    } else if step.Restart? {
      ResyncedSpecs(H.EMPTY, s.g.disk.workers);
    } else if ResyncSucceeds(step) {
      ResyncedSpecs(s.g.rot, Exec(s, step).g.cfg.workers);
    }
  }

  // ---- handlers and what the rotator remembers ----

  /** Everything the handlers do to the rotator: one that saves and resyncs gives it the
      configured workers, every entry with the state the last entry of its id had, or a new
      one, and leaves the cursor where it is in range; all others leave the rotator alone. */
  lemma {:induction false} HandlerKeepsClocks(s: State, step: Step)
    requires Allowed(s, step) && !step.Restart? && !step.Traffic?
    ensures var r, g' := s.g.rot, Exec(s, step).g;
            if ResyncSucceeds(step) then
              && |g'.rot.workers| == |g'.cfg.workers|
              && (forall i :: 0 <= i < |g'.rot.workers| ==>
                    g'.rot.workers[i].spec == g'.cfg.workers[i] && H.StateKept(r.workers, g'.rot.workers[i]))
              && g'.rot.next == (if r.next < |g'.rot.workers| then r.next else 0)
            else g'.rot == r
  {
    hide AfterImport, AfterPrune, AfterRemove, Persisted, Unbound, WithWorkers, Edited, Without, H.StateKept;
    H.SyncInPlainTerms(s.g.rot, Exec(s, step).g.cfg.workers);
    ResyncedRotator(s, step);
  }

  lemma {:induction false} ResyncedRotator(s: State, step: Step)
    requires Allowed(s, step) && !step.Restart? && !step.Traffic?
    ensures Exec(s, step).g.rot ==
            if ResyncSucceeds(step) then SyncTo(s.g.rot, Exec(s, step).g.cfg.workers) else s.g.rot
  {
    hide AfterImport, AfterPrune, AfterRemove, Persisted, Unbound, WithWorkers, Edited, Without, SyncTo;
  }

  /** Every entry with the id, and there is one, is banned until b or longer. */
  ghost predicate BannedUntil(r: Rot, id: string, b: Time) {
    && (exists i :: 0 <= i < |r.workers| && r.workers[i].spec.id == id)
    && forall i :: 0 <= i < |r.workers| && r.workers[i].spec.id == id ==> r.workers[i].bannedUntil >= b
  }

  /** The step is no restart, no traffic that shortens a ban of the id to end before b, and
      it leaves the id configured. */
  ghost predicate SparesBan(s: State, step: Step, id: string, b: Time) {
    match step
    case Restart => false
    case Traffic(op) => H.KeepsBanAt(op, id, b)
    case _ => exists i :: 0 <= i < |Exec(s, step).g.cfg.workers| && Exec(s, step).g.cfg.workers[i].id == id
  }

  ghost predicate AllSpareBan(s: State, steps: seq<Step>, id: string, b: Time) {
    steps == [] ||
    (AllSpareBan(s, Init(steps), id, b) && SparesBan(ExecAll(s, Init(steps)), Last(steps), id, b))
  }

  lemma {:induction false} StepSparesBan(s: State, step: Step, id: string, b: Time)
    requires Allowed(s, step) && SparesBan(s, step, id, b) && BannedUntil(s.g.rot, id, b)
    ensures BannedUntil(Exec(s, step).g.rot, id, b)
  {
    hide Exec, Allowed, BannedUntil, H.StateKept, H.KeepsBanAt;
    if step.Traffic? {
      TrafficSparesBan(s, step.op, id, b);
    } else {
      HandlerKeepsClocks(s, step);
      if ResyncSucceeds(step) {
        var r' := Exec(s, step).g.rot;
        var i :| 0 <= i < |r'.workers| && Exec(s, step).g.cfg.workers[i].id == id;
        KeptStateSparesBan(s.g.rot, r', id, b, i);
      }
    }
  }

  lemma {:induction false} KeptStateSparesBan(r: Rot, r': Rot, id: string, b: Time, i: nat)
    requires BannedUntil(r, id, b) && i < |r'.workers| && r'.workers[i].spec.id == id
    requires forall k :: 0 <= k < |r'.workers| ==> H.StateKept(r.workers, r'.workers[k])
    ensures BannedUntil(r', id, b)
  {
    forall k | 0 <= k < |r'.workers| && r'.workers[k].spec.id == id
      ensures r'.workers[k].bannedUntil >= b
    {
      assert H.StateKept(r.workers, r'.workers[k]);
    }
  }

  lemma {:induction false} TrafficSparesBan(s: State, op: H.Op, id: string, b: Time)
    requires Allowed(s, Traffic(op)) && H.KeepsBanAt(op, id, b) && BannedUntil(s.g.rot, id, b)
    ensures BannedUntil(Exec(s, Traffic(op)).g.rot, id, b)
  {
    assert H.AllBanned(s.g.rot, id, b);
    H.StepKeepsBan(s.g.rot, op, id, b);
    assert H.AllBanned(Exec(s, Traffic(op)).g.rot, id, b);
  }

  /** A ban outlives every run of handlers, probes and traffic that leaves its worker
      configured: whatever an operator does meanwhile, no resync sets a worker free. */
  lemma {:induction false} BanOutlivesHandlers(s: State, steps: seq<Step>, id: string, b: Time)
    requires AllAllowed(s, steps) && AllSpareBan(s, steps, id, b) && BannedUntil(s.g.rot, id, b)
    ensures BannedUntil(ExecAll(s, steps).g.rot, id, b)
  {
    hide Exec, Allowed, BannedUntil, SparesBan;
    if steps != [] {
      BanOutlivesHandlers(s, Init(steps), id, b);
      StepSparesBan(ExecAll(s, Init(steps)), Last(steps), id, b);
    }
  }

  // ---- single steps in plain terms ----

  /** A probe that ends sets the flag of its entry to its result, and nothing else. */
  lemma {:induction false} ProbeSetsFlag(s: State, id: string, usable: bool)
    ensures var m, m' := s.g.pool, Exec(s, ProbeEnds(id, usable)).g.pool;
            && m'.order == m.order && m'.items.Keys == m.items.Keys
            && (forall x :: x in m.items && x != id ==> m'.items[x] == m.items[x])
            && (id in m.items ==> m'.items[id].usable == usable && m'.items[id] == m.items[id].(usable := usable))
            && Exec(s, ProbeEnds(id, usable)).g == s.g.(pool := m')
  {
  }

  /** A toggle turns the flag of its entry over, and the settings show it. */
  lemma {:induction false} ToggleFlipsFlag(s: State, id: string, ok: bool)
    requires id != "" && Good(s.g.pool)
    ensures var m, g' := s.g.pool, Exec(s, ToggleProxy(id, ok)).g;
            && g'.pool.order == m.order && g'.pool.items.Keys == m.items.Keys
            && (forall x :: x in m.items && x != id ==> g'.pool.items[x] == m.items[x])
            && (id in m.items ==> g'.pool.items[id].enabled != m.items[id].enabled
                                  && g'.pool.items[id] == m.items[id].(enabled := !m.items[id].enabled))
            && g'.rot == s.g.rot && g'.cfg.workers == s.g.cfg.workers
            && (id in m.items ==> exists i :: 0 <= i < |g'.cfg.proxyPool| && g'.cfg.proxyPool[i].id == id
                                              && g'.cfg.proxyPool[i].enabled != m.items[id].enabled)
  {
    if id in s.g.pool.items {
      var i :| 0 <= i < |s.g.pool.order| && s.g.pool.order[i] == id;
      var list := Exec(s, ToggleProxy(id, ok)).g.cfg.proxyPool;
      assert list == Persisted(Toggled(s.g.pool, id));
      assert list[i].id == id && list[i].enabled != s.g.pool.items[id].enabled;
    }
  }

  /** A label is set on its entry, and on nothing else. */
  lemma {:induction false} SourceMeaning(m: Pool, id: string, source: string)
    ensures var m' := AfterSetSource(m, id, source);
            && m'.order == m.order && m'.items.Keys == m.items.Keys
            && (forall x :: x in m.items && x != id ==> m'.items[x] == m.items[x])
            && (id in m.items ==> m'.items[id] == m.items[id].(source := source))
  {
  }

  /** What the settings list of the pool: every entry in order, each field as it is. */
  lemma {:induction false} PersistedMeaning(m: Pool, i: nat)
    requires m.Valid() && i < |m.order|
    ensures |Persisted(m)| == |m.order| && m.order[i] in m.items
    ensures var p, it := Persisted(m)[i], m.items[m.order[i]];
            && p.id == it.id == m.order[i] && p.name == it.name && p.typ == it.typ && p.host == it.host
            && p.port == it.port && p.username == it.username && p.password == it.password
            && p.enabled == it.enabled && p.usable == it.usable && p.source == it.source
  {
    assert m.order[i] in m.order;
  }

  /** And what a restart makes of one: the same, but for a type or a name that is missing. */
  lemma {:induction false} RestoredMeaning(p: PoolProxy)
    ensures var it := Restored(p);
            && it.id == p.id && it.host == p.host && it.port == p.port && it.username == p.username
            && it.password == p.password && it.enabled == p.enabled && it.usable == p.usable && it.source == p.source
            && it.typ == (if p.typ == "" then "http" else p.typ)
            && it.name == (if p.name == "" then it.typ + "://" + p.host + ":" + Itoa(p.port) else p.name)
  {
    var typ := Restored(p).typ;
    assert typ + "://" + (p.host + ":" + Itoa(p.port)) == typ + "://" + p.host + ":" + Itoa(p.port);
  }

  /** The proxy of a worker in plain terms: none if it is bound to none; else the first entry
      of the settings with that id, if it is enabled and usable; else none. */
  lemma {:induction false} ResolveMeaning(cfg: Settings, w: Spec)
    ensures match Resolve(cfg, w)
            case Some(p) =>
              && w.proxyId != "" && p.id == w.proxyId && p.enabled && p.usable
              && exists i :: 0 <= i < |cfg.proxyPool| && cfg.proxyPool[i] == p
                             && forall j :: 0 <= j < i ==> cfg.proxyPool[j].id != w.proxyId
            case None =>
              || w.proxyId == ""
              || (forall j :: 0 <= j < |cfg.proxyPool| ==> cfg.proxyPool[j].id != w.proxyId)
              || exists i :: 0 <= i < |cfg.proxyPool| && cfg.proxyPool[i].id == w.proxyId
                             && (forall j :: 0 <= j < i ==> cfg.proxyPool[j].id != w.proxyId)
                             && !(cfg.proxyPool[i].enabled && cfg.proxyPool[i].usable)
  {
    FoundFirst(cfg.proxyPool, w.proxyId);
  }

  lemma {:induction false} FoundFirst(list: seq<PoolProxy>, id: string)
    ensures match FindPoolProxy(list, id)
            case None => forall j :: 0 <= j < |list| ==> list[j].id != id
            case Some(p) => exists i :: 0 <= i < |list| && list[i] == p && list[i].id == id
                                        && forall j :: 0 <= j < i ==> list[j].id != id
  {
    if list != [] {
      FoundFirst(list[1..], id);
      assert forall j :: 0 < j < |list| ==> list[j] == list[1..][j - 1];
      if list[0].id != id && FindPoolProxy(list, id).Some? {
        var p := FindPoolProxy(list, id).value;
        var i :| 0 <= i < |list[1..]| && list[1..][i] == p && list[1..][i].id == id
                 && forall j :: 0 <= j < i ==> list[1..][j].id != id;
        assert list[i + 1] == p;
      }
    }
  }

  /** The name of a new worker in plain terms: its proxy's host, if that is free, and else
      the host, a dash and the least number from 2 on that makes a free name. */
  ghost predicate NamedAfter(name: string, host: string, used: set<string>) {
    if host !in used then name == host
    else exists n :: 2 <= n <= |used| + 1 && name == host + "-" + Itoa(n) && name !in used
                     && forall k :: 2 <= k < n ==> host + "-" + Itoa(k) in used
  }

  lemma {:induction false} UniqueNameMeaning(host: string, used: set<string>)
    ensures NamedAfter(UniqueName(host, used), host, used)
  {
    var n := FirstFree(host, used, 1);
    assert Candidate(host, 1) == host;
    if host in used {
      assert forall k :: 2 <= k < n ==> Candidate(host, k) == host + "-" + Itoa(k);
      assert UniqueName(host, used) == host + "-" + Itoa(n);
    }
  }

  /** Each worker an import adds is named after the host of its proxy, given the ids there
      were before it. */
  lemma {:induction false} AddedNames(workers: seq<Spec>, items: map<string, Item>, ids: seq<string>, i: nat)
    requires (forall id :: id in ids ==> id in items) && i < |ids|
    ensures var all := WithWorkers(workers, items, ids);
            && |all| == |workers| + |ids| && all[|workers| + i].proxyId == ids[i] && ids[i] in items
            && NamedAfter(all[|workers| + i].id, items[ids[i]].host,
                          (set k | 0 <= k < |workers| + i :: all[k].id))
  {
    hide NamedAfter, UniqueName;
    assert ids == Init(ids) + [Last(ids)];
    var before := WithWorkers(workers, items, Init(ids));
    var n := |ids| - 1;
    if n > 0 && i < n {
      AddedNames(workers, items, Init(ids), i);
      var all := WithWorkers(workers, items, ids);
      assert forall k :: 0 <= k < |before| ==> all[k] == before[k];
      assert (set k | 0 <= k < |workers| + i :: all[k].id) == (set k | 0 <= k < |workers| + i :: before[k].id);
    } else {
      WithWorkersMeaning(workers, items, Init(ids));
      assert |ProxyIdsOf(before)| == |workers| + n;
      UniqueNameMeaning(items[Last(ids)].host, IdsOf(before));
      var all := WithWorkers(workers, items, ids);
      assert forall k :: 0 <= k < |before| ==> all[k] == before[k];
      IdsByIndex(before);
      assert (set k | 0 <= k < |workers| + i :: all[k].id) == (set k | 0 <= k < |before| :: before[k].id);
    }
  }

  lemma {:induction false} IdsByIndex(workers: seq<Spec>)
    ensures IdsOf(workers) == set k | 0 <= k < |workers| :: workers[k].id
  {
    forall id | id in IdsOf(workers) ensures id in set k | 0 <= k < |workers| :: workers[k].id {
      var w :| w in workers && w.id == id;
      var k :| 0 <= k < |workers| && workers[k] == w;
    }
  }

  /** A request without a usable id is refused and changes nothing. */
  lemma {:induction false} BlankIdRefused(s: State, id: string, apiKey: Option<string>, proxyId: Option<string>,
                                          ok: bool)
    requires forall i :: 0 <= i < |id| ==> IsSpace(id[i])
    ensures Exec(s, EditWorker(id, apiKey, proxyId, ok)) == s
    ensures AfterEditWorker(s.g, id, apiKey, proxyId, ok) == s.g
    ensures id == "" ==> Exec(s, RemoveProxy(id, ok)) == s && Exec(s, ToggleProxy(id, ok)) == s
    ensures id == "" ==> AfterApiRemove(s.g, id, ok) == s.g && AfterApiToggle(s.g, id, ok) == s.g
  {
  }

  /** Saving settings or probe results writes what the settings hold, and leaves workers and
      rotator alone. */
  lemma {:induction false} OtherSaves(s: State, ok: bool)
    ensures var g, g' := s.g, Exec(s, SaveSettings(ok)).g;
            g'.pool == g.pool && g'.rot == g.rot && g'.cfg == g.cfg && g'.disk == if ok then g.cfg else g.disk
    ensures var g, g' := s.g, Exec(s, PersistProbes(ok)).g;
            && g'.pool == g.pool && g'.rot == g.rot && g'.cfg.workers == g.cfg.workers
            && g'.cfg.proxyPool == Persisted(g.pool) && g'.disk == if ok then g'.cfg else g.disk
  {
  }
}
