/** The worker scheduler: a cursor over a list of workers, each with a cooldown
    clock, a ban clock and a failure counter.

    `Rot` is the abstract value of a rotator; `Pick`, `MarkById` and `SyncTo` say
    what each locked section does to it. The class `Rotator` below has the mutable
    fields and the scanning loops, and each of its methods is proved to have the
    effect of one of these functions. */
module Scheduler {
  import opened Common

  /** Nanoseconds since the zero time, so every clock reading is positive. */
  type Time = int

  const ZERO_TIME: Time := 0
  const SECOND := 1_000_000_000
  const DAY := 24 * 3600 * SECOND
  const BAN_DURATION := DAY
  const AUTO_DISABLE_AFTER := 5
  const AUTO_DISABLE_FOR := 600 * SECOND
  const COOLDOWN_BASE := 5 * SECOND
  const COOLDOWN_MAX := 60 * SECOND

  datatype Spec = Spec(id: string, apiKey: string, proxyId: string)

  datatype Worker = Worker(spec: Spec, cooldownUntil: Time, bannedUntil: Time, fails: nat,
                           lastError: string, lastErrorAt: Time)
  {
    predicate Ready(now: Time) {
      cooldownUntil < now && bannedUntil < now
    }

    predicate Banned(now: Time) {
      now < bannedUntil
    }

    /** Recoverable: cooling down and not banned. */
    predicate Cooling(now: Time) {
      !Banned(now) && now < cooldownUntil
    }

    function Status(now: Time): string {
      if Banned(now) then "banned-24h" else if now < cooldownUntil then "cooldown" else "ready"
    }
  }

  datatype Rot = Rot(workers: seq<Worker>, next: nat)
  {
    predicate Valid() {
      if workers == [] then next == 0 else next < |workers|
    }

    /** The index reached after i steps from the cursor. */
    function At(i: nat): (k: nat)
      requires workers != []
      ensures k < |workers|
    {
      (next + i) % |workers|
    }

    predicate Distinct() {
      forall i, j :: 0 <= i < j < |workers| ==> workers[i].spec.id != workers[j].spec.id
    }
  }

  predicate DistinctSpecs(specs: seq<Spec>) {
    forall i, j :: 0 <= i < j < |specs| ==> specs[i].id != specs[j].id
  }

  function Fresh(spec: Spec): Worker {
    Worker(spec, ZERO_TIME, ZERO_TIME, 0, "", ZERO_TIME)
  }

  // ---- selection ----

  /** The least offset from i on whose worker is ready and not excluded. */
  function ScanReady(r: Rot, now: Time, exclude: set<string>, i: nat): (o: Option<nat>)
    requires i <= |r.workers|
    decreases |r.workers| - i
  {
    if i == |r.workers| then None
    else if r.workers[r.At(i)].Ready(now) && r.workers[r.At(i)].spec.id !in exclude then Some(i)
    else ScanReady(r, now, exclude, i + 1)
  }

  /** The least index from i on whose worker is cooling down. */
  function ScanCooling(ws: seq<Worker>, now: Time, i: nat): (o: Option<nat>)
    requires i <= |ws|
    decreases |ws| - i
  {
    if i == |ws| then None else if ws[i].Cooling(now) then Some(i) else ScanCooling(ws, now, i + 1)
  }

  /** The index a pick chooses, and the index its cursor moves just past. */
  datatype Choice = Choice(chosen: nat, past: nat)

  /** Steps 1 to 3: a ready untried worker, else any ready one, else one cooling down. */
  function Choose(r: Rot, now: Time, exclude: set<string>): Option<Choice>
    requires r.workers != []
  {
    match ScanReady(r, now, exclude, 0)
    case Some(i) => Some(Choice(r.At(i), r.At(i)))
    case None =>
      match ScanReady(r, now, {}, 0)
      case Some(i) => Some(Choice(r.At(i), r.next))
      case None =>
        match ScanCooling(r.workers, now, 0)
        case Some(k) => Some(Choice(k, r.next))
        case None => None
  }

  /** One pick: the new rotator and the index chosen, if any. */
  function Pick(r: Rot, now: Time, exclude: set<string>): (Rot, Option<nat>) {
    if r.workers == [] then (r, None)
    else match Choose(r, now, exclude)
      case None => (r, None)
      case Some(c) => (r.(next := (c.past + 1) % |r.workers|), Some(c.chosen))
  }

  // ---- marks ----

  datatype Mark =
    | Success
    | Cooldown(now: Time)
    | Ban(dur: Time, now: Time, midnight: Time)  // midnight: start of the local day of now
    | Error(message: string, now: Time)

  function Pow2(n: nat): nat {
    if n == 0 then 1 else 2 * Pow2(n - 1)
  }

  function NextMidnight(midnight: Time): Time {
    midnight + DAY
  }

  function BanEnd(dur: Time, now: Time, midnight: Time): Time {
    if dur == BAN_DURATION then NextMidnight(midnight) else now + dur
  }

  const MAX_MESSAGE := 400

  function ApplyMark(w: Worker, m: Mark): Worker {
    match m
    case Success => w.(fails := 0)
    case Cooldown(now) =>
      if w.fails + 1 >= AUTO_DISABLE_AFTER then
        w.(fails := 0, cooldownUntil := now + AUTO_DISABLE_FOR)
      else
        w.(fails := w.fails + 1, cooldownUntil := now + Min(COOLDOWN_BASE * Pow2(w.fails), COOLDOWN_MAX))
    case Ban(dur, now, midnight) =>
      w.(fails := 0, cooldownUntil := ZERO_TIME, bannedUntil := BanEnd(dur, now, midnight))
    case Error(message, now) =>
      w.(lastError := if |message| > MAX_MESSAGE then message[..MAX_MESSAGE] else message, lastErrorAt := now)
  }

  /** The first worker with the given id, from index i on. */
  function FindFrom(ws: seq<Worker>, id: string, i: nat): (o: Option<nat>)
    requires i <= |ws|
    ensures o.Some? ==> i <= o.value < |ws| && ws[o.value].spec.id == id
    ensures o.Some? ==> forall j :: i <= j < o.value ==> ws[j].spec.id != id
    ensures o.None? ==> forall j :: i <= j < |ws| ==> ws[j].spec.id != id
    decreases |ws| - i
  {
    if i == |ws| then None else if ws[i].spec.id == id then Some(i) else FindFrom(ws, id, i + 1)
  }

  function MarkById(r: Rot, id: string, m: Mark): Rot {
    match FindFrom(r.workers, id, 0)
    case None => r
    case Some(i) => r.(workers := r.workers[i := ApplyMark(r.workers[i], m)])
  }

  // ---- resync ----

  /** The last worker with the given id: later entries overwrite earlier ones in
      the map Sync builds. */
  function LastWith(ws: seq<Worker>, id: string): (o: Option<Worker>)
    ensures o.Some? ==> exists j :: 0 <= j < |ws| && ws[j] == o.value && o.value.spec.id == id
    ensures o.None? ==> forall j :: 0 <= j < |ws| ==> ws[j].spec.id != id
  {
    if ws == [] then None
    else if ws[|ws| - 1].spec.id == id then Some(ws[|ws| - 1])
    else LastWith(ws[..|ws| - 1], id)
  }

  /** The worker a spec gives: runtime state is carried over by id. */
  function Carry(ws: seq<Worker>, spec: Spec): Worker {
    match LastWith(ws, spec.id)
    case None => Fresh(spec)
    case Some(w) => w.(spec := spec)
  }

  function SyncTo(r: Rot, specs: seq<Spec>): (r': Rot)
    ensures |r'.workers| == |specs|
    ensures forall i :: 0 <= i < |specs| ==> r'.workers[i].spec == specs[i]
  {
    Rot(seq(|specs|, i requires 0 <= i < |specs| => Carry(r.workers, specs[i])),
        if r.next >= |specs| then 0 else r.next)
  }

  /** A ready worker count, as the admin API reports it. */
  function CountReady(ws: seq<Worker>, now: Time): nat {
    if ws == [] then 0
    else CountReady(ws[..|ws| - 1], now) + (if ws[|ws| - 1].Ready(now) then 1 else 0)
  }

  // ---- the mutable objects ----

  class State {
    var id: string
    var apiKey: string
    var proxyId: string
    var cooldownUntil: Time
    var bannedUntil: Time
    var consecutiveFails: nat
    var lastError: string
    var lastErrorAt: Time

    constructor (spec: Spec)
      ensures View() == Fresh(spec)
    {
      id, apiKey, proxyId := spec.id, spec.apiKey, spec.proxyId;
      cooldownUntil, bannedUntil, consecutiveFails := ZERO_TIME, ZERO_TIME, 0;
      lastError, lastErrorAt := "", ZERO_TIME;
    }

    function View(): Worker
      reads this
    {
      Worker(Spec(id, apiKey, proxyId), cooldownUntil, bannedUntil, consecutiveFails, lastError, lastErrorAt)
    }
  }

  ghost function Views(ws: seq<State>): (v: seq<Worker>)
    reads ws
    ensures |v| == |ws|
    ensures forall i :: 0 <= i < |ws| ==> v[i] == ws[i].View()
  {
    seq(|ws|, i requires 0 <= i < |ws| reads ws => ws[i].View())
  }

  class Rotator {
    var workers: seq<State>
    var nextIdx: nat

    /** No two list entries are the same object, and the cursor is in range. */
    ghost predicate Valid()
      reads this, workers
    {
      && (forall i, j :: 0 <= i < j < |workers| ==> workers[i] != workers[j])
      && View().Valid()
    }

    ghost function View(): (r: Rot)
      reads this, workers
      ensures |r.workers| == |workers| && r.next == nextIdx
      ensures forall i :: 0 <= i < |workers| ==> r.workers[i] == workers[i].View()
    {
      Rot(Views(workers), nextIdx)
    }

    constructor ()
      ensures Valid() && View() == Rot([], 0) && fresh(workers)
    {
      workers, nextIdx := [], 0;
    }

    /** The previous workers by id; a later entry overwrites an earlier one. */
    method IndexById() returns (prev: map<string, State>)
      requires Valid()
      ensures forall id :: id in prev ==> prev[id] in workers
      ensures forall id :: LastWith(View().workers, id) == if id in prev then Some(prev[id].View()) else None
    {
      prev := map[];
      ghost var ws := View().workers;
      for i := 0 to |workers|
        invariant forall id :: id in prev ==> prev[id] in workers
        invariant forall id :: LastWith(ws[..i], id) == if id in prev then Some(prev[id].View()) else None
      {
        prev := prev[workers[i].id := workers[i]];
        assert ws[..i + 1][..i] == ws[..i];
      }
      assert ws[..|workers|] == ws;
    }

    /** Replaces the worker set by fresh objects, carrying runtime state over by id. */
    method Sync(specs: seq<Spec>)
      requires Valid()
      modifies this
      ensures Valid() && fresh(workers)
      ensures View() == SyncTo(old(View()), specs)
    {
      ghost var before := View();
      var prev := IndexById();
      var next := BuildNext(prev, specs, before);
      workers := next;
      if nextIdx >= |workers| {
        nextIdx := 0;
      }
      assert View().workers == SyncTo(before, specs).workers;
    }

    static method BuildNext(prev: map<string, State>, specs: seq<Spec>, ghost before: Rot) returns (next: seq<State>)
      requires forall id :: LastWith(before.workers, id) == if id in prev then Some(prev[id].View()) else None
      ensures fresh(next) && |next| == |specs|
      ensures forall j, k :: 0 <= j < k < |next| ==> next[j] != next[k]
      ensures forall j :: 0 <= j < |next| ==> next[j].View() == Carry(before.workers, specs[j])
    {
      next := [];
      for i := 0 to |specs|
        invariant |next| == i && fresh(next)
        invariant forall j, k :: 0 <= j < k < i ==> next[j] != next[k]
        invariant forall j :: 0 <= j < i ==> next[j].View() == Carry(before.workers, specs[j])
      {
        var state := CarryOver(prev, specs[i], before);
        next := next + [state];
      }
    }

    /** One iteration of Sync: a fresh worker, with the state its id had before. */
    static method CarryOver(prev: map<string, State>, spec: Spec, ghost before: Rot) returns (state: State)
      requires LastWith(before.workers, spec.id) == if spec.id in prev then Some(prev[spec.id].View()) else None
      ensures fresh(state) && state.View() == Carry(before.workers, spec)
    {
      state := new State(spec);
      if spec.id in prev {
        var p := prev[spec.id];
        state.cooldownUntil := p.cooldownUntil;
        state.bannedUntil := p.bannedUntil;
        state.consecutiveFails := p.consecutiveFails;
        state.lastError := p.lastError;
        state.lastErrorAt := p.lastErrorAt;
      }
    }

    /** The scan of steps 1 and 2 of a pick: an offset from the cursor. */
    method FirstReady(now: Time, exclude: set<string>) returns (o: Option<nat>)
      requires Valid()
      ensures o == ScanReady(View(), now, exclude, 0)
      ensures o.Some? ==> o.value < |workers|
    {
      for i := 0 to |workers|
        invariant ScanReady(View(), now, exclude, 0) == ScanReady(View(), now, exclude, i)
      {
        var s := workers[(nextIdx + i) % |workers|];
        assert s.View() == View().workers[View().At(i)];
        if now > s.cooldownUntil && now > s.bannedUntil && s.id !in exclude {
          return Some(i);
        }
      }
      return None;
    }

    /** The scan of step 3 of a pick: a list index. */
    method FirstCooling(now: Time) returns (o: Option<nat>)
      requires Valid()
      ensures o == ScanCooling(View().workers, now, 0)
      ensures o.Some? ==> o.value < |workers|
    {
      for i := 0 to |workers|
        invariant ScanCooling(View().workers, now, 0) == ScanCooling(View().workers, now, i)
      {
        if !(now < workers[i].bannedUntil) && now < workers[i].cooldownUntil {
          return Some(i);
        }
      }
      return None;
    }

    /** The three scans of a pick. */
    method FindChoice(now: Time, exclude: set<string>) returns (c: Option<Choice>)
      requires Valid() && workers != []
      ensures c == Choose(View(), now, exclude)
      ensures c.Some? ==> c.value.chosen < |workers|
    {
      var o := FirstReady(now, exclude);
      if o.Some? {
        var idx := (nextIdx + o.value) % |workers|;
        assert idx == View().At(o.value);
        return Some(Choice(idx, idx));
      }
      o := FirstReady(now, {});
      if o.Some? {
        var idx := (nextIdx + o.value) % |workers|;
        assert idx == View().At(o.value);
        return Some(Choice(idx, nextIdx));
      }
      o := FirstCooling(now);
      if o.Some? {
        return Some(Choice(o.value, nextIdx));
      }
      return None;
    }

    /** The selection shared by Pick and PickExcluding. */
    method PickExcluding(now: Time, exclude: set<string>) returns (w: State?)
      requires Valid()
      modifies this`nextIdx
      ensures Valid()
      ensures View() == Pick(old(View()), now, exclude).0
      ensures match Pick(old(View()), now, exclude).1
              case None => w == null
              case Some(k) => k < |workers| && w == workers[k]
    {
      if |workers| == 0 {
        return null;
      }
      var c := FindChoice(now, exclude);
      if c.None? {
        return null;
      }
      nextIdx := (c.value.past + 1) % |workers|;
      return workers[c.value.chosen];
    }

    /** The first entry with the given id. */
    method Find(id: string) returns (w: State?)
      requires Valid()
      ensures match FindFrom(View().workers, id, 0)
              case None => w == null
              case Some(i) => w == workers[i]
    {
      for i := 0 to |workers|
        invariant FindFrom(View().workers, id, 0) == FindFrom(View().workers, id, i)
      {
        if workers[i].id == id {
          return workers[i];
        }
      }
      return null;
    }

    /** A view that differs from r at the first entry with the given id only. */
    lemma {:induction false} OneChanged(r: Rot, id: string, m: Mark)
      requires |workers| == |r.workers| && nextIdx == r.next
      requires FindFrom(r.workers, id, 0).Some?
      requires var i := FindFrom(r.workers, id, 0).value;
               && workers[i].View() == ApplyMark(r.workers[i], m)
               && forall j :: 0 <= j < |workers| && j != i ==> workers[j].View() == r.workers[j]
      ensures View() == MarkById(r, id, m)
    {
      assert View().workers == MarkById(r, id, m).workers;
    }

    method MarkSuccess(id: string)
      requires Valid()
      modifies workers
      ensures Valid() && View() == MarkById(old(View()), id, Success)
    {
      ghost var before := View();
      var w := Find(id);
      if w != null {
        w.consecutiveFails := 0;
        OneChanged(before, id, Success);
      }
    }

    method MarkCooldown(id: string, now: Time)
      requires Valid()
      modifies workers
      ensures Valid() && View() == MarkById(old(View()), id, Cooldown(now))
    {
      ghost var before := View();
      var w := Find(id);
      if w == null {
        return;
      }
      w.consecutiveFails := w.consecutiveFails + 1;
      if w.consecutiveFails >= AUTO_DISABLE_AFTER {
        w.cooldownUntil := now + AUTO_DISABLE_FOR;
        w.consecutiveFails := 0;
        OneChanged(before, id, Cooldown(now));
        return;
      }
      var backoff := COOLDOWN_BASE * Pow2(w.consecutiveFails - 1);
      if backoff > COOLDOWN_MAX {
        backoff := COOLDOWN_MAX;
      }
      w.cooldownUntil := now + backoff;
      OneChanged(before, id, Cooldown(now));
    }

    method MarkBan(id: string, dur: Time, now: Time, midnight: Time)
      requires Valid()
      modifies workers
      ensures Valid() && View() == MarkById(old(View()), id, Ban(dur, now, midnight))
    {
      ghost var before := View();
      var w := Find(id);
      if w == null {
        return;
      }
      if dur == BAN_DURATION {
        w.bannedUntil := NextMidnight(midnight);
      } else {
        w.bannedUntil := now + dur;
      }
      w.cooldownUntil := ZERO_TIME;
      w.consecutiveFails := 0;
      OneChanged(before, id, Ban(dur, now, midnight));
    }

    method MarkError(id: string, message: string, now: Time)
      requires Valid()
      modifies workers
      ensures Valid() && View() == MarkById(old(View()), id, Error(message, now))
    {
      ghost var before := View();
      var w := Find(id);
      if w == null {
        return;
      }
      w.lastError := if |message| > MAX_MESSAGE then message[..MAX_MESSAGE] else message;
      w.lastErrorAt := now;
      OneChanged(before, id, Error(message, now));
    }

    method ReadyCount(now: Time) returns (n: nat)
      requires Valid()
      ensures n == CountReady(View().workers, now)
    {
      n := 0;
      ghost var ws := View().workers;
      for i := 0 to |workers|
        invariant n == CountReady(ws[..i], now)
      {
        assert ws[..i + 1][..i] == ws[..i];
        if now > workers[i].cooldownUntil && now > workers[i].bannedUntil {
          n := n + 1;
        }
      }
      assert ws[..|workers|] == ws;
    }
  }
}
