/** What a pick chooses, and how long a ready worker can be passed over. */
module Selection {
  import opened Common
  import opened Scheduler

  predicate Eligible(r: Rot, now: Time, exclude: set<string>, k: nat)
    requires k < |r.workers|
  {
    r.workers[k].Ready(now) && r.workers[k].spec.id !in exclude
  }

  /** When the later of the worker's two clocks runs out. */
  function LastClock(w: Worker): Time {
    if w.cooldownUntil < w.bannedUntil then w.bannedUntil else w.cooldownUntil
  }

  /** How many steps the cursor is behind index k, going round. */
  function Distance(r: Rot, k: nat): (d: nat)
    requires r.Valid() && k < |r.workers|
    ensures d < |r.workers|
  {
    if r.next <= k then k - r.next else k + |r.workers| - r.next
  }

  lemma {:induction false} WrapOnce(a: nat, n: nat)
    requires a < 2 * n
    ensures a % n == if a < n then a else a - n
  {
  }

  lemma {:induction false} AtDistance(r: Rot, k: nat)
    requires r.Valid() && k < |r.workers|
    ensures r.At(Distance(r, k)) == k
  {
    WrapOnce(r.next + Distance(r, k), |r.workers|);
  }

  lemma {:induction false} DistanceAt(r: Rot, i: nat)
    requires r.Valid() && i < |r.workers|
    ensures Distance(r, r.At(i)) == i
  {
    WrapOnce(r.next + i, |r.workers|);
  }

  lemma {:induction false} ScanReadyMeaning(r: Rot, now: Time, exclude: set<string>, i: nat)
    requires r.Valid() && i <= |r.workers|
    ensures match ScanReady(r, now, exclude, i)
            case None => forall k :: 0 <= k < |r.workers| && i <= Distance(r, k) ==> !Eligible(r, now, exclude, k)
            case Some(o) =>
              && i <= o < |r.workers|
              && Eligible(r, now, exclude, r.At(o))
              && Distance(r, r.At(o)) == o
              && forall k :: 0 <= k < |r.workers| && i <= Distance(r, k) && Eligible(r, now, exclude, k) ==>
                               o <= Distance(r, k)
    decreases |r.workers| - i
  {
    if i < |r.workers| {
      DistanceAt(r, i);
      ScanReadyMeaning(r, now, exclude, i + 1);
      forall k | 0 <= k < |r.workers| && Distance(r, k) == i ensures k == r.At(i) {
        AtDistance(r, k);
      }
    }
  }

  lemma {:induction false} ScanCoolingMeaning(ws: seq<Worker>, now: Time, i: nat)
    requires i <= |ws|
    ensures match ScanCooling(ws, now, i)
            case None => forall k :: i <= k < |ws| ==> !ws[k].Cooling(now)
            case Some(o) => i <= o < |ws| && ws[o].Cooling(now) && forall k :: i <= k < o ==> !ws[k].Cooling(now)
    decreases |ws| - i
  {
    if i < |ws| {
      ScanCoolingMeaning(ws, now, i + 1);
    }
  }

  // ---- a pick in plain terms ----

  /** The d-th worker going round from the cursor has both clocks behind it. */
  predicate ClocksPassed(r: Rot, now: Time, d: nat)
    requires r.workers != []
  {
    var w := r.workers[(r.next + d) % |r.workers|];
    w.cooldownUntil < now && w.bannedUntil < now
  }

  predicate Untried(r: Rot, exclude: set<string>, d: nat)
    requires r.workers != []
  {
    r.workers[(r.next + d) % |r.workers|].spec.id !in exclude
  }

  lemma {:induction false} EligibleHere(r: Rot, now: Time, exclude: set<string>, i: nat)
    requires i < |r.workers|
    ensures ClocksPassed(r, now, i) && Untried(r, exclude, i) <==>
            r.workers[r.At(i)].Ready(now) && r.workers[r.At(i)].spec.id !in exclude
  {
  }

  lemma {:induction false} ScanStops(r: Rot, now: Time, exclude: set<string>, i: nat, d: nat)
    requires r.workers != [] && i <= d < |r.workers| && ClocksPassed(r, now, d) && Untried(r, exclude, d)
    requires forall e :: i <= e < d ==> !(ClocksPassed(r, now, e) && Untried(r, exclude, e))
    ensures ScanReady(r, now, exclude, i) == Some(d)
    decreases d - i
  {
    hide ClocksPassed, Untried;
    EligibleHere(r, now, exclude, i);
    if i < d {
      ScanStops(r, now, exclude, i + 1, d);
    }
  }

  lemma {:induction false} ScanFails(r: Rot, now: Time, exclude: set<string>, i: nat)
    requires r.workers != [] && i <= |r.workers|
    requires forall e :: i <= e < |r.workers| ==> !(ClocksPassed(r, now, e) && Untried(r, exclude, e))
    ensures ScanReady(r, now, exclude, i) == None
    decreases |r.workers| - i
  {
    hide ClocksPassed, Untried;
    if i < |r.workers| {
      EligibleHere(r, now, exclude, i);
      ScanFails(r, now, exclude, i + 1);
    }
  }

  /** Step 1: the first worker going round from the cursor that is ready and untried is
      taken, and the cursor goes just past it. */
  lemma {:induction false} PickStepOne(r: Rot, now: Time, exclude: set<string>, d: nat)
    requires r.workers != [] && d < |r.workers| && ClocksPassed(r, now, d) && Untried(r, exclude, d)
    requires forall e :: 0 <= e < d ==> !(ClocksPassed(r, now, e) && Untried(r, exclude, e))
    ensures var k := (r.next + d) % |r.workers|;
            Pick(r, now, exclude) == (Rot(r.workers, (k + 1) % |r.workers|), Some(k))
  {
    ScanStops(r, now, exclude, 0, d);
  }

  /** Step 2: if no ready worker is untried, the first ready one is taken, and the cursor
      goes one on. */
  lemma {:induction false} PickStepTwo(r: Rot, now: Time, exclude: set<string>, d: nat)
    requires r.workers != [] && d < |r.workers| && ClocksPassed(r, now, d)
    requires forall e :: 0 <= e < d ==> !ClocksPassed(r, now, e)
    requires forall e :: 0 <= e < |r.workers| ==> !(ClocksPassed(r, now, e) && Untried(r, exclude, e))
    ensures Pick(r, now, exclude) ==
            (Rot(r.workers, (r.next + 1) % |r.workers|), Some((r.next + d) % |r.workers|))
  {
    ScanFails(r, now, exclude, 0);
    assert Untried(r, {}, d);
    ScanStops(r, now, {}, 0, d);
  }

  /** Step 3: if no worker is ready, the first of the list that is not banned and cooling
      down is taken, and the cursor goes one on. */
  lemma {:induction false} PickStepThree(r: Rot, now: Time, exclude: set<string>, k: nat)
    requires k < |r.workers| && !(now < r.workers[k].bannedUntil) && now < r.workers[k].cooldownUntil
    requires forall j :: 0 <= j < k ==> now < r.workers[j].bannedUntil || !(now < r.workers[j].cooldownUntil)
    requires forall e :: 0 <= e < |r.workers| ==> !ClocksPassed(r, now, e)
    ensures Pick(r, now, exclude) == (Rot(r.workers, (r.next + 1) % |r.workers|), Some(k))
  {
    ScanFails(r, now, exclude, 0);
    ScanFails(r, now, {}, 0);
    CoolingStops(r.workers, now, 0, k);
  }

  lemma {:induction false} CoolingStops(ws: seq<Worker>, now: Time, i: nat, k: nat)
    requires i <= k < |ws| && !(now < ws[k].bannedUntil) && now < ws[k].cooldownUntil
    requires forall j :: i <= j < k ==> now < ws[j].bannedUntil || !(now < ws[j].cooldownUntil)
    ensures ScanCooling(ws, now, i) == Some(k)
    decreases k - i
  {
    if i < k {
      CoolingStops(ws, now, i + 1, k);
    }
  }

  /** Otherwise nothing is taken and nothing moves. */
  lemma {:induction false} PickNothing(r: Rot, now: Time, exclude: set<string>)
    requires forall k :: 0 <= k < |r.workers| ==>
               now < r.workers[k].bannedUntil ||
               (!(now < r.workers[k].cooldownUntil)
                && (now == r.workers[k].bannedUntil || now == r.workers[k].cooldownUntil))
    ensures Pick(r, now, exclude) == (r, None)
  {
    if r.workers != [] {
      ScanFails(r, now, exclude, 0);
      ScanFails(r, now, {}, 0);
      ScanCoolingMeaning(r.workers, now, 0);
    }
  }

  /** The labels of the admin page. */
  lemma {:induction false} LabelMeaning(w: Worker, now: Time)
    ensures w.Status(now) == "banned-24h" <==> now < w.bannedUntil
    ensures w.Status(now) == "cooldown" <==> w.bannedUntil <= now < w.cooldownUntil
    ensures w.Status(now) == "ready" <==> w.bannedUntil <= now && w.cooldownUntil <= now
  {
    assert "banned-24h"[0] != "ready"[0] && "banned-24h"[0] != "cooldown"[0] && "cooldown"[0] != "ready"[0];
  }

  /** The ready count is the number of workers with both clocks behind them. */
  lemma {:induction false} CountReadyMeaning(ws: seq<Worker>, now: Time)
    ensures CountReady(ws, now) ==
            |set i | 0 <= i < |ws| && ws[i].cooldownUntil < now && ws[i].bannedUntil < now|
  {
    if ws != [] {
      var n, init := |ws| - 1, ws[..|ws| - 1];
      CountReadyMeaning(init, now);
      var before := set i | 0 <= i < n && init[i].cooldownUntil < now && init[i].bannedUntil < now;
      var all := set i | 0 <= i < |ws| && ws[i].cooldownUntil < now && ws[i].bannedUntil < now;
      if ws[n].cooldownUntil < now && ws[n].bannedUntil < now {
        assert all == before + {n};
      } else {
        assert all == before;
      }
    }
  }

  /** Round robin: a pick takes the nearest ready worker that was not tried and
      moves the cursor just past it. */
  lemma {:induction false} PickNearestUntried(r: Rot, now: Time, exclude: set<string>, j: nat)
    requires r.Valid() && j < |r.workers| && Eligible(r, now, exclude, j)
    ensures var (r', o) := Pick(r, now, exclude);
            && o.Some? && o.value < |r.workers|
            && Eligible(r, now, exclude, o.value)
            && Distance(r, o.value) <= Distance(r, j)
            && r' == r.(next := (o.value + 1) % |r.workers|)
  {
    ScanReadyMeaning(r, now, exclude, 0);
  }

  /** Sticky affinity, for a worker k that was ready and taken by a pick with nothing
      excluded, and is ready again at the next pick: it is taken again if and only if no
      other worker is ready then. Marks may have changed any worker in between. */
  lemma {:induction false} KeptOnlyWhenAlone(r: Rot, now: Time, k: nat, later: Rot, then_: Time)
    requires r.Valid() && k < |r.workers| && Pick(r, now, {}).1 == Some(k) && r.workers[k].Ready(now)
    requires |later.workers| == |r.workers| && later.next == Pick(r, now, {}).0.next
    requires later.workers[k].Ready(then_)
    ensures Pick(later, then_, {}).1 == Some(k) <==>
            forall j :: 0 <= j < |later.workers| && j != k ==> !later.workers[j].Ready(then_)
  {
    PickNearestUntried(r, now, {}, k);
    WrapOnce(k + 1, |r.workers|);
    assert Distance(later, k) == |r.workers| - 1;
    PickNearestUntried(later, then_, {}, k);
    if j :| 0 <= j < |later.workers| && j != k && later.workers[j].Ready(then_) {
      PickNearestUntried(later, then_, {}, j);
      AtDistance(later, j);
      AtDistance(later, k);
    }
  }

  /** A worker is retried only when no untried worker is ready; then the nearest
      ready one is taken. */
  lemma {:induction false} PickRetriesOnlyIfForced(r: Rot, now: Time, exclude: set<string>, j: nat)
    requires r.Valid() && j < |r.workers| && r.workers[j].Ready(now)
    requires forall k :: 0 <= k < |r.workers| ==> !Eligible(r, now, exclude, k)
    ensures var (r', o) := Pick(r, now, exclude);
            && o.Some? && o.value < |r.workers|
            && r.workers[o.value].Ready(now) && r.workers[o.value].spec.id in exclude
            && Distance(r, o.value) <= Distance(r, j)
            && r' == r.(next := (r.next + 1) % |r.workers|)
  {
    ScanReadyMeaning(r, now, exclude, 0);
    ScanReadyMeaning(r, now, {}, 0);
    assert Eligible(r, now, {}, j);
  }

  /** With no worker ready, the first cooling worker of the list is taken; and
      nothing is picked exactly when every worker is banned or at the very
      instant its last clock runs out. */
  lemma {:induction false} PickWhenNoneReady(r: Rot, now: Time, exclude: set<string>)
    requires r.Valid()
    requires forall k :: 0 <= k < |r.workers| ==> !r.workers[k].Ready(now)
    ensures var (r', o) := Pick(r, now, exclude);
            && (o.Some? ==>
                  && o.value < |r.workers| && r.workers[o.value].Cooling(now)
                  && (forall k :: 0 <= k < o.value ==> !r.workers[k].Cooling(now))
                  && r' == r.(next := (r.next + 1) % |r.workers|))
            && (o.None? <==> forall k :: 0 <= k < |r.workers| ==>
                  r.workers[k].Banned(now) || now == LastClock(r.workers[k]))
            && (o.None? ==> r' == r)
  {
    if r.workers != [] {
      ScanReadyMeaning(r, now, exclude, 0);
      ScanReadyMeaning(r, now, {}, 0);
      ScanCoolingMeaning(r.workers, now, 0);
      assert Pick(r, now, exclude).1 == ScanCooling(r.workers, now, 0);
      forall k | 0 <= k < |r.workers|
        ensures r.workers[k].Cooling(now) <==>
                !(r.workers[k].Banned(now) || now == LastClock(r.workers[k]))
      {
      }
    }
  }

  /** No pick ever returns a banned worker, and the cursor stays in range. */
  lemma {:induction false} PickSafe(r: Rot, now: Time, exclude: set<string>)
    requires r.Valid()
    ensures var (r', o) := Pick(r, now, exclude);
            && r'.Valid() && r'.workers == r.workers
            && (o.Some? ==> o.value < |r.workers| && !r.workers[o.value].Banned(now))
  {
    if r.workers != [] {
      ScanReadyMeaning(r, now, exclude, 0);
      ScanReadyMeaning(r, now, {}, 0);
      ScanCoolingMeaning(r.workers, now, 0);
    }
  }

  /** A pick fails exactly if every worker is banned or at the instant its later clock runs
      out; whether any is configured makes no other difference. */
  lemma {:induction false} PickFailsIff(r: Rot, now: Time, exclude: set<string>)
    requires r.Valid()
    ensures Pick(r, now, exclude).1.None? <==>
            forall k :: 0 <= k < |r.workers| ==> r.workers[k].Banned(now) || now == LastClock(r.workers[k])
  {
    hide Pick;
    if j :| 0 <= j < |r.workers| && r.workers[j].Ready(now) {
      ReadyIsPicked(r, now, exclude, j);
    } else {
      PickWhenNoneReady(r, now, exclude);
    }
  }

  lemma {:induction false} ReadyIsPicked(r: Rot, now: Time, exclude: set<string>, j: nat)
    requires r.Valid() && j < |r.workers| && r.workers[j].Ready(now)
    ensures var o := Pick(r, now, exclude).1;
            o.Some? && o.value < |r.workers| && r.workers[o.value].Ready(now)
  {
    hide Pick;
    if i :| 0 <= i < |r.workers| && Eligible(r, now, exclude, i) {
      PickNearestUntried(r, now, exclude, i);
    } else {
      PickRetriesOnlyIfForced(r, now, exclude, j);
    }
  }

  /** A worker that is not ready is picked only when none is. */
  lemma {:induction false} PickedUnready(r: Rot, now: Time, exclude: set<string>, k: nat)
    requires r.Valid() && k < |r.workers| && Pick(r, now, exclude).1 == Some(k) && !r.workers[k].Ready(now)
    ensures forall j :: 0 <= j < |r.workers| ==> !r.workers[j].Ready(now)
  {
    hide Pick;
    forall j | 0 <= j < |r.workers| && r.workers[j].Ready(now)
      ensures false
    {
      ReadyIsPicked(r, now, exclude, j);
    }
  }

  /** The admin label says "ready" for a worker a pick would not call ready at
      exactly one instant: when its later clock runs out. */
  lemma {:induction false} LabelAgreesExceptAtExpiry(w: Worker, now: Time)
    ensures (w.Status(now) == "ready" <==> w.Ready(now)) <==>
            now != LastClock(w)
  {
    assert "banned-24h"[0] != "ready"[0] && "cooldown"[0] != "ready"[0];
  }

  // ---- bounded waiting ----

  /** A pick that misses an eligible worker brings the cursor strictly nearer to it. */
  lemma {:induction false} MissedPickComesNearer(r: Rot, now: Time, exclude: set<string>, j: nat)
    requires r.Valid() && j < |r.workers| && Eligible(r, now, exclude, j)
    ensures var (r', o) := Pick(r, now, exclude);
            && r'.Valid() && |r'.workers| == |r.workers|
            && o.Some? && (o.value != j ==> Distance(r', j) < Distance(r, j))
  {
    PickNearestUntried(r, now, exclude, j);
    var (r', o) := Pick(r, now, exclude);
    var n := |r.workers|;
    WrapOnce(o.value + 1, n);
    if o.value != j {
      AtDistance(r, j);
      AtDistance(r, o.value);
    }
  }
}
