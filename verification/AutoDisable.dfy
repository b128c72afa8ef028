/** The ten minutes after the fifth failure in a row: how long they last, and what they
    keep the worker from. */
module AutoDisable {
  import opened Common
  import opened Scheduler
  import opened Selection
  import opened History

  /** One more failure after the fifth shortens the ten minutes, unless it is marked in
      their last five seconds or later. */
  lemma {:induction false} SixthFailureShortensIff(w: Worker, t: Time, then_: Time)
    requires w.fails == AUTO_DISABLE_AFTER - 1
    ensures var d := ApplyMark(w, Cooldown(t));
            && d.cooldownUntil == t + AUTO_DISABLE_FOR
            && (ApplyMark(d, Cooldown(then_)).cooldownUntil >= t + AUTO_DISABLE_FOR <==>
                  then_ >= t + AUTO_DISABLE_FOR - COOLDOWN_BASE)
  {
    assert Pow2(0) == 1;
  }

  // ---- whole runs ----

  /** The id has one entry, and keeps one in every resync. */
  ghost predicate OneEntry(r: Rot, id: string): (one: bool)
    ensures one ==> Lookup(r, id).Some?
  {
    Lookup(r, id).Some? && FindFrom(r.workers, id, 0) == LastIndex(r.workers, id)
  }

  ghost predicate KeepsOne(ops: seq<Op>, id: string) {
    forall k :: 0 <= k < |ops| && ops[k].SyncOp? ==> FindSpec(ops[k].specs, id).Some? && !Repeated(ops[k].specs, id)
  }

  /** The marks a run issues for an id. */
  function MarksIn(ops: seq<Op>, id: string): seq<Mark> {
    if ops == [] then []
    else MarksIn(ops[..|ops| - 1], id)
         + (if ops[|ops| - 1].MarkOp? && ops[|ops| - 1].id == id then [ops[|ops| - 1].mark] else [])
  }

  function ApplyMarks(w: Worker, marks: seq<Mark>): Worker {
    if marks == [] then w else ApplyMark(ApplyMarks(w, marks[..|marks| - 1]), marks[|marks| - 1])
  }

  /** The cooldown clock after some marks, from a worker without a failure counted. */
  function ClockAfter(start: Time, marks: seq<Mark>): Time {
    if marks == [] then start
    else match marks[|marks| - 1]
      case Cooldown(now) => now + Delay(Streak(marks))
      case Ban(_, _, _) => ZERO_TIME
      case _ => ClockAfter(start, marks[..|marks| - 1])
  }

  lemma {:induction false} MarksFromZero(w: Worker, marks: seq<Mark>)
    requires w.fails == 0
    ensures ApplyMarks(w, marks).fails == Streak(marks) % 5
    ensures ApplyMarks(w, marks).cooldownUntil == ClockAfter(w.cooldownUntil, marks)
  {
    if marks != [] {
      var init := marks[..|marks| - 1];
      MarksFromZero(w, init);
      var k := Streak(init);
      assert Pow2(0) == 1 && Pow2(1) == 2 && Pow2(2) == 4 && Pow2(3) == 8;
      assert (k + 1) % 5 == if k % 5 == 4 then 0 else k % 5 + 1;
    }
  }

  /** Equal but for the configuration. */
  predicate SameClocks(a: Worker, b: Worker) {
    a == b.(spec := a.spec)
  }

  lemma {:induction false} SyncKeepsOne(r: Rot, specs: seq<Spec>, id: string)
    requires OneEntry(r, id) && FindSpec(specs, id).Some? && !Repeated(specs, id)
    ensures OneEntry(SyncTo(r, specs), id)
    ensures SameClocks(Lookup(SyncTo(r, specs), id).value, Lookup(r, id).value)
  {
    LookupAfterSync(r, specs, id);
    var ws := SyncTo(r, specs).workers;
    assert forall i :: 0 <= i < |specs| ==> ws[i].spec == specs[i];
    var i, j := FindFrom(ws, id, 0), LastIndex(ws, id);
    assert specs[i.value].id == id && specs[j.value].id == id;
  }

  lemma {:induction false} MarkKeepsOne(r: Rot, id: string, id': string, m: Mark)
    requires OneEntry(r, id)
    ensures OneEntry(MarkById(r, id', m), id)
    ensures Lookup(MarkById(r, id', m), id).value ==
            if id' == id then ApplyMark(Lookup(r, id).value, m) else Lookup(r, id).value
  {
    LookupAfterMark(r, id, id', m);
    var ws := MarkById(r, id', m).workers;
    assert forall i :: 0 <= i < |ws| ==> ws[i].spec == r.workers[i].spec;
    assert FindFrom(ws, id, 0) == FindFrom(r.workers, id, 0) by {
      var i, j := FindFrom(ws, id, 0).value, FindFrom(r.workers, id, 0).value;
      assert i == j;
    }
    var k, l := LastIndex(ws, id).value, LastIndex(r.workers, id).value;
    assert k == l;
  }

  /** Only its own marks move the clocks of the one entry of an id. */
  lemma {:induction false} RunAppliesMarks(r: Rot, ops: seq<Op>, id: string)
    requires OneEntry(r, id) && KeepsOne(ops, id)
    ensures OneEntry(Run(r, ops), id)
    ensures SameClocks(Lookup(Run(r, ops), id).value, ApplyMarks(Lookup(r, id).value, MarksIn(ops, id)))
  {
    hide OneEntry, MarkById, SyncTo, Pick, ApplyMark, Lookup;
    if ops != [] {
      var n := |ops| - 1;
      RunAppliesMarks(r, ops[..n], id);
      OneMoreOp(Run(r, ops[..n]), ops[n], id);
      var before := MarksIn(ops[..n], id);
      assert before + [] == before;
      if ops[n].MarkOp? && ops[n].id == id {
        var w, v := Lookup(Run(r, ops[..n]), id).value, ApplyMarks(Lookup(r, id).value, before);
        assert (before + [ops[n].mark])[..|before|] == before;
        MarkIgnoresSpec(v, ops[n].mark, w.spec);
        MarkKeepsSpec(w, ops[n].mark);
      }
    }
  }

  lemma {:induction false} MarkKeepsSpec(w: Worker, m: Mark)
    ensures ApplyMark(w, m).spec == w.spec
  {
  }

  lemma {:induction false} OneMoreOp(r: Rot, op: Op, id: string)
    requires OneEntry(r, id) && (op.SyncOp? ==> FindSpec(op.specs, id).Some? && !Repeated(op.specs, id))
    ensures OneEntry(Apply(r, op), id)
    ensures var w, w' := Lookup(r, id).value, Lookup(Apply(r, op), id).value;
            if op.MarkOp? && op.id == id then w' == ApplyMark(w, op.mark) else SameClocks(w', w)
  {
    hide ApplyMark;
    match op
    case PickOp(now, exclude) => assert Apply(r, op).workers == r.workers;
    case MarkOp(id', m) => MarkKeepsOne(r, id, id', m);
    case SyncOp(specs) => SyncKeepsOne(r, specs, id);
  }

  function ClockOf(r: Rot, id: string): Time {
    match Lookup(r, id) case None => ZERO_TIME case Some(w) => w.cooldownUntil
  }

  /** At every moment of a run the id's cooldown clock stands at b or later. */
  predicate HoldsThroughout(r: Rot, ops: seq<Op>, id: string, b: Time) {
    ClockOf(Run(r, ops), id) >= b && (ops == [] || HoldsThroughout(r, ops[..|ops| - 1], id, b))
  }

  /** The last operation of a run is no mark of the id that sets its clock before b: no ban,
      and no failure marked more than its own backoff before b. */
  predicate LastKeepsClock(ops: seq<Op>, id: string, b: Time)
    requires ops != []
  {
    var op := ops[|ops| - 1];
    op.MarkOp? && op.id == id ==>
      match op.mark
      case Cooldown(now) => now + Delay(StreakIn(ops, id)) >= b
      case Ban(_, _, _) => false
      case _ => true
  }

  /** How many failures in a row a run that ends with one has marked. */
  function StreakIn(ops: seq<Op>, id: string): nat
    requires ops != [] && ops[|ops| - 1].MarkOp? && ops[|ops| - 1].id == id && ops[|ops| - 1].mark.Cooldown?
    ensures StreakIn(ops, id) > 0
  {
    var before := MarksIn(ops[..|ops| - 1], id);
    assert (before + [ops[|ops| - 1].mark])[..|before|] == before;
    Streak(MarksIn(ops, id))
  }

  predicate NoneShortens(ops: seq<Op>, id: string, b: Time) {
    ops == [] || (NoneShortens(ops[..|ops| - 1], id, b) && LastKeepsClock(ops, id, b))
  }

  /** A clock the run starts with holds exactly as long as no mark shortens it. */
  lemma {:induction false} ClockHoldsIff(r: Rot, ops: seq<Op>, id: string, b: Time)
    requires OneEntry(r, id) && KeepsOne(ops, id) && b > ZERO_TIME
    requires Lookup(r, id).value.fails == 0 && Lookup(r, id).value.cooldownUntil == b
    ensures HoldsThroughout(r, ops, id, b) <==> NoneShortens(ops, id, b)
  {
    hide OneEntry, Run, ApplyMarks, Streak, Delay;
    NothingRun(r, id);
    if ops != [] {
      var init := ops[..|ops| - 1];
      ClockHoldsIff(r, init, id, b);
      ClockIs(r, init, id);
      ClockIs(r, ops, id);
      LastMoves(ops, id, b, b);
    }
  }

  lemma {:induction false} NothingRun(r: Rot, id: string)
    ensures Run(r, []) == r
  {
  }

  lemma {:induction false} ClockIs(r: Rot, ops: seq<Op>, id: string)
    requires OneEntry(r, id) && KeepsOne(ops, id) && Lookup(r, id).value.fails == 0
    ensures ClockOf(Run(r, ops), id) == ClockAfter(Lookup(r, id).value.cooldownUntil, MarksIn(ops, id))
  {
    hide OneEntry, Run, ApplyMarks, ClockAfter, MarksIn, Streak, Lookup;
    RunAppliesMarks(r, ops, id);
    MarksFromZero(Lookup(r, id).value, MarksIn(ops, id));
  }

  lemma {:induction false} LastMoves(ops: seq<Op>, id: string, start: Time, b: Time)
    requires ops != [] && b > ZERO_TIME
    ensures var before := ClockAfter(start, MarksIn(ops[..|ops| - 1], id));
            before >= b ==> (ClockAfter(start, MarksIn(ops, id)) >= b <==> LastKeepsClock(ops, id, b))
  {
    hide Delay, Streak;
    var before, op := MarksIn(ops[..|ops| - 1], id), ops[|ops| - 1];
    assert before + [] == before;
    if op.MarkOp? && op.id == id {
      var marks := MarksIn(ops, id);
      assert marks[..|marks| - 1] == before && marks[|marks| - 1] == op.mark;
    }
  }

  /** Exactly when the ten minutes hold: over every run after the fifth failure in a row, a
      worker whose id is not repeated stays disabled throughout if and only if the run has
      no ban of it and marks no further failure more than its own backoff before the end. */
  lemma {:induction false} TenMinutesHoldIff(r: Rot, id: string, t: Time, ops: seq<Op>)
    requires OneEntry(r, id) && Lookup(r, id).value.fails == AUTO_DISABLE_AFTER - 1
    requires KeepsOne(ops, id) && t > ZERO_TIME
    ensures HoldsThroughout(MarkById(r, id, Cooldown(t)), ops, id, t + AUTO_DISABLE_FOR) <==>
            NoneShortens(ops, id, t + AUTO_DISABLE_FOR)
  {
    hide OneEntry, HoldsThroughout, NoneShortens, MarkById;
    MarkKeepsOne(r, id, id, Cooldown(t));
    ClockHoldsIff(MarkById(r, id, Cooldown(t)), ops, id, t + AUTO_DISABLE_FOR);
  }

  lemma {:induction false} OneEntryIsLookup(r: Rot, id: string, i: nat)
    requires OneEntry(r, id) && i < |r.workers| && r.workers[i].spec.id == id
    ensures Lookup(r, id) == Some(r.workers[i])
  {
  }

  /** As long as they hold, the worker is picked only when no worker at all is ready. */
  lemma {:induction false} DisabledOnlyAsLastResort(r: Rot, id: string, t: Time, ops: seq<Op>, k: nat)
    requires r.Valid() && OneEntry(r, id) && Lookup(r, id).value.fails == AUTO_DISABLE_AFTER - 1
    requires k < |ops| && KeepsOne(ops[..k], id) && t > ZERO_TIME && NoneShortens(ops[..k], id, t + AUTO_DISABLE_FOR)
    requires ops[k].PickOp? && ops[k].now < t + AUTO_DISABLE_FOR
    ensures var d := MarkById(r, id, Cooldown(t));
            var before, o := Run(d, ops[..k]), ChosenAt(d, ops, k);
            o.Some? ==> && o.value < |before.workers|
                        && (before.workers[o.value].spec.id == id ==>
                              forall j :: 0 <= j < |before.workers| ==> !before.workers[j].Ready(ops[k].now))
  {
    hide Pick, MarkById, OneEntry, NoneShortens;
    var d := MarkById(r, id, Cooldown(t));
    TenMinutesHoldIff(r, id, t, ops[..k]);
    MarkKeepsOne(r, id, id, Cooldown(t));
    RunAppliesMarks(d, ops[..k], id);
    ValidAfterMark(r, id, Cooldown(t));
    RunValid(d, ops[..k]);
    var before, o := Run(d, ops[..k]), ChosenAt(d, ops, k);
    PickSafe(before, ops[k].now, ops[k].exclude);
    if o.Some? && before.workers[o.value].spec.id == id {
      OneEntryIsLookup(before, id, o.value);
      PickedUnready(before, ops[k].now, ops[k].exclude, o.value);
    }
  }

  lemma {:induction false} ValidAfterMark(r: Rot, id: string, m: Mark)
    requires r.Valid()
    ensures MarkById(r, id, m).Valid()
  {
  }

  /** But then it can be: a disabled worker that is alone serves the next request. */
  lemma {:induction false} DisabledButAlone(w: Worker, t: Time, now: Time)
    requires w.fails == AUTO_DISABLE_AFTER - 1 && !w.Banned(now) && now < t + AUTO_DISABLE_FOR
    ensures Pick(Rot([ApplyMark(w, Cooldown(t))], 0), now, {}).1 == Some(0)
  {
    var r := Rot([ApplyMark(w, Cooldown(t))], 0);
    PickWhenNoneReady(r, now, {});
    assert r.workers[0].Cooling(now);
  }
}
