/** Whole runs of a rotator: any sequence of picks, marks and resyncs, in the
    order in which they took the lock. */
module History {
  import opened Common
  import opened Scheduler
  import opened Selection

  datatype Op =
    | PickOp(now: Time, exclude: set<string>)
    | MarkOp(id: string, mark: Mark)
    | SyncOp(specs: seq<Spec>)

  const EMPTY := Rot([], 0)

  function Apply(r: Rot, op: Op): Rot {
    match op
    case PickOp(now, exclude) => Pick(r, now, exclude).0
    case MarkOp(id, m) => MarkById(r, id, m)
    case SyncOp(specs) => SyncTo(r, specs)
  }

  function Run(r: Rot, ops: seq<Op>): Rot {
    if ops == [] then r else Apply(Run(r, ops[..|ops| - 1]), ops[|ops| - 1])
  }

  /** The worker index the k-th operation picked, if it was a pick. */
  function ChosenAt(r: Rot, ops: seq<Op>, k: nat): Option<nat>
    requires k < |ops|
  {
    if ops[k].PickOp? then Pick(Run(r, ops[..k]), ops[k].now, ops[k].exclude).1 else None
  }

  lemma {:induction false} RunValid(r: Rot, ops: seq<Op>)
    requires r.Valid()
    ensures Run(r, ops).Valid()
  {
    if ops != [] {
      var before := Run(r, ops[..|ops| - 1]);
      RunValid(r, ops[..|ops| - 1]);
      if ops[|ops| - 1].PickOp? {
        PickSafe(before, ops[|ops| - 1].now, ops[|ops| - 1].exclude);
      }
    }
  }

  lemma {:induction false} PrefixOfPrefix(ops: seq<Op>, n: nat)
    requires n <= |ops|
    ensures forall k :: 0 <= k <= n ==> ops[..n][..k] == ops[..k]
  {
  }

  // ---- bounded waiting ----

  predicate NoSync(ops: seq<Op>) {
    forall k :: 0 <= k < |ops| ==> !ops[k].SyncOp?
  }

  function PickCount(ops: seq<Op>): nat {
    if ops == [] then 0 else PickCount(ops[..|ops| - 1]) + (if ops[|ops| - 1].PickOp? then 1 else 0)
  }

  /** Whenever a pick happens, worker j is ready and has not been excluded. */
  predicate EligibleAtEveryPick(r: Rot, ops: seq<Op>, j: nat) {
    forall k :: 0 <= k < |ops| && ops[k].PickOp? ==>
                  && j < |Run(r, ops[..k]).workers|
                  && Eligible(Run(r, ops[..k]), ops[k].now, ops[k].exclude, j)
  }

  lemma {:induction false} EveryMissCounts(r: Rot, ops: seq<Op>, j: nat)
    requires r.Valid() && j < |r.workers| && NoSync(ops) && EligibleAtEveryPick(r, ops, j)
    requires forall k :: 0 <= k < |ops| ==> ChosenAt(r, ops, k) != Some(j)
    ensures Run(r, ops).Valid() && |Run(r, ops).workers| == |r.workers|
    ensures Distance(Run(r, ops), j) + PickCount(ops) <= Distance(r, j)
  {
    if ops != [] {
      var n := |ops| - 1;
      var init := ops[..n];
      PrefixOfPrefix(ops, n);
      assert forall k :: 0 <= k < n ==> ChosenAt(r, init, k) == ChosenAt(r, ops, k);
      EveryMissCounts(r, init, j);
      if ops[n].PickOp? {
        assert ChosenAt(r, ops, n) != Some(j);
        MissedPickComesNearer(Run(r, init), ops[n].now, ops[n].exclude, j);
      }
    }
  }

  /** With no resync, a worker that is ready and untried at every pick is chosen
      within as many picks as the cursor is behind it, plus one: at most one
      round, whatever is marked and whatever the other workers do. */
  lemma {:induction false} BoundedWaiting(r: Rot, ops: seq<Op>, j: nat)
    requires r.Valid() && j < |r.workers| && NoSync(ops) && EligibleAtEveryPick(r, ops, j)
    requires PickCount(ops) > Distance(r, j) || PickCount(ops) >= |r.workers|
    ensures exists k :: 0 <= k < |ops| && ChosenAt(r, ops, k) == Some(j)
  {
    if forall k :: 0 <= k < |ops| ==> ChosenAt(r, ops, k) != Some(j) {
      EveryMissCounts(r, ops, j);
    }
  }

  // ---- one worker's record, kept apart from every other worker ----

  function Lookup(r: Rot, id: string): (w: Option<Worker>)
    ensures w.Some? ==> w.value.spec.id == id
  {
    match FindFrom(r.workers, id, 0)
    case None => None
    case Some(i) => Some(r.workers[i])
  }

  function FindSpec(specs: seq<Spec>, id: string): (o: Option<Spec>)
    ensures o.Some? ==> o.value in specs && o.value.id == id
    ensures o.None? ==> forall i :: 0 <= i < |specs| ==> specs[i].id != id
  {
    if specs == [] then None else if specs[0].id == id then Some(specs[0]) else FindSpec(specs[1..], id)
  }

  /** What happened to one id since it was last added: its latest configuration
      and the marks issued for it, in order. */
  datatype Record = Record(spec: Spec, marks: seq<Mark>)

  function RecordAfter(before: Option<Record>, op: Op, id: string): Option<Record> {
    match op
    case PickOp(_, _) => before
    case MarkOp(id', m) =>
      if id' == id && before.Some? then Some(before.value.(marks := before.value.marks + [m])) else before
    case SyncOp(specs) =>
      match FindSpec(specs, id)
      case None => None
      case Some(spec) => Some(Record(spec, if before.Some? then before.value.marks else []))
  }

  function RecordOf(ops: seq<Op>, id: string): Option<Record> {
    if ops == [] then None else RecordAfter(RecordOf(ops[..|ops| - 1], id), ops[|ops| - 1], id)
  }

  /** Cooldown marks since the last success or ban. */
  function Streak(marks: seq<Mark>): nat {
    if marks == [] then 0
    else
      var before := Streak(marks[..|marks| - 1]);
      match marks[|marks| - 1]
      case Success => 0
      case Cooldown(_) => before + 1
      case Ban(_, _, _) => 0
      case Error(_, _) => before
  }

  /** Ten minutes on every fifth failure, else 5s, 10s, 20s or 40s. */
  function Delay(streak: nat): Time
    requires streak > 0
  {
    if streak % 5 == 0 then 600 * SECOND
    else if streak % 5 == 1 then 5 * SECOND
    else if streak % 5 == 2 then 10 * SECOND
    else if streak % 5 == 3 then 20 * SECOND
    else 40 * SECOND
  }

  function CooldownOf(marks: seq<Mark>): Time {
    if marks == [] then ZERO_TIME
    else match marks[|marks| - 1]
      case Cooldown(now) => now + Delay(Streak(marks))
      case Ban(_, _, _) => ZERO_TIME
      case _ => CooldownOf(marks[..|marks| - 1])
  }

  function BannedOf(marks: seq<Mark>): Time {
    if marks == [] then ZERO_TIME
    else match marks[|marks| - 1]
      case Ban(dur, now, midnight) => BanEnd(dur, now, midnight)
      case _ => BannedOf(marks[..|marks| - 1])
  }

  function ErrorOf(marks: seq<Mark>): (string, Time) {
    if marks == [] then ("", ZERO_TIME)
    else match marks[|marks| - 1]
      case Error(message, now) => (message[..Min(|message|, MAX_MESSAGE)], now)
      case _ => ErrorOf(marks[..|marks| - 1])
  }

  function WorkerOf(rec: Record): Worker {
    Worker(rec.spec, CooldownOf(rec.marks), BannedOf(rec.marks), Streak(rec.marks) % 5,
           ErrorOf(rec.marks).0, ErrorOf(rec.marks).1)
  }

  /** One more mark acts on the closed form as it does on the stored counters; in
      particular the 60s clamp is never taken. */
  lemma {:induction false} MarkExtendsRecord(rec: Record, m: Mark)
    ensures WorkerOf(rec.(marks := rec.marks + [m])) == ApplyMark(WorkerOf(rec), m)
    ensures m.Cooldown? ==> (WorkerOf(rec).fails < 4 ==> COOLDOWN_BASE * Pow2(WorkerOf(rec).fails) <= 40 * SECOND)
  {
    assert (rec.marks + [m])[..|rec.marks|] == rec.marks;
    if m.Cooldown? {
      var k := Streak(rec.marks);
      assert Pow2(0) == 1 && Pow2(1) == 2 && Pow2(2) == 4 && Pow2(3) == 8;
      assert (k + 1) % 5 == if k % 5 == 4 then 0 else k % 5 + 1;
    }
  }

  /** Every mark in plain terms, in nanoseconds: a success clears the counter; a failure
      sets 5, 10, 20 or 40 seconds and counts, or on the fifth ten minutes and clears the
      counter; the default ban ends 24 hours after the day began, any other after its
      duration, and clears cooldown and counter; an error is kept up to 400 characters. */
  lemma {:induction false} MarksInPlainTerms(w: Worker, now: Time, dur: Time, midnight: Time, message: string)
    ensures ApplyMark(w, Success) == w.(fails := 0)
    ensures w.fails == 0 ==> ApplyMark(w, Cooldown(now)) == w.(fails := 1, cooldownUntil := now + 5_000_000_000)
    ensures w.fails == 1 ==> ApplyMark(w, Cooldown(now)) == w.(fails := 2, cooldownUntil := now + 10_000_000_000)
    ensures w.fails == 2 ==> ApplyMark(w, Cooldown(now)) == w.(fails := 3, cooldownUntil := now + 20_000_000_000)
    ensures w.fails == 3 ==> ApplyMark(w, Cooldown(now)) == w.(fails := 4, cooldownUntil := now + 40_000_000_000)
    ensures w.fails >= 4 ==> ApplyMark(w, Cooldown(now)) == w.(fails := 0, cooldownUntil := now + 600_000_000_000)
    ensures ApplyMark(w, Ban(dur, now, midnight)) ==
            w.(fails := 0, cooldownUntil := 0,
               bannedUntil := if dur == 86_400_000_000_000 then midnight + 86_400_000_000_000 else now + dur)
    ensures ApplyMark(w, Error(message, now)) ==
            w.(lastError := if |message| > 400 then message[..400] else message, lastErrorAt := now)
  {
    assert Pow2(0) == 1 && Pow2(1) == 2 && Pow2(2) == 4 && Pow2(3) == 8;
  }

  lemma {:induction false} LookupAfterMark(r: Rot, id: string, id': string, m: Mark)
    ensures var r' := MarkById(r, id', m);
            && (r.Distinct() ==> r'.Distinct())
            && Lookup(r', id) == if id == id' && Lookup(r, id).Some? then Some(ApplyMark(Lookup(r, id).value, m))
                                 else Lookup(r, id)
  {
    var r' := MarkById(r, id', m);
    assert forall k :: 0 <= k < |r.workers| ==> r'.workers[k].spec == r.workers[k].spec;
    var i, i' := FindFrom(r.workers, id, 0), FindFrom(r'.workers, id, 0);
    if i.Some? && i'.Some? {
      assert i.value == i'.value;
    }
  }

  /** The last entry with an id is the one a resync copies. */
  function LastIndex(ws: seq<Worker>, id: string): (o: Option<nat>)
    ensures o.Some? ==> o.value < |ws| && ws[o.value].spec.id == id
    ensures o.Some? ==> forall j :: o.value < j < |ws| ==> ws[j].spec.id != id
    ensures o.None? ==> forall j :: 0 <= j < |ws| ==> ws[j].spec.id != id
  {
    if ws == [] then None
    else if ws[|ws| - 1].spec.id == id then Some(|ws| - 1)
    else LastIndex(ws[..|ws| - 1], id)
  }

  lemma {:induction false} LastWithIndex(ws: seq<Worker>, id: string)
    ensures LastWith(ws, id) == match LastIndex(ws, id) case None => None case Some(i) => Some(ws[i])
  {
    if ws != [] && ws[|ws| - 1].spec.id != id {
      LastWithIndex(ws[..|ws| - 1], id);
    }
  }

  /** The first worker configured under an id. */
  predicate FirstOfId(specs: seq<Spec>, i: nat)
    requires i < |specs|
  {
    forall j :: 0 <= j < i ==> specs[j].id != specs[i].id
  }

  ghost predicate Repeated(specs: seq<Spec>, id: string) {
    exists i, j :: 0 <= i < j < |specs| && specs[i].id == id && specs[j].id == id
  }

  lemma {:induction false} FindSpecFirst(specs: seq<Spec>, i: nat)
    requires i < |specs| && FirstOfId(specs, i)
    ensures FindSpec(specs, specs[i].id) == Some(specs[i])
  {
    if i > 0 {
      assert specs[0].id != specs[i].id;
      FindSpecFirst(specs[1..], i - 1);
    }
  }

  function SpecsOf(r: Rot): seq<Spec> {
    seq(|r.workers|, i requires 0 <= i < |r.workers| => r.workers[i].spec)
  }

  lemma {:induction false} FindIsFirst(r: Rot, i: nat)
    requires i < |r.workers|
    ensures FindFrom(r.workers, r.workers[i].spec.id, 0) == Some(i) <==> FirstOfId(SpecsOf(r), i)
  {
    assert forall j :: 0 <= j <= i ==> SpecsOf(r)[j].id == r.workers[j].spec.id;
    if FirstOfId(SpecsOf(r), i) {
      assert forall j :: 0 <= j < i ==> r.workers[j].spec.id != r.workers[i].spec.id;
    }
  }

  /** After a resync of any list: an id that is configured has its first new
      configuration, with the state its last old entry had, or a fresh one. */
  lemma {:induction false} LookupAfterSync(r: Rot, specs: seq<Spec>, id: string)
    ensures Lookup(SyncTo(r, specs), id) ==
            match FindSpec(specs, id) case None => None case Some(spec) => Some(Carry(r.workers, spec))
    ensures FindSpec(specs, id).Some? ==>
              Carry(r.workers, FindSpec(specs, id).value) ==
              match LastIndex(r.workers, id)
              case None => Fresh(FindSpec(specs, id).value)
              case Some(k) => r.workers[k].(spec := FindSpec(specs, id).value)
  {
    var r' := SyncTo(r, specs);
    LastWithIndex(r.workers, id);
    match FindFrom(r'.workers, id, 0)
    case None =>
      assert forall i :: 0 <= i < |specs| ==> r'.workers[i].spec == specs[i];
    case Some(i) =>
      assert forall j :: 0 <= j <= i ==> r'.workers[j].spec == specs[j];
      FindSpecFirst(specs, i);
  }

  /** The state of entry w is that of the last of the old entries with its id, or, if there
      was none, that of a worker nothing has happened to. */
  ghost predicate StateKept(old_: seq<Worker>, w: Worker) {
    || (exists j ::
          && 0 <= j < |old_| && old_[j].spec.id == w.spec.id
          && (forall k :: j < k < |old_| ==> old_[k].spec.id != w.spec.id)
          && w.cooldownUntil == old_[j].cooldownUntil && w.bannedUntil == old_[j].bannedUntil
          && w.fails == old_[j].fails
          && w.lastError == old_[j].lastError && w.lastErrorAt == old_[j].lastErrorAt)
    || ((forall j :: 0 <= j < |old_| ==> old_[j].spec.id != w.spec.id)
        && w.cooldownUntil == 0 && w.bannedUntil == 0 && w.fails == 0 && w.lastError == "" && w.lastErrorAt == 0)
  }

  /** A resync in plain terms: the list is the new one, every entry's state is kept by id,
      and so is the cursor while it is in range. */
  lemma {:induction false} SyncInPlainTerms(r: Rot, specs: seq<Spec>)
    ensures var r' := SyncTo(r, specs);
            && |r'.workers| == |specs|
            && (forall i :: 0 <= i < |specs| ==> r'.workers[i].spec == specs[i] && StateKept(r.workers, r'.workers[i]))
            && r'.next == if r.next < |specs| then r.next else 0
  {
    forall i | 0 <= i < |specs| ensures StateKept(r.workers, SyncTo(r, specs).workers[i]) {
      LastWithIndex(r.workers, specs[i].id);
    }
  }

  // ---- the closed form, for every history and every list ----

  /** The configuration of the latest resync. */
  function Configured(ops: seq<Op>): seq<Spec> {
    if ops == [] then []
    else if ops[|ops| - 1].SyncOp? then ops[|ops| - 1].specs
    else Configured(ops[..|ops| - 1])
  }

  /** The marks that have reached the entries of an id since it was added: its first
      entry gets every mark; its further ones, if the id is repeated, none. A resync
      gives all of them what the last one had. */
  datatype Marks = Marks(first: seq<Mark>, rest: seq<Mark>)

  ghost function MarksAfter(before: Marks, configured: seq<Spec>, op: Op, id: string): Marks {
    match op
    case PickOp(_, _) => before
    case MarkOp(id', m) =>
      if id' != id then before
      else Marks(before.first + [m], if Repeated(configured, id) then before.rest else before.rest + [m])
    case SyncOp(_) =>
      if FindSpec(configured, id).Some? then Marks(before.rest, before.rest) else Marks([], [])
  }

  ghost function MarksOf(ops: seq<Op>, id: string): Marks {
    if ops == [] then Marks([], [])
    else MarksAfter(MarksOf(ops[..|ops| - 1], id), Configured(ops[..|ops| - 1]), ops[|ops| - 1], id)
  }

  /** What entry i holds after a history. */
  ghost function EntryOf(ops: seq<Op>, i: nat): Worker
    requires i < |Configured(ops)|
  {
    var spec := Configured(ops)[i];
    var marks := MarksOf(ops, spec.id);
    WorkerOf(Record(spec, if FirstOfId(Configured(ops), i) then marks.first else marks.rest))
  }

  ghost predicate EntriesHold(ops: seq<Op>, r: Rot) {
    SpecsOf(r) == Configured(ops) && forall i :: 0 <= i < |r.workers| ==> r.workers[i] == EntryOf(ops, i)
  }

  lemma {:induction false} UnrepeatedMarks(ops: seq<Op>, id: string)
    requires !Repeated(Configured(ops), id)
    ensures MarksOf(ops, id).first == MarksOf(ops, id).rest
  {
    if ops != [] && !ops[|ops| - 1].SyncOp? {
      UnrepeatedMarks(ops[..|ops| - 1], id);
    }
  }

  lemma {:induction false} MarkHoldsEntry(ops: seq<Op>, id: string, m: Mark, r: Rot, i: nat)
    requires EntriesHold(ops, r) && i < |r.workers|
    ensures Configured(ops + [MarkOp(id, m)]) == Configured(ops)
    ensures MarkById(r, id, m).workers[i] == EntryOf(ops + [MarkOp(id, m)], i)
  {
    hide WorkerOf;
    var ops' := ops + [MarkOp(id, m)];
    assert ops'[..|ops|] == ops;
    var spec := r.workers[i].spec;
    assert SpecsOf(r)[i] == spec;
    FindIsFirst(r, i);
    if spec.id == id {
      var marks := MarksOf(ops, id);
      if FirstOfId(SpecsOf(r), i) {
        MarkExtendsRecord(Record(spec, marks.first), m);
      } else {
        assert Repeated(SpecsOf(r), id);
      }
    }
  }

  /** The state a resync carries over from any list is that of the marks of its last entry. */
  lemma {:induction false} CarriedMarks(ops: seq<Op>, r: Rot, spec: Spec)
    requires EntriesHold(ops, r)
    ensures Carry(r.workers, spec) ==
            WorkerOf(Record(spec, if FindSpec(Configured(ops), spec.id).Some? then MarksOf(ops, spec.id).rest else []))
  {
    LastWithIndex(r.workers, spec.id);
    match LastIndex(r.workers, spec.id)
    case None =>
      assert forall j :: 0 <= j < |r.workers| ==> SpecsOf(r)[j] == r.workers[j].spec;
      SyncExtendsRecord(None, spec);
    case Some(k) =>
      assert SpecsOf(r)[k] == r.workers[k].spec && r.workers[k] == EntryOf(ops, k);
      if FirstOfId(SpecsOf(r), k) {
        assert forall j :: 0 <= j < |r.workers| ==> SpecsOf(r)[j] == r.workers[j].spec;
        assert !Repeated(SpecsOf(r), spec.id);
        UnrepeatedMarks(ops, spec.id);
      }
      SyncExtendsRecord(Some(Record(r.workers[k].spec, MarksOf(ops, spec.id).rest)), spec);
  }

  /** A resync that keeps an id changes its configuration only; one that adds it starts afresh. */
  lemma {:induction false} SyncExtendsRecord(before: Option<Record>, spec: Spec)
    ensures match before
            case None => WorkerOf(Record(spec, [])) == Fresh(spec)
            case Some(rec) => WorkerOf(Record(spec, rec.marks)) == WorkerOf(rec).(spec := spec)
  {
  }

  lemma {:induction false} SyncHoldsEntry(ops: seq<Op>, specs: seq<Spec>, r: Rot, i: nat)
    requires EntriesHold(ops, r) && i < |specs|
    ensures Configured(ops + [SyncOp(specs)]) == specs
    ensures SyncTo(r, specs).workers[i] == EntryOf(ops + [SyncOp(specs)], i)
  {
    hide WorkerOf, Carry;
    assert (ops + [SyncOp(specs)])[..|ops|] == ops;
    CarriedMarks(ops, r, specs[i]);
  }

  /** After any history, whatever the lists, every worker's clocks and counters are the
      closed form of the marks that reached it: they depend on nothing that happened to
      other ids, on no pick, and on no resync that kept the id. */
  lemma {:induction false} StateIsRecord(ops: seq<Op>)
    ensures EntriesHold(ops, Run(EMPTY, ops))
  {
    hide EntryOf, MarkById, SyncTo, Pick;
    if ops != [] {
      var n := |ops| - 1;
      var before := Run(EMPTY, ops[..n]);
      StateIsRecord(ops[..n]);
      assert ops == ops[..n] + [ops[n]];
      LastStepHolds(ops[..n], ops[n], before);
    }
  }

  lemma {:induction false} LastStepHolds(ops: seq<Op>, op: Op, r: Rot)
    requires EntriesHold(ops, r)
    ensures EntriesHold(ops + [op], Apply(r, op))
  {
    hide EntryOf;
    var r' := Apply(r, op);
    match op
    case PickOp(now, exclude) =>
      forall i | 0 <= i < |r.workers| ensures EntryOf(ops + [op], i) == EntryOf(ops, i) {
        PickHoldsEntry(ops, now, exclude, i);
      }
      PickHoldsConfigured(ops, op);
    case MarkOp(id, m) =>
      forall i | 0 <= i < |r.workers| ensures r'.workers[i] == EntryOf(ops + [op], i) {
        MarkHoldsEntry(ops, id, m, r, i);
      }
      PickHoldsConfigured(ops, op);
      assert SpecsOf(r') == SpecsOf(r);
    case SyncOp(specs) =>
      forall i | 0 <= i < |specs| ensures r'.workers[i] == EntryOf(ops + [op], i) {
        SyncHoldsEntry(ops, specs, r, i);
      }
      assert SpecsOf(r') == specs;
      assert (ops + [op])[|ops|] == op;
  }

  lemma {:induction false} PickHoldsConfigured(ops: seq<Op>, op: Op)
    requires !op.SyncOp?
    ensures Configured(ops + [op]) == Configured(ops)
  {
    assert (ops + [op])[..|ops|] == ops;
  }

  lemma {:induction false} PickHoldsEntry(ops: seq<Op>, now: Time, exclude: set<string>, i: nat)
    requires i < |Configured(ops)|
    ensures i < |Configured(ops + [PickOp(now, exclude)])|
    ensures EntryOf(ops + [PickOp(now, exclude)], i) == EntryOf(ops, i)
  {
    hide WorkerOf;
    assert (ops + [PickOp(now, exclude)])[..|ops|] == ops;
  }

  /** Hence the counter is always 0 to 4. */
  lemma {:induction false} CounterBounded(ops: seq<Op>, i: nat)
    requires i < |Run(EMPTY, ops).workers|
    ensures 0 <= Run(EMPTY, ops).workers[i].fails < AUTO_DISABLE_AFTER
  {
    StateIsRecord(ops);
    assert Run(EMPTY, ops).workers[i] == EntryOf(ops, i);
  }

  /** No resync lists the id twice. */
  ghost predicate NeverRepeated(ops: seq<Op>, id: string) {
    forall k :: 0 <= k < |ops| && ops[k].SyncOp? ==> !Repeated(ops[k].specs, id)
  }

  lemma {:induction false} RecordIsMarks(ops: seq<Op>, id: string)
    requires NeverRepeated(ops, id)
    ensures !Repeated(Configured(ops), id)
    ensures RecordOf(ops, id) == match FindSpec(Configured(ops), id)
                                 case None => None
                                 case Some(spec) => Some(Record(spec, MarksOf(ops, id).first))
  {
    if ops != [] {
      RecordIsMarks(ops[..|ops| - 1], id);
      UnrepeatedMarks(ops[..|ops| - 1], id);
    }
  }

  /** For an id no resync repeats, the marks are all those issued since it was added. */
  lemma {:induction false} LookupIsRecord(ops: seq<Op>, id: string)
    requires NeverRepeated(ops, id)
    ensures Lookup(Run(EMPTY, ops), id) ==
            match RecordOf(ops, id) case None => None case Some(rec) => Some(WorkerOf(rec))
  {
    hide WorkerOf, Run;
    var r := Run(EMPTY, ops);
    StateIsRecord(ops);
    RecordIsMarks(ops, id);
    match FindFrom(r.workers, id, 0)
    case None =>
      assert forall j :: 0 <= j < |r.workers| ==> SpecsOf(r)[j] == r.workers[j].spec;
    case Some(i) =>
      assert SpecsOf(r)[i] == r.workers[i].spec;
      FindIsFirst(r, i);
      FindSpecFirst(SpecsOf(r), i);
      assert r.workers[i] == EntryOf(ops, i);
  }

  // ---- marks commute with resync ----

  lemma {:induction false} SpecsAfterMark(r: Rot, id: string, m: Mark)
    ensures var r' := MarkById(r, id, m);
            |r'.workers| == |r.workers| && forall k :: 0 <= k < |r.workers| ==> r'.workers[k].spec == r.workers[k].spec
    ensures forall w: Worker, spec :: ApplyMark(w.(spec := spec), m) == ApplyMark(w, m).(spec := spec)
  {
  }

  lemma {:induction false} CarryAfterMark(r: Rot, id: string, m: Mark, spec: Spec)
    ensures Carry(MarkById(r, id, m).workers, spec) ==
            if spec.id == id && Lookup(r, id).Some? && FindFrom(r.workers, id, 0) == LastIndex(r.workers, id)
            then ApplyMark(Carry(r.workers, spec), m) else Carry(r.workers, spec)
  {
    SpecsAfterMark(r, id, m);
    hide ApplyMark;
    var r' := MarkById(r, id, m);
    LastWithIndex(r.workers, spec.id);
    LastWithIndex(r'.workers, spec.id);
    var i, i' := LastIndex(r.workers, spec.id), LastIndex(r'.workers, spec.id);
    if i.Some? && i'.Some? {
      assert i.value == i'.value;
    }
  }

  lemma {:induction false} MarkIgnoresSpec(w: Worker, m: Mark, spec: Spec)
    ensures ApplyMark(w.(spec := spec), m) == ApplyMark(w, m).(spec := spec)
  {
  }

  /** The only entry with the id, before and after a resync, is the one that is marked. */
  ghost predicate SingleEntry(r: Rot, specs: seq<Spec>, id: string) {
    && Lookup(r, id).Some? && FindFrom(r.workers, id, 0) == LastIndex(r.workers, id)
    && !Repeated(specs, id)
  }

  /** Entry i of both orders. */
  lemma {:induction false} BothOrders(r: Rot, specs: seq<Spec>, id: string, m: Mark, i: nat)
    requires i < |specs|
    ensures var a, b := MarkById(SyncTo(r, specs), id, m), SyncTo(MarkById(r, id, m), specs);
            var c := Carry(r.workers, specs[i]);
            && a.workers[i] == (if specs[i].id == id && FirstOfId(specs, i) then ApplyMark(c, m) else c)
            && b.workers[i] ==
               (if specs[i].id == id && Lookup(r, id).Some? && FindFrom(r.workers, id, 0) == LastIndex(r.workers, id)
                then ApplyMark(c, m) else c)
  {
    hide Carry, ApplyMark;
    var s := SyncTo(r, specs);
    CarryAfterMark(r, id, m, specs[i]);
    FindIsFirst(s, i);
    assert SpecsOf(s) == specs;
  }

  /** The state a resync gives the first entry of an id. */
  function Carried(r: Rot, specs: seq<Spec>, id: string): Worker
    requires FindSpec(specs, id).Some?
  {
    Carry(r.workers, FindSpec(specs, id).value)
  }

  lemma {:induction false} CarriedUpToSpec(r: Rot, specs: seq<Spec>, id: string, i: nat)
    requires i < |specs| && specs[i].id == id
    ensures FindSpec(specs, id).Some? && Carry(r.workers, specs[i]) == Carried(r, specs, id).(spec := specs[i])
  {
  }

  /** A mark and a resync that it meets in flight, for any two lists: both orders give the
      same rotator if and only if the id is not configured afterwards, or the mark would
      change nothing in the state carried over, or the id has one entry before and after. */
  lemma {:induction false} MarkCommutesWithSync(r: Rot, specs: seq<Spec>, id: string, m: Mark)
    ensures MarkById(SyncTo(r, specs), id, m) == SyncTo(MarkById(r, id, m), specs) <==>
            || FindSpec(specs, id).None?
            || ApplyMark(Carried(r, specs, id), m) == Carried(r, specs, id)
            || SingleEntry(r, specs, id)
  {
    hide ApplyMark, Carry, MarkById, SyncTo;
    var a, b := MarkById(SyncTo(r, specs), id, m), SyncTo(MarkById(r, id, m), specs);
    SameFrame(r, specs, id, m);
    if || FindSpec(specs, id).None?
       || ApplyMark(Carried(r, specs, id), m) == Carried(r, specs, id)
       || SingleEntry(r, specs, id) {
      forall i | 0 <= i < |specs| ensures a.workers[i] == b.workers[i] {
        BothOrders(r, specs, id, m, i);
        if specs[i].id == id {
          CarriedUpToSpec(r, specs, id, i);
          MarkIgnoresSpec(Carried(r, specs, id), m, specs[i]);
        }
      }
      assert a.workers == b.workers;
    } else {
      OrdersDiffer(r, specs, id, m);
    }
  }

  lemma {:induction false} SameFrame(r: Rot, specs: seq<Spec>, id: string, m: Mark)
    ensures var a, b := MarkById(SyncTo(r, specs), id, m), SyncTo(MarkById(r, id, m), specs);
            |a.workers| == |b.workers| == |specs| && a.next == b.next
  {
  }

  lemma {:induction false} FirstIndexOf(specs: seq<Spec>, id: string) returns (i: nat)
    requires FindSpec(specs, id).Some?
    ensures i < |specs| && specs[i].id == id && FirstOfId(specs, i)
  {
    if specs[0].id == id {
      i := 0;
    } else {
      i := FirstIndexOf(specs[1..], id);
      assert forall j :: 0 < j <= i ==> specs[j] == specs[1..][j - 1];
      i := i + 1;
    }
  }

  lemma {:induction false} OrdersDiffer(r: Rot, specs: seq<Spec>, id: string, m: Mark)
    requires FindSpec(specs, id).Some? && ApplyMark(Carried(r, specs, id), m) != Carried(r, specs, id)
    requires !SingleEntry(r, specs, id)
    ensures MarkById(SyncTo(r, specs), id, m) != SyncTo(MarkById(r, id, m), specs)
  {
    hide ApplyMark, Carry, MarkById, SyncTo;
    SameFrame(r, specs, id, m);
    var i := FirstIndexOf(specs, id);
    if Lookup(r, id).Some? && FindFrom(r.workers, id, 0) == LastIndex(r.workers, id) {
      var j, k :| 0 <= j < k < |specs| && specs[j].id == id && specs[k].id == id;
      i := k;
    }
    BothOrders(r, specs, id, m, i);
    CarriedUpToSpec(r, specs, id, i);
    MarkIgnoresSpec(Carried(r, specs, id), m, specs[i]);
    MarkShows(Carried(r, specs, id), m, specs[i]);
  }

  /** A mark that changes a worker changes it under any configuration. */
  lemma {:induction false} MarkShows(w: Worker, m: Mark, spec: Spec)
    requires ApplyMark(w, m) != w
    ensures ApplyMark(w.(spec := spec), m) != w.(spec := spec)
  {
  }

  /** The readings a mark carries come from a running clock. */
  predicate Stamped(m: Mark) {
    match m
    case Success => true
    case Cooldown(now) => now > ZERO_TIME
    case Ban(dur, now, midnight) => BanEnd(dur, now, midnight) > ZERO_TIME
    case Error(_, now) => now > ZERO_TIME
  }

  /** So for an id that no list repeats, a request in flight never loses its mark, and a
      removed id is dropped by both orders. The orders differ exactly when the resync adds
      the id and the mark is not a mere success. */
  lemma {:induction false} MarkInFlight(r: Rot, specs: seq<Spec>, id: string, m: Mark)
    requires FindFrom(r.workers, id, 0) == LastIndex(r.workers, id) && !Repeated(specs, id) && Stamped(m)
    ensures MarkById(SyncTo(r, specs), id, m) == SyncTo(MarkById(r, id, m), specs) <==>
            Lookup(r, id).Some? || FindSpec(specs, id).None? || m.Success?
  {
    hide MarkById, SyncTo;
    MarkCommutesWithSync(r, specs, id, m);
    LookupAfterSync(r, specs, id);
  }

  /** When a resync keeps a ban, for any two lists: exactly if the entry the ban reached is
      the one copied, or the one copied is banned as long anyway. */
  lemma {:induction false} ResyncKeepsBanIff(r: Rot, specs: seq<Spec>, id: string, dur: Time, now: Time, midnight: Time)
    requires Lookup(r, id).Some? && FindSpec(specs, id).Some?
    ensures LastWith(r.workers, id).Some?
    ensures var b := BanEnd(dur, now, midnight);
            var after := SyncTo(MarkById(r, id, Ban(dur, now, midnight)), specs);
            && Lookup(after, id).Some?
            && (Lookup(after, id).value.bannedUntil >= b <==>
                  || FindFrom(r.workers, id, 0) == LastIndex(r.workers, id)
                  || LastWith(r.workers, id).value.bannedUntil >= b)
  {
    hide MarkById, SyncTo;
    LookupAfterSync(MarkById(r, id, Ban(dur, now, midnight)), specs, id);
    CarryAfterMark(r, id, Ban(dur, now, midnight), FindSpec(specs, id).value);
    LastWithIndex(r.workers, id);
  }

  /** So two fresh workers under one id lose a ban at the next resync. */
  lemma {:induction false} DuplicateIdLosesBan(spec: Spec, now: Time, midnight: Time)
    requires ZERO_TIME < now < midnight + DAY
    ensures var r := Rot([Fresh(spec), Fresh(spec)], 0);
            var banned := MarkById(r, spec.id, Ban(BAN_DURATION, now, midnight));
            && banned.workers[0].Banned(now)
            && SyncTo(banned, [spec, spec]).workers[0].Ready(now)
  {
    var r := Rot([Fresh(spec), Fresh(spec)], 0);
    assert FindFrom(r.workers, spec.id, 0) == Some(0);
  }

  // ---- ban safety ----

  /** Every entry with the id, and there is one, is banned until b or longer. */
  ghost predicate AllBanned(r: Rot, id: string, b: Time) {
    && (exists i :: 0 <= i < |r.workers| && r.workers[i].spec.id == id)
    && forall i :: 0 <= i < |r.workers| && r.workers[i].spec.id == id ==> r.workers[i].bannedUntil >= b
  }

  /** Every resync keeps the id, and every later ban of it ends no earlier than b. */
  predicate KeepsBan(ops: seq<Op>, id: string, b: Time) {
    forall k :: 0 <= k < |ops| ==> KeepsBanAt(ops[k], id, b)
  }

  predicate KeepsBanAt(op: Op, id: string, b: Time) {
    match op
    case PickOp(_, _) => true
    case SyncOp(specs) => FindSpec(specs, id).Some?
    case MarkOp(id', m) => id' == id && m.Ban? ==> BanEnd(m.dur, m.now, m.midnight) >= b
  }

  lemma {:induction false} StepKeepsBan(r: Rot, op: Op, id: string, b: Time)
    requires AllBanned(r, id, b) && KeepsBanAt(op, id, b)
    ensures AllBanned(Apply(r, op), id, b)
  {
    var r' := Apply(r, op);
    var i :| 0 <= i < |r.workers| && r.workers[i].spec.id == id;
    match op
    case PickOp(_, _) =>
    case MarkOp(id', m) =>
      assert r'.workers[i].spec.id == id;
    case SyncOp(specs) =>
      var j := FirstIndexOf(specs, id);
      assert r'.workers[j].spec.id == id;
      LastWithIndex(r.workers, id);
      assert forall k :: 0 <= k < |specs| && specs[k].id == id ==> r'.workers[k] == Carry(r.workers, specs[k]);
  }

  /** A ban that holds for every entry of an id is not shortened by any run of picks, other
      marks and resyncs that keep the id, repeated or not. */
  lemma {:induction false} BanPersists(r: Rot, ops: seq<Op>, id: string, b: Time)
    requires r.Valid() && AllBanned(r, id, b) && KeepsBan(ops, id, b)
    ensures Run(r, ops).Valid() && AllBanned(Run(r, ops), id, b)
  {
    hide Apply, AllBanned;
    RunValid(r, ops);
    if ops != [] {
      var n := |ops| - 1;
      BanPersists(r, ops[..n], id, b);
      StepKeepsBan(Run(r, ops[..n]), ops[n], id, b);
    }
  }

  /** A worker banned until b is returned by no pick before b, through any marks,
      picks and resyncs that keep its id. */
  lemma {:induction false} NoPickBeforeBanEnds(r: Rot, ops: seq<Op>, id: string, b: Time, k: nat)
    requires r.Valid() && AllBanned(r, id, b) && KeepsBan(ops, id, b)
    requires k < |ops| && ops[k].PickOp? && ops[k].now < b
    ensures var before := Run(r, ops[..k]);
            var o := ChosenAt(r, ops, k);
            o.Some? ==> o.value < |before.workers| && before.workers[o.value].spec.id != id
  {
    hide Pick;
    BanPersists(r, ops[..k], id, b);
    PickSafe(Run(r, ops[..k]), ops[k].now, ops[k].exclude);
  }

  /** The id is known, and its further entries, if it is repeated, are banned until b. */
  ghost predicate OthersBanned(r: Rot, id: string, b: Time) {
    && Lookup(r, id).Some?
    && forall i :: 0 <= i < |r.workers| && r.workers[i].spec.id == id && FindFrom(r.workers, id, 0) != Some(i) ==>
                     r.workers[i].bannedUntil >= b
  }

  /** Exactly then a ban reaches all entries of its id; an id that is not repeated needs
      nothing more than to be known. */
  lemma {:induction false} BanReachesAllIff(r: Rot, id: string, dur: Time, now: Time, midnight: Time)
    ensures AllBanned(MarkById(r, id, Ban(dur, now, midnight)), id, BanEnd(dur, now, midnight)) <==>
            OthersBanned(r, id, BanEnd(dur, now, midnight))
    ensures Lookup(r, id).Some? && FindFrom(r.workers, id, 0) == LastIndex(r.workers, id) ==>
              OthersBanned(r, id, BanEnd(dur, now, midnight))
  {
    var b, r' := BanEnd(dur, now, midnight), MarkById(r, id, Ban(dur, now, midnight));
    assert forall i :: 0 <= i < |r.workers| ==> r'.workers[i].spec == r.workers[i].spec;
    if OthersBanned(r, id, b) {
      assert r'.workers[FindFrom(r.workers, id, 0).value].spec.id == id;
    }
    if AllBanned(r', id, b) {
      var i :| 0 <= i < |r'.workers| && r'.workers[i].spec.id == id;
      assert r.workers[i].spec.id == id;
      forall j | 0 <= j < |r.workers| && r.workers[j].spec.id == id && FindFrom(r.workers, id, 0) != Some(j)
        ensures r.workers[j].bannedUntil >= b
      {
        assert r'.workers[j] == r.workers[j];
      }
    }
  }

  /** Later bans of the id are default bans given on the same or a later day. */
  predicate LaterBansOnly(ops: seq<Op>, id: string, midnight: Time) {
    forall k :: 0 <= k < |ops| ==>
      match ops[k]
      case PickOp(_, _) => true
      case SyncOp(specs) => FindSpec(specs, id).Some?
      case MarkOp(id', m) =>
        id' == id && m.Ban? ==> m.dur == BAN_DURATION && m.midnight >= midnight
  }

  /** A free-limit ban keeps its worker out of every pick until the next midnight. */
  lemma {:induction false} BanSafety(r: Rot, id: string, now: Time, midnight: Time, ops: seq<Op>, k: nat)
    requires r.Valid() && OthersBanned(r, id, NextMidnight(midnight))
    requires LaterBansOnly(ops, id, midnight)
    requires k < |ops| && ops[k].PickOp? && ops[k].now < NextMidnight(midnight)
    ensures var banned := MarkById(r, id, Ban(BAN_DURATION, now, midnight));
            var o := ChosenAt(banned, ops, k);
            o.Some? ==> && o.value < |Run(banned, ops[..k]).workers|
                        && Run(banned, ops[..k]).workers[o.value].spec.id != id
  {
    hide AllBanned, OthersBanned, Run;
    BanReachesAllIff(r, id, BAN_DURATION, now, midnight);
    NoPickBeforeBanEnds(MarkById(r, id, Ban(BAN_DURATION, now, midnight)), ops, id, NextMidnight(midnight), k);
  }

  /** The ban is in force at the moment it is given exactly when less than 24h of
      the local day have passed. On a 24h day that is always so and the ban ends
      within 24h; in the last hour of a 25h day the new ban is already over and,
      its cooldown being cleared too, the worker is ready again at once. It lasts the full
      24h only when it is given at midnight. */
  lemma {:induction false} BanTakesEffect(w: Worker, now: Time, midnight: Time)
    requires ZERO_TIME < midnight <= now
    ensures var w' := ApplyMark(w, Ban(BAN_DURATION, now, midnight));
            && (w'.Banned(now) <==> now - midnight < DAY)
            && (w'.Ready(now) <==> now - midnight > DAY)
            && w'.bannedUntil <= now + DAY
            && (w'.bannedUntil == now + BAN_DURATION <==> now == midnight)
  {
  }
}
