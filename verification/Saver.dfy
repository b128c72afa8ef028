/** The debounced saver of the usage counters: mutations of the store interleaved in any
    way with the loop that waits for a change token, a timer or the close signal. */
module Saving {
  import opened Common
  import opened Stats

  /** Where the loop is: waiting; between receiving a change token and setting the timer;
      between receiving a tick and saving; between saving and stopping the timer; between
      receiving the close signal and saving; gone. */
  datatype Pc = Waiting | GotChange | GotTick | Saved | GotClose | Gone

  datatype Saver = Saver(mem: Rows, disk: Rows, changed: bool, armed: bool, tick: bool, closed: bool,
                         pc: Pc, failed: bool)  // failed: the last write did not succeed
  {
    /** A token or a tick waits, the timer is armed, or the loop is on its way to a write. */
    predicate Pending() {
      match pc
      case Waiting => changed || armed || tick || closed
      case GotChange | GotTick | GotClose => true
      case Saved | Gone => changed
    }

    /** If no write fails, what is in memory now will reach the disk, whichever ticks the
        timer calls take back. */
    predicate WillSave() {
      match pc
      case Waiting => changed || armed || tick || closed
      case GotChange | GotTick | GotClose => true
      case Saved => changed || closed
      case Gone => false
    }
  }

  /** Setting or stopping a timer may or may not take back a tick already sent. */
  datatype Step =
    | Mutate(e: Event)
    | Close
    | TakeChange
    | SetTimer(dropTick: bool)
    | Fire
    | TakeTick
    | Save(ok: bool)
    | StopTimer(dropTick: bool)
    | TakeClose
    | SaveLast(ok: bool)

  predicate Enabled(s: Saver, step: Step) {
    match step
    case Mutate(_) | Close => true
    case TakeChange => s.pc == Waiting && s.changed
    case SetTimer(_) => s.pc == GotChange
    case Fire => s.armed
    case TakeTick => s.pc == Waiting && s.tick
    case Save(_) => s.pc == GotTick
    case StopTimer(_) => s.pc == Saved
    case TakeClose => s.pc == Waiting && s.closed
    case SaveLast(_) => s.pc == GotClose
  }

  function Write(s: Saver, ok: bool): Saver {
    s.(disk := if ok then s.mem else s.disk, failed := !ok)
  }

  function Exec(s: Saver, step: Step): Saver {
    match step
    case Mutate(e) => s.(mem := Stats.Apply(s.mem, e), changed := true)
    case Close => s.(closed := true)
    case TakeChange => s.(changed := false, pc := GotChange)
    case SetTimer(drop) => s.(armed := true, tick := s.tick && !drop, pc := Waiting)
    case Fire => s.(armed := false, tick := true)
    case TakeTick => s.(tick := false, pc := GotTick)
    case Save(ok) => Write(s, ok).(pc := Saved)
    case StopTimer(drop) => s.(armed := false, tick := s.tick && !drop, pc := Waiting)
    case TakeClose => s.(pc := GotClose)
    case SaveLast(ok) => Write(s, ok).(pc := Gone)
  }

  /** A loop that has just started over rows as they are on disk. */
  function Start(rows: Rows): Saver {
    Saver(rows, rows, false, false, false, false, Waiting, false)
  }

  function ExecAll(s: Saver, steps: seq<Step>): Saver {
    if steps == [] then s else Exec(ExecAll(s, Init(steps)), Last(steps))
  }

  predicate AllEnabled(s: Saver, steps: seq<Step>) {
    steps == [] || (AllEnabled(s, Init(steps)) && Enabled(ExecAll(s, Init(steps)), Last(steps)))
  }

  /** The mutations of a run, in order. */
  function Mutations(steps: seq<Step>): seq<Event> {
    if steps == [] then []
    else Mutations(Init(steps)) + (if Last(steps).Mutate? then [Last(steps).e] else [])
  }

  /** How many of the mutations the last write covered, or would have if it had not failed. */
  function Attempted(steps: seq<Step>): (n: nat)
    ensures n <= |Mutations(steps)|
  {
    if steps == [] then 0
    else if Last(steps).Save? || Last(steps).SaveLast? then |Mutations(steps)|
    else Attempted(Init(steps))
  }

  predicate Writes(step: Step) {
    (step.Save? || step.SaveLast?) && step.ok
  }

  /** How many of the mutations the last successful write covered. */
  function Covered(steps: seq<Step>): (n: nat)
    ensures n <= |Mutations(steps)|
  {
    if steps == [] then 0
    else if Writes(Last(steps)) then |Mutations(steps)|
    else Covered(Init(steps))
  }

  lemma {:induction false} StepEffect(s: Saver, step: Step)
    ensures Exec(s, step).mem == if step.Mutate? then Stats.Apply(s.mem, step.e) else s.mem
    ensures Exec(s, step).disk == if Writes(step) then s.mem else s.disk
  {
    hide Stats.Apply;
  }

  /** One step: untried says that no write was tried since some mutation before it. */
  lemma {:induction false} StepForgetsNothing(s: Saver, step: Step, untried: bool)
    requires Enabled(s, step) && (untried ==> s.Pending())
    ensures (untried || step.Mutate?) && !step.Save? && !step.SaveLast? ==> Exec(s, step).Pending()
  {
    hide Stats.Apply;
  }

  /** Memory holds all mutations, and the disk always holds exactly the first ones: a
      write never saves a state the store was not in, and never loses an earlier one. */
  lemma {:induction false} DiskIsPrefix(rows: Rows, steps: seq<Step>)
    requires AllEnabled(Start(rows), steps)
    ensures var s := ExecAll(Start(rows), steps);
            && s.mem == Stats.Run(rows, Mutations(steps))
            && s.disk == Stats.Run(rows, Mutations(steps)[..Covered(steps)])
  {
    hide Stats.Apply, Exec;
    if steps != [] {
      DiskIsPrefix(rows, Init(steps));
      StepEffect(ExecAll(Start(rows), Init(steps)), Last(steps));
      var before := Mutations(Init(steps));
      if Last(steps).Mutate? {
        RunNext(rows, before, Last(steps).e);
        assert (before + [Last(steps).e])[..Covered(Init(steps))] == before[..Covered(Init(steps))];
      } else {
        assert before[..|before|] == before && before + [] == before;
      }
    }
  }

  /** No forgotten update: in every interleaving, whenever a mutation came after the last
      write, successful or not, then the loop is going to write again. */
  lemma {:induction false} NothingForgotten(rows: Rows, steps: seq<Step>)
    requires AllEnabled(Start(rows), steps)
    ensures Attempted(steps) < |Mutations(steps)| ==> ExecAll(Start(rows), steps).Pending()
  {
    hide Exec;
    if steps != [] {
      NothingForgotten(rows, Init(steps));
      var untried := Attempted(Init(steps)) < |Mutations(Init(steps))|;
      StepForgetsNothing(ExecAll(Start(rows), Init(steps)), Last(steps), untried);
    }
  }

  /** So a mutation that is not on disk is the fault of a failed write, or came after the
      close branch, or will be saved. */
  lemma {:induction false} UnsavedMeans(rows: Rows, steps: seq<Step>)
    requires AllEnabled(Start(rows), steps)
    ensures var s := ExecAll(Start(rows), steps);
            Covered(steps) < |Mutations(steps)| ==>
              s.WillSave() || s.pc == Gone || (s.failed && Covered(steps) < Attempted(steps))
  {
    hide Stats.Apply;
    NothingForgotten(rows, steps);
    FailedIsLastAttempt(rows, steps);
  }

  lemma {:induction false} StepFails(s: Saver, step: Step)
    ensures Exec(s, step).failed == if step.Save? || step.SaveLast? then !step.ok else s.failed
  {
    hide Stats.Apply;
  }

  lemma {:induction false} FailedIsLastAttempt(rows: Rows, steps: seq<Step>)
    ensures Covered(steps) <= Attempted(steps)
    ensures !ExecAll(Start(rows), steps).failed ==> Covered(steps) == Attempted(steps)
  {
    hide Exec;
    if steps != [] {
      FailedIsLastAttempt(rows, Init(steps));
      StepFails(ExecAll(Start(rows), Init(steps)), Last(steps));
    }
  }

  // ---- progress ----

  /** A step of the loop or of its timer, with no failing write. */
  predicate Internal(step: Step) {
    !step.Mutate? && !step.Close? && (step.Save? || step.SaveLast? ==> step.ok)
  }

  predicate AllInternal(steps: seq<Step>) {
    forall i :: 0 <= i < |steps| ==> Internal(steps[i])
  }

  /** How many steps the loop can still take by itself. */
  function Measure(s: Saver): (n: nat)
    ensures n <= 21
  {
    (if s.changed then 6 else 0) + (if s.armed then 4 else 0) + (if s.tick then 3 else 0)
    + match s.pc
      case Waiting => 3
      case GotChange => 8
      case GotTick => 5
      case Saved => 4
      case GotClose => 2
      case Gone => 0
  }

  lemma {:induction false} InternalStepsEnd(s: Saver, step: Step)
    requires Internal(step) && Enabled(s, step)
    ensures Measure(Exec(s, step)) < Measure(s)
  {
  }

  /** Nothing the loop or its timer could do. */
  predicate Quiet(s: Saver) {
    !s.armed && (s.pc == Gone || (s.pc == Waiting && !s.changed && !s.tick && !s.closed))
  }

  lemma {:induction false} QuietMeans(s: Saver)
    ensures Quiet(s) <==> forall step :: Internal(step) ==> !Enabled(s, step)
  {
    if forall step :: Internal(step) ==> !Enabled(s, step) {
      assert Internal(TakeChange) && Internal(SetTimer(true)) && Internal(Fire) && Internal(TakeTick);
      assert Internal(Save(true)) && Internal(StopTimer(true)) && Internal(TakeClose) && Internal(SaveLast(true));
    }
  }

  /** A run the loop and its timer make by themselves, to rest. */
  ghost predicate ToRest(s: Saver, more: seq<Step>) {
    AllInternal(more) && AllEnabled(s, more) && Quiet(ExecAll(s, more))
  }

  /** However the loop comes to rest, all of memory is then on disk. */
  ghost predicate EndsSaved(s: Saver) {
    forall more :: ToRest(s, more) ==> ExecAll(s, more).disk == ExecAll(s, more).mem
  }

  /** Left alone by mutations and failing writes, the saver comes to rest within 21 steps,
      with memory unchanged, from any state whatever. */
  lemma {:induction false} ComesToRest(s: Saver, more: seq<Step>)
    requires AllInternal(more) && AllEnabled(s, more)
    ensures |more| + Measure(ExecAll(s, more)) <= Measure(s) <= 21 && ExecAll(s, more).mem == s.mem
    ensures s.disk == s.mem || s.WillSave() ==>
              ExecAll(s, more).disk == ExecAll(s, more).mem || ExecAll(s, more).WillSave()
  {
    if more != [] {
      assert Internal(more[|more| - 1]);
      ComesToRest(s, Init(more));
      InternalStepsEnd(ExecAll(s, Init(more)), Last(more));
    }
  }

  /** Whenever memory is ahead and no save is to come, there is a way to rest unsaved. */
  lemma {:induction false} WayToRest(s: Saver) returns (more: seq<Step>)
    requires !s.WillSave()
    ensures ToRest(s, more) && ExecAll(s, more).disk == s.disk && ExecAll(s, more).mem == s.mem
  {
    if s.pc == Saved {
      more := [StopTimer(true)];
    } else if s.armed {
      more := [Fire];
    } else {
      more := [];
    }
    if more != [] {
      assert Init(more) == [] && Last(more) == more[0];
      assert ExecAll(s, Init(more)) == s && AllEnabled(s, Init(more));
    }
  }

  /** Exactly when everything gets saved: left alone, the loop comes to rest with all of
      memory on disk if and only if it is there already or a save is to come. */
  lemma {:induction false} SavedIff(s: Saver)
    ensures EndsSaved(s) <==> s.disk == s.mem || s.WillSave()
  {
    if s.disk == s.mem || s.WillSave() {
      forall more | ToRest(s, more)
        ensures ExecAll(s, more).disk == ExecAll(s, more).mem
      {
        ComesToRest(s, more);
      }
    } else {
      var more := WayToRest(s);
      assert ToRest(s, more);
    }
  }

  /** In every run: once a mutation came after the last write, failed or not, and the loop
      is not gone, all mutations so far are on disk when the loop has come to rest. */
  lemma {:induction false} EventuallySaved(rows: Rows, steps: seq<Step>, more: seq<Step>)
    requires AllEnabled(Start(rows), steps)
    requires Attempted(steps) < |Mutations(steps)| && ExecAll(Start(rows), steps).pc != Gone
    requires ToRest(ExecAll(Start(rows), steps), more)
    ensures var end := ExecAll(ExecAll(Start(rows), steps), more);
            end.disk == end.mem == Stats.Run(rows, Mutations(steps))
  {
    hide Stats.Apply, Exec;
    NothingForgotten(rows, steps);
    DiskIsPrefix(rows, steps);
    SavedIff(ExecAll(Start(rows), steps));
    ComesToRest(ExecAll(Start(rows), steps), more);
  }

  lemma {:induction false} StaysClosed(s: Saver, steps: seq<Step>)
    requires s.closed
    ensures ExecAll(s, steps).closed
  {
    hide Exec;
    if steps != [] {
      StaysClosed(s, Init(steps));
      StepStaysClosed(ExecAll(s, Init(steps)), Last(steps));
    }
  }

  lemma {:induction false} StepStaysClosed(s: Saver, step: Step)
    requires s.closed
    ensures Exec(s, step).closed
  {
    hide Stats.Apply;
  }

  /** Closing the store ends the loop: left alone after the close signal it comes to rest gone,
      and not before a last write, so that, unless it was gone already, all of memory is then
      on disk. */
  lemma {:induction false} CloseLeadsToLastWrite(s: Saver, more: seq<Step>)
    requires ToRest(Exec(s, Close), more)
    ensures ExecAll(Exec(s, Close), more).pc == Gone
    ensures s.pc != Gone ==> ExecAll(Exec(s, Close), more).disk == s.mem
    ensures s.pc != Gone ==> exists i :: 0 <= i < |more| && more[i] == SaveLast(true)
  {
    hide Stats.Apply;
    var t := Exec(s, Close);
    StaysClosed(t, more);
    if s.pc != Gone {
      ComesToRest(t, more);
      LastWriteOnTheWay(t, more);
    }
  }

  lemma {:induction false} LastWriteOnTheWay(s: Saver, more: seq<Step>)
    requires AllInternal(more) && AllEnabled(s, more) && s.pc != Gone && ExecAll(s, more).pc == Gone
    ensures exists i :: 0 <= i < |more| && more[i] == SaveLast(true)
  {
    var n := |more| - 1;
    assert Internal(more[n]);
    if ExecAll(s, Init(more)).pc == Gone {
      LastWriteOnTheWay(s, Init(more));
      var i :| 0 <= i < n && Init(more)[i] == SaveLast(true);
      assert more[i] == SaveLast(true);
    } else {
      GoesOnlyByWrite(ExecAll(s, Init(more)), Last(more));
      assert more[n] == SaveLast(true);
    }
  }

  lemma {:induction false} GoesOnlyByWrite(s: Saver, step: Step)
    requires Internal(step) && Enabled(s, step) && s.pc != Gone && Exec(s, step).pc == Gone
    ensures step == SaveLast(true)
  {
    hide Stats.Apply;
  }

  /** After the close branch has run, the disk holds the memory it found. */
  lemma {:induction false} CloseSaves(rows: Rows, steps: seq<Step>)
    requires AllEnabled(Start(rows), steps + [SaveLast(true)])
    ensures var s := ExecAll(Start(rows), steps + [SaveLast(true)]);
            s.pc == Gone && s.disk == Stats.Run(rows, Mutations(steps))
  {
    hide Stats.Apply;
    var all := steps + [SaveLast(true)];
    assert Init(all) == steps && Last(all) == SaveLast(true);
    DiskIsPrefix(rows, steps);
  }

  // ---- what the conditions rule out ----

  /** A run one step longer. */
  lemma {:induction false} Then(s: Saver, steps: seq<Step>, at: Saver, step: Step)
    returns (longer: seq<Step>, next: Saver)
    requires AllEnabled(s, steps) && ExecAll(s, steps) == at && Enabled(at, step)
    ensures AllEnabled(s, longer) && ExecAll(s, longer) == next == Exec(at, step)
  {
    longer, next := steps + [step], Exec(at, step);
    assert Init(longer) == steps && Last(longer) == step;
  }

  /** A write that fails is not tried again: the loop rests with an unsaved change until
      the next mutation, or the close signal, comes. */
  lemma {:induction false} FailedWriteIsNotRetried(rows: Rows, e: Event) returns (steps: seq<Step>)
    requires Stats.Apply(rows, e) != rows
    ensures AllEnabled(Start(rows), steps)
    ensures var s := ExecAll(Start(rows), steps);
            Quiet(s) && s.pc == Waiting && s.failed && s.disk != s.mem && !s.WillSave()
  {
    hide Stats.Apply, ExecAll, AllEnabled;
    var s, at := Start(rows), Start(rows);
    steps := [];
    NoSteps(s);
    steps, at := Then(s, steps, at, Mutate(e));
    steps, at := Then(s, steps, at, TakeChange);
    steps, at := Then(s, steps, at, SetTimer(true));
    steps, at := Then(s, steps, at, Fire);
    steps, at := Then(s, steps, at, TakeTick);
    steps, at := Then(s, steps, at, Save(false));
    steps, at := Then(s, steps, at, StopTimer(true));
  }

  lemma {:induction false} NoSteps(s: Saver)
    ensures AllEnabled(s, []) && ExecAll(s, []) == s
  {
  }

  lemma {:induction false} GoneStep(s: Saver, step: Step)
    requires s.pc == Gone && Enabled(s, step)
    ensures Exec(s, step).disk == s.disk && Exec(s, step).pc == Gone
  {
    hide Stats.Apply;
  }

  /** A mutation after the close branch has run is never saved, whatever happens next. */
  lemma {:induction false} GoneSavesNothing(s: Saver, steps: seq<Step>)
    requires s.pc == Gone && AllEnabled(s, steps)
    ensures ExecAll(s, steps).disk == s.disk && ExecAll(s, steps).pc == Gone
  {
    hide Exec;
    if steps != [] {
      GoneSavesNothing(s, Init(steps));
      GoneStep(ExecAll(s, Init(steps)), Last(steps));
    }
  }
}
