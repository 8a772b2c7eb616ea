/**
  The restore recovery hold (src/core/restore_startup.cpp, and the activation of a
  restore in src/backup/snapshot_repository.cpp).

  Two files in the base directory: the restore marker and the producer hold.  Each
  exists or not as the running system sees it, and as it would be found after a power
  loss; syncing the directory makes the second agree with the first, and the system may
  write either back on its own.  A restore puts the database in place and then writes
  the marker, unsynced.  A restore or a start can stop after any file operation, and
  power can be lost in between, keeping or losing each unsynced change independently.
 */
module RecoveryHold {
  import opened Options

  datatype Event =
    | Restored
    | WrittenBack
    | PowerLost
    | Started(explicit: bool, sawMarker: bool, production: Option<bool>)

  datatype Action =
    | Restoring(finished: bool)
    | WritingBack(marker: bool, hold: bool)
    | Starting(configured: bool, explicit: bool, steps: nat)
    | LosingPower(keepMarker: bool, keepHold: bool)

  /** Which files exist, now and after a power loss. */
  datatype Files = Files(marker: bool, hold: bool, durableMarker: bool, durableHold: bool)

  const NO_FILES: Files := Files(false, false, false, false)

  // ---- What each action does ---------------------------------------------------

  function Synced(f: Files): Files {
    Files(f.marker, f.hold, f.marker, f.hold)
  }

  /** The marker path, stopped after `steps` operations: create the hold, sync it, sync
      the directory, remove the marker, sync the directory. */
  function Consuming(f: Files, steps: nat): Files {
    var held := f.(hold := true);
    if steps < 1 then f
    else if steps < 3 then held
    else if steps < 4 then Synced(held)
    else if steps < 5 then Synced(held).(marker := false)
    else Synced(held.(marker := false))
  }

  function StartedFiles(f: Files, explicit: bool, steps: nat): Files {
    if f.marker then Consuming(f, steps)
    else if f.hold && explicit then
      if steps < 1 then f else if steps < 2 then f.(hold := false) else Synced(f.(hold := false))
    else f
  }

  /** Whether production is enabled, or None when the start stopped before deciding. */
  function Decision(f: Files, configured: bool, explicit: bool, steps: nat): Option<bool> {
    if f.marker then if steps < 5 then None else Some(false)
    else if f.hold && explicit then if steps < 2 then None else Some(configured)
    else Some(configured && !f.hold)
  }

  function FilesAfter(f: Files, a: Action): Files {
    match a
    case Restoring(finished) => f.(marker := f.marker || finished)
    case WritingBack(marker, hold) =>
      f.(durableMarker := if marker then f.marker else f.durableMarker, durableHold := if hold then f.hold else f.durableHold)
    case Starting(_, explicit, steps) => StartedFiles(f, explicit, steps)
    case LosingPower(keepMarker, keepHold) =>
      Synced(f.(marker := if keepMarker then f.marker else f.durableMarker, hold := if keepHold then f.hold else f.durableHold))
  }

  function EventOf(f: Files, a: Action): Event {
    match a
    case Restoring(_) => Restored
    case WritingBack(_, _) => WrittenBack
    case Starting(configured, explicit, steps) =>
      Started(explicit, f.marker, Decision(f, configured, explicit, steps))
    case LosingPower(_, _) => PowerLost
  }

  function FilesOf(actions: seq<Action>): Files {
    if actions == [] then NO_FILES else FilesAfter(FilesOf(actions[..|actions| - 1]), actions[|actions| - 1])
  }

  function LogOf(actions: seq<Action>): (log: seq<Event>)
    ensures |log| == |actions|
  {
    if actions == [] then []
    else
      var front := actions[..|actions| - 1];
      LogOf(front) + [EventOf(FilesOf(front), actions[|actions| - 1])]
  }

  /** A start that is not stopped enables production exactly when it is configured, no
      marker is there, and no hold is there or the flag is given; it leaves no marker. */
  lemma {:induction false} FinishedStart(f: Files, configured: bool, explicit: bool, steps: nat)
    requires steps >= 5
    ensures Decision(f, configured, explicit, steps) == Some(configured && !f.marker && (!f.hold || explicit))
    ensures StartedFiles(f, explicit, steps).marker == false
    ensures StartedFiles(f, explicit, steps).hold == (f.marker || (f.hold && !explicit))
  {
  }

  /** What a finished start has changed is durable: whatever a power loss then keeps, a
      consumed marker stays gone with the hold in its place, and a released hold stays
      released. */
  lemma {:induction false} FinishedStartIsDurable(f: Files, configured: bool, explicit: bool, steps: nat, keepMarker: bool, keepHold: bool)
    requires steps >= 5 && (f.marker || (f.hold && explicit))
    ensures FilesAfter(FilesAfter(f, Starting(configured, explicit, steps)), LosingPower(keepMarker, keepHold)) ==
      Files(false, f.marker, false, f.marker)
  {
  }

  // ---- What the log must respect -----------------------------------------------

  /** A start that found the marker and went on with production off. */
  predicate Consumes(e: Event) {
    e.Started? && e.sawMarker && e.production == Some(false)
  }

  /** A start with the explicit flag that found no marker. */
  predicate Releases(e: Event) {
    e.Started? && e.explicit && !e.sawMarker
  }

  ghost predicate ConsumedAfter(log: seq<Event>, i: nat) {
    exists k :: i < k < |log| && Consumes(log[k])
  }

  /** Between the restore at i and the end, a start consumed the marker and a later
      one released the hold. */
  ghost predicate ReleasedAfter(log: seq<Event>, i: nat) {
    exists k, l :: i < k < l < |log| && Consumes(log[k]) && Releases(log[l])
  }

  /** No start of the log enables production after a restore that has not yet been
      followed by a consuming and then a releasing start. */
  ghost predicate HoldRespected(log: seq<Event>) {
    forall i, j :: 0 <= i < j < |log| && log[i].Restored? && log[j].Started? && log[j].production == Some(true) ==>
      ReleasedAfter(log[..j + 1], i)
  }

  lemma {:induction false} ReleasedGrows(log: seq<Event>, e: Event, i: nat)
    ensures ReleasedAfter(log, i) ==> ReleasedAfter(log + [e], i)
    ensures ConsumedAfter(log, i) ==> ConsumedAfter(log + [e], i)
  {
    var more := log + [e];
    if ReleasedAfter(log, i) {
      var k, l :| i < k < l < |log| && Consumes(log[k]) && Releases(log[l]);
      assert Consumes(more[k]) && Releases(more[l]);
    }
    if ConsumedAfter(log, i) {
      var k :| i < k < |log| && Consumes(log[k]);
      assert Consumes(more[k]);
    }
  }

  lemma {:induction false} ReleaseNow(log: seq<Event>, e: Event, i: nat)
    requires ConsumedAfter(log, i) && Releases(e)
    ensures ReleasedAfter(log + [e], i)
  {
    var more := log + [e];
    var k :| i < k < |log| && Consumes(log[k]);
    assert Consumes(more[k]) && Releases(more[|log|]);
  }

  lemma {:induction false} ConsumeNow(log: seq<Event>, e: Event, i: nat)
    requires i < |log| && Consumes(e)
    ensures ConsumedAfter(log + [e], i)
  {
    assert Consumes((log + [e])[|log|]);
  }

  lemma {:induction false} RespectedGrows(log: seq<Event>, e: Event)
    requires HoldRespected(log)
    requires e.Started? && e.production == Some(true) ==> forall i :: 0 <= i < |log| && log[i].Restored? ==> ReleasedAfter(log + [e], i)
    ensures HoldRespected(log + [e])
  {
    var more := log + [e];
    forall i, j | 0 <= i < j < |more| && more[i].Restored? && more[j].Started? && more[j].production == Some(true)
      ensures ReleasedAfter(more[..j + 1], i)
    {
      if j < |log| {
        assert more[..j + 1] == log[..j + 1];
      } else {
        assert more[..j + 1] == more;
      }
    }
  }

  /** The restore at i still blocks production, unless it has been consumed and released. */
  ghost predicate Guarded(f: Files, log: seq<Event>, i: nat) {
    || ReleasedAfter(log, i)
    || f.marker
    || (ConsumedAfter(log, i) && f.hold && f.durableHold)
  }

  ghost predicate AllGuarded(f: Files, log: seq<Event>) {
    forall i :: 0 <= i < |log| && log[i].Restored? ==> Guarded(f, log, i)
  }

  /** The three ways to be left with a restored database, no marker and no start that ran
      with production off: the restore stops before it writes the marker, a power loss
      takes the marker before it is durable, or a start stops right after removing it. */
  predicate Exposes(f: Files, a: Action) {
    || (a.Restoring? && !a.finished && !f.marker)
    || (a.LosingPower? && !a.keepMarker && f.marker && !f.durableMarker)
    || (a.Starting? && f.marker && a.steps == 4)
  }

  lemma {:induction false} StepGuards(f: Files, log: seq<Event>, a: Action, i: nat)
    requires i < |log| && Guarded(f, log, i) && !Exposes(f, a)
    ensures Guarded(FilesAfter(f, a), log + [EventOf(f, a)], i)
    ensures EventOf(f, a).Started? && EventOf(f, a).production == Some(true) ==> ReleasedAfter(log + [EventOf(f, a)], i)
  {
    var e := EventOf(f, a);
    ReleasedGrows(log, e, i);
    if Consumes(e) { ConsumeNow(log, e, i); }
    if ConsumedAfter(log, i) && Releases(e) { ReleaseNow(log, e, i); }
  }

  lemma {:induction false} StepKeeps(f: Files, log: seq<Event>, a: Action)
    requires HoldRespected(log) && AllGuarded(f, log) && !Exposes(f, a)
    ensures HoldRespected(log + [EventOf(f, a)]) && AllGuarded(FilesAfter(f, a), log + [EventOf(f, a)])
  {
    var e := EventOf(f, a);
    forall i | 0 <= i < |log| && log[i].Restored?
      ensures Guarded(FilesAfter(f, a), log + [e], i)
      ensures e.Started? && e.production == Some(true) ==> ReleasedAfter(log + [e], i)
    {
      StepGuards(f, log, a, i);
    }
    RespectedGrows(log, e);
  }

  ghost predicate ExposedAt(actions: seq<Action>, n: nat)
    requires n < |actions|
  {
    Exposes(FilesOf(actions[..n]), actions[n])
  }

  ghost predicate NeverExposed(actions: seq<Action>) {
    forall n :: 0 <= n < |actions| ==> !ExposedAt(actions, n)
  }

  lemma {:induction false} ExposedEarlier(actions: seq<Action>, a: Action)
    ensures NeverExposed(actions + [a]) <==> NeverExposed(actions) && !Exposes(FilesOf(actions), a)
  {
    var more := actions + [a];
    assert more[..|actions|] == actions;
    forall n | 0 <= n < |actions|
      ensures ExposedAt(more, n) <==> ExposedAt(actions, n)
    {
      assert more[..n] == actions[..n];
    }
    assert ExposedAt(more, |actions|) <==> Exposes(FilesOf(actions), a);
  }

  /** For any sequence of restores, starts stopped anywhere, write-backs and power losses
      in which no restore is exposed, no start enables production after a restore until a
      start has found the marker and run with production off, and a later start with the
      explicit flag found none. */
  lemma {:induction false} HoldIsRespected(actions: seq<Action>)
    requires NeverExposed(actions)
    ensures HoldRespected(LogOf(actions)) && AllGuarded(FilesOf(actions), LogOf(actions))
    decreases |actions|
  {
    if actions != [] {
      var front, a := actions[..|actions| - 1], actions[|actions| - 1];
      assert actions == front + [a];
      ExposedEarlier(front, a);
      HoldIsRespected(front);
      StepKeeps(FilesOf(front), LogOf(front), a);
    }
  }

  /** Some restore has not been followed by a consuming start. */
  ghost predicate Pending(log: seq<Event>) {
    exists i :: 0 <= i < |log| && log[i].Restored? && !ConsumedAfter(log, i)
  }

  lemma {:induction false} PendingGrows(log: seq<Event>, e: Event)
    requires e.Restored? || (Pending(log) && !Consumes(e))
    ensures Pending(log + [e])
  {
    var more := log + [e];
    if e.Restored? {
      assert more[|log|].Restored? && !ConsumedAfter(more, |log|);
    } else {
      var i :| 0 <= i < |log| && log[i].Restored? && !ConsumedAfter(log, i);
      assert more[i].Restored? && !ConsumedAfter(more, i);
    }
  }

  /** A marker, seen or durable, stands for a restore no start has consumed. */
  lemma {:induction false} MarkerIsPending(actions: seq<Action>)
    ensures FilesOf(actions).marker || FilesOf(actions).durableMarker ==> Pending(LogOf(actions))
    decreases |actions|
  {
    if actions != [] {
      var front, a := actions[..|actions| - 1], actions[|actions| - 1];
      var f, e := FilesOf(front), EventOf(FilesOf(front), a);
      MarkerIsPending(front);
      if FilesOf(actions).marker || FilesOf(actions).durableMarker {
        assert !Consumes(e) && (e.Restored? || f.marker || f.durableMarker);
        PendingGrows(LogOf(front), e);
      }
    }
  }

  const LAUNCH: Action := Starting(true, true, 5)

  lemma {:induction false} LaunchBreaks(actions: seq<Action>)
    requires Pending(LogOf(actions)) && !FilesOf(actions).marker
    ensures !HoldRespected(LogOf(actions + [LAUNCH]))
  {
    var log := LogOf(actions);
    var more := LogOf(actions + [LAUNCH]);
    assert (actions + [LAUNCH])[..|actions|] == actions;
    var i :| 0 <= i < |log| && log[i].Restored? && !ConsumedAfter(log, i);
    assert more[i] == log[i] && more[|log|].production == Some(true) && more[..|log| + 1] == more;
    assert !ReleasedAfter(more, i);
  }

  /** An exposed restore is lost: the next explicit start produces. */
  lemma {:induction false} ExposureBreaks(actions: seq<Action>, a: Action)
    requires Exposes(FilesOf(actions), a)
    ensures !HoldRespected(LogOf(actions + [a] + [LAUNCH]))
  {
    var more := actions + [a];
    assert more[..|actions|] == actions;
    MarkerIsPending(actions);
    PendingGrows(LogOf(actions), EventOf(FilesOf(actions), a));
    LaunchBreaks(more);
  }

  /** A start killed between removing the marker and its end has decided nothing, and the
      next explicit start produces, although no start ever ran with production off. */
  lemma {:induction false} KilledStartBreaks(configured: bool, explicit: bool)
    ensures var actions := [Restoring(true), Starting(configured, explicit, 4), LAUNCH];
      && LogOf(actions) == [Restored, Started(explicit, true, None), Started(true, false, Some(true))]
      && !HoldRespected(LogOf(actions))
  {
    var restored, killed := [Restoring(true)], Starting(configured, explicit, 4);
    var before := restored + [killed];
    var actions := [Restoring(true), killed, LAUNCH];
    assert restored[..0] == [] && before[..1] == restored && before == [Restoring(true), killed];
    assert actions == before + [LAUNCH] && actions[..2] == before;
    assert FilesOf(restored) == NO_FILES.(marker := true);
    ExposureBreaks(restored, killed);
  }

  /** Whatever start follows the first n actions, the hold is respected. */
  ghost predicate SafeToStart(actions: seq<Action>, n: nat)
    requires n <= |actions|
  {
    forall configured, explicit, steps :: HoldRespected(LogOf(actions[..n] + [Starting(configured, explicit, steps)]))
  }

  lemma {:induction false} NeverExposedIsSafe(actions: seq<Action>, n: nat)
    requires NeverExposed(actions) && n <= |actions|
    ensures SafeToStart(actions, n)
  {
    var front := actions[..n];
    forall k | 0 <= k < n
      ensures !ExposedAt(front, k)
    {
      assert front[..k] == actions[..k] && !ExposedAt(actions, k);
    }
    forall configured, explicit, steps
      ensures HoldRespected(LogOf(front + [Starting(configured, explicit, steps)]))
    {
      var a := Starting(configured, explicit, steps);
      HoldIsRespected(front);
      if Exposes(FilesOf(front), a) {
        // The start stopped undecided.
        assert (front + [a])[..n] == front;
        RespectedGrows(LogOf(front), EventOf(FilesOf(front), a));
      } else {
        ExposedEarlier(front, a);
        HoldIsRespected(front + [a]);
      }
    }
  }

  /** Main theorem: every start, at every point of a run, respects the hold if and only
      if no restore of the run is exposed. */
  lemma {:induction false} HoldIsExact(actions: seq<Action>)
    ensures NeverExposed(actions) <==> forall n :: 0 <= n <= |actions| ==> SafeToStart(actions, n)
  {
    if NeverExposed(actions) {
      forall n | 0 <= n <= |actions|
        ensures SafeToStart(actions, n)
      {
        NeverExposedIsSafe(actions, n);
      }
    } else {
      var n :| 0 <= n < |actions| && ExposedAt(actions, n);
      ExposureBreaks(actions[..n], actions[n]);
      assert actions[..n + 1] == actions[..n] + [actions[n]];
      assert !SafeToStart(actions, n + 1);
    }
  }

  // ---- The node ------------------------------------------------------------------

  class NodeFiles {
    var marker: bool
    var hold: bool
    var durableMarker: bool
    var durableHold: bool

    function State(): Files
      reads this
    {
      Files(marker, hold, durableMarker, durableHold)
    }

    constructor ()
      ensures State() == NO_FILES
    {
      marker, hold, durableMarker, durableHold := false, false, false, false;
    }

    /** The end of a restore: the database is in place, and the marker is renamed into
        place without a sync unless the restore stopped before. */
    method Restore(finished: bool)
      modifies this`marker
      ensures State() == FilesAfter(old(State()), Restoring(finished))
    {
      if finished { marker := true; }
    }

    /** The system writes unsynced changes back on its own. */
    method WriteBack(marker: bool, hold: bool)
      modifies this`durableMarker, this`durableHold
      ensures State() == FilesAfter(old(State()), WritingBack(marker, hold))
    {
      if marker { durableMarker := this.marker; }
      if hold { durableHold := this.hold; }
    }

    /** Each unsynced change is kept or lost. */
    method LosePower(keepMarker: bool, keepHold: bool)
      modifies this
      ensures State() == FilesAfter(old(State()), LosingPower(keepMarker, keepHold))
    {
      marker := if keepMarker then marker else durableMarker;
      hold := if keepHold then hold else durableHold;
      SyncDirectory();
    }

    method SyncDirectory()
      modifies this`durableMarker, this`durableHold
      ensures State() == Synced(old(State()))
    {
      durableMarker, durableHold := marker, hold;
    }

    /** The marker path: hold created and synced before the marker is removed. */
    method ConsumeMarker(steps: nat) returns (done: bool)
      requires marker
      modifies this
      ensures State() == Consuming(old(State()), steps) && done == (steps >= 5)
      // Wherever it stops, the marker is there or the hold is durable.
      ensures marker || (hold && durableHold)
    {
      done := false;
      if steps < 1 { return; }
      hold := true;
      if steps < 3 { return; }
      SyncDirectory();
      if steps < 4 { return; }
      marker := false;
      if steps < 5 { return; }
      SyncDirectory();
      done := true;
    }

    /** apply_restore_startup_policy, stopped after `steps` file operations. */
    method Start(configured: bool, explicit: bool, steps: nat) returns (production: Option<bool>)
      modifies this
      ensures State() == StartedFiles(old(State()), explicit, steps)
      ensures production == Decision(old(State()), configured, explicit, steps)
    {
      production := Some(configured);
      if marker {
        var done := ConsumeMarker(steps);
        production := if done then Some(false) else None;
      } else if hold && explicit {
        if steps >= 1 { hold := false; }
        if steps >= 2 { SyncDirectory(); } else { production := None; }
      } else if hold {
        production := Some(false);
      }
    }
  }

  /** Any sequence of restores, starts stopped anywhere, write-backs and power losses. */
  method Run(actions: seq<Action>) returns (log: seq<Event>)
    ensures log == LogOf(actions)
    ensures NeverExposed(actions) ==> HoldRespected(log)
  {
    var node := new NodeFiles();
    log := [];
    for n := 0 to |actions|
      invariant node.State() == FilesOf(actions[..n]) && log == LogOf(actions[..n])
    {
      assert actions[..n + 1][..n] == actions[..n];
      var sawMarker := node.marker;
      match actions[n]
      case Restoring(finished) =>
        node.Restore(finished);
        log := log + [Restored];
      case WritingBack(marker, hold) =>
        node.WriteBack(marker, hold);
        log := log + [WrittenBack];
      case Starting(configured, explicit, steps) =>
        var production := node.Start(configured, explicit, steps);
        log := log + [Started(explicit, sawMarker, production)];
      case LosingPower(keepMarker, keepHold) =>
        node.LosePower(keepMarker, keepHold);
        log := log + [PowerLost];
    }
    assert actions[..|actions|] == actions;
    if NeverExposed(actions) { HoldIsRespected(actions); }
  }
}
