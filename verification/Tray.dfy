/** The tray daemon: the sync goroutine, the menu handlers and the one tray object they share (tray.go).

Any number of handlers of each kind may be under way, one goroutine each. trayMu is a mutex, shuttingDown
an atomic flag, syncNow a channel of capacity one.
*/
module Tray {
  import opened Text

  /** The sync goroutine. `seen` is what the check of the flag found, inside the critical section. */
  datatype SyncPc =
    | Before | Checking | Deciding(seen: bool) | Leaving
    | Cycling
    | After | Checking2 | Deciding2(seen: bool) | Leaving2
    | Ending | Waiting | Returned

  /** A "Beenden" handler. */
  datatype QuitPc = Clicked | Flagged | Removing | Removed | Unlocked

  /** A "Status anzeigen" handler. */
  datatype StatusPc = Asked | Showing | Shown

  datatype Owner = Sync | Quit(h: nat) | Status(k: nat)

  /** `lateTooltip`: SetTooltip was called after Remove. `unserved`: there was a click on
  "Jetzt synchronisieren" since the loop last left its wait. `late`: how many cycles started after a "Beenden". */
  datatype State = State(sync: SyncPc, quits: seq<QuitPc>, statuses: seq<StatusPc>, mu: Option<Owner>,
                         shuttingDown: bool, removed: bool, lateTooltip: bool, pending: nat, unserved: bool,
                         late: nat, exited: bool)

  ghost predicate Init(s: State) {
    s == State(Before, [], [], None, false, false, false, 0, false, 0, false)
  }

  ghost predicate SyncStep(s: State, s': State) {
    match s.sync
    case Before => s.mu == None && s' == s.(mu := Some(Sync), sync := Checking)
    case Checking => s' == s.(sync := Deciding(s.shuttingDown))
    case Deciding(seen) => s' == s.(sync := Leaving, lateTooltip := s.lateTooltip || (!seen && s.removed))
    case Leaving => s' == s.(mu := None, sync := Cycling, late := if s.shuttingDown then s.late + 1 else s.late)
    case Cycling => s' == s.(sync := After)
    case After => s.mu == None && s' == s.(mu := Some(Sync), sync := Checking2)
    case Checking2 => s' == s.(sync := Deciding2(s.shuttingDown))
    case Deciding2(seen) => s' == s.(sync := Leaving2, lateTooltip := s.lateTooltip || (!seen && s.removed))
    case Leaving2 => s' == s.(mu := None, sync := Ending)
    case Ending => s' == s.(sync := if s.shuttingDown then Returned else Waiting)
    case Waiting =>
      || s' == s.(sync := Before, unserved := false)
      || (s.pending > 0 && s' == s.(sync := Before, unserved := false, pending := s.pending - 1))
    case Returned => false
  }

  ghost predicate QuitStep(s: State, s': State, h: nat)
    requires h < |s.quits|
  {
    match s.quits[h]
    case Clicked => s' == s.(shuttingDown := true, quits := s.quits[h := Flagged])
    case Flagged => s.mu == None && s' == s.(mu := Some(Quit(h)), quits := s.quits[h := Removing])
    case Removing => s' == s.(removed := true, quits := s.quits[h := Removed])
    case Removed => s' == s.(mu := None, quits := s.quits[h := Unlocked])
    case Unlocked => s' == s.(exited := true)
  }

  ghost predicate StatusStep(s: State, s': State, k: nat)
    requires k < |s.statuses|
  {
    match s.statuses[k]
    case Asked => s.mu == None && s' == s.(mu := Some(Status(k)), statuses := s.statuses[k := Showing])
    case Showing => s' == s.(mu := None, statuses := s.statuses[k := Shown])
    case Shown => false
  }

  /** A request finds the channel empty, or is not queued. */
  ghost predicate SyncClick(s: State, s': State) {
    s' == s.(pending := if s.pending < 1 then s.pending + 1 else s.pending, unserved := true)
  }

  ghost predicate Step(s: State, s': State) {
    && !s.exited
    && (|| SyncStep(s, s')
        || SyncClick(s, s')
        || s' == s.(quits := s.quits + [Clicked])
        || s' == s.(statuses := s.statuses + [Asked])
        || (exists h: nat :: h < |s.quits| && QuitStep(s, s', h))
        || (exists k: nat :: k < |s.statuses| && StatusStep(s, s', k)))
  }

  ghost predicate IsRun(ss: seq<State>) {
    |ss| > 0 && Init(ss[0]) && forall i :: 0 <= i < |ss| - 1 ==> Step(ss[i], ss[i + 1])
  }

  // ---- the invariant ----

  /** The sync goroutine is between Lock and Unlock. */
  predicate SyncInside(pc: SyncPc) {
    pc.Checking? || pc.Deciding? || pc.Leaving? || pc.Checking2? || pc.Deciding2? || pc.Leaving2?
  }

  predicate QuitInside(pc: QuitPc) {
    pc.Removing? || pc.Removed?
  }

  /** A cycle is running, or the loop is on its way to the check that ends it. */
  predicate PastStart(pc: SyncPc) {
    pc.Cycling? || pc.After? || pc.Checking2? || pc.Deciding2? || pc.Leaving2? || pc.Ending? || pc.Returned?
  }

  ghost predicate LockInv(s: State) {
    && (SyncInside(s.sync) <==> s.mu == Some(Sync))
    && (forall h: nat :: h < |s.quits| ==> (QuitInside(s.quits[h]) <==> s.mu == Some(Quit(h))))
    && (forall k: nat :: k < |s.statuses| ==> (s.statuses[k].Showing? <==> s.mu == Some(Status(k))))
    && (s.mu.Some? && s.mu.value.Quit? ==> s.mu.value.h < |s.quits|)
    && (s.mu.Some? && s.mu.value.Status? ==> s.mu.value.k < |s.statuses|)
  }

  ghost predicate FlagInv(s: State) {
    && (forall h: nat :: h < |s.quits| && s.quits[h] != Clicked ==> s.shuttingDown)
    && (s.removed ==> s.shuttingDown)
    && ((s.sync.Deciding? || s.sync.Deciding2?) && !s.sync.seen ==> !s.removed)
    && !s.lateTooltip
  }

  ghost predicate CountInv(s: State) {
    && s.pending <= 1 && (s.unserved ==> s.pending == 1)
    && s.late <= 1 && (s.late == 1 ==> s.shuttingDown && PastStart(s.sync))
  }

  ghost predicate Inv(s: State) {
    LockInv(s) && FlagInv(s) && CountInv(s)
  }

  /** The sync goroutine takes the lock when it is free, gives it back, or leaves it alone. */
  lemma LockMoves(s: State, s': State)
    requires LockInv(s) && s'.quits == s.quits && s'.statuses == s.statuses
    requires s'.mu == s.mu || (s.mu == None && s'.mu == Some(Sync)) || (s.mu == Some(Sync) && s'.mu == None)
    requires SyncInside(s'.sync) <==> s'.mu == Some(Sync)
    ensures LockInv(s')
  {
    hide QuitInside, SyncInside;
  }

  lemma SyncMovesAlone(s: State, s': State)
    requires SyncStep(s, s')
    ensures s'.quits == s.quits && s'.statuses == s.statuses
  {
  }

  lemma SyncMovesLock(s: State, s': State)
    requires SyncStep(s, s') && (SyncInside(s.sync) <==> s.mu == Some(Sync))
    ensures s'.mu == s.mu || (s.mu == None && s'.mu == Some(Sync)) || (s.mu == Some(Sync) && s'.mu == None)
    ensures SyncInside(s'.sync) <==> s'.mu == Some(Sync)
  {
    if s.sync.Before? || s.sync.After? {
    } else if s.sync.Leaving? || s.sync.Leaving2? {
    } else {
      assert s'.mu == s.mu;
    }
  }

  lemma {:induction false} SyncKeepsLock(s: State, s': State)
    requires LockInv(s) && SyncStep(s, s')
    ensures LockInv(s')
  {
    assert SyncInside(s.sync) <==> s.mu == Some(Sync);
    hide LockInv, SyncStep, SyncInside;
    SyncMovesAlone(s, s');
    SyncMovesLock(s, s');
    LockMoves(s, s');
  }

  lemma SyncKeepsFlag(s: State, s': State)
    requires Inv(s) && SyncStep(s, s')
    ensures FlagInv(s')
  {
    hide LockInv, CountInv;
  }

  lemma SyncKeepsCount(s: State, s': State)
    requires Inv(s) && SyncStep(s, s')
    ensures CountInv(s')
  {
    hide LockInv, FlagInv;
    if !s.sync.Leaving? {
      assert s'.late == s.late && s'.shuttingDown == s.shuttingDown;
      assert s.shuttingDown && PastStart(s.sync) ==> PastStart(s'.sync);
      hide SyncStep, PastStart;
    }
  }

  lemma {:induction false} SyncKeepsInv(s: State, s': State)
    requires Inv(s) && SyncStep(s, s')
    ensures Inv(s')
  {
    SyncKeepsLock(s, s');
    SyncKeepsFlag(s, s');
    SyncKeepsCount(s, s');
  }

  lemma QuitKeepsInv(s: State, s': State, h: nat)
    requires Inv(s) && h < |s.quits| && QuitStep(s, s', h)
    ensures Inv(s')
  {
    assert LockInv(s');
    assert FlagInv(s');
  }

  lemma StatusKeepsInv(s: State, s': State, k: nat)
    requires Inv(s) && k < |s.statuses| && StatusStep(s, s', k)
    ensures Inv(s')
  {
  }

  lemma {:induction false} StepKeepsInv(s: State, s': State)
    requires Inv(s) && Step(s, s')
    ensures Inv(s')
  {
    if SyncStep(s, s') {
      SyncKeepsInv(s, s');
    } else if h: nat :| h < |s.quits| && QuitStep(s, s', h) {
      QuitKeepsInv(s, s', h);
    } else if k: nat :| k < |s.statuses| && StatusStep(s, s', k) {
      StatusKeepsInv(s, s', k);
    }
  }

  lemma {:induction false} RunKeepsInv(ss: seq<State>, i: nat)
    requires IsRun(ss) && i < |ss|
    ensures Inv(ss[i])
  {
    hide Step;
    if i > 0 {
      hide Inv;
      RunKeepsInv(ss, i - 1);
      assert Step(ss[i - 1], ss[i - 1 + 1]);
      StepKeepsInv(ss[i - 1], ss[i]);
    }
  }

  // ---- what every run keeps ----

  /** The sync goroutine, or handler h, or handler k, is inside a call into the tray object that trayMu guards. */
  ghost predicate Calls(s: State, o: Owner) {
    match o
    case Sync => SyncInside(s.sync)
    case Quit(h) => h < |s.quits| && QuitInside(s.quits[h])
    case Status(k) => k < |s.statuses| && s.statuses[k].Showing?
  }

  /** In every interleaving: SetTooltip is never called once Remove has run, no two of the guarded calls overlap,
  at most one manual request is pending and none made since the loop last woke is lost, and at most one
  cycle starts after "Beenden". */
  lemma TrayIsSafe(ss: seq<State>, i: nat, o1: Owner, o2: Owner)
    requires IsRun(ss) && i < |ss|
    ensures !ss[i].lateTooltip
    ensures Calls(ss[i], o1) && Calls(ss[i], o2) ==> o1 == o2
    ensures ss[i].pending <= 1 && (ss[i].unserved ==> ss[i].pending == 1)
    ensures ss[i].late <= 1
  {
    hide Step;
    RunKeepsInv(ss, i);
  }

  // ---- when a cycle starts after "Beenden" ----

  ghost predicate IsPath(ss: seq<State>) {
    forall i :: 0 <= i < |ss| - 1 ==> Step(ss[i], ss[i + 1])
  }

  /** Some continuation starts a cycle although the flag is set. */
  ghost predicate CanStartLate(s: State) {
    exists path :: LeadsToLate(s, path)
  }

  ghost predicate LeadsToLate(s: State, path: seq<State>) {
    |path| > 0 && IsPath(path) && path[0] == s && path[|path| - 1].late == 1
  }

  lemma LoopStaysPast(s: State, s': State)
    requires SyncStep(s, s') && s.shuttingDown && PastStart(s.sync) && s.late == 0
    ensures s'.shuttingDown && PastStart(s'.sync) && s'.late == 0
  {
  }

  lemma PastStaysPast(s: State, s': State)
    requires Step(s, s') && s.shuttingDown && PastStart(s.sync) && s.late == 0
    ensures s'.shuttingDown && PastStart(s'.sync) && s'.late == 0
  {
    hide SyncStep, PastStart;
    if SyncStep(s, s') {
      LoopStaysPast(s, s');
    }
  }

  lemma {:induction false} PastIsLast(path: seq<State>, i: nat)
    requires IsPath(path) && i < |path|
    requires path[0].shuttingDown && PastStart(path[0].sync) && path[0].late == 0
    ensures path[i].shuttingDown && PastStart(path[i].sync) && path[i].late == 0
  {
    hide Step, PastStart;
    if i > 0 {
      PastIsLast(path, i - 1);
      assert Step(path[i - 1], path[i - 1 + 1]);
      PastStaysPast(path[i - 1], path[i]);
    }
  }

  /** How far the loop is from its next cycle, if nothing else interferes. */
  function Distance(s: State): (d: nat) {
    match s.sync
    case Waiting => 10
    case Before => 5 + OwnersTurns(s)
    case Checking => 3
    case Deciding(_) => 2
    case _ => 1
  }

  /** The steps that the owner of the lock needs to give it back. */
  function OwnersTurns(s: State): (n: nat)
    ensures n <= 2
  {
    match s.mu
    case Some(Quit(h)) => if h < |s.quits| && s.quits[h].Removing? then 2 else 1
    case Some(Status(_)) => 1
    case _ => 0
  }

  /** One step nearer. */
  lemma NextStep(s: State) returns (s': State)
    requires Inv(s) && !s.exited && s.shuttingDown && s.late == 0 && !PastStart(s.sync) && !s.sync.Leaving?
    ensures Step(s, s') && Distance(s') < Distance(s)
    ensures !s'.exited && s'.shuttingDown && s'.late == 0 && !PastStart(s'.sync)
  {
    match s.sync
    case Waiting => s' := s.(sync := Before, unserved := false);
    case Checking => s' := s.(sync := Deciding(s.shuttingDown));
    case Deciding(seen) => s' := s.(sync := Leaving, lateTooltip := s.lateTooltip || (!seen && s.removed));
    case Before =>
      match s.mu {
        case None => s' := s.(mu := Some(Sync), sync := Checking);
        case Some(Quit(h)) => s' := OwnerQuits(s, h);
        case Some(Status(k)) =>
          s' := s.(mu := None, statuses := s.statuses[k := Shown]);
          assert StatusStep(s, s', k);
      }
  }

  lemma OwnerQuits(s: State, h: nat) returns (s': State)
    requires LockInv(s) && !s.exited && s.mu == Some(Quit(h))
    ensures Step(s, s') && OwnersTurns(s') < OwnersTurns(s)
    ensures s' == s.(mu := s'.mu, removed := s'.removed, quits := s'.quits)
  {
    assert QuitInside(s.quits[h]);
    if s.quits[h].Removing? {
      s' := s.(removed := true, quits := s.quits[h := Removed]);
    } else {
      s' := s.(mu := None, quits := s.quits[h := Unlocked]);
    }
    assert QuitStep(s, s', h);
  }

  lemma {:induction false} NotPastCanStart(s: State) returns (path: seq<State>)
    requires Inv(s) && !s.exited && s.shuttingDown && s.late == 0 && !PastStart(s.sync)
    ensures LeadsToLate(s, path)
    decreases Distance(s)
  {
    var s': State;
    var rest: seq<State>;
    if s.sync.Leaving? {
      s' := s.(mu := None, sync := Cycling, late := 1);
      rest := [s'];
      assert Step(s, s');
    } else {
      s' := NextStep(s);
      StepKeepsInv(s, s');
      rest := NotPastCanStart(s');
    }
    hide Step, Inv, Distance;
    path := [s] + rest;
    forall i | 0 <= i < |path| - 1 ensures Step(path[i], path[i + 1]) {
      if i > 0 {
        assert Step(rest[i - 1], rest[i - 1 + 1]);
      }
    }
  }

  /** Exactly when: once the flag is set, a cycle can still start if and only if the loop is not past the start of
  one, that is, if it waits or is on its way to the next. Past it, in no continuation. */
  lemma LateCycleExactly(ss: seq<State>, i: nat)
    requires IsRun(ss) && i < |ss| && !ss[i].exited && ss[i].shuttingDown && ss[i].late == 0
    ensures CanStartLate(ss[i]) <==> !PastStart(ss[i].sync)
  {
    hide Step, Inv, PastStart;
    RunKeepsInv(ss, i);
    if PastStart(ss[i].sync) {
      forall path ensures !LeadsToLate(ss[i], path) {
        if LeadsToLate(ss[i], path) {
          PastIsLast(path, |path| - 1);
        }
      }
    } else {
      var path := NotPastCanStart(ss[i]);
    }
  }

  // ---- calls into the tray object after Remove ----

  /** A handler is inside ShowNotification, or inside Remove a second time, although Remove has run. */
  ghost predicate CallsLate(s: State) {
    && s.removed
    && (|| (exists k: nat :: k < |s.statuses| && s.statuses[k].Showing?)
        || (exists h: nat :: h < |s.quits| && s.quits[h].Removing?))
  }

  /** Some handler has been started and has not made its call. */
  ghost predicate IsPending(s: State) {
    || (exists k: nat :: k < |s.statuses| && !s.statuses[k].Shown?)
    || (exists h: nat :: h < |s.quits| && IsBeforeRemove(s.quits[h]))
  }

  predicate IsBeforeRemove(pc: QuitPc) {
    pc.Clicked? || pc.Flagged? || pc.Removing?
  }

  /** A step of what is under way; nobody clicks. */
  ghost predicate QuietStep(s: State, s': State) {
    && !s.exited
    && (|| SyncStep(s, s')
        || (exists h: nat :: h < |s.quits| && QuitStep(s, s', h))
        || (exists k: nat :: k < |s.statuses| && StatusStep(s, s', k)))
  }

  ghost predicate IsQuietPath(ss: seq<State>) {
    forall i :: 0 <= i < |ss| - 1 ==> QuietStep(ss[i], ss[i + 1])
  }

  ghost predicate LeadsToLateCall(s: State, path: seq<State>) {
    |path| > 0 && IsQuietPath(path) && path[0] == s && CallsLate(path[|path| - 1])
  }

  ghost predicate CanCallLate(s: State) {
    exists path :: LeadsToLateCall(s, path)
  }

  lemma LoopLeavesHandlers(s: State, s': State)
    requires SyncStep(s, s')
    ensures s'.statuses == s.statuses && s'.quits == s.quits
  {
  }

  lemma NothingPendingStays(s: State, s': State)
    requires QuietStep(s, s') && !IsPending(s)
    ensures !IsPending(s')
  {
    hide SyncStep;
    if SyncStep(s, s') {
      LoopLeavesHandlers(s, s');
    }
  }

  lemma {:induction false} NothingPendingInPath(path: seq<State>, i: nat)
    requires IsQuietPath(path) && i < |path| && !IsPending(path[0])
    ensures !IsPending(path[i])
  {
    hide QuietStep, IsPending;
    if i > 0 {
      NothingPendingInPath(path, i - 1);
      assert QuietStep(path[i - 1], path[i - 1 + 1]);
      NothingPendingStays(path[i - 1], path[i]);
    }
  }

  /** How many steps the owner of the lock is from giving it back, where it makes no call on the way. */
  function ToUnlock(s: State): (n: nat) {
    if s.mu == None then 0
    else
      match s.sync
      case Checking => 3
      case Checking2 => 3
      case Deciding(_) => 2
      case Deciding2(_) => 2
      case _ => 1
  }

  /** One step towards a free lock. */
  lemma UnlockStep(s: State) returns (s': State)
    requires Inv(s) && s.removed && !s.exited && IsPending(s) && !CallsLate(s) && s.mu.Some?
    ensures QuietStep(s, s') && s'.removed && !s'.exited && IsPending(s') && ToUnlock(s') < ToUnlock(s)
  {
    match s.mu.value {
      case Sync =>
        s' := LoopUnlocks(s);
      case Quit(h) =>
        assert QuitInside(s.quits[h]);
        s' := s.(mu := None, quits := s.quits[h := Unlocked]);
        assert QuitStep(s, s', h);
        if h': nat :| h' < |s.quits| && IsBeforeRemove(s.quits[h']) {
          assert IsBeforeRemove(s'.quits[h']);
        }
      case Status(k) =>
        assert false;
    }
  }

  lemma LoopUnlocks(s: State) returns (s': State)
    requires SyncInside(s.sync) && s.mu == Some(Sync)
    ensures SyncStep(s, s') && ToUnlock(s') < ToUnlock(s)
    ensures s'.statuses == s.statuses && s'.quits == s.quits && s'.removed == s.removed && s'.exited == s.exited
  {
    match s.sync
    case Checking => s' := s.(sync := Deciding(s.shuttingDown));
    case Checking2 => s' := s.(sync := Deciding2(s.shuttingDown));
    case Deciding(seen) => s' := s.(sync := Leaving, lateTooltip := s.lateTooltip || (!seen && s.removed));
    case Deciding2(seen) => s' := s.(sync := Leaving2, lateTooltip := s.lateTooltip || (!seen && s.removed));
    case Leaving => s' := s.(mu := None, sync := Cycling, late := if s.shuttingDown then s.late + 1 else s.late);
    case Leaving2 => s' := s.(mu := None, sync := Ending);
  }

  /** With the lock free a pending handler makes its call. */
  lemma FreeLockLeadsToCall(s: State) returns (path: seq<State>)
    requires Inv(s) && s.removed && !s.exited && IsPending(s) && s.mu == None
    ensures LeadsToLateCall(s, path)
  {
    if k: nat :| k < |s.statuses| && !s.statuses[k].Shown? {
      var s1 := s.(mu := Some(Status(k)), statuses := s.statuses[k := Showing]);
      assert StatusStep(s, s1, k) && s1.statuses[k].Showing?;
      path := [s, s1];
    } else {
      var h: nat :| h < |s.quits| && IsBeforeRemove(s.quits[h]);
      var s1 := s.(shuttingDown := true, quits := s.quits[h := Flagged]);
      var s2 := s1.(mu := Some(Quit(h)), quits := s1.quits[h := Removing]);
      assert QuitStep(s1, s2, h) && s2.quits[h].Removing?;
      if s.quits[h].Clicked? {
        assert QuitStep(s, s1, h);
        path := [s, s1, s2];
      } else {
        QuitTakesLock(s, h);
        path := [s, s.(mu := Some(Quit(h)), quits := s.quits[h := Removing])];
      }
    }
  }

  lemma QuitTakesLock(s: State, h: nat)
    requires LockInv(s) && s.mu == None && h < |s.quits| && IsBeforeRemove(s.quits[h]) && !s.quits[h].Clicked?
    requires s.removed && !s.exited
    ensures
      var s' := s.(mu := Some(Quit(h)), quits := s.quits[h := Removing]);
      QuietStep(s, s') && CallsLate(s')
  {
    var s' := s.(mu := Some(Quit(h)), quits := s.quits[h := Removing]);
    assert QuitStep(s, s', h) && s'.quits[h].Removing?;
  }

  lemma {:induction false} PendingLeadsToCall(s: State) returns (path: seq<State>)
    requires Inv(s) && s.removed && !s.exited && IsPending(s)
    ensures LeadsToLateCall(s, path)
    decreases ToUnlock(s)
  {
    hide SyncStep, QuitStep, StatusStep, LockInv, FlagInv, CountInv, IsPending, ToUnlock;
    if CallsLate(s) {
      path := [s];
    } else if s.mu == None {
      path := FreeLockLeadsToCall(s);
    } else {
      var s' := UnlockStep(s);
      StepKeepsInv(s, s');
      var rest := PendingLeadsToCall(s');
      path := [s] + rest;
      hide QuietStep, CallsLate;
      forall i | 0 <= i < |path| - 1 ensures QuietStep(path[i], path[i + 1]) {
        if i > 0 {
          assert QuietStep(rest[i - 1], rest[i - 1 + 1]);
        }
      }
    }
  }

  /** Exactly when: after Remove, and before the process ends, a notification or a second Remove can still follow if and
  only if a handler that makes that call had been started before. SetTooltip never follows. */
  lemma LateCallExactly(ss: seq<State>, i: nat)
    requires IsRun(ss) && i < |ss| && ss[i].removed && !ss[i].exited
    ensures CanCallLate(ss[i]) <==> IsPending(ss[i])
  {
    hide Step, Inv, QuietStep;
    RunKeepsInv(ss, i);
    if IsPending(ss[i]) {
      var path := PendingLeadsToCall(ss[i]);
    } else {
      forall path ensures !LeadsToLateCall(ss[i], path) {
        if LeadsToLateCall(ss[i], path) {
          NothingPendingInPath(path, |path| - 1);
        }
      }
    }
  }

  /** One step of the sync goroutine at a time, nothing else happening. */
  function LateRun(): (r: seq<State>) {
    var s0 := State(Before, [], [], None, false, false, false, 0, false, 0, false);
    var s1 := s0.(mu := Some(Sync), sync := Checking);
    var s2 := s1.(sync := Deciding(false));
    var s3 := s2.(sync := Leaving);
    var s4 := s3.(mu := None, sync := Cycling);
    var s5 := s4.(sync := After);
    var s6 := s5.(mu := Some(Sync), sync := Checking2);
    var s7 := s6.(sync := Deciding2(false));
    var s8 := s7.(sync := Leaving2);
    var s9 := s8.(mu := None, sync := Ending);
    var s10 := s9.(sync := Waiting);
    var s11 := s10.(quits := [Clicked]);
    var s12 := s11.(shuttingDown := true, quits := [Flagged]);
    var s13 := s12.(sync := Before);
    var s14 := s13.(mu := Some(Sync), sync := Checking);
    var s15 := s14.(sync := Deciding(true));
    var s16 := s15.(sync := Leaving);
    var s17 := s16.(mu := None, sync := Cycling, late := 1);
    [s0, s1, s2, s3, s4, s5, s6, s7, s8, s9, s10, s11, s12, s13, s14, s15, s16, s17]
  }

  /** One is possible: the loop wakes up after the flag was set and runs a cycle before it looks. */
  lemma {:induction false} OneLateCycle()
    ensures IsRun(LateRun()) && LateRun()[17].shuttingDown && LateRun()[17].late == 1
  {
    var ss := LateRun();
    assert QuitStep(ss[11], ss[12], 0);
    forall i | 0 <= i < |ss| - 1 ensures Step(ss[i], ss[i + 1]) {
      assert i == 11 || SyncStep(ss[i], ss[i + 1]) || ss[i + 1] == ss[i].(quits := ss[i].quits + [Clicked]);
    }
  }
}
