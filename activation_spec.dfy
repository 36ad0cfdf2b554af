/** What the activation check of liveedit.cc decides, stated as functions over an
    abstract stack: the patchability status of each function to be replaced, the
    diagnostic, and the frame whose restart is scheduled. */
module ActivationSpec {
  import opened Wrappers

  /** LiveEdit::FunctionPatchabilityStatus. */
  datatype Status =
    | AvailableForPatch
    | BlockedOnActiveStack
    | BlockedOnOtherStack
    | BlockedUnderNativeCode
    | ReplacedOnActiveStack
    | BlockedUnderGenerator
    | BlockedActiveGenerator
    | BlockedNoNewTargetOnRestart

  /** The identity of a SharedFunctionInfo. */
  type SharedId = nat

  /** The function a JavaScript frame runs: its SharedFunctionInfo, whether its code is
      optimized and which functions that code inlines, whether it is resumable (a
      generator or async function), and whether its scope uses new.target. */
  datatype FrameFunction = FrameFunction(shared: SharedId, optimized: bool, inlined: set<SharedId>,
                                         resumable: bool, hasNewTarget: bool)

  datatype FrameKind = ExitFrame | BuiltinExitFrame | JavaScriptFrame(func: FrameFunction) | OtherFrame

  /** A stack frame: its id (compared with the break frame id), its frame pointer and
      its kind. */
  datatype Frame = Frame(id: int, fp: int, kind: FrameKind)

  /** The new version of a function, as far as restarting a frame is concerned. */
  datatype NewFunction = NewFunction(hasNewTarget: bool)

  /** A generator object found on the heap. */
  datatype Generator = Generator(closed: bool, shared: SharedId)

  const MarkupNotFound := "Debugger mark-up on stack is not found"
  const StackManipulationsUnsupported := "Stack manipulations are not supported in this architecture."
  const FrameNotFound := "Failed to found requested frame"
  const BlockedUnderNativeMessage := "Function is blocked under native code"
  const BlockedUnderGeneratorMessage := "Function is blocked under a generator activation"

  /** A frame running `f` executes `s`: either `f` is `s`, or `f` is optimized code
      that inlines `s`. */
  predicate Runs(f: FrameFunction, s: SharedId) {
    f.shared == s || (f.optimized && s in f.inlined)
  }

  /** The first listed function from index `k` on that `f` runs; `|oldShared|` when
      there is none. */
  function FirstRunFrom(oldShared: seq<SharedId>, f: FrameFunction, k: nat): (i: nat)
    requires k <= |oldShared|
    ensures k <= i <= |oldShared|
    ensures i < |oldShared| ==> Runs(f, oldShared[i])
    ensures forall m :: k <= m < i ==> !Runs(f, oldShared[m])
    decreases |oldShared| - k
  {
    if k == |oldShared| || Runs(f, oldShared[k]) then k else FirstRunFrom(oldShared, f, k + 1)
  }

  function FirstRun(oldShared: seq<SharedId>, f: FrameFunction): (i: nat)
    ensures i <= |oldShared|
    ensures i < |oldShared| ==> Runs(f, oldShared[i])
    ensures forall m :: 0 <= m < i ==> !Runs(f, oldShared[m])
  {
    FirstRunFrom(oldShared, f, 0)
  }

  /** The first listed function that is `s` itself; `|oldShared|` when there is none. */
  function IndexOf(oldShared: seq<SharedId>, s: SharedId, k: nat): (i: nat)
    requires k <= |oldShared|
    ensures k <= i <= |oldShared|
    ensures i < |oldShared| ==> oldShared[i] == s
    ensures forall m :: k <= m < i ==> oldShared[m] != s
    decreases |oldShared| - k
  {
    if k == |oldShared| || oldShared[k] == s then k else IndexOf(oldShared, s, k + 1)
  }

  /** `s` with every `from` replaced by `to`. */
  function Substitute(s: seq<Status>, from: Status, to: Status): (r: seq<Status>)
    ensures |r| == |s|
    ensures forall i :: 0 <= i < |s| ==> r[i] == if s[i] == from then to else s[i]
  {
    if s == [] then [] else [if s[0] == from then to else s[0]] + Substitute(s[1..], from, to)
  }

  /** The element of the new-function array at `i`; an index past its end reads as
      undefined. */
  function NewAt(newShared: seq<Option<NewFunction>>, i: nat): Option<NewFunction> {
    if i < |newShared| then newShared[i] else None
  }

  /** Which frames DropActivationsInActiveThreadImpl looks for:
      MultipleFunctionTarget (frames running any of the listed functions) or
      SingleFrameTarget (the one frame with the given frame pointer). */
  datatype TargetKind =
    | MultipleFunctions(oldShared: seq<SharedId>, newShared: seq<Option<NewFunction>>)
    | SingleFrame(frameFp: int)

  /** What a target records: the result array of MultipleFunctionTarget and the saved
      status of SingleFrameTarget. */
  datatype TargetState = TargetState(result: seq<Status>, saved: Status)

  /** MatchActivation answers yes. */
  predicate Targets(kind: TargetKind, frame: Frame) {
    match kind
    case MultipleFunctions(oldShared, _) =>
      frame.kind.JavaScriptFrame? && FirstRun(oldShared, frame.kind.func) < |oldShared|
    case SingleFrame(fp) => frame.fp == fp
  }

  /** The state after MatchActivation(frame, status): a multiple-function target writes
      `status` at the first listed function the frame runs, a single-frame target saves
      it; a frame that is not a target changes nothing. */
  function Matched(kind: TargetKind, st: TargetState, frame: Frame, status: Status): (r: TargetState)
    requires kind.MultipleFunctions? ==> |st.result| == |kind.oldShared|
    ensures |r.result| == |st.result|
    ensures !Targets(kind, frame) ==> r == st
  {
    if !Targets(kind, frame) then st
    else match kind
      case MultipleFunctions(oldShared, _) => st.(result := st.result[FirstRun(oldShared, frame.kind.func) := status])
      case SingleFrame(_) => st.(saved := status)
  }

  /** FrameUsesNewTarget: whether the frame cannot be restarted because the function it
      will run uses new.target, and the state after the check. A multiple-function
      target looks up the new version of the frame's own function (not of an inlined
      one) and records the block at its index. */
  function NewTargetUse(kind: TargetKind, st: TargetState, frame: Frame): (r: (bool, TargetState))
    requires kind.MultipleFunctions? ==> |st.result| == |kind.oldShared|
    ensures |r.1.result| == |st.result|
    ensures !r.0 ==> r.1 == st
  {
    if !frame.kind.JavaScriptFrame? then (false, st)
    else match kind
      case MultipleFunctions(oldShared, newShared) =>
        var i := IndexOf(oldShared, frame.kind.func.shared, 0);
        if i == |oldShared| then (false, st)
        else if NewAt(newShared, i).Some? && NewAt(newShared, i).value.hasNewTarget then
          (true, st.(result := st.result[i := BlockedNoNewTargetOnRestart]))
        else (false, st)
      case SingleFrame(_) => (frame.kind.func.hasNewTarget, st)
  }

  /** set_status: a multiple-function target gives `status` to every function still
      available for patch; a single-frame target saves it. */
  function SetAllStatus(kind: TargetKind, st: TargetState, status: Status): (r: TargetState)
    ensures |r.result| == |st.result|
  {
    match kind
    case MultipleFunctions(_, _) => st.(result := Substitute(st.result, AvailableForPatch, status))
    case SingleFrame(_) => st.(saved := status)
  }

  function NotFoundMessage(kind: TargetKind): Option<string> {
    match kind
    case MultipleFunctions(_, _) => None
    case SingleFrame(_) => Some(FrameNotFound)
  }

  /** The outcome of the search for the break frame. */
  datatype BreakSearch = BreakFrameAt(top: nat) | MarkupAbove(state: TargetState) | NoBreakFrame

  /** The frames from `k` on are searched for the break frame; a target frame met
      before it ends the search with the markup error. */
  function FindBreakFrame(kind: TargetKind, st: TargetState, frames: seq<Frame>, breakId: int, k: nat): (r: BreakSearch)
    requires k <= |frames|
    requires kind.MultipleFunctions? ==> |st.result| == |kind.oldShared|
    ensures r.BreakFrameAt? ==> k <= r.top < |frames| && frames[r.top].id == breakId
    ensures r.MarkupAbove? ==> |r.state.result| == |st.result|
    decreases |frames| - k
  {
    if k == |frames| then NoBreakFrame
    else if frames[k].id == breakId then BreakFrameAt(k)
    else if Targets(kind, frames[k]) then MarkupAbove(Matched(kind, st, frames[k], BlockedUnderNativeCode))
    else FindBreakFrame(kind, st, frames, breakId, k + 1)
  }

  /** The walk down from the break frame: where it stopped, the non-droppable reason it
      stopped for (none when it reached the bottom), the state, whether a target frame
      was met and the bottom-most target frame met (the break frame when none was). */
  datatype Scan = Scan(stop: nat, reason: Option<Status>, state: TargetState, found: bool, bottom: nat)

  /** A frame that cannot be dropped: an exit frame, or a resumable function. */
  function NonDroppable(frame: Frame): Option<Status> {
    if frame.kind.ExitFrame? || frame.kind.BuiltinExitFrame? then Some(BlockedUnderNativeCode)
    else if frame.kind.JavaScriptFrame? && frame.kind.func.resumable then Some(BlockedUnderGenerator)
    else None
  }

  function ScanDroppable(kind: TargetKind, st: TargetState, frames: seq<Frame>, k: nat, found: bool, bottom: nat): (r: Scan)
    requires k <= |frames| && bottom < |frames| && bottom <= k
    requires kind.MultipleFunctions? ==> |st.result| == |kind.oldShared|
    ensures k <= r.stop <= |frames| && bottom <= r.bottom <= r.stop && r.bottom < |frames|
    ensures |r.state.result| == |st.result|
    ensures r.reason.None? <==> r.stop == |frames|
    ensures r.reason.Some? ==> r.reason == NonDroppable(frames[r.stop])
    ensures found ==> r.found
    decreases |frames| - k
  {
    if k == |frames| then Scan(k, None, st, found, bottom)
    else if NonDroppable(frames[k]).Some? then Scan(k, NonDroppable(frames[k]), st, found, bottom)
    else if Targets(kind, frames[k]) then
      ScanDroppable(kind, Matched(kind, st, frames[k], BlockedOnActiveStack), frames, k + 1, true, k)
    else ScanDroppable(kind, st, frames, k + 1, found, bottom)
  }

  /** The frames below a non-droppable frame, from `k` on: the first JavaScript frame
      that is a target takes the reason and fails the restart; with the generator
      reason and no target found above, the first JavaScript frame at all fails it and
      every function still available takes the reason. None: nothing failed. */
  function CheckBeneath(kind: TargetKind, st: TargetState, frames: seq<Frame>, k: nat, reason: Status, found: bool): (r: Option<TargetState>)
    requires k <= |frames|
    requires kind.MultipleFunctions? ==> |st.result| == |kind.oldShared|
    ensures r.Some? ==> |r.value.result| == |st.result|
    ensures r.None? ==> forall m :: k <= m < |frames| && frames[m].kind.JavaScriptFrame? ==> !Targets(kind, frames[m])
    decreases |frames| - k
  {
    if k == |frames| then None
    else if frames[k].kind.JavaScriptFrame? then
      if Targets(kind, frames[k]) then Some(Matched(kind, st, frames[k], reason))
      else if reason == BlockedUnderGenerator && !found then Some(SetAllStatus(kind, st, reason))
      else CheckBeneath(kind, st, frames, k + 1, reason, found)
    else CheckBeneath(kind, st, frames, k + 1, reason, found)
  }

  /** The walk down from the break frame meets target frames only where it records
      them: when it found one, the bottom-most target it records has no target between
      it and the stop; when it found none, it met none and changed nothing. */
  lemma {:induction false} ScanTargets(kind: TargetKind, st: TargetState, frames: seq<Frame>, k: nat, found: bool, bottom: nat)
    requires k <= |frames| && bottom < |frames| && bottom <= k
    requires kind.MultipleFunctions? ==> |st.result| == |kind.oldShared|
    requires found ==> Targets(kind, frames[bottom]) && bottom < k && forall m :: bottom < m < k ==> !Targets(kind, frames[m])
    ensures var r := ScanDroppable(kind, st, frames, k, found, bottom);
      && (r.found ==> Targets(kind, frames[r.bottom]) && r.bottom < r.stop && forall m :: r.bottom < m < r.stop ==> !Targets(kind, frames[m]))
      && (!r.found ==> r.bottom == bottom && r.state == st && forall m :: k <= m < r.stop ==> !Targets(kind, frames[m]))
    decreases |frames| - k
  {
    if k < |frames| && NonDroppable(frames[k]).None? {
      if Targets(kind, frames[k]) {
        ScanTargets(kind, Matched(kind, st, frames[k], BlockedOnActiveStack), frames, k + 1, true, k);
      } else {
        ScanTargets(kind, st, frames, k + 1, found, bottom);
      }
    }
  }

  /** What DropActivationsInActiveThreadImpl returns and records: the diagnostic, the
      target's state and the index of the frame whose restart it schedules. */
  datatype DropOutcome = DropOutcome(message: Option<string>, state: TargetState, restart: Option<nat>)

  function DropSpec(kind: TargetKind, st: TargetState, frames: seq<Frame>, breakId: int, doDrop: bool, frameDropperSupported: bool): (r: DropOutcome)
    requires kind.MultipleFunctions? ==> |st.result| == |kind.oldShared|
    ensures |r.state.result| == |st.result|
  {
    match FindBreakFrame(kind, st, frames, breakId, 0)
    case NoBreakFrame => DropOutcome(NotFoundMessage(kind), st, None)
    case MarkupAbove(st1) => DropOutcome(Some(MarkupNotFound), st1, None)
    case BreakFrameAt(top) =>
      var scan := ScanDroppable(kind, st, frames, top, false, top);
      var beneath := if scan.reason.Some? then CheckBeneath(kind, scan.state, frames, scan.stop, scan.reason.value, scan.found) else None;
      if beneath.Some? then DropOutcome(None, beneath.value, None)
      else
        var use := NewTargetUse(kind, scan.state, frames[scan.bottom]);
        if use.0 || !doDrop then DropOutcome(None, use.1, None)
        else if !scan.found then DropOutcome(NotFoundMessage(kind), scan.state, None)
        else if !frameDropperSupported then DropOutcome(Some(StackManipulationsUnsupported), scan.state, None)
        else DropOutcome(None, scan.state, Some(scan.bottom))
  }

  /** No frame at or above `k` is the break frame. */
  ghost predicate AboveBreak(frames: seq<Frame>, breakId: int, k: nat) {
    forall m :: 0 <= m <= k && m < |frames| ==> frames[m].id != breakId
  }

  lemma {:induction false} FindBreakFrameMarkup(kind: TargetKind, st: TargetState, frames: seq<Frame>, breakId: int, k: nat)
    requires k <= |frames|
    requires kind.MultipleFunctions? ==> |st.result| == |kind.oldShared|
    requires forall m :: 0 <= m < k ==> frames[m].id != breakId
    ensures FindBreakFrame(kind, st, frames, breakId, k).MarkupAbove? <==>
      exists m :: k <= m < |frames| && AboveBreak(frames, breakId, m) && Targets(kind, frames[m])
    decreases |frames| - k
  {
    if k < |frames| && frames[k].id != breakId && !Targets(kind, frames[k]) {
      FindBreakFrameMarkup(kind, st, frames, breakId, k + 1);
    }
    if k < |frames| && frames[k].id == breakId {
      forall m | k <= m < |frames| ensures !AboveBreak(frames, breakId, m) {
        assert frames[k].id == breakId;
      }
    }
    if k < |frames| && frames[k].id != breakId && Targets(kind, frames[k]) {
      assert AboveBreak(frames, breakId, k);
    }
  }

  /** A target frame above the break frame is an error of its own: the walk reports
      the missing debugger markup exactly when some frame above the break frame is a
      target, and then schedules no restart. */
  lemma MarkupIffTargetAboveBreak(kind: TargetKind, st: TargetState, frames: seq<Frame>, breakId: int, doDrop: bool, supported: bool)
    requires kind.MultipleFunctions? ==> |st.result| == |kind.oldShared|
    ensures DropSpec(kind, st, frames, breakId, doDrop, supported).message == Some(MarkupNotFound) <==>
      exists m :: 0 <= m < |frames| && AboveBreak(frames, breakId, m) && Targets(kind, frames[m])
    ensures DropSpec(kind, st, frames, breakId, doDrop, supported).message == Some(MarkupNotFound) ==>
      DropSpec(kind, st, frames, breakId, doDrop, supported).restart.None?
  {
    FindBreakFrameMarkup(kind, st, frames, breakId, 0);
  }

  lemma {:induction false} FindBreakFrameNone(kind: TargetKind, st: TargetState, frames: seq<Frame>, breakId: int, k: nat)
    requires k <= |frames|
    requires kind.MultipleFunctions? ==> |st.result| == |kind.oldShared|
    requires forall m :: k <= m < |frames| ==> frames[m].id != breakId && !Targets(kind, frames[m])
    ensures FindBreakFrame(kind, st, frames, breakId, k) == NoBreakFrame
    decreases |frames| - k
  {
    if k < |frames| {
      FindBreakFrameNone(kind, st, frames, breakId, k + 1);
    }
  }

  /** Without a break frame and without target frames the walk does nothing and
      reports only what the target says when nothing is found. */
  lemma NoBreakFrameNoTarget(kind: TargetKind, st: TargetState, frames: seq<Frame>, breakId: int, doDrop: bool, supported: bool)
    requires kind.MultipleFunctions? ==> |st.result| == |kind.oldShared|
    requires forall m :: 0 <= m < |frames| ==> frames[m].id != breakId && !Targets(kind, frames[m])
    ensures DropSpec(kind, st, frames, breakId, doDrop, supported) == DropOutcome(NotFoundMessage(kind), st, None)
  {
    FindBreakFrameNone(kind, st, frames, breakId, 0);
  }

  /** A restart is scheduled only when dropping was asked for and is supported, and
      only for a target frame at or below the break frame below which no JavaScript
      frame is a target. */
  lemma RestartOnlyBottomTarget(kind: TargetKind, st: TargetState, frames: seq<Frame>, breakId: int, doDrop: bool, supported: bool)
    requires kind.MultipleFunctions? ==> |st.result| == |kind.oldShared|
    ensures var r := DropSpec(kind, st, frames, breakId, doDrop, supported);
      r.restart.Some? ==>
        && doDrop && supported && r.message.None?
        && r.restart.value < |frames| && Targets(kind, frames[r.restart.value])
        && (exists top :: 0 <= top <= r.restart.value && frames[top].id == breakId)
        && forall m :: r.restart.value < m < |frames| && frames[m].kind.JavaScriptFrame? ==> !Targets(kind, frames[m])
  {
    var r := DropSpec(kind, st, frames, breakId, doDrop, supported);
    if r.restart.Some? {
      var search := FindBreakFrame(kind, st, frames, breakId, 0);
      var top := search.top;
      var scan := ScanDroppable(kind, st, frames, top, false, top);
      ScanTargets(kind, st, frames, top, false, top);
      assert r.restart.value == scan.bottom && frames[top].id == breakId && top <= scan.bottom;
      if scan.reason.Some? {
        var beneath := CheckBeneath(kind, scan.state, frames, scan.stop, scan.reason.value, scan.found);
        assert beneath.None?;
      }
    }
  }

  /** A target frame below a frame that cannot be dropped (native code or a generator)
      means no restart: the walk fails there. */
  lemma NoRestartUnderNonDroppable(kind: TargetKind, st: TargetState, frames: seq<Frame>, breakId: int, doDrop: bool, supported: bool,
                                   top: nat, stop: nat, m: nat)
    requires kind.MultipleFunctions? ==> |st.result| == |kind.oldShared|
    requires top <= stop <= m < |frames| && frames[top].id == breakId
    requires forall k :: 0 <= k < top ==> frames[k].id != breakId
    requires NonDroppable(frames[stop]).Some?
    requires frames[m].kind.JavaScriptFrame? && Targets(kind, frames[m])
    ensures DropSpec(kind, st, frames, breakId, doDrop, supported).restart.None?
  {
    var search := FindBreakFrame(kind, st, frames, breakId, 0);
    FindBreakFrameTop(kind, st, frames, breakId, 0, top);
    if search.BreakFrameAt? {
      var scan := ScanDroppable(kind, st, frames, top, false, top);
      ScanStopsAtNonDroppable(kind, st, frames, top, false, top, stop);
      ScanTargets(kind, st, frames, top, false, top);
      assert scan.reason.Some?;
      var beneath := CheckBeneath(kind, scan.state, frames, scan.stop, scan.reason.value, scan.found);
      assert beneath.Some?;
    }
  }

  lemma {:induction false} FindBreakFrameTop(kind: TargetKind, st: TargetState, frames: seq<Frame>, breakId: int, k: nat, top: nat)
    requires k <= top < |frames| && frames[top].id == breakId
    requires kind.MultipleFunctions? ==> |st.result| == |kind.oldShared|
    requires forall m :: k <= m < top ==> frames[m].id != breakId
    ensures FindBreakFrame(kind, st, frames, breakId, k) == BreakFrameAt(top) || FindBreakFrame(kind, st, frames, breakId, k).MarkupAbove?
    decreases top - k
  {
    if k < top && !Targets(kind, frames[k]) {
      FindBreakFrameTop(kind, st, frames, breakId, k + 1, top);
    }
  }

  lemma {:induction false} ScanStopsAtNonDroppable(kind: TargetKind, st: TargetState, frames: seq<Frame>, k: nat, found: bool, bottom: nat, stop: nat)
    requires k <= stop < |frames| && bottom < |frames| && bottom <= k
    requires kind.MultipleFunctions? ==> |st.result| == |kind.oldShared|
    requires NonDroppable(frames[stop]).Some?
    ensures ScanDroppable(kind, st, frames, k, found, bottom).stop <= stop
    decreases |frames| - k
  {
    if k < stop && NonDroppable(frames[k]).None? {
      if Targets(kind, frames[k]) {
        ScanStopsAtNonDroppable(kind, Matched(kind, st, frames[k], BlockedOnActiveStack), frames, k + 1, true, k, stop);
      } else {
        ScanStopsAtNonDroppable(kind, st, frames, k + 1, found, bottom, stop);
      }
    }
  }

  /** A generator of `generators` that is not closed runs `s`. */
  ghost predicate HasActiveGenerator(generators: seq<Generator>, s: SharedId) {
    exists g :: 0 <= g < |generators| && !generators[g].closed && generators[g].shared == s
  }

  /** Some listed function has an active generator. */
  ghost predicate ActiveGeneratorFound(oldShared: seq<SharedId>, generators: seq<Generator>) {
    exists i :: 0 <= i < |oldShared| && HasActiveGenerator(generators, oldShared[i])
  }

  /** A JavaScript frame of `thread` runs listed function `i` before any other listed one. */
  ghost predicate RunsOnThread(oldShared: seq<SharedId>, thread: seq<Frame>, i: nat) {
    exists m :: 0 <= m < |thread| && thread[m].kind.JavaScriptFrame? && FirstRun(oldShared, thread[m].kind.func) == i
  }

  /** A JavaScript frame of `thread` runs a listed function. */
  ghost predicate ThreadBlocks(oldShared: seq<SharedId>, thread: seq<Frame>) {
    exists i :: 0 <= i < |oldShared| && RunsOnThread(oldShared, thread, i)
  }

  /** One of the archived threads runs listed function `i`. */
  ghost predicate OnOtherThread(oldShared: seq<SharedId>, threads: seq<seq<Frame>>, i: nat) {
    exists t :: 0 <= t < |threads| && RunsOnThread(oldShared, threads[t], i)
  }

  ghost predicate OtherThreadBlocked(oldShared: seq<SharedId>, threads: seq<seq<Frame>>) {
    exists i :: 0 <= i < |oldShared| && OnOtherThread(oldShared, threads, i)
  }

  /** `n` functions, all available for patch. */
  function AllAvailable(n: nat): (r: seq<Status>)
    ensures |r| == n && forall i :: 0 <= i < n ==> r[i] == AvailableForPatch
  {
    if n == 0 then [] else AllAvailable(n - 1) + [AvailableForPatch]
  }

  /** An element of the array CheckAndDropActivations returns: a status, or the
      diagnostic after the last status. */
  datatype ResultElement = StatusEntry(status: Status) | MessageEntry(message: string)

  function Entries(s: seq<Status>): (r: seq<ResultElement>)
    ensures |r| == |s| && forall i :: 0 <= i < |s| ==> r[i] == StatusEntry(s[i])
  {
    if s == [] then [] else Entries(s[..|s| - 1]) + [StatusEntry(s[|s| - 1])]
  }

  /** The statuses after the current-thread walk of DropActivationsInActiveThread:
      without a diagnostic every function blocked on the active stack is replaced
      there. */
  function ActiveThreadStatuses(o: DropOutcome): seq<Status> {
    if o.message.None? then Substitute(o.state.result, BlockedOnActiveStack, ReplacedOnActiveStack) else o.state.result
  }

  lemma {:induction false} ScanSavedStatus(kind: TargetKind, st: TargetState, frames: seq<Frame>, k: nat, found: bool, bottom: nat)
    requires k <= |frames| && bottom < |frames| && bottom <= k
    requires kind.MultipleFunctions? ==> |st.result| == |kind.oldShared|
    ensures var r := ScanDroppable(kind, st, frames, k, found, bottom);
      r.state.saved == st.saved || r.state.saved == BlockedOnActiveStack
    decreases |frames| - k
  {
    if k < |frames| && NonDroppable(frames[k]).None? {
      if Targets(kind, frames[k]) {
        ScanSavedStatus(kind, Matched(kind, st, frames[k], BlockedOnActiveStack), frames, k + 1, true, k);
      } else {
        ScanSavedStatus(kind, st, frames, k + 1, found, bottom);
      }
    }
  }

  /** When a single frame is restarted, its saved status is not a block under native
      code or a generator. */
  lemma RestartSavesActiveStatus(fp: int, frames: seq<Frame>, breakId: int, supported: bool)
    ensures var o := DropSpec(SingleFrame(fp), TargetState([], AvailableForPatch), frames, breakId, true, supported);
      o.restart.Some? ==> o.state.saved == AvailableForPatch || o.state.saved == BlockedOnActiveStack
  {
    var kind, st := SingleFrame(fp), TargetState([], AvailableForPatch);
    var search := FindBreakFrame(kind, st, frames, breakId, 0);
    if search.BreakFrameAt? {
      ScanSavedStatus(kind, st, frames, search.top, false, search.top);
    }
  }
}
