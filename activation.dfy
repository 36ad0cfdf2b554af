/** The activation check of liveedit.cc: marks which of the functions to be replaced
    are active where patching them is unsafe, and optionally schedules the restart of
    the frames that run them on the current stack. Heap and thread iteration, stack
    maps and frame restarts are given as data (generators, archived threads, frames)
    and as the index of the frame whose restart is scheduled. */
module Activation {
  import opened Wrappers
  import opened ActivationSpec

  /** CheckActivation: gives `status` to the first listed function the frame runs. */
  method CheckActivation(oldShared: seq<SharedId>, result: seq<Status>, frame: Frame, status: Status)
    returns (matched: bool, newResult: seq<Status>)
    requires |result| == |oldShared|
    ensures matched == (frame.kind.JavaScriptFrame? && FirstRun(oldShared, frame.kind.func) < |oldShared|)
    ensures matched ==> newResult == result[FirstRun(oldShared, frame.kind.func) := status]
    ensures !matched ==> newResult == result
  {
    newResult := result;
    if !frame.kind.JavaScriptFrame? {
      return false, newResult;
    }
    var fun := frame.kind.func;
    var i := 0;
    while i < |oldShared|
      invariant i <= |oldShared|
      invariant forall m :: 0 <= m < i ==> !Runs(fun, oldShared[m])
    {
      if fun.shared == oldShared[i] || (fun.optimized && oldShared[i] in fun.inlined) {
        newResult := result[i := status];
        return true, newResult;
      }
      i := i + 1;
    }
    return false, newResult;
  }

  /** The target of DropActivationsInActiveThreadImpl: a MultipleFunctionTarget, whose
      state is the result array, or a SingleFrameTarget, whose state is the saved
      status. */
  class ActivationTarget {
    const kind: TargetKind
    var result: seq<Status>
    var savedStatus: Status

    ghost function State(): TargetState
      reads this
    {
      TargetState(result, savedStatus)
    }

    ghost predicate Valid()
      reads this
    {
      kind.MultipleFunctions? ==> |result| == |kind.oldShared|
    }

    constructor (kind: TargetKind, result: seq<Status>)
      requires kind.MultipleFunctions? ==> |result| == |kind.oldShared|
      ensures Valid() && this.kind == kind && this.result == result && savedStatus == AvailableForPatch
    {
      this.kind := kind;
      this.result := result;
      savedStatus := AvailableForPatch;
    }

    method MatchActivation(frame: Frame, status: Status) returns (matched: bool)
      requires Valid()
      modifies this
      ensures Valid()
      ensures matched == Targets(kind, frame)
      ensures State() == Matched(kind, old(State()), frame, status)
    {
      match kind
      case MultipleFunctions(oldShared, _) =>
        matched, result := CheckActivation(oldShared, result, frame, status);
      case SingleFrame(frameFp) =>
        matched := frame.fp == frameFp;
        if matched {
          savedStatus := status;
        }
    }

    function GetNotFoundMessage(): (m: Option<string>)
      ensures m == NotFoundMessage(kind)
    {
      if kind.MultipleFunctions? then None else Some(FrameNotFound)
    }

    method FrameUsesNewTarget(frame: Frame) returns (uses: bool)
      requires Valid()
      modifies this
      ensures Valid()
      ensures (uses, State()) == NewTargetUse(kind, old(State()), frame)
    {
      if !frame.kind.JavaScriptFrame? {
        return false;
      }
      match kind
      case MultipleFunctions(oldShared, newShared) =>
        var oldFunction := frame.kind.func.shared;
        var i := 0;
        while i < |oldShared|
          invariant i <= |oldShared|
          invariant IndexOf(oldShared, oldFunction, i) == IndexOf(oldShared, oldFunction, 0)
        {
          if oldShared[i] != oldFunction {
            i := i + 1;
            continue;
          }
          if i >= |newShared| || newShared[i].None? {
            return false;
          }
          if newShared[i].value.hasNewTarget {
            result := result[i := BlockedNoNewTargetOnRestart];
            return true;
          }
          return false;
        }
        return false;
      case SingleFrame(_) =>
        return frame.kind.func.hasNewTarget;
    }

    method SetStatus(status: Status)
      requires Valid()
      modifies this
      ensures Valid()
      ensures State() == SetAllStatus(kind, old(State()), status)
    {
      match kind
      case MultipleFunctions(oldShared, _) =>
        var i := 0;
        while i < |oldShared|
          invariant i <= |oldShared| && |result| == |old(result)| && savedStatus == old(savedStatus)
          invariant forall m :: 0 <= m < i ==> result[m] == if old(result)[m] == AvailableForPatch then status else old(result)[m]
          invariant forall m :: i <= m < |result| ==> result[m] == old(result)[m]
        {
          if result[i] == AvailableForPatch {
            result := result[i := status];
          }
          i := i + 1;
        }
        assert result == Substitute(old(result), AvailableForPatch, status);
      case SingleFrame(_) =>
        savedStatus := status;
    }
  }

  /** DropActivationsInActiveThreadImpl: searches the current stack for the break
      frame, walks down from it marking target frames until a frame that cannot be
      dropped, checks the frames below such a frame, and schedules the restart of the
      bottom-most target frame. */
  method DropActivationsInActiveThreadImpl(target: ActivationTarget, frames: seq<Frame>, breakFrameId: int,
                                           doDrop: bool, frameDropperSupported: bool)
    returns (message: Option<string>, restart: Option<nat>)
    requires target.Valid()
    modifies target
    ensures target.Valid()
    ensures DropOutcome(message, target.State(), restart) ==
      DropSpec(target.kind, old(target.State()), frames, breakFrameId, doDrop, frameDropperSupported)
  {
    ghost var st0 := target.State();
    ghost var kind := target.kind;
    var topFrameIndex := -1;
    var frameIndex := 0;
    while frameIndex < |frames|
      invariant frameIndex <= |frames| && target.Valid() && target.State() == st0
      invariant FindBreakFrame(kind, st0, frames, breakFrameId, frameIndex) == FindBreakFrame(kind, st0, frames, breakFrameId, 0)
      invariant topFrameIndex == -1
    {
      var frame := frames[frameIndex];
      if frame.id == breakFrameId {
        topFrameIndex := frameIndex;
        break;
      }
      var matched := target.MatchActivation(frame, BlockedUnderNativeCode);
      if matched {
        return Some(MarkupNotFound), None;
      }
      frameIndex := frameIndex + 1;
    }

    if topFrameIndex == -1 {
      return target.GetNotFoundMessage(), None;
    }
    ghost var top: nat := topFrameIndex;
    assert FindBreakFrame(kind, st0, frames, breakFrameId, 0) == BreakFrameAt(top);

    var targetFrameFound := false;
    var bottomJsFrameIndex: nat := topFrameIndex;
    var nonDroppableFrameFound := false;
    var nonDroppableReason := AvailableForPatch;
    ghost var scan := ScanDroppable(kind, st0, frames, top, false, top);

    while frameIndex < |frames|
      invariant top <= frameIndex <= |frames| && target.Valid()
      invariant bottomJsFrameIndex <= frameIndex && bottomJsFrameIndex < |frames|
      invariant ScanDroppable(kind, target.State(), frames, frameIndex, targetFrameFound, bottomJsFrameIndex) == scan
      invariant !nonDroppableFrameFound
    {
      var frame := frames[frameIndex];
      if frame.kind.ExitFrame? || frame.kind.BuiltinExitFrame? {
        nonDroppableFrameFound := true;
        nonDroppableReason := BlockedUnderNativeCode;
        break;
      }
      if frame.kind.JavaScriptFrame? && frame.kind.func.resumable {
        nonDroppableFrameFound := true;
        nonDroppableReason := BlockedUnderGenerator;
        break;
      }
      var matched := target.MatchActivation(frame, BlockedOnActiveStack);
      if matched {
        targetFrameFound := true;
        bottomJsFrameIndex := frameIndex;
      }
      frameIndex := frameIndex + 1;
    }
    assert scan.stop == frameIndex && scan.state == target.State();
    assert scan.found == targetFrameFound && scan.bottom == bottomJsFrameIndex;
    assert scan.reason == if nonDroppableFrameFound then Some(nonDroppableReason) else None;

    if nonDroppableFrameFound {
      ghost var beneath := CheckBeneath(kind, scan.state, frames, scan.stop, nonDroppableReason, targetFrameFound);
      while frameIndex < |frames|
        invariant scan.stop <= frameIndex <= |frames| && target.Valid() && target.State() == scan.state
        invariant CheckBeneath(kind, scan.state, frames, frameIndex, nonDroppableReason, targetFrameFound) == beneath
      {
        var frame := frames[frameIndex];
        if frame.kind.JavaScriptFrame? {
          var matched := target.MatchActivation(frame, nonDroppableReason);
          if matched {
            return None, None;
          }
          if nonDroppableReason == BlockedUnderGenerator && !targetFrameFound {
            target.SetStatus(nonDroppableReason);
            return None, None;
          }
        }
        frameIndex := frameIndex + 1;
      }
    }

    var usesNewTarget := target.FrameUsesNewTarget(frames[bottomJsFrameIndex]);
    if usesNewTarget {
      return None, None;
    }
    if !doDrop {
      return None, None;
    }
    if !targetFrameFound {
      return target.GetNotFoundMessage(), None;
    }
    if !frameDropperSupported {
      return Some(StackManipulationsUnsupported), None;
    }
    return None, Some(bottomJsFrameIndex);
  }

  /** DropActivationsInActiveThread: runs the walk with a MultipleFunctionTarget over
      `result`; without a diagnostic, every function blocked on the active stack is
      then recorded as replaced there. */
  method DropActivationsInActiveThread(oldShared: seq<SharedId>, newShared: seq<Option<NewFunction>>, result: seq<Status>,
                                       frames: seq<Frame>, breakFrameId: int, doDrop: bool, frameDropperSupported: bool)
    returns (message: Option<string>, newResult: seq<Status>, restart: Option<nat>)
    requires |result| == |oldShared|
    ensures var o := DropSpec(MultipleFunctions(oldShared, newShared), TargetState(result, AvailableForPatch),
                              frames, breakFrameId, doDrop, frameDropperSupported);
      message == o.message && restart == o.restart && newResult == ActiveThreadStatuses(o)
    ensures |newResult| == |result|
    ensures message.None? ==> forall i :: 0 <= i < |newResult| ==> newResult[i] != BlockedOnActiveStack
  {
    var target := new ActivationTarget(MultipleFunctions(oldShared, newShared), result);
    message, restart := DropActivationsInActiveThreadImpl(target, frames, breakFrameId, doDrop, frameDropperSupported);
    newResult := target.result;
    if message.Some? {
      return;
    }
    ghost var dropped := newResult;
    var i := 0;
    while i < |oldShared|
      invariant i <= |oldShared| && |newResult| == |dropped|
      invariant forall m :: 0 <= m < i ==> newResult[m] == if dropped[m] == BlockedOnActiveStack then ReplacedOnActiveStack else dropped[m]
      invariant forall m :: i <= m < |newResult| ==> newResult[m] == dropped[m]
    {
      if newResult[i] == BlockedOnActiveStack {
        newResult := newResult[i := ReplacedOnActiveStack];
      }
      i := i + 1;
    }
    assert newResult == Substitute(dropped, BlockedOnActiveStack, ReplacedOnActiveStack);
  }

  lemma ActiveGeneratorStep(generators: seq<Generator>, g: nat, s: SharedId)
    requires g < |generators|
    ensures HasActiveGenerator(generators[..g + 1], s) <==>
      HasActiveGenerator(generators[..g], s) || (!generators[g].closed && generators[g].shared == s)
  {
    var before, after := generators[..g], generators[..g + 1];
    if HasActiveGenerator(after, s) && !(!generators[g].closed && generators[g].shared == s) {
      var k :| 0 <= k < |after| && !after[k].closed && after[k].shared == s;
      assert k < g && before[k] == after[k];
    }
    if HasActiveGenerator(before, s) {
      var k :| 0 <= k < |before| && !before[k].closed && before[k].shared == s;
      assert after[k] == before[k];
    }
    if !generators[g].closed && generators[g].shared == s {
      assert after[g] == generators[g];
    }
  }

  /** LiveEdit::FindActiveGenerators: every listed function of the first `len` that a
      generator which is not closed runs is blocked as an active generator, whatever
      its earlier status; the other statuses are kept, and the answer says whether
      there was one. */
  method FindActiveGenerators(oldShared: seq<SharedId>, result: seq<Status>, len: nat, generators: seq<Generator>)
    returns (found: bool, newResult: seq<Status>)
    requires len <= |result| && len <= |oldShared|
    ensures found == exists i :: 0 <= i < len && HasActiveGenerator(generators, oldShared[i])
    ensures |newResult| == |result|
    ensures forall i :: 0 <= i < |result| ==>
      newResult[i] == if i < len && HasActiveGenerator(generators, oldShared[i]) then BlockedActiveGenerator else result[i]
  {
    found := false;
    newResult := result;
    var g := 0;
    while g < |generators|
      invariant g <= |generators| && |newResult| == |result|
      invariant forall i :: 0 <= i < |result| ==>
        newResult[i] == if i < len && HasActiveGenerator(generators[..g], oldShared[i]) then BlockedActiveGenerator else result[i]
      invariant found == exists i :: 0 <= i < len && HasActiveGenerator(generators[..g], oldShared[i])
    {
      var gen := generators[g];
      if !gen.closed {
        var i := 0;
        while i < len
          invariant i <= len && |newResult| == |result|
          invariant forall m :: 0 <= m < |result| ==>
            newResult[m] == if m < len && (HasActiveGenerator(generators[..g], oldShared[m]) || (m < i && gen.shared == oldShared[m]))
                            then BlockedActiveGenerator else result[m]
          invariant found == exists m :: 0 <= m < len && (HasActiveGenerator(generators[..g], oldShared[m]) || (m < i && gen.shared == oldShared[m]))
        {
          if gen.shared == oldShared[i] {
            newResult := newResult[i := BlockedActiveGenerator];
            found := true;
          }
          i := i + 1;
        }
      }
      forall m | 0 <= m < len {
        ActiveGeneratorStep(generators, g, oldShared[m]);
      }
      g := g + 1;
    }
    assert generators[..g] == generators;
  }

  /** InactiveThreadActivationsChecker: visits the archived threads and blocks every
      listed function one of their frames runs. */
  class InactiveThreadActivationsChecker {
    const oldShared: seq<SharedId>
    var result: seq<Status>
    var hasBlockedFunctions: bool

    constructor (oldShared: seq<SharedId>, result: seq<Status>)
      requires |result| == |oldShared|
      ensures this.oldShared == oldShared && this.result == result && !hasBlockedFunctions
    {
      this.oldShared := oldShared;
      this.result := result;
      hasBlockedFunctions := false;
    }

    method VisitThread(thread: seq<Frame>)
      requires |result| == |oldShared|
      modifies this
      ensures |result| == |oldShared|
      ensures hasBlockedFunctions == (old(hasBlockedFunctions) || ThreadBlocks(oldShared, thread))
      ensures forall i :: 0 <= i < |result| ==> result[i] == if RunsOnThread(oldShared, thread, i) then BlockedOnOtherStack else old(result)[i]
    {
      var m := 0;
      while m < |thread|
        invariant m <= |thread| && |result| == |oldShared|
        invariant hasBlockedFunctions == (old(hasBlockedFunctions) || ThreadBlocks(oldShared, thread[..m]))
        invariant forall i :: 0 <= i < |result| ==> result[i] == if RunsOnThread(oldShared, thread[..m], i) then BlockedOnOtherStack else old(result)[i]
      {
        var matched;
        matched, result := CheckActivation(oldShared, result, thread[m], BlockedOnOtherStack);
        hasBlockedFunctions := hasBlockedFunctions || matched;
        ThreadBlocksStep(oldShared, thread, m);
        forall i | 0 <= i < |oldShared| {
          RunsOnThreadStep(oldShared, thread, m, i);
        }
        m := m + 1;
      }
      assert thread[..m] == thread;
    }
  }

  lemma ThreadBlocksStep(oldShared: seq<SharedId>, thread: seq<Frame>, m: nat)
    requires m < |thread|
    ensures ThreadBlocks(oldShared, thread[..m + 1]) <==>
      ThreadBlocks(oldShared, thread[..m]) || (thread[m].kind.JavaScriptFrame? && FirstRun(oldShared, thread[m].kind.func) < |oldShared|)
  {
    var f := thread[m];
    if f.kind.JavaScriptFrame? && FirstRun(oldShared, f.kind.func) < |oldShared| {
      RunsOnThreadStep(oldShared, thread, m, FirstRun(oldShared, f.kind.func));
    }
    if ThreadBlocks(oldShared, thread[..m]) {
      var i :| 0 <= i < |oldShared| && RunsOnThread(oldShared, thread[..m], i);
      RunsOnThreadStep(oldShared, thread, m, i);
    }
    if ThreadBlocks(oldShared, thread[..m + 1]) {
      var i :| 0 <= i < |oldShared| && RunsOnThread(oldShared, thread[..m + 1], i);
      RunsOnThreadStep(oldShared, thread, m, i);
    }
  }

  lemma RunsOnThreadStep(oldShared: seq<SharedId>, thread: seq<Frame>, m: nat, i: nat)
    requires m < |thread|
    ensures RunsOnThread(oldShared, thread[..m + 1], i) <==>
      RunsOnThread(oldShared, thread[..m], i) || (thread[m].kind.JavaScriptFrame? && FirstRun(oldShared, thread[m].kind.func) == i)
  {
    var before, after := thread[..m], thread[..m + 1];
    if RunsOnThread(oldShared, after, i) && !(thread[m].kind.JavaScriptFrame? && FirstRun(oldShared, thread[m].kind.func) == i) {
      var k :| 0 <= k < |after| && after[k].kind.JavaScriptFrame? && FirstRun(oldShared, after[k].kind.func) == i;
      assert k < m && before[k] == after[k];
    }
    if RunsOnThread(oldShared, before, i) {
      var k :| 0 <= k < |before| && before[k].kind.JavaScriptFrame? && FirstRun(oldShared, before[k].kind.func) == i;
      assert after[k] == before[k];
    }
    if thread[m].kind.JavaScriptFrame? && FirstRun(oldShared, thread[m].kind.func) == i {
      assert after[m] == thread[m];
    }
  }

  lemma OtherThreadStep(oldShared: seq<SharedId>, threads: seq<seq<Frame>>, t: nat)
    requires t < |threads|
    ensures forall i :: OnOtherThread(oldShared, threads[..t + 1], i) <==>
      OnOtherThread(oldShared, threads[..t], i) || RunsOnThread(oldShared, threads[t], i)
    ensures OtherThreadBlocked(oldShared, threads[..t + 1]) <==>
      OtherThreadBlocked(oldShared, threads[..t]) || ThreadBlocks(oldShared, threads[t])
  {
    var before, after := threads[..t], threads[..t + 1];
    forall i ensures OnOtherThread(oldShared, after, i) <==> OnOtherThread(oldShared, before, i) || RunsOnThread(oldShared, threads[t], i) {
      if OnOtherThread(oldShared, after, i) && !RunsOnThread(oldShared, threads[t], i) {
        var k :| 0 <= k < |after| && RunsOnThread(oldShared, after[k], i);
        assert k < t && before[k] == after[k];
      }
      if OnOtherThread(oldShared, before, i) {
        var k :| 0 <= k < |before| && RunsOnThread(oldShared, before[k], i);
        assert after[k] == before[k];
      }
      if RunsOnThread(oldShared, threads[t], i) {
        assert after[t] == threads[t];
      }
    }
  }

  /** The thread manager's IterateArchivedThreads: the checker visits every archived
      thread in turn. */
  method IterateArchivedThreads(checker: InactiveThreadActivationsChecker, archivedThreads: seq<seq<Frame>>)
    requires |checker.result| == |checker.oldShared| && !checker.hasBlockedFunctions
    requires forall i :: 0 <= i < |checker.result| ==> checker.result[i] == AvailableForPatch
    modifies checker
    ensures |checker.result| == |checker.oldShared|
    ensures checker.hasBlockedFunctions == OtherThreadBlocked(checker.oldShared, archivedThreads)
    ensures forall i :: 0 <= i < |checker.result| ==>
      checker.result[i] == if OnOtherThread(checker.oldShared, archivedThreads, i) then BlockedOnOtherStack else AvailableForPatch
  {
    var oldShared := checker.oldShared;
    var t := 0;
    while t < |archivedThreads|
      invariant t <= |archivedThreads| && |checker.result| == |oldShared|
      invariant checker.hasBlockedFunctions == OtherThreadBlocked(oldShared, archivedThreads[..t])
      invariant forall i :: 0 <= i < |oldShared| ==>
        checker.result[i] == if OnOtherThread(oldShared, archivedThreads[..t], i) then BlockedOnOtherStack else AvailableForPatch
    {
      checker.VisitThread(archivedThreads[t]);
      OtherThreadStep(oldShared, archivedThreads, t);
      t := t + 1;
    }
    assert archivedThreads[..t] == archivedThreads;
  }

  /** LiveEdit::CheckAndDropActivations: all functions start available for patch. Active
      generators decide first, and then nothing else is looked at; next, frames of the
      archived threads; only then the current thread is walked, and its diagnostic, if
      any, follows the statuses as one more element. */
  method CheckAndDropActivations(oldShared: seq<SharedId>, newShared: seq<Option<NewFunction>>, generators: seq<Generator>,
                                 archivedThreads: seq<seq<Frame>>, frames: seq<Frame>, breakFrameId: int,
                                 doDrop: bool, frameDropperSupported: bool)
    returns (result: seq<ResultElement>, restart: Option<nat>)
    ensures ActiveGeneratorFound(oldShared, generators) ==>
      && restart.None? && |result| == |oldShared|
      && forall i :: 0 <= i < |oldShared| ==>
           result[i] == StatusEntry(if HasActiveGenerator(generators, oldShared[i]) then BlockedActiveGenerator else AvailableForPatch)
    ensures !ActiveGeneratorFound(oldShared, generators) && OtherThreadBlocked(oldShared, archivedThreads) ==>
      && restart.None? && |result| == |oldShared|
      && forall i :: 0 <= i < |oldShared| ==>
           result[i] == StatusEntry(if OnOtherThread(oldShared, archivedThreads, i) then BlockedOnOtherStack else AvailableForPatch)
    ensures !ActiveGeneratorFound(oldShared, generators) && !OtherThreadBlocked(oldShared, archivedThreads) ==>
      var o := DropSpec(MultipleFunctions(oldShared, newShared), TargetState(AllAvailable(|oldShared|), AvailableForPatch),
                        frames, breakFrameId, doDrop, frameDropperSupported);
      && restart == o.restart
      && result == Entries(ActiveThreadStatuses(o)) + (if o.message.Some? then [MessageEntry(o.message.value)] else [])
    ensures |result| == |oldShared| || (|result| == |oldShared| + 1 && result[|oldShared|].MessageEntry?)
    ensures |result| == |oldShared| ==> forall i :: 0 <= i < |result| ==> result[i] != StatusEntry(BlockedOnActiveStack)
  {
    var len := |oldShared|;
    var statuses: seq<Status> := [];
    var i := 0;
    while i < len
      invariant i <= len && statuses == AllAvailable(i)
    {
      statuses := statuses + [AvailableForPatch];
      i := i + 1;
    }

    var found;
    found, statuses := FindActiveGenerators(oldShared, statuses, len, generators);
    if found {
      return Entries(statuses), None;
    }
    assert statuses == AllAvailable(len);

    var checker := new InactiveThreadActivationsChecker(oldShared, statuses);
    IterateArchivedThreads(checker, archivedThreads);
    if checker.hasBlockedFunctions {
      return Entries(checker.result), None;
    }
    assert checker.result == AllAvailable(len);

    var message, dropped;
    message, dropped, restart := DropActivationsInActiveThread(oldShared, newShared, checker.result, frames, breakFrameId,
                                                              doDrop, frameDropperSupported);
    result := Entries(dropped);
    if message.Some? {
      result := result + [MessageEntry(message.value)];
    }
  }

  /** LiveEdit::RestartFrame: runs the walk with a SingleFrameTarget for `frame`,
      dropping frames; a walk that succeeded but left the frame blocked under native
      code or a generator is reported as such. */
  method RestartFrame(frame: Frame, frames: seq<Frame>, breakFrameId: int, frameDropperSupported: bool)
    returns (message: Option<string>, restart: Option<nat>)
    ensures var o := DropSpec(SingleFrame(frame.fp), TargetState([], AvailableForPatch), frames, breakFrameId, true, frameDropperSupported);
      && restart == o.restart
      && message == if o.message.Some? then o.message
                    else if o.state.saved == BlockedUnderNativeCode then Some(BlockedUnderNativeMessage)
                    else if o.state.saved == BlockedUnderGenerator then Some(BlockedUnderGeneratorMessage)
                    else None
    ensures restart.Some? ==> message.None? && restart.value < |frames| && frames[restart.value].fp == frame.fp
  {
    var target := new ActivationTarget(SingleFrame(frame.fp), []);
    message, restart := DropActivationsInActiveThreadImpl(target, frames, breakFrameId, true, frameDropperSupported);
    RestartOnlyBottomTarget(SingleFrame(frame.fp), TargetState([], AvailableForPatch), frames, breakFrameId, true, frameDropperSupported);
    RestartSavesActiveStatus(frame.fp, frames, breakFrameId, frameDropperSupported);
    if message.Some? {
      return;
    }
    if target.savedStatus == BlockedUnderNativeCode {
      return Some(BlockedUnderNativeMessage), restart;
    }
    if target.savedStatus == BlockedUnderGenerator {
      return Some(BlockedUnderGeneratorMessage), restart;
    }
  }
}
