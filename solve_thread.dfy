/** The single-slot request mailbox between the editing side and the solver worker
    (`BigWarp.SolveThread`), and the re-solve gating of `restimateTransformation`.
    Only the sequential semantics of the monitor is modelled: each method is one
    critical section. */
module SolveThreadModel {
  import opened Common

  /** What the worker picks up: which side moved, the edited row (negative for a global
      recompute) and the last point that came with a request. */
  datatype Request = Request(isMoving: bool, index: int, pt: Option<seq<real>>)

  /** The monitor-guarded fields of the worker as one value. */
  datatype Slot = Slot(pending: bool, isMoving: bool, index: int, pt: Option<seq<real>>)

  /** `requestResolve`: mark pending, overwrite side and row, and replace the point only when
      a point is supplied. */
  function AfterRequest(s: Slot, isMoving: bool, index: int, newpt: Option<seq<real>>): Slot
  {
    Slot(true, isMoving, index, if newpt.Some? then newpt else s.pt)
  }

  /** The take in `run`: read and clear the pending flag in one step. */
  function AfterTake(s: Slot): (Slot, Option<Request>)
  {
    (s.(pending := false), if s.pending then Some(Request(s.isMoving, s.index, s.pt)) else None)
  }

  /** The wait at the end of each pass of `run`: only when nothing is pending. */
  predicate MustWait(s: Slot)
  {
    !s.pending
  }

  /** A batch of `requestResolve` calls, applied in order. */
  function AfterRequests(s: Slot, reqs: seq<Request>): Slot
    decreases |reqs|
  {
    if reqs == [] then s
    else var last := reqs[|reqs| - 1];
      AfterRequest(AfterRequests(s, reqs[..|reqs| - 1]), last.isMoving, last.index, last.pt)
  }

  /** The point a batch leaves behind: the last one supplied, else the one already held. */
  function LastPoint(held: Option<seq<real>>, reqs: seq<Request>): Option<seq<real>>
    decreases |reqs|
  {
    if reqs == [] then held
    else if reqs[|reqs| - 1].pt.Some? then reqs[|reqs| - 1].pt
    else LastPoint(held, reqs[..|reqs| - 1])
  }

  lemma {:induction false} AfterRequestsShape(s: Slot, reqs: seq<Request>)
    requires reqs != []
    ensures AfterRequests(s, reqs) ==
      Slot(true, reqs[|reqs| - 1].isMoving, reqs[|reqs| - 1].index, LastPoint(s.pt, reqs))
  {
    var init := reqs[..|reqs| - 1];
    if init != [] {
      AfterRequestsShape(s, init);
    }
  }

  /** Coalescing: any non-empty batch of requests followed by a take yields exactly one solve,
      carrying the last side and row, and the last supplied point; the slot is left empty,
      so an immediate second take yields nothing. */
  lemma Coalescing(s: Slot, reqs: seq<Request>)
    requires reqs != []
    ensures var (s1, taken) := AfterTake(AfterRequests(s, reqs));
      && taken == Some(Request(reqs[|reqs| - 1].isMoving, reqs[|reqs| - 1].index, LastPoint(s.pt, reqs)))
      && !s1.pending
      && AfterTake(s1).1 == None
  {
    AfterRequestsShape(s, reqs);
  }

  /** After a take, the worker blocks exactly when no request arrived during its solve. */
  lemma {:induction false} WaitsOnlyWhenIdle(s: Slot, during: seq<Request>)
    ensures MustWait(AfterRequests(AfterTake(s).0, during)) <==> during == []
  {
    if during != [] {
      AfterRequestsShape(AfterTake(s).0, during);
    }
  }

  class SolveThread {
    var pleaseResolve: bool
    var isMoving: bool
    var index: int
    var pt: Option<seq<real>>

    function State(): Slot
      reads this
    {
      Slot(pleaseResolve, isMoving, index, pt)
    }

    constructor ()
      ensures State() == Slot(false, false, 0, None)
    {
      pleaseResolve := false;
      isMoving := false;
      index := 0;
      pt := None;
    }

    /** `requestResolve(isMoving, index, newpt)`; a null `newpt` is `None`. */
    method RequestResolve(isMoving: bool, index: int, newpt: Option<seq<real>>)
      modifies this
      ensures State() == AfterRequest(old(State()), isMoving, index, newpt)
      ensures pleaseResolve && this.isMoving == isMoving && this.index == index
      ensures pt == (if newpt.Some? then newpt else old(pt))
    {
      pleaseResolve := true;
      this.isMoving := isMoving;
      this.index := index;
      if newpt.Some? {
        pt := newpt;
      }
    }

    /** The first critical section of `run`: read and clear the flag; a request is handed
        to the solve exactly when one was pending. */
    method Take() returns (taken: Option<Request>)
      modifies this
      ensures (State(), taken) == AfterTake(old(State()))
      ensures !pleaseResolve && isMoving == old(isMoving) && index == old(index) && pt == old(pt)
      ensures taken.Some? <==> old(pleaseResolve)
    {
      var b := pleaseResolve;
      pleaseResolve := false;
      if b {
        taken := Some(Request(isMoving, index, pt));
      } else {
        taken := None;
      }
    }

    /** The second critical section of `run`: wait only if nothing new is pending. */
    method ShouldWait() returns (w: bool)
      ensures w <==> MustWait(State())
    {
      w := !pleaseResolve;
    }
  }

  /** `Optional<Boolean> anyChanged = changeFlags.stream().reduce((a, b) -> a || b)`. */
  function AnyChanged(flags: seq<bool>): Option<bool>
    decreases |flags|
  {
    if flags == [] then None
    else var rest := AnyChanged(flags[..|flags| - 1]);
      Some(if rest.Some? then rest.value || flags[|flags| - 1] else flags[|flags| - 1])
  }

  /** The reduction is empty exactly for no flags, and otherwise says whether some flag is set. */
  lemma {:induction false} AnyChangedMeaning(flags: seq<bool>)
    ensures AnyChanged(flags).None? <==> flags == []
    ensures AnyChanged(flags).Some? ==> (AnyChanged(flags).value <==> exists i :: 0 <= i < |flags| && flags[i])
  {
    if flags != [] {
      var init := flags[..|flags| - 1];
      AnyChangedMeaning(init);
      if AnyChanged(init).Some? && AnyChanged(init).value {
        var i :| 0 <= i < |init| && init[i];
        assert flags[i];
      }
      if exists i :: 0 <= i < |flags| && flags[i] {
        var i :| 0 <= i < |flags| && flags[i];
        if i < |init| {
          assert init[i];
        }
      }
    }
  }

  /** The gate of `restimateTransformation`. */
  predicate NeedsResolve(flags: seq<bool>, activeRowCount: int, lastNumLandmarks: int)
  {
    var anyChanged := AnyChanged(flags);
    anyChanged.None? || anyChanged.value || activeRowCount != lastNumLandmarks
  }

  /** A global re-solve is requested exactly when there are no change flags, some flag is
      set, or the number of active rows differs from the one recorded at the last request. */
  lemma NeedsResolveMeaning(flags: seq<bool>, activeRowCount: int, lastNumLandmarks: int)
    ensures NeedsResolve(flags, activeRowCount, lastNumLandmarks) <==>
      (flags == [] || (exists i :: 0 <= i < |flags| && flags[i]) || activeRowCount != lastNumLandmarks)
  {
    AnyChangedMeaning(flags);
  }

  /** The part of `BigWarp` that `restimateTransformation` touches. */
  class ResolveGate {
    var lastNumLandmarks: int
    const solverThread: SolveThread

    constructor (solverThread: SolveThread)
      ensures lastNumLandmarks == -1 && this.solverThread == solverThread
    {
      lastNumLandmarks := -1;
      this.solverThread := solverThread;
    }

    /** Issue a global request (`isMoving = true`, row -1, no point) when the gate is open and
        record the active row count; otherwise change nothing. Always reports success. */
    method RestimateTransformation(changeFlags: seq<bool>, activeRowCount: int) returns (ok: bool)
      modifies this, solverThread
      ensures ok
      ensures NeedsResolve(changeFlags, activeRowCount, old(lastNumLandmarks)) ==>
        solverThread.State() == AfterRequest(old(solverThread.State()), true, -1, None) &&
        lastNumLandmarks == activeRowCount
      ensures !NeedsResolve(changeFlags, activeRowCount, old(lastNumLandmarks)) ==>
        solverThread.State() == old(solverThread.State()) && lastNumLandmarks == old(lastNumLandmarks)
    {
      var anyChanged := AnyChanged(changeFlags);
      if anyChanged.None? || anyChanged.value || activeRowCount != lastNumLandmarks {
        solverThread.RequestResolve(true, -1, None);
        lastNumLandmarks := activeRowCount;
      }
      ok := true;
    }
  }
}
