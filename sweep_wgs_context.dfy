/**
 * The sweep operator context of a within-group-set solve: one operator
 * application is one full transport sweep, driven through the sweep
 * scheduler. The scheduler, the solver and the set-source function are
 * collaborators whose code is not part of this model; the context records
 * the calls it makes on them, in order, and the scheduler state those calls
 * set.
 */
module SweepWgs {
  import opened Common

  /** The source-scope bitmask (`SourceFlags`, an `int` enumeration of single bits). */
  type SourceFlags = bv32

  const NO_FLAGS_SET: SourceFlags := 0
  const APPLY_FIXED_SOURCES: SourceFlags := 1 << 0
  const APPLY_WGS_SCATTER_SOURCES: SourceFlags := 1 << 1
  const APPLY_AGS_SCATTER_SOURCES: SourceFlags := 1 << 2
  const APPLY_WGS_FISSION_SOURCES: SourceFlags := 1 << 3
  const APPLY_AGS_FISSION_SOURCES: SourceFlags := 1 << 4
  const SUPPRESS_WG_SCATTER: SourceFlags := 1 << 5
  const ZERO_INCOMING_DELAYED_PSI: SourceFlags := 1 << 6

  /** `scope & flag` converted to bool. */
  predicate HasFlag(scope: SourceFlags, flag: SourceFlags) {
    scope & flag != 0
  }

  datatype SchedulingAlgorithm = DepthOfGraph | FirstInFirstOut

  /** The scheduling policy the context gives its sweep scheduler. */
  function SchedulingFor(sweepType: string): (a: SchedulingAlgorithm)
    ensures a == DepthOfGraph <==> sweepType == "AAH"
    ensures a == FirstInFirstOut <==> sweepType != "AAH"
  {
    if sweepType == "AAH" then DepthOfGraph else FirstInFirstOut
  }

  /** The group set's iterative method; enumerators other than the three named ones are `OtherMethod`. */
  datatype IterativeMethod = KrylovRichardson | KrylovGmres | KrylovBicgstab | OtherMethod(tag: nat)

  /** The method name the pre-setup callback reports. */
  function MethodName(m: IterativeMethod): (name: string)
    ensures name == "KRYLOV_RICHARDSON" <==> m == KrylovRichardson
    ensures name == "KRYLOV_BICGSTAB" <==> m == KrylovBicgstab
    ensures name == "KRYLOV_GMRES" <==> (m == KrylovGmres || m.OtherMethod?)
  {
    match m
    case KrylovRichardson => "KRYLOV_RICHARDSON"
    case KrylovGmres => "KRYLOV_GMRES"
    case KrylovBicgstab => "KRYLOV_BICGSTAB"
    case OtherMethod(_) => "KRYLOV_GMRES"
  }

  /** Unknowns of one partition of the system: nodes x moments x groups plus delayed unknowns. */
  function UnknownCount(nodes: nat, numMoments: nat, numGroups: nat, delayed: nat): nat {
    nodes * numMoments * numGroups + delayed
  }

  lemma CongruentTransitive(a: int, b: int, c: int)
    requires (a - b) % TWO_TO_64 == 0 && (b - c) % TWO_TO_64 == 0
    ensures (a - c) % TWO_TO_64 == 0
  {
    var k1 := (a - b) / TWO_TO_64;
    var k2 := (b - c) / TWO_TO_64;
    assert a - c == (k1 + k2) * TWO_TO_64;
  }

  /** What a `size_t` computation of x yields once converted to `int64_t`. */
  function SizeTAsInt64(x: nat): (r: int)
    ensures -TWO_TO_63 <= r < TWO_TO_63
    ensures (r - x) % TWO_TO_64 == 0
    ensures x < TWO_TO_63 ==> r == x
  {
    var u := ToUint64(x);
    CongruentTransitive(ToInt64(u), u, x);
    ToInt64(u)
  }

  /**
   * Local and global sizes of the linear system the Krylov solver sees:
   * node count times moments times groups, plus the delayed angular unknowns.
   * The arithmetic is `size_t` (modulo 2^64) and the result is converted to
   * `int64_t`.
   */
  function SystemSize(localNodes: Uint64, globalNodes: Uint64, numMoments: Uint64,
                      numGroups: Uint64, delayedLocal: Uint64, delayedGlobal: Uint64): (r: (int, int))
    ensures -TWO_TO_63 <= r.0 < TWO_TO_63 && -TWO_TO_63 <= r.1 < TWO_TO_63
    ensures (r.0 - UnknownCount(localNodes, numMoments, numGroups, delayedLocal)) % TWO_TO_64 == 0
    ensures (r.1 - UnknownCount(globalNodes, numMoments, numGroups, delayedGlobal)) % TWO_TO_64 == 0
    ensures UnknownCount(localNodes, numMoments, numGroups, delayedLocal) < TWO_TO_63 ==>
              r.0 == UnknownCount(localNodes, numMoments, numGroups, delayedLocal)
    ensures UnknownCount(globalNodes, numMoments, numGroups, delayedGlobal) < TWO_TO_63 ==>
              r.1 == UnknownCount(globalNodes, numMoments, numGroups, delayedGlobal)
  {
    (SizeTAsInt64(UnknownCount(localNodes, numMoments, numGroups, delayedLocal)),
     SizeTAsInt64(UnknownCount(globalNodes, numMoments, numGroups, delayedGlobal)))
  }

  /** A call the context makes on one of its collaborators. */
  datatype Call =
    | SetBoundarySourceActiveFlag(active: bool)   // scheduler
    | ZeroIncomingDelayedPsi                      // scheduler
    | ZeroOutputFluxDataStructures                // scheduler
    | Sweep                                       // scheduler
    | SetDestinationPhiNew                        // scheduler, with the solver's PHI_NEW
    | ZeroOutflowBalanceVars                      // solver
    | SetSource(scope: SourceFlags)               // set-source function, from PHI_OLD into the source moments
    | CopyPhiNewToOld                             // solver, PHI_NEW into PHI_OLD for the group set

  /** The boundary source is active when fixed sources are in scope and source moments are not used instead. */
  function BoundarySourceActive(scope: SourceFlags, useSrcMoments: bool): (active: bool)
    ensures active <==> HasFlag(scope, APPLY_FIXED_SOURCES) && !useSrcMoments
  {
    HasFlag(scope, APPLY_FIXED_SOURCES) && !useSrcMoments
  }

  /** The scheduler calls of one operator application, in order. */
  function ApplicationCalls(scope: SourceFlags, useSrcMoments: bool): (calls: seq<Call>)
    ensures |calls| == if HasFlag(scope, ZERO_INCOMING_DELAYED_PSI) then 4 else 3
    ensures calls[0] == SetBoundarySourceActiveFlag(BoundarySourceActive(scope, useSrcMoments))
    ensures ZeroIncomingDelayedPsi in calls <==> HasFlag(scope, ZERO_INCOMING_DELAYED_PSI)
    ensures calls[|calls| - 2] == ZeroOutputFluxDataStructures && calls[|calls| - 1] == Sweep
    ensures forall i :: 0 <= i < |calls| - 1 ==> calls[i] != Sweep
  {
    [SetBoundarySourceActiveFlag(BoundarySourceActive(scope, useSrcMoments))]
    + (if HasFlag(scope, ZERO_INCOMING_DELAYED_PSI) then [ZeroIncomingDelayedPsi] else [])
    + [ZeroOutputFluxDataStructures, Sweep]
  }

  /** Whether the post-solve callback does its final sweep: every method except Krylov-Richardson. */
  function DoesFinalSweep(m: IterativeMethod): (final: bool)
    ensures final <==> m != KrylovRichardson
  {
    m != KrylovRichardson
  }

  /** The collaborator calls of the post-solve callback (its diagnostics aside), in order. */
  function PostSolveCalls(m: IterativeMethod, lhsScope: SourceFlags, rhsScope: SourceFlags,
                          useSrcMoments: bool): (calls: seq<Call>)
    ensures m == KrylovRichardson ==> calls == []
    ensures m != KrylovRichardson ==>
              && |calls| > 4
              && calls[..3] == [ZeroOutflowBalanceVars, SetSource(lhsScope | rhsScope), SetDestinationPhiNew]
              && calls[3..|calls| - 1] == ApplicationCalls(lhsScope | rhsScope, useSrcMoments)
              && calls[|calls| - 1] == CopyPhiNewToOld
  {
    if m == KrylovRichardson then []
    else
      [ZeroOutflowBalanceVars, SetSource(lhsScope | rhsScope), SetDestinationPhiNew]
      + ApplicationCalls(lhsScope | rhsScope, useSrcMoments)
      + [CopyPhiNewToOld]
  }

  /** Exactly one sweep runs in a post-solve callback that is not Richardson's, and it precedes the copy. */
  lemma PostSolveSweepsOnceBeforeCopy(m: IterativeMethod, lhsScope: SourceFlags, rhsScope: SourceFlags,
                                      useSrcMoments: bool)
    requires m != KrylovRichardson
    ensures var calls := PostSolveCalls(m, lhsScope, rhsScope, useSrcMoments);
      exists i :: (0 <= i < |calls| - 1 && calls[i] == Sweep && calls[|calls| - 1] == CopyPhiNewToOld
                   && (forall j :: 0 <= j < |calls| && j != i ==> calls[j] != Sweep))
  {
    var calls := PostSolveCalls(m, lhsScope, rhsScope, useSrcMoments);
    var app := ApplicationCalls(lhsScope | rhsScope, useSrcMoments);
    var i := |calls| - 2;
    assert calls[i] == app[|app| - 1] == Sweep;
    forall j | 0 <= j < |calls| && j != i
      ensures calls[j] != Sweep
    {
      if 3 <= j < |calls| - 1 {
        assert calls[j] == app[j - 3];
      }
    }
  }

  class SweepWGSContext {
    /** The solver's sweep type, e.g. "AAH". */
    const sweepType: string
    /** The scheduling policy the context's sweep scheduler was built with. */
    const schedulingAlgorithm: SchedulingAlgorithm
    const iterativeMethod: IterativeMethod
    const lhsScope: SourceFlags
    const rhsScope: SourceFlags
    /** The solver option `use_src_moments`. */
    const useSrcMoments: bool
    const logInfo: bool

    /** `counter_applications_of_inv_op_`. */
    var applications: nat
    /** The scheduler's boundary-source-active flag. */
    var boundarySourceActive: bool
    /** Whether the incoming delayed psi was zeroed before the most recent sweep. */
    var delayedPsiZeroedForLastSweep: bool
    /** Every collaborator call made so far, in order. */
    var calls: seq<Call>

    constructor (sweepType: string, iterativeMethod: IterativeMethod, lhsScope: SourceFlags,
                 rhsScope: SourceFlags, useSrcMoments: bool, logInfo: bool)
      ensures this.sweepType == sweepType && this.iterativeMethod == iterativeMethod
      ensures this.lhsScope == lhsScope && this.rhsScope == rhsScope
      ensures this.useSrcMoments == useSrcMoments && this.logInfo == logInfo
      ensures schedulingAlgorithm == SchedulingFor(sweepType)
      ensures schedulingAlgorithm == DepthOfGraph <==> sweepType == "AAH"
      ensures applications == 0 && !boundarySourceActive && !delayedPsiZeroedForLastSweep && calls == []
    {
      this.sweepType := sweepType;
      this.schedulingAlgorithm := if sweepType == "AAH" then DepthOfGraph else FirstInFirstOut;
      this.iterativeMethod := iterativeMethod;
      this.lhsScope := lhsScope;
      this.rhsScope := rhsScope;
      this.useSrcMoments := useSrcMoments;
      this.logInfo := logInfo;
      applications := 0;
      boundarySourceActive := false;
      delayedPsiZeroedForLastSweep := false;
      calls := [];
    }

    /** The method name the pre-setup callback logs, when logging is on. */
    method PreSetupCallback() returns (reported: Option<string>)
      ensures logInfo ==> reported == Some(MethodName(iterativeMethod))
      ensures !logInfo ==> reported == None
    {
      if logInfo {
        var methodName: string;
        match iterativeMethod {
          case KrylovRichardson => methodName := "KRYLOV_RICHARDSON";
          case KrylovGmres => methodName := "KRYLOV_GMRES";
          case KrylovBicgstab => methodName := "KRYLOV_BICGSTAB";
          case OtherMethod(_) => methodName := "KRYLOV_GMRES";
        }
        reported := Some(methodName);
      } else {
        reported := None;
      }
    }

    /** One operator application: a full sweep with the given source scope. */
    method ApplyInverseTransportOperator(scope: SourceFlags)
      modifies this
      ensures applications == old(applications) + 1
      ensures boundarySourceActive == (HasFlag(scope, APPLY_FIXED_SOURCES) && !useSrcMoments)
      ensures delayedPsiZeroedForLastSweep == HasFlag(scope, ZERO_INCOMING_DELAYED_PSI)
      ensures calls == old(calls) + ApplicationCalls(scope, useSrcMoments)
    {
      applications := applications + 1;
      var useBoundarySource := scope & APPLY_FIXED_SOURCES != 0 && !useSrcMoments;

      boundarySourceActive := useBoundarySource;
      calls := calls + [SetBoundarySourceActiveFlag(useBoundarySource)];

      delayedPsiZeroedForLastSweep := false;
      if scope & ZERO_INCOMING_DELAYED_PSI != 0 {
        delayedPsiZeroedForLastSweep := true;
        calls := calls + [ZeroIncomingDelayedPsi];
      }

      calls := calls + [ZeroOutputFluxDataStructures];
      calls := calls + [Sweep];
    }

    /** The final sweep with the converged solution, then PHI_NEW into PHI_OLD; skipped for Richardson. */
    method PostSolveCallback()
      modifies this
      ensures DoesFinalSweep(iterativeMethod) ==> applications == old(applications) + 1
      ensures !DoesFinalSweep(iterativeMethod) ==>
                applications == old(applications) && boundarySourceActive == old(boundarySourceActive)
                && delayedPsiZeroedForLastSweep == old(delayedPsiZeroedForLastSweep)
      ensures DoesFinalSweep(iterativeMethod) ==>
                boundarySourceActive == BoundarySourceActive(lhsScope | rhsScope, useSrcMoments)
      ensures DoesFinalSweep(iterativeMethod) ==>
                delayedPsiZeroedForLastSweep == HasFlag(lhsScope | rhsScope, ZERO_INCOMING_DELAYED_PSI)
      ensures calls == old(calls) + PostSolveCalls(iterativeMethod, lhsScope, rhsScope, useSrcMoments)
    {
      if iterativeMethod != KrylovRichardson {
        ghost var start := calls;
        calls := calls + [ZeroOutflowBalanceVars];
        var scope := lhsScope | rhsScope;
        calls := calls + [SetSource(scope)];
        calls := calls + [SetDestinationPhiNew];
        ghost var setup := [ZeroOutflowBalanceVars, SetSource(scope), SetDestinationPhiNew];
        assert calls == start + setup;
        ApplyInverseTransportOperator(scope);
        ghost var application := ApplicationCalls(scope, useSrcMoments);
        calls := calls + [CopyPhiNewToOld];
        assert calls == start + (setup + application + [CopyPhiNewToOld]);
      }
    }
  }
}
