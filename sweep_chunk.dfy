/**
 * The cell sweep kernel's face routing. After a cell's local system is
 * solved (that part, and the assembly before it, is not part of this model),
 * `OutgoingSurfaceOperations` sends the solution's face-node values out
 * through the current outgoing face: to the downwind flux slot for an
 * interior face or a reflecting boundary, and as outflow (leakage) for any
 * other boundary. The flux-staging buffer is a `real` array and the
 * downwind slot of each face node is given as an offset into it (or none,
 * for a null pointer); outflow contributions are logged on the cell's
 * transport view in the order they are made.
 */
module SweepChunks {
  import opened Common

  /** The three ways an outgoing face is treated. */
  datatype FaceRoute = InteriorFace | ReflectingBoundary | VacuumBoundary

  /** Face values go to the downwind slot unless the face is on a non-reflecting boundary. */
  predicate WritesDownwind(onBoundary: bool, isReflecting: bool) {
    !onBoundary || isReflecting
  }

  /** Outflow is accumulated only on a non-reflecting boundary. */
  predicate AddsOutflow(onBoundary: bool, isReflecting: bool) {
    onBoundary && !isReflecting
  }

  /** The route of a face with the given boundary flags. */
  function Route(onBoundary: bool, isReflecting: bool): (r: FaceRoute)
    ensures r == VacuumBoundary <==> AddsOutflow(onBoundary, isReflecting)
    ensures r != VacuumBoundary <==> WritesDownwind(onBoundary, isReflecting)
    ensures r == ReflectingBoundary ==> onBoundary
  {
    if !onBoundary then InteriorFace
    else if isReflecting then ReflectingBoundary
    else VacuumBoundary
  }

  /**
   * Whether an outgoing face is a reflecting boundary: it is on the boundary
   * and the angle set's boundary with the neighbour id is reflecting
   * (`boundaries` maps boundary ids to `IsReflecting()`).
   */
  function IsReflectingFace(onBoundary: bool, neighborId: Uint64, boundaries: map<Uint64, bool>): (r: bool)
    requires onBoundary ==> neighborId in boundaries
    ensures !onBoundary ==> !r
    ensures onBoundary ==> (r <==> boundaries[neighborId])
  {
    onBoundary && boundaries[neighborId]
  }

  /** The per-face state the sweep chunk shares with the sweep plane's flux-staging structure. */
  class SweepDependencyInterface {
    /** For each boundary id of the angle set, whether that boundary is reflecting. */
    const boundaries: map<Uint64, bool>

    var currentFaceIdx: Int32
    var numFaceNodes: Uint64
    var neighborId: Uint64
    var onLocalFace: bool
    var onBoundary: bool
    var faceLocality: Int32
    var isReflectingBndry: bool
    var groupsetAngleGroupStride: Uint64
    var groupsetGroupStride: Uint64

    constructor (boundaries: map<Uint64, bool>)
      ensures this.boundaries == boundaries
      ensures currentFaceIdx == 0 && numFaceNodes == 0 && neighborId == 0
      ensures !onLocalFace && !onBoundary && faceLocality == 0 && !isReflectingBndry
      ensures groupsetAngleGroupStride == 0 && groupsetGroupStride == 0
    {
      this.boundaries := boundaries;
      currentFaceIdx := 0;
      numFaceNodes := 0;
      neighborId := 0;
      onLocalFace := false;
      onBoundary := false;
      faceLocality := 0;
      isReflectingBndry := false;
      groupsetAngleGroupStride := 0;
      groupsetGroupStride := 0;
    }

    /** Makes the given face the current incoming face; locality and reflection are left as they were. */
    method SetupIncomingFace(faceId: Int32, numFaceNodes: Uint64, neighborId: Uint64,
                             onLocalFace: bool, onBoundary: bool)
      modifies this
      ensures currentFaceIdx == faceId && this.numFaceNodes == numFaceNodes
      ensures this.neighborId == neighborId && this.onLocalFace == onLocalFace
      ensures this.onBoundary == onBoundary
      ensures faceLocality == old(faceLocality) && isReflectingBndry == old(isReflectingBndry)
      ensures groupsetAngleGroupStride == old(groupsetAngleGroupStride)
      ensures groupsetGroupStride == old(groupsetGroupStride)
    {
      currentFaceIdx := faceId;
      this.numFaceNodes := numFaceNodes;
      this.neighborId := neighborId;
      this.onLocalFace := onLocalFace;
      this.onBoundary := onBoundary;
    }

    /**
     * Makes the given face the current outgoing face and classifies it. The
     * boundary lookup happens only for a face on the boundary, and needs the
     * neighbour id to be one of the angle set's boundary ids.
     */
    method SetupOutgoingFace(faceId: Int32, numFaceNodes: Uint64, neighborId: Uint64,
                             onLocalFace: bool, onBoundary: bool, locality: Int32)
      requires onBoundary ==> neighborId in boundaries
      modifies this
      ensures currentFaceIdx == faceId && this.numFaceNodes == numFaceNodes
      ensures this.neighborId == neighborId && faceLocality == locality
      ensures this.onLocalFace == onLocalFace && this.onBoundary == onBoundary
      ensures isReflectingBndry == IsReflectingFace(onBoundary, neighborId, boundaries)
      ensures !onBoundary ==> Route(this.onBoundary, isReflectingBndry) == InteriorFace
      ensures groupsetAngleGroupStride == old(groupsetAngleGroupStride)
      ensures groupsetGroupStride == old(groupsetGroupStride)
    {
      currentFaceIdx := faceId;
      this.numFaceNodes := numFaceNodes;
      this.neighborId := neighborId;
      faceLocality := locality;
      this.onLocalFace := onLocalFace;
      this.onBoundary := onBoundary;

      isReflectingBndry := this.onBoundary && boundaries[this.neighborId];
    }
  }

  /** One `AddOutflow(group, amount)` call on a cell's transport view. */
  datatype Outflow = Outflow(group: nat, amount: real)

  /** The part of a cell's transport view the kernel touches: its outflow accumulation. */
  class CellTransportView {
    /** Every outflow contribution made on this cell, in order. */
    var outflows: seq<Outflow>

    constructor ()
      ensures outflows == []
    {
      outflows := [];
    }

    method AddOutflow(group: nat, amount: real)
      modifies this
      ensures outflows == old(outflows) + [Outflow(group, amount)]
    {
      outflows := outflows + [Outflow(group, amount)];
    }
  }

  /** A `rows` x `cols` matrix of zeros. */
  function ZeroMatrix(rows: nat, cols: nat): (m: seq<seq<real>>)
    ensures |m| == rows
    ensures forall r :: 0 <= r < rows ==> |m[r]| == cols
    ensures forall r, c :: 0 <= r < rows && 0 <= c < cols ==> m[r][c] == 0.0
  {
    seq(rows, _ => seq(cols, _ => 0.0))
  }

  /**
   * Everything the outgoing-face operations of one face read: the solved
   * values `b` (group x cell node), the face-node to cell-node map, each face
   * node's downwind slot, the face-integrated shape functions, the face's
   * direction cosine `mu`, the direction's weight `wt`, the number of groups
   * in the sub-set and its first group, and the face's boundary flags.
   */
  datatype FaceData = FaceData(b: seq<seq<real>>, nodeMap: seq<nat>, downwind: seq<Option<nat>>,
                               intF: seq<real>, mu: real, wt: real, numGroups: nat, firstGroup: nat,
                               onBoundary: bool, isReflecting: bool)

  /** Row `i` of every group of `b` below `n` exists. */
  predicate GroupsHaveNode(b: seq<seq<real>>, i: nat, n: nat) {
    n <= |b| && forall g :: 0 <= g < n ==> i < |b[g]|
  }

  /**
   * Every downwind write the face's nodes make, and the reads of `b` it
   * needs, are in range (a node without a slot, or on a face that writes no
   * psi, makes none).
   */
  predicate FaceWritesValid(d: FaceData, bufLen: nat) {
    && |d.downwind| == |d.nodeMap|
    && forall fi :: 0 <= fi < |d.nodeMap| && d.downwind[fi].Some? && WritesDownwind(d.onBoundary, d.isReflecting) ==>
         d.downwind[fi].value + d.numGroups <= bufLen && GroupsHaveNode(d.b, d.nodeMap[fi], d.numGroups)
  }

  /** The reads of every outflow contribution the face's nodes make are in range. */
  predicate FaceOutflowsValid(d: FaceData) {
    forall fi :: 0 <= fi < |d.nodeMap| && AddsOutflow(d.onBoundary, d.isReflecting) ==>
      GroupsHaveNode(d.b, d.nodeMap[fi], d.numGroups) && d.nodeMap[fi] < |d.intF|
  }

  /** `buf` with `vals` written from offset `off` on. */
  function WriteSlot(buf: seq<real>, off: nat, vals: seq<real>): (r: seq<real>)
    requires off + |vals| <= |buf|
    ensures |r| == |buf|
  {
    seq(|buf|, k requires 0 <= k < |buf| => if off <= k < off + |vals| then vals[k - off] else buf[k])
  }

  /** Position `k` holds the slot's value if it is in the slot, and its old value otherwise. */
  lemma WriteSlotAt(buf: seq<real>, off: nat, vals: seq<real>, k: nat)
    requires off + |vals| <= |buf| && k < |buf|
    ensures WriteSlot(buf, off, vals)[k] == if off <= k < off + |vals| then vals[k - off] else buf[k]
  {
  }

  /** Writing one more value extends the slot by one position. */
  lemma WriteSlotSnoc(buf: seq<real>, off: nat, vals: seq<real>, v: real)
    requires off + |vals| < |buf|
    ensures WriteSlot(buf, off, vals + [v]) == WriteSlot(buf, off, vals)[off + |vals| := v]
  {
    var lhs := WriteSlot(buf, off, vals + [v]);
    var rhs := WriteSlot(buf, off, vals)[off + |vals| := v];
    forall k | 0 <= k < |lhs|
      ensures lhs[k] == rhs[k]
    {
      WriteSlotAt(buf, off, vals + [v], k);
      WriteSlotAt(buf, off, vals, k);
      if off <= k < off + |vals| {
        assert lhs[k] == (vals + [v])[k - off];
      }
    }
  }

  /** The values a face node on cell node `i` sends downwind in the first `numGroups` groups. */
  function NodeValues(b: seq<seq<real>>, i: nat, numGroups: nat): (vals: seq<real>)
    requires GroupsHaveNode(b, i, numGroups)
    ensures |vals| == numGroups
  {
    if numGroups == 0 then [] else NodeValues(b, i, numGroups - 1) + [b[numGroups - 1][i]]
  }

  /** The value for group `g` is b[g][i]. */
  lemma {:induction false} NodeValuesAt(b: seq<seq<real>>, i: nat, numGroups: nat, g: nat)
    requires GroupsHaveNode(b, i, numGroups) && g < numGroups
    ensures NodeValues(b, i, numGroups)[g] == b[g][i]
  {
    if g < numGroups - 1 {
      NodeValuesAt(b, i, numGroups - 1, g);
    }
  }

  /** The outflow of one face node in one group: weight x face cosine x value x face-integrated shape function. */
  function Leakage(wt: real, mu: real, psi: real, intF: real): real {
    wt * mu * psi * intF
  }

  /** The outflow contributions of a face node on cell node `i` in the first `numGroups` groups, in group order. */
  function NodeOutflows(b: seq<seq<real>>, i: nat, numGroups: nat, firstGroup: nat,
                        wt: real, mu: real, intFi: real): (out: seq<Outflow>)
    requires GroupsHaveNode(b, i, numGroups)
    ensures |out| == numGroups
  {
    if numGroups == 0 then []
    else
      NodeOutflows(b, i, numGroups - 1, firstGroup, wt, mu, intFi)
      + [Outflow(firstGroup + numGroups - 1, Leakage(wt, mu, b[numGroups - 1][i], intFi))]
  }

  lemma {:induction false} NodeOutflowsAt(b: seq<seq<real>>, i: nat, numGroups: nat, firstGroup: nat,
                                          wt: real, mu: real, intFi: real, g: nat)
    requires GroupsHaveNode(b, i, numGroups) && g < numGroups
    ensures NodeOutflows(b, i, numGroups, firstGroup, wt, mu, intFi)[g] ==
              Outflow(firstGroup + g, Leakage(wt, mu, b[g][i], intFi))
  {
    if g < numGroups - 1 {
      NodeOutflowsAt(b, i, numGroups - 1, firstGroup, wt, mu, intFi, g);
    }
  }

  /** The flux-staging buffer after the first `n` face nodes have been processed. */
  function PsiAfter(buf: seq<real>, d: FaceData, n: nat): (r: seq<real>)
    requires FaceWritesValid(d, |buf|) && n <= |d.nodeMap|
    ensures |r| == |buf|
  {
    if n == 0 then buf
    else
      var prev := PsiAfter(buf, d, n - 1);
      if d.downwind[n - 1].Some? && WritesDownwind(d.onBoundary, d.isReflecting) then
        WriteSlot(prev, d.downwind[n - 1].value, NodeValues(d.b, d.nodeMap[n - 1], d.numGroups))
      else prev
  }

  lemma PsiAfterStep(buf: seq<real>, d: FaceData, n: nat)
    requires FaceWritesValid(d, |buf|) && n < |d.nodeMap|
    ensures d.downwind[n].Some? && WritesDownwind(d.onBoundary, d.isReflecting) ==>
              d.downwind[n].value + d.numGroups <= |buf| && GroupsHaveNode(d.b, d.nodeMap[n], d.numGroups) &&
              PsiAfter(buf, d, n + 1) ==
                WriteSlot(PsiAfter(buf, d, n), d.downwind[n].value, NodeValues(d.b, d.nodeMap[n], d.numGroups))
    ensures !(d.downwind[n].Some? && WritesDownwind(d.onBoundary, d.isReflecting)) ==>
              PsiAfter(buf, d, n + 1) == PsiAfter(buf, d, n)
  {
  }

  /** The outflow contributions of the first `n` face nodes, in order. */
  function OutflowsAfter(d: FaceData, n: nat): seq<Outflow>
    requires FaceOutflowsValid(d) && n <= |d.nodeMap|
  {
    if n == 0 then []
    else
      OutflowsAfter(d, n - 1)
      + (if AddsOutflow(d.onBoundary, d.isReflecting) then NodeOutflows(d.b, d.nodeMap[n - 1], d.numGroups, d.firstGroup, d.wt, d.mu, d.intF[d.nodeMap[n - 1]]) else [])
  }

  lemma OutflowsAfterStep(d: FaceData, n: nat)
    requires FaceOutflowsValid(d) && n < |d.nodeMap|
    ensures AddsOutflow(d.onBoundary, d.isReflecting) ==>
              GroupsHaveNode(d.b, d.nodeMap[n], d.numGroups) && d.nodeMap[n] < |d.intF| &&
              OutflowsAfter(d, n + 1) == OutflowsAfter(d, n) +
                NodeOutflows(d.b, d.nodeMap[n], d.numGroups, d.firstGroup, d.wt, d.mu, d.intF[d.nodeMap[n]])
    ensures !AddsOutflow(d.onBoundary, d.isReflecting) ==> OutflowsAfter(d, n + 1) == OutflowsAfter(d, n)
  {
  }

  /** A face on a non-reflecting boundary writes nothing into the flux-staging buffer. */
  lemma {:induction false} VacuumBoundaryWritesNoPsi(buf: seq<real>, d: FaceData, n: nat)
    requires FaceWritesValid(d, |buf|) && n <= |d.nodeMap|
    requires AddsOutflow(d.onBoundary, d.isReflecting)
    ensures PsiAfter(buf, d, n) == buf
  {
    if n > 0 {
      VacuumBoundaryWritesNoPsi(buf, d, n - 1);
    }
  }

  /** An interior face or a reflecting boundary never adds outflow. */
  lemma {:induction false} DownwindFaceAddsNoOutflow(d: FaceData, n: nat)
    requires FaceOutflowsValid(d) && n <= |d.nodeMap|
    requires WritesDownwind(d.onBoundary, d.isReflecting)
    ensures OutflowsAfter(d, n) == []
  {
    if n > 0 {
      DownwindFaceAddsNoOutflow(d, n - 1);
    }
  }

  /** On a non-reflecting boundary, the first `n` face nodes make `n` x groups contributions. */
  lemma {:induction false} VacuumBoundaryOutflowCount(d: FaceData, n: nat)
    requires FaceOutflowsValid(d) && n <= |d.nodeMap|
    requires AddsOutflow(d.onBoundary, d.isReflecting)
    ensures |OutflowsAfter(d, n)| == n * d.numGroups
  {
    if n > 0 {
      VacuumBoundaryOutflowCount(d, n - 1);
      MulStep(n - 1, d.numGroups);
    }
  }

  lemma MulStep(k: nat, m: nat)
    ensures (k + 1) * m == k * m + m
  {
  }

  /** The first `k` nodes' contributions come first in those of the first `n`. */
  lemma {:induction false} OutflowsPrefix(d: FaceData, k: nat, n: nat)
    requires FaceOutflowsValid(d) && k <= n <= |d.nodeMap|
    ensures OutflowsAfter(d, k) <= OutflowsAfter(d, n)
  {
    if k < n {
      OutflowsPrefix(d, k, n - 1);
      OutflowsAfterStep(d, n - 1);
    }
  }

  /**
   * On a non-reflecting boundary, face node fi's contributions follow those
   * of the nodes before it, one per group: the g-th goes to group
   * `firstGroup + g` with amount wt * mu * b[g][i] * intF[i], for the node's
   * cell node i.
   */
  lemma NodeOutflowsFollowEarlierNodes(d: FaceData, fi: nat, g: nat)
    requires FaceOutflowsValid(d) && fi < |d.nodeMap|
    requires AddsOutflow(d.onBoundary, d.isReflecting)
    requires g < d.numGroups
    ensures |OutflowsAfter(d, fi)| + g < |OutflowsAfter(d, fi + 1)|
    ensures OutflowsAfter(d, fi + 1)[|OutflowsAfter(d, fi)| + g] ==
              Outflow(d.firstGroup + g, Leakage(d.wt, d.mu, d.b[g][d.nodeMap[fi]], d.intF[d.nodeMap[fi]]))
  {
    OutflowsAfterStep(d, fi);
    NodeOutflowsAt(d.b, d.nodeMap[fi], d.numGroups, d.firstGroup, d.wt, d.mu, d.intF[d.nodeMap[fi]], g);
  }

  /**
   * On a non-reflecting boundary, the contributions are node by node and
   * group by group within a node: position fi * groups + g of the first `n`
   * nodes' contributions is face node fi's contribution to group
   * `firstGroup + g`, with amount wt * mu * b[g][i] * intF[i] for the node's
   * cell node i.
   */
  lemma VacuumBoundaryOutflow(d: FaceData, n: nat, fi: nat, g: nat)
    requires FaceOutflowsValid(d) && n <= |d.nodeMap|
    requires AddsOutflow(d.onBoundary, d.isReflecting)
    requires fi < n && g < d.numGroups
    ensures fi * d.numGroups + g < |OutflowsAfter(d, n)|
    ensures OutflowsAfter(d, n)[fi * d.numGroups + g] ==
              Outflow(d.firstGroup + g, Leakage(d.wt, d.mu, d.b[g][d.nodeMap[fi]], d.intF[d.nodeMap[fi]]))
  {
    VacuumBoundaryOutflowCount(d, fi);
    NodeOutflowsFollowEarlierNodes(d, fi, g);
    OutflowsPrefix(d, fi + 1, n);
  }

  /** The downwind slots of distinct face nodes among the first `n` do not overlap. */
  predicate SlotsDisjoint(d: FaceData, n: nat)
    requires |d.downwind| == |d.nodeMap| && n <= |d.nodeMap|
  {
    forall fi, fj :: 0 <= fi < n && 0 <= fj < n && fi != fj && d.downwind[fi].Some? && d.downwind[fj].Some? ==>
      d.downwind[fi].value + d.numGroups <= d.downwind[fj].value ||
      d.downwind[fj].value + d.numGroups <= d.downwind[fi].value
  }

  /** Buffer position `k` lies in the downwind slot of face node `fi`. */
  predicate InSlot(d: FaceData, fi: nat, k: nat)
    requires fi < |d.downwind|
  {
    d.downwind[fi].Some? && d.downwind[fi].value <= k < d.downwind[fi].value + d.numGroups
  }

  /**
   * On an interior face or a reflecting boundary whose slots do not overlap,
   * after the first `n` face nodes the slot of each node fi among them holds
   * that node's values: psi[g] == b[g][i] for its cell node i.
   */
  lemma {:induction false} DownwindSlotHoldsValues(buf: seq<real>, d: FaceData, n: nat, fi: nat, g: nat)
    requires FaceWritesValid(d, |buf|) && n <= |d.nodeMap|
    requires WritesDownwind(d.onBoundary, d.isReflecting)
    requires SlotsDisjoint(d, n)
    requires fi < n && d.downwind[fi].Some? && g < d.numGroups
    ensures d.downwind[fi].value + g < |buf|
    ensures PsiAfter(buf, d, n)[d.downwind[fi].value + g] == d.b[g][d.nodeMap[fi]]
  {
    PsiAfterStep(buf, d, n - 1);
    var prev := PsiAfter(buf, d, n - 1);
    var k := d.downwind[fi].value + g;
    if fi == n - 1 {
      WriteSlotAt(prev, d.downwind[fi].value, NodeValues(d.b, d.nodeMap[fi], d.numGroups), k);
      NodeValuesAt(d.b, d.nodeMap[fi], d.numGroups, g);
    } else {
      assert SlotsDisjoint(d, n - 1);
      DownwindSlotHoldsValues(buf, d, n - 1, fi, g);
      if d.downwind[n - 1].Some? {
        WriteSlotAt(prev, d.downwind[n - 1].value, NodeValues(d.b, d.nodeMap[n - 1], d.numGroups), k);
      }
    }
  }

  /** Positions outside the slots of the first `n` face nodes are never written. */
  lemma {:induction false} OutsideSlotsUnchanged(buf: seq<real>, d: FaceData, n: nat, k: nat)
    requires FaceWritesValid(d, |buf|) && n <= |d.nodeMap|
    requires k < |buf| && forall fi :: 0 <= fi < n ==> !InSlot(d, fi, k)
    ensures PsiAfter(buf, d, n)[k] == buf[k]
  {
    if n > 0 {
      PsiAfterStep(buf, d, n - 1);
      var prev := PsiAfter(buf, d, n - 1);
      assert !InSlot(d, n - 1, k);
      if d.downwind[n - 1].Some? && WritesDownwind(d.onBoundary, d.isReflecting) {
        WriteSlotAt(prev, d.downwind[n - 1].value, NodeValues(d.b, d.nodeMap[n - 1], d.numGroups), k);
      }
      OutsideSlotsUnchanged(buf, d, n - 1, k);
    }
  }

  /**
   * The sweep chunk of a group set: the kernel's work buffers and strides and
   * the state `OutgoingSurfaceOperations` reads, which the sweep of one cell
   * sets before calling it.
   */
  class SweepChunk {
    const saveAngularFlux: bool
    const groupsetAngleGroupStride: Uint64
    const groupsetGroupStride: Uint64
    const dependencyInterface: SweepDependencyInterface

    /** The local system matrix, a scratch copy of it, its right-hand sides (one per group) and the source. */
    var Amat: seq<seq<real>>
    var Atemp: seq<seq<real>>
    var b: seq<seq<real>>
    var source: seq<real>

    /** The current cell's face-integrated shape functions (face x node) and face direction cosines. */
    var intSShapeI: seq<seq<real>>
    var faceMuValues: seq<real>
    var directionQweight: real
    /** Size and first group of the current group sub-set. */
    var gsSsSize: nat
    var gsGi: nat
    var cellTransportView: CellTransportView

    /**
     * `destinationPsiSize` is the length of the angular-flux destination,
     * `numberOfUnknowns` the unknown count of the group set's angular-flux
     * unknown manager and `numGroups` the group set's group count.
     */
    constructor (destinationPsiSize: nat, numberOfUnknowns: Uint64, numGroups: Uint64, maxNumCellDofs: nat,
                 dependencyInterface: SweepDependencyInterface, cellTransportView: CellTransportView)
      modifies dependencyInterface
      ensures saveAngularFlux <==> destinationPsiSize != 0
      ensures groupsetGroupStride == numGroups
      ensures groupsetAngleGroupStride == ToUint64(numberOfUnknowns * numGroups)
      ensures numberOfUnknowns * numGroups < TWO_TO_64 ==>
                groupsetAngleGroupStride == numberOfUnknowns * numGroups
      ensures Amat == ZeroMatrix(maxNumCellDofs, maxNumCellDofs)
      ensures Atemp == ZeroMatrix(maxNumCellDofs, maxNumCellDofs)
      ensures b == ZeroMatrix(numGroups, maxNumCellDofs)
      ensures |source| == maxNumCellDofs && forall j :: 0 <= j < maxNumCellDofs ==> source[j] == 0.0
      ensures this.dependencyInterface == dependencyInterface
      ensures this.cellTransportView == cellTransportView
      ensures dependencyInterface.groupsetAngleGroupStride == groupsetAngleGroupStride
      ensures dependencyInterface.groupsetGroupStride == groupsetGroupStride
      ensures dependencyInterface.currentFaceIdx == old(dependencyInterface.currentFaceIdx)
      ensures dependencyInterface.numFaceNodes == old(dependencyInterface.numFaceNodes)
      ensures dependencyInterface.neighborId == old(dependencyInterface.neighborId)
      ensures dependencyInterface.onLocalFace == old(dependencyInterface.onLocalFace)
      ensures dependencyInterface.onBoundary == old(dependencyInterface.onBoundary)
      ensures dependencyInterface.faceLocality == old(dependencyInterface.faceLocality)
      ensures dependencyInterface.isReflectingBndry == old(dependencyInterface.isReflectingBndry)
    {
      saveAngularFlux := destinationPsiSize != 0;
      this.dependencyInterface := dependencyInterface;
      groupsetAngleGroupStride := ToUint64(numberOfUnknowns * numGroups);
      groupsetGroupStride := numGroups;
      Amat := seq(maxNumCellDofs, _ => seq(maxNumCellDofs, _ => 0.0));
      Atemp := seq(maxNumCellDofs, _ => seq(maxNumCellDofs, _ => 0.0));
      b := seq(numGroups, _ => seq(maxNumCellDofs, _ => 0.0));
      source := seq(maxNumCellDofs, _ => 0.0);
      intSShapeI := [];
      faceMuValues := [];
      directionQweight := 0.0;
      gsSsSize := 0;
      gsGi := 0;
      this.cellTransportView := cellTransportView;
      new;
      dependencyInterface.groupsetAngleGroupStride := groupsetAngleGroupStride;
      dependencyInterface.groupsetGroupStride := groupsetGroupStride;
    }

    /** What the outgoing-face operations of the current face read, given the cell mapping and downwind slots. */
    function CurrentFace(nodeMap: seq<nat>, downwind: seq<Option<nat>>): FaceData
      reads this, dependencyInterface
      requires 0 <= dependencyInterface.currentFaceIdx < |intSShapeI|
      requires dependencyInterface.currentFaceIdx < |faceMuValues|
    {
      var f := dependencyInterface.currentFaceIdx;
      FaceData(b, nodeMap, downwind, intSShapeI[f], faceMuValues[f], directionQweight, gsSsSize, gsGi,
               dependencyInterface.onBoundary, dependencyInterface.isReflectingBndry)
    }

    /**
     * Sends the current face's values out: for face node fi (cell node
     * `nodeMap[fi]`), `downwind[fi]` is its downwind slot in `psi`, or None
     * when there is none.
     */
    method OutgoingSurfaceOperations(nodeMap: seq<nat>, downwind: seq<Option<nat>>, psi: array<real>)
      requires 0 <= dependencyInterface.currentFaceIdx < |intSShapeI|
      requires dependencyInterface.currentFaceIdx < |faceMuValues|
      requires FaceWritesValid(CurrentFace(nodeMap, downwind), psi.Length)
      requires FaceOutflowsValid(CurrentFace(nodeMap, downwind))
      modifies psi, cellTransportView
      ensures psi[..] == PsiAfter(old(psi[..]), old(CurrentFace(nodeMap, downwind)), |nodeMap|)
      ensures cellTransportView.outflows ==
                old(cellTransportView.outflows) + OutflowsAfter(old(CurrentFace(nodeMap, downwind)), |nodeMap|)
    {
      ghost var d := CurrentFace(nodeMap, downwind);
      ghost var psi0 := psi[..];
      ghost var outflows0 := cellTransportView.outflows;
      var f := dependencyInterface.currentFaceIdx;
      var intF := intSShapeI[f];
      var mu := faceMuValues[f];
      var wt := directionQweight;
      var onBoundary := dependencyInterface.onBoundary;
      var isReflectingBoundary := dependencyInterface.isReflectingBndry;

      for fi := 0 to |nodeMap|
        invariant psi[..] == PsiAfter(psi0, d, fi)
        invariant cellTransportView.outflows == outflows0 + OutflowsAfter(d, fi)
      {
        var i := nodeMap[fi];
        PsiAfterStep(psi0, d, fi);
        OutflowsAfterStep(d, fi);
        if downwind[fi].Some? && (!onBoundary || isReflectingBoundary) {
          WriteNodePsi(psi, downwind[fi].value, i);
        }
        assert psi[..] == PsiAfter(psi0, d, fi + 1);
        if onBoundary && !isReflectingBoundary {
          AddNodeOutflows(i, intF[i], mu, wt);
        }
        assert cellTransportView.outflows == outflows0 + OutflowsAfter(d, fi + 1);
      }
    }

    /** psi[gsg] := b[gsg][i] for every group of the sub-set, through the slot at `slot`. */
    method WriteNodePsi(psi: array<real>, slot: nat, i: nat)
      requires slot + gsSsSize <= psi.Length && GroupsHaveNode(b, i, gsSsSize)
      modifies psi
      ensures psi[..] == WriteSlot(old(psi[..]), slot, NodeValues(b, i, gsSsSize))
    {
      ghost var start := psi[..];
      for gsg := 0 to gsSsSize
        invariant psi[..] == WriteSlot(start, slot, NodeValues(b, i, gsg))
      {
        WriteSlotSnoc(start, slot, NodeValues(b, i, gsg), b[gsg][i]);
        psi[slot + gsg] := b[gsg][i];
      }
    }

    /** The outflow of cell node `i` in every group of the sub-set, for shape-function integral `intFi`. */
    method AddNodeOutflows(i: nat, intFi: real, mu: real, wt: real)
      requires GroupsHaveNode(b, i, gsSsSize)
      modifies cellTransportView
      ensures cellTransportView.outflows ==
                old(cellTransportView.outflows) + NodeOutflows(b, i, gsSsSize, gsGi, wt, mu, intFi)
    {
      ghost var before := cellTransportView.outflows;
      for gsg := 0 to gsSsSize
        invariant cellTransportView.outflows == before + NodeOutflows(b, i, gsg, gsGi, wt, mu, intFi)
      {
        cellTransportView.AddOutflow(gsGi + gsg, Leakage(wt, mu, b[gsg][i], intFi));
      }
    }
  }
}
