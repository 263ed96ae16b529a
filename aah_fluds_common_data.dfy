/**
 * Flux-staging (FLUDS) common data of the AAH sweep: the incoming-face
 * record, and the compact cell views that one partition sends another so
 * that both agree on the face-slot layout.
 *
 * The stream format of the compact views is this model's own choice (the
 * serialiser bodies are not part of the model): a flat, length-prefixed
 * sequence of `int`
 *
 *   numFaceDofs, numCells,
 *     then per cell:  cellGlobalId, numFaces,
 *       then per face:  faceSlot, numVertices, vertexId ...
 *
 * with every count and every vertex id converted to `int`, as a
 * `std::vector<int>` stream forces.
 */
module AahFluds {
  import opened Common

  /** A face of a compact view: its face-slot index and its vertex ids. */
  datatype CompactFaceView = CompactFaceView(faceSlot: Int32, vertexIds: seq<Uint64>)

  /** A compact view of a cell: its global id and its faces. */
  datatype CompactCellView = CompactCellView(cellGlobalId: Int32, faces: seq<CompactFaceView>)

  /** `INCOMING_FACE_INFO`: where an incoming face's upwind data sits, and how its dofs map upwind. */
  class IncomingFaceInfo {
    var slotAddress: Int32
    /** `null` until Setup (the source's `nullptr` default). */
    var upwindDofMapping: array?<Int16>

    constructor ()
      ensures slotAddress == 0 && upwindDofMapping == null
    {
      slotAddress := 0;
      upwindDofMapping := null;
    }

    /** Records the slot address and copies the dof mapping into a fresh array. */
    method Setup(input: (Int32, seq<Int16>))
      modifies this
      ensures slotAddress == input.0
      ensures upwindDofMapping != null && fresh(upwindDofMapping)
      ensures upwindDofMapping.Length == |input.1| && upwindDofMapping[..] == input.1
    {
      slotAddress := input.0;
      var mapping := new Int16[|input.1|];
      for i := 0 to |input.1|
        invariant slotAddress == input.0
        invariant forall j :: 0 <= j < i ==> mapping[j] == input.1[j]
      {
        mapping[i] := input.1[i];
      }
      upwindDofMapping := mapping;
    }
  }

  // ---------------------------------------------------------------------
  // Encoding

  function EncodeVertexIds(ids: seq<Uint64>): (r: seq<Int32>)
    ensures |r| == |ids| && forall j :: 0 <= j < |ids| ==> r[j] == ToInt32(ids[j])
  {
    seq(|ids|, j requires 0 <= j < |ids| => ToInt32(ids[j]))
  }

  function EncodeFace(face: CompactFaceView): seq<Int32> {
    [face.faceSlot, ToInt32(|face.vertexIds|)] + EncodeVertexIds(face.vertexIds)
  }

  /** The faces' encodings, concatenated in order. */
  function EncodeFaces(faces: seq<CompactFaceView>): seq<Int32> {
    if faces == [] then [] else EncodeFaces(faces[..|faces| - 1]) + EncodeFace(faces[|faces| - 1])
  }

  function EncodeCell(cell: CompactCellView): seq<Int32> {
    [cell.cellGlobalId, ToInt32(|cell.faces|)] + EncodeFaces(cell.faces)
  }

  /** The cells' encodings, concatenated in order. */
  function EncodeCells(cells: seq<CompactCellView>): seq<Int32> {
    if cells == [] then [] else EncodeCells(cells[..|cells| - 1]) + EncodeCell(cells[|cells| - 1])
  }

  /** The whole stream `SerializeCellInfo` produces. */
  function Serialized(cells: seq<CompactCellView>, numFaceDofs: Int32): seq<Int32> {
    [numFaceDofs, ToInt32(|cells|)] + EncodeCells(cells)
  }

  // ---------------------------------------------------------------------
  // Decoding: each decoder takes what remains of the stream and returns
  // the value it read together with what remains after it.

  /** An `int` read back as a `uint64_t` vertex id. */
  function DecodeVertexIds(ints: seq<Int32>): (r: seq<Uint64>)
    ensures |r| == |ints| && forall j :: 0 <= j < |ints| ==> r[j] == ToUint64(ints[j])
  {
    seq(|ints|, j requires 0 <= j < |ints| => ToUint64(ints[j]))
  }

  function DecodeFace(s: seq<Int32>): Option<(CompactFaceView, seq<Int32>)> {
    if |s| < 2 || s[1] < 0 || 2 + s[1] > |s| then None
    else Some((CompactFaceView(s[0], DecodeVertexIds(s[2..2 + s[1]])), s[2 + s[1]..]))
  }

  function PrependFaces(faces: seq<CompactFaceView>, r: Option<(seq<CompactFaceView>, seq<Int32>)>)
    : Option<(seq<CompactFaceView>, seq<Int32>)>
  {
    match r
    case None => None
    case Some((more, rest)) => Some((faces + more, rest))
  }

  /** `n` faces, one after the other. */
  function DecodeFaces(s: seq<Int32>, n: nat): Option<(seq<CompactFaceView>, seq<Int32>)>
    decreases n
  {
    if n == 0 then Some(([], s))
    else
      match DecodeFace(s)
      case None => None
      case Some((face, rest)) => PrependFaces([face], DecodeFaces(rest, n - 1))
  }

  function DecodeCell(s: seq<Int32>): Option<(CompactCellView, seq<Int32>)> {
    if |s| < 2 || s[1] < 0 then None
    else
      match DecodeFaces(s[2..], s[1])
      case None => None
      case Some((faces, rest)) => Some((CompactCellView(s[0], faces), rest))
  }

  function PrependCells(cells: seq<CompactCellView>, r: Option<(seq<CompactCellView>, seq<Int32>)>)
    : Option<(seq<CompactCellView>, seq<Int32>)>
  {
    match r
    case None => None
    case Some((more, rest)) => Some((cells + more, rest))
  }

  /** `n` cells, one after the other. */
  function DecodeCells(s: seq<Int32>, n: nat): Option<(seq<CompactCellView>, seq<Int32>)>
    decreases n
  {
    if n == 0 then Some(([], s))
    else
      match DecodeCell(s)
      case None => None
      case Some((cell, rest)) => PrependCells([cell], DecodeCells(rest, n - 1))
  }

  /** The views and face-dof count a stream holds; None unless the stream is exactly one well-formed record. */
  function Deserialized(s: seq<Int32>): Option<(seq<CompactCellView>, Int32)> {
    if |s| < 2 || s[1] < 0 then None
    else
      match DecodeCells(s[2..], s[1])
      case None => None
      case Some((cells, rest)) => if rest == [] then Some((cells, s[0])) else None
  }

  // ---------------------------------------------------------------------
  // The two serialisers

  /** Appends one face's encoding, value by value. */
  method AppendFace(faceIndices: seq<Int32>, face: CompactFaceView) returns (out: seq<Int32>)
    ensures out == faceIndices + EncodeFace(face)
  {
    out := faceIndices + [face.faceSlot, ToInt32(|face.vertexIds|)];
    for v := 0 to |face.vertexIds|
      invariant out == faceIndices + [face.faceSlot, ToInt32(|face.vertexIds|)]
                       + EncodeVertexIds(face.vertexIds[..v])
    {
      out := out + [ToInt32(face.vertexIds[v])];
    }
    assert face.vertexIds[..|face.vertexIds|] == face.vertexIds;
  }

  lemma EncodeFacesSnoc(faces: seq<CompactFaceView>, f: nat)
    requires f < |faces|
    ensures EncodeFaces(faces[..f + 1]) == EncodeFaces(faces[..f]) + EncodeFace(faces[f])
  {
    assert faces[..f + 1][..f] == faces[..f];
  }

  lemma EncodeCellsSnoc(cells: seq<CompactCellView>, c: nat)
    requires c < |cells|
    ensures EncodeCells(cells[..c + 1]) == EncodeCells(cells[..c]) + EncodeCell(cells[c])
  {
    assert cells[..c + 1][..c] == cells[..c];
  }

  /** A cell's header and the encodings of its first `f` faces. */
  function EncodedCellPrefix(cell: CompactCellView, f: nat): seq<Int32>
    requires f <= |cell.faces|
  {
    [cell.cellGlobalId, ToInt32(|cell.faces|)] + EncodeFaces(cell.faces[..f])
  }

  lemma EncodedCellPrefixStep(cell: CompactCellView, f: nat)
    requires f < |cell.faces|
    ensures EncodedCellPrefix(cell, f + 1) == EncodedCellPrefix(cell, f) + EncodeFace(cell.faces[f])
  {
    EncodeFacesSnoc(cell.faces, f);
  }

  lemma EncodedCellPrefixEnds(cell: CompactCellView)
    ensures EncodedCellPrefix(cell, 0) == [cell.cellGlobalId, ToInt32(|cell.faces|)]
    ensures EncodedCellPrefix(cell, |cell.faces|) == EncodeCell(cell)
  {
    assert cell.faces[..|cell.faces|] == cell.faces;
    assert cell.faces[..0] == [];
  }

  /** Appends one cell's encoding, face by face. */
  method AppendCell(faceIndices: seq<Int32>, cell: CompactCellView) returns (out: seq<Int32>)
    ensures out == faceIndices + EncodeCell(cell)
  {
    EncodedCellPrefixEnds(cell);
    out := faceIndices + [cell.cellGlobalId, ToInt32(|cell.faces|)];
    for f := 0 to |cell.faces|
      invariant out == faceIndices + EncodedCellPrefix(cell, f)
    {
      out := AppendFace(out, cell.faces[f]);
      EncodedCellPrefixStep(cell, f);
    }
  }

  /** The stream after the header and the first `c` cells. */
  function SerializedPrefix(cells: seq<CompactCellView>, numFaceDofs: Int32, c: nat): seq<Int32>
    requires c <= |cells|
  {
    [numFaceDofs, ToInt32(|cells|)] + EncodeCells(cells[..c])
  }

  lemma SerializedPrefixStep(cells: seq<CompactCellView>, numFaceDofs: Int32, c: nat)
    requires c < |cells|
    ensures SerializedPrefix(cells, numFaceDofs, c + 1) == SerializedPrefix(cells, numFaceDofs, c) + EncodeCell(cells[c])
  {
    EncodeCellsSnoc(cells, c);
  }

  lemma SerializedPrefixEnds(cells: seq<CompactCellView>, numFaceDofs: Int32)
    ensures SerializedPrefix(cells, numFaceDofs, 0) == [numFaceDofs, ToInt32(|cells|)]
    ensures SerializedPrefix(cells, numFaceDofs, |cells|) == Serialized(cells, numFaceDofs)
  {
    assert cells[..|cells|] == cells;
    assert cells[..0] == [];
  }

  /** Fills the stream for `cellViews` and `numFaceDofs`, cell by cell. */
  method SerializeCellInfo(cellViews: seq<CompactCellView>, numFaceDofs: Int32)
    returns (faceIndices: seq<Int32>)
    ensures faceIndices == Serialized(cellViews, numFaceDofs)
  {
    SerializedPrefixEnds(cellViews, numFaceDofs);
    faceIndices := [numFaceDofs, ToInt32(|cellViews|)];
    for c := 0 to |cellViews|
      invariant faceIndices == SerializedPrefix(cellViews, numFaceDofs, c)
    {
      faceIndices := AppendCell(faceIndices, cellViews[c]);
      SerializedPrefixStep(cellViews, numFaceDofs, c);
    }
  }

  lemma PrependFacesAssoc(a: seq<CompactFaceView>, b: seq<CompactFaceView>,
                          r: Option<(seq<CompactFaceView>, seq<Int32>)>)
    ensures PrependFaces([], r) == r
    ensures PrependFaces(a, PrependFaces(b, r)) == PrependFaces(a + b, r)
  {
    if r.Some? {
      assert [] + r.value.0 == r.value.0;
      assert a + (b + r.value.0) == (a + b) + r.value.0;
    }
  }

  lemma PrependCellsAssoc(a: seq<CompactCellView>, b: seq<CompactCellView>,
                          r: Option<(seq<CompactCellView>, seq<Int32>)>)
    ensures PrependCells([], r) == r
    ensures PrependCells(a, PrependCells(b, r)) == PrependCells(a + b, r)
  {
    if r.Some? {
      assert [] + r.value.0 == r.value.0;
      assert a + (b + r.value.0) == (a + b) + r.value.0;
    }
  }

  /** Reads one cell, face by face. */
  method ReadCell(s: seq<Int32>) returns (result: Option<(CompactCellView, seq<Int32>)>)
    ensures result == DecodeCell(s)
  {
    if |s| < 2 || s[1] < 0 {
      return None;
    }
    var numFaces: nat := s[1];
    var faces: seq<CompactFaceView> := [];
    var rest: seq<Int32> := s[2..];
    var f := 0;
    PrependFacesAssoc([], [], DecodeFaces(rest, numFaces));
    while f < numFaces
      invariant 0 <= f <= numFaces
      invariant DecodeFaces(s[2..], numFaces) == PrependFaces(faces, DecodeFaces(rest, numFaces - f))
    {
      if |rest| < 2 || rest[1] < 0 || 2 + rest[1] > |rest| {
        return None;
      }
      var numVertices := rest[1];
      var face := CompactFaceView(rest[0], DecodeVertexIds(rest[2..2 + numVertices]));
      PrependFacesAssoc(faces, [face], DecodeFaces(rest[2 + numVertices..], numFaces - f - 1));
      faces := faces + [face];
      rest := rest[2 + numVertices..];
      f := f + 1;
    }
    assert faces + [] == faces;
    return Some((CompactCellView(s[0], faces), rest));
  }

  /** Reads views and face-dof count back from a stream; None when the stream is malformed. */
  method DeSerializeCellInfo(faceIndices: seq<Int32>)
    returns (result: Option<(seq<CompactCellView>, Int32)>)
    ensures result == Deserialized(faceIndices)
  {
    var s := faceIndices;
    if |s| < 2 || s[1] < 0 {
      return None;
    }
    var numCells: nat := s[1];
    var cells: seq<CompactCellView> := [];
    var rest: seq<Int32> := s[2..];
    var c := 0;
    PrependCellsAssoc([], [], DecodeCells(rest, numCells));
    while c < numCells
      invariant 0 <= c <= numCells
      invariant DecodeCells(s[2..], numCells) == PrependCells(cells, DecodeCells(rest, numCells - c))
    {
      var read := ReadCell(rest);
      if read.None? {
        return None;
      }
      var (cell, next) := read.value;
      PrependCellsAssoc(cells, [cell], DecodeCells(next, numCells - c - 1));
      cells := cells + [cell];
      rest := next;
      c := c + 1;
    }
    assert cells + [] == cells;
    if rest != [] {
      return None;
    }
    return Some((cells, s[0]));
  }

  // ---------------------------------------------------------------------
  // Round trip

  /** The vertex id a stream of `int` carries for `id`: its low 32 bits, sign-extended. */
  function NarrowedId(id: Uint64): Uint64 {
    ToUint64(ToInt32(id))
  }

  function NarrowedIds(ids: seq<Uint64>): seq<Uint64> {
    seq(|ids|, j requires 0 <= j < |ids| => NarrowedId(ids[j]))
  }

  function NarrowedFace(face: CompactFaceView): CompactFaceView {
    CompactFaceView(face.faceSlot, NarrowedIds(face.vertexIds))
  }

  function NarrowedFaces(faces: seq<CompactFaceView>): seq<CompactFaceView> {
    seq(|faces|, j requires 0 <= j < |faces| => NarrowedFace(faces[j]))
  }

  function NarrowedCell(cell: CompactCellView): CompactCellView {
    CompactCellView(cell.cellGlobalId, NarrowedFaces(cell.faces))
  }

  function NarrowedCells(cells: seq<CompactCellView>): seq<CompactCellView> {
    seq(|cells|, j requires 0 <= j < |cells| => NarrowedCell(cells[j]))
  }

  /** Every vertex count of these faces fits in an `int`. */
  predicate VertexCountsFit(faces: seq<CompactFaceView>) {
    forall f :: 0 <= f < |faces| ==> |faces[f].vertexIds| < TWO_TO_31
  }

  /** Every count the stream records fits in an `int`. */
  predicate CountsFit(cells: seq<CompactCellView>) {
    && |cells| < TWO_TO_31
    && forall c :: 0 <= c < |cells| ==> |cells[c].faces| < TWO_TO_31 && VertexCountsFit(cells[c].faces)
  }

  /** Every count and every vertex id fits in an `int`. */
  predicate FitsInInt(cells: seq<CompactCellView>) {
    && CountsFit(cells)
    && (forall c, f, v :: 0 <= c < |cells| && 0 <= f < |cells[c].faces|
          && 0 <= v < |cells[c].faces[f].vertexIds|
          ==> cells[c].faces[f].vertexIds[v] < TWO_TO_31)
  }

  lemma DecodeEncodedFace(face: CompactFaceView, rest: seq<Int32>)
    requires |face.vertexIds| < TWO_TO_31
    ensures DecodeFace(EncodeFace(face) + rest) == Some((NarrowedFace(face), rest))
  {
    var s := EncodeFace(face) + rest;
    var n := |face.vertexIds|;
    assert s[1] == n;
    assert s[2..2 + n] == EncodeVertexIds(face.vertexIds);
    assert s[2 + n..] == rest;
    assert DecodeVertexIds(s[2..2 + n]) == NarrowedIds(face.vertexIds);
  }

  lemma EncodeFacesCons(faces: seq<CompactFaceView>)
    requires faces != []
    ensures EncodeFaces(faces) == EncodeFace(faces[0]) + EncodeFaces(faces[1..])
    decreases |faces|
  {
    if |faces| > 1 {
      var init := faces[..|faces| - 1];
      EncodeFacesCons(init);
      assert init[1..] == faces[1..][..|faces[1..]| - 1];
    } else {
      assert faces[..0] == [];
    }
  }

  lemma DecodeFacesStep(s: seq<Int32>, n: nat, face: CompactFaceView, next: seq<Int32>,
                        more: seq<CompactFaceView>, rest: seq<Int32>)
    requires n > 0 && DecodeFace(s) == Some((face, next)) && DecodeFaces(next, n - 1) == Some((more, rest))
    ensures DecodeFaces(s, n) == Some(([face] + more, rest))
  {
  }

  /** Splitting off the first face: its encoding, the fit of the rest, and the narrowed views. */
  lemma FacesCons(faces: seq<CompactFaceView>, rest: seq<Int32>)
    requires faces != [] && VertexCountsFit(faces)
    ensures EncodeFaces(faces) + rest == EncodeFace(faces[0]) + (EncodeFaces(faces[1..]) + rest)
    ensures VertexCountsFit(faces[1..]) && |faces[0].vertexIds| < TWO_TO_31
    ensures NarrowedFaces(faces) == [NarrowedFace(faces[0])] + NarrowedFaces(faces[1..])
  {
    EncodeFacesCons(faces);
    forall f | 0 <= f < |faces[1..]| ensures faces[1..][f] == faces[f + 1] { }
  }

  lemma {:induction false} DecodeEncodedFaces(faces: seq<CompactFaceView>, rest: seq<Int32>)
    requires VertexCountsFit(faces)
    ensures DecodeFaces(EncodeFaces(faces) + rest, |faces|) == Some((NarrowedFaces(faces), rest))
    decreases |faces|
  {
    if faces != [] {
      FacesCons(faces, rest);
      var tail := EncodeFaces(faces[1..]) + rest;
      DecodeEncodedFace(faces[0], tail);
      DecodeEncodedFaces(faces[1..], rest);
      DecodeFacesStep(EncodeFaces(faces) + rest, |faces|, NarrowedFace(faces[0]), tail,
                      NarrowedFaces(faces[1..]), rest);
    } else {
      assert NarrowedFaces(faces) == [];
      assert EncodeFaces(faces) + rest == rest;
    }
  }

  lemma DecodeEncodedCell(cell: CompactCellView, rest: seq<Int32>)
    requires |cell.faces| < TWO_TO_31 && VertexCountsFit(cell.faces)
    ensures DecodeCell(EncodeCell(cell) + rest) == Some((NarrowedCell(cell), rest))
  {
    var s := EncodeCell(cell) + rest;
    assert s[1] == |cell.faces|;
    assert s[2..] == EncodeFaces(cell.faces) + rest;
    DecodeEncodedFaces(cell.faces, rest);
  }

  lemma EncodeCellsCons(cells: seq<CompactCellView>)
    requires cells != []
    ensures EncodeCells(cells) == EncodeCell(cells[0]) + EncodeCells(cells[1..])
    decreases |cells|
  {
    if |cells| > 1 {
      var init := cells[..|cells| - 1];
      EncodeCellsCons(init);
      assert init[1..] == cells[1..][..|cells[1..]| - 1];
    } else {
      assert cells[..0] == [];
    }
  }

  lemma DecodeCellsStep(s: seq<Int32>, n: nat, cell: CompactCellView, next: seq<Int32>,
                        more: seq<CompactCellView>, rest: seq<Int32>)
    requires n > 0 && DecodeCell(s) == Some((cell, next)) && DecodeCells(next, n - 1) == Some((more, rest))
    ensures DecodeCells(s, n) == Some(([cell] + more, rest))
  {
  }

  /** Splitting off the first cell: its encoding, the fit of the rest, and the narrowed views. */
  lemma CellsCons(cells: seq<CompactCellView>, rest: seq<Int32>)
    requires cells != [] && CountsFit(cells)
    ensures EncodeCells(cells) + rest == EncodeCell(cells[0]) + (EncodeCells(cells[1..]) + rest)
    ensures CountsFit(cells[1..]) && |cells[0].faces| < TWO_TO_31 && VertexCountsFit(cells[0].faces)
    ensures NarrowedCells(cells) == [NarrowedCell(cells[0])] + NarrowedCells(cells[1..])
  {
    EncodeCellsCons(cells);
    forall c | 0 <= c < |cells[1..]| ensures cells[1..][c] == cells[c + 1] { }
  }

  lemma {:induction false} DecodeEncodedCells(cells: seq<CompactCellView>, rest: seq<Int32>)
    requires CountsFit(cells)
    ensures DecodeCells(EncodeCells(cells) + rest, |cells|) == Some((NarrowedCells(cells), rest))
    decreases |cells|
  {
    if cells != [] {
      CellsCons(cells, rest);
      var tail := EncodeCells(cells[1..]) + rest;
      DecodeEncodedCell(cells[0], tail);
      DecodeEncodedCells(cells[1..], rest);
      DecodeCellsStep(EncodeCells(cells) + rest, |cells|, NarrowedCell(cells[0]), tail,
                      NarrowedCells(cells[1..]), rest);
    } else {
      assert NarrowedCells(cells) == [];
      assert EncodeCells(cells) + rest == rest;
    }
  }

  /**
   * Deserialising a serialised stream gives back the face-dof count and the
   * views, each vertex id narrowed to the `int` the stream carries.
   */
  lemma DeserializeSerialized(cells: seq<CompactCellView>, numFaceDofs: Int32)
    requires CountsFit(cells)
    ensures Deserialized(Serialized(cells, numFaceDofs)) == Some((NarrowedCells(cells), numFaceDofs))
  {
    var s := Serialized(cells, numFaceDofs);
    assert s[1] == |cells|;
    assert s[2..] == EncodeCells(cells) + [];
    DecodeEncodedCells(cells, []);
  }

  // ---------------------------------------------------------------------
  // The converse: whatever the decoder accepts is a serialisation

  /** An `int` widened to `uint64_t` and narrowed back is unchanged. */
  lemma Int32ThroughUint64(x: Int32)
    ensures ToInt32(ToUint64(x)) == x
  {
    if x < 0 {
      assert ToUint64(x) == x + TWO_TO_64;
      assert (x + TWO_TO_64) % TWO_TO_32 == x + TWO_TO_32;
    }
  }

  lemma EncodeDecodedVertexIds(ints: seq<Int32>)
    ensures EncodeVertexIds(DecodeVertexIds(ints)) == ints
  {
    forall j | 0 <= j < |ints|
      ensures EncodeVertexIds(DecodeVertexIds(ints))[j] == ints[j]
    {
      Int32ThroughUint64(ints[j]);
    }
  }

  lemma EncodeDecodedFace(s: seq<Int32>, face: CompactFaceView, rest: seq<Int32>)
    requires DecodeFace(s) == Some((face, rest))
    ensures EncodeFace(face) + rest == s
  {
    var n := s[1];
    EncodeDecodedVertexIds(s[2..2 + n]);
    assert s == [s[0], s[1]] + s[2..2 + n] + s[2 + n..];
  }

  /** A decoded run of faces that is not empty splits into its first and the rest. */
  lemma DecodeFacesUncons(s: seq<Int32>, n: nat, faces: seq<CompactFaceView>, rest: seq<Int32>)
    requires n > 0 && DecodeFaces(s, n) == Some((faces, rest))
    ensures faces != [] && DecodeFace(s).Some? && DecodeFace(s).value.0 == faces[0]
    ensures DecodeFaces(DecodeFace(s).value.1, n - 1) == Some((faces[1..], rest))
  {
    var tail := DecodeFaces(DecodeFace(s).value.1, n - 1);
    assert tail.Some?;
    assert faces == [DecodeFace(s).value.0] + tail.value.0;
    assert faces[1..] == tail.value.0;
  }

  /** Re-encoding a first face in front of the re-encoded rest gives back the stream. */
  lemma JoinFaces(s: seq<Int32>, faces: seq<CompactFaceView>, next: seq<Int32>, rest: seq<Int32>)
    requires faces != [] && DecodeFace(s) == Some((faces[0], next))
    requires EncodeFaces(faces[1..]) + rest == next
    ensures EncodeFaces(faces) + rest == s
  {
    EncodeDecodedFace(s, faces[0], next);
    EncodeFacesCons(faces);
    assert EncodeFaces(faces) + rest == EncodeFace(faces[0]) + (EncodeFaces(faces[1..]) + rest);
  }

  lemma {:induction false} EncodeDecodedFaces(s: seq<Int32>, n: nat, faces: seq<CompactFaceView>, rest: seq<Int32>)
    requires DecodeFaces(s, n) == Some((faces, rest))
    ensures |faces| == n && EncodeFaces(faces) + rest == s
    decreases n
  {
    if n == 0 {
      assert faces == [] && rest == s;
    } else {
      DecodeFacesUncons(s, n, faces, rest);
      var next := DecodeFace(s).value.1;
      EncodeDecodedFaces(next, n - 1, faces[1..], rest);
      JoinFaces(s, faces, next, rest);
    }
  }



  lemma EncodeDecodedCell(s: seq<Int32>, cell: CompactCellView, rest: seq<Int32>)
    requires DecodeCell(s) == Some((cell, rest))
    ensures EncodeCell(cell) + rest == s
  {
    assert s[1] >= 0 && DecodeFaces(s[2..], s[1]) == Some((cell.faces, rest));
    EncodeDecodedFaces(s[2..], s[1], cell.faces, rest);
    assert ToInt32(|cell.faces|) == s[1] && cell.cellGlobalId == s[0];
    calc {
      EncodeCell(cell) + rest;
      ([s[0], s[1]] + EncodeFaces(cell.faces)) + rest;
      [s[0], s[1]] + (EncodeFaces(cell.faces) + rest);
      [s[0], s[1]] + s[2..];
      s;
    }
  }

  /** A decoded run of cells that is not empty splits into its first and the rest. */
  lemma DecodeCellsUncons(s: seq<Int32>, n: nat, cells: seq<CompactCellView>, rest: seq<Int32>)
    requires n > 0 && DecodeCells(s, n) == Some((cells, rest))
    ensures cells != [] && DecodeCell(s).Some? && DecodeCell(s).value.0 == cells[0]
    ensures DecodeCells(DecodeCell(s).value.1, n - 1) == Some((cells[1..], rest))
  {
    var tail := DecodeCells(DecodeCell(s).value.1, n - 1);
    assert tail.Some?;
    assert cells == [DecodeCell(s).value.0] + tail.value.0;
    assert cells[1..] == tail.value.0;
  }

  /** Re-encoding a first cell in front of the re-encoded rest gives back the stream. */
  lemma JoinCells(s: seq<Int32>, cells: seq<CompactCellView>, next: seq<Int32>, rest: seq<Int32>)
    requires cells != [] && DecodeCell(s) == Some((cells[0], next))
    requires EncodeCells(cells[1..]) + rest == next
    ensures EncodeCells(cells) + rest == s
  {
    EncodeDecodedCell(s, cells[0], next);
    EncodeCellsCons(cells);
    assert EncodeCells(cells) + rest == EncodeCell(cells[0]) + (EncodeCells(cells[1..]) + rest);
  }

  lemma {:induction false} EncodeDecodedCells(s: seq<Int32>, n: nat, cells: seq<CompactCellView>, rest: seq<Int32>)
    requires DecodeCells(s, n) == Some((cells, rest))
    ensures |cells| == n && EncodeCells(cells) + rest == s
    decreases n
  {
    if n == 0 {
      assert cells == [] && rest == s;
    } else {
      DecodeCellsUncons(s, n, cells, rest);
      var next := DecodeCell(s).value.1;
      EncodeDecodedCells(next, n - 1, cells[1..], rest);
      JoinCells(s, cells, next, rest);
    }
  }



  /**
   * The decoder accepts only serialisations: a stream it reads as views and
   * a face-dof count is exactly the serialisation of those.
   */
  lemma SerializeDeserialized(s: seq<Int32>, cells: seq<CompactCellView>, numFaceDofs: Int32)
    requires Deserialized(s) == Some((cells, numFaceDofs))
    ensures Serialized(cells, numFaceDofs) == s
  {
    EncodeDecodedCells(s[2..], s[1], cells, []);
    assert EncodeCells(cells) + [] == EncodeCells(cells);
    assert s == [s[0], s[1]] + s[2..];
  }

  lemma NarrowedCellsIdentity(cells: seq<CompactCellView>)
    requires FitsInInt(cells)
    ensures NarrowedCells(cells) == cells
  {
    forall c | 0 <= c < |cells|
      ensures NarrowedCell(cells[c]) == cells[c]
    {
      forall f | 0 <= f < |cells[c].faces|
        ensures NarrowedFace(cells[c].faces[f]) == cells[c].faces[f]
      {
        assert NarrowedIds(cells[c].faces[f].vertexIds) == cells[c].faces[f].vertexIds;
      }
      assert NarrowedFaces(cells[c].faces) == cells[c].faces;
    }
  }

  /** The round trip: when every value fits in an `int`, the views and the count come back exactly. */
  lemma RoundTrip(cells: seq<CompactCellView>, numFaceDofs: Int32)
    requires FitsInInt(cells)
    ensures Deserialized(Serialized(cells, numFaceDofs)) == Some((cells, numFaceDofs))
  {
    DeserializeSerialized(cells, numFaceDofs);
    NarrowedCellsIdentity(cells);
  }

  /** A vertex id at or above 2^32 does not survive the `int` stream: 2^32 comes back as 0. */
  lemma WideVertexIdIsTruncated()
    ensures var cells := [CompactCellView(0, [CompactFaceView(0, [TWO_TO_32])])];
      Deserialized(Serialized(cells, 1)) == Some(([CompactCellView(0, [CompactFaceView(0, [0])])], 1))
  {
    var cells := [CompactCellView(0, [CompactFaceView(0, [TWO_TO_32])])];
    DeserializeSerialized(cells, 1);
    assert NarrowedIds([TWO_TO_32]) == [0];
    assert NarrowedFaces(cells[0].faces) == [CompactFaceView(0, [0])];
    assert NarrowedCells(cells) == [CompactCellView(0, [CompactFaceView(0, [0])])];
  }
}
