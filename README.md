# A verified model of parts of the OpenSn discrete-ordinates transport core

This project is a Dafny model of five parts of OpenSn's discrete-ordinates (S_N) transport solver, with the properties each part relies on proved.

1. **The sweep operator context (module `SweepWgs`, `sweep_wgs_context.dfy`).**
   - What the source does:
     - A within-group-set solve applies the inverse transport operator as one full sweep.
     - The sweep is driven through a sweep scheduler. The scheduler uses depth-of-graph scheduling for the AAH sweep type and FIFO otherwise.
     - The pre-setup callback names the Krylov method it logs.
     - The system size is the node count times the moments times the groups, plus the delayed angular unknowns, cast from `size_t` to `int64_t`.
     - After a Krylov solve other than Richardson, the context makes one more sweep with the converged flux and then copies PHI_NEW into PHI_OLD.
   - How the model represents it:
     - The scheduler, the solver and the set-source function are collaborators.
     - The context is a class that records, in order, the calls it makes on them, together with the scheduler flags those calls set.
2. **The cell sweep kernel's outgoing-face routing (module `SweepChunks`, `sweep_chunk.dfy`).**
   - The sweep chunk constructor:
     - sizes the local matrices and vectors;
     - decides whether angular flux is saved;
     - computes the group-set strides, with `size_t` wrap-around;
     - copies the strides into the sweep dependency interface.
   - The dependency interface records the current incoming or outgoing face, and decides whether an outgoing boundary face is reflecting.
   - `OutgoingSurfaceOperations` sends each face node's solved values through the current face:
     - on an interior face or a reflecting boundary, into the node's downwind flux slot (the slot may be absent);
     - on any other boundary, as one outflow (leakage) contribution per group, `wt * mu * b[g][i] * IntF[i]`.
3. **The AAH flux-staging (FLUDS) common data (module `AahFluds`, `aah_fluds_common_data.dfy`).**
   - `INCOMING_FACE_INFO`, which copies an upwind dof mapping into a freshly allocated array.
   - The compact face and cell views.
   - Serialisation of those views into a flat `int` stream and back, with its round trip.
4. **The cylindrical product quadrature (module `CylindricalQuadratures`, `cylindrical_quadrature.dfy`).**
   - `Initialize`:
     - checks the polar quadrature and the per-level azimuthal quadratures, in the source's order, and throws the matching error;
     - rescales the weights (to 2 for the polar quadrature, to pi for each azimuthal one);
     - pads each azimuthal quadrature with a zero-weight point at -1 when its first point has weight above epsilon and lies more than epsilon from -1, and likewise with a point at +1 at the end;
     - builds the product directions level by level (p-major, q-minor);
     - builds the map from polar level to its direction indices;
     - builds the curvilinear factors: the vectors are resized to the direction count, keeping existing entries and filling new ones with 1 and 0, and each level's interior directions are then set, so the first and last direction of a level keep what the resize left there (the defaults on a first `Initialize`).
   - `MakeHarmonicIndices` builds the (l, m) table for one or two dimensions.
5. **The ANSI colour builder (module `Logging`, `stringstream_color.dfy`).** `StringStreamColor` returns `ESC [ <code> m`, or the empty string when colour is suppressed. It comes with the decimal text of `std::to_string` and a parser for that text.

`common.dfy` (module `Common`) holds:
- the `Option` and `Outcome` datatypes;
- the fixed-width integer types `Int32`, `Int16` and `Uint64`;
- the explicit 32/64-bit conversions the source's casts perform.

## Model

| member | source | states |
|---|---|---|
| `Logging.StringStreamColor` | framework/logging/stringstream_color.cc:10-16 | With colour suppressed, the result is empty. Otherwise it is ESC, `[`, the decimal text of the code, then `m`, and nothing else. |
| `Logging.NatToDecimal` | framework/logging/stringstream_color.cc:15 | The text `std::to_string` gives a natural number is non-empty and all digits, with no leading zero. |
| `Logging.ParseNatOfDecimal` | framework/logging/stringstream_color.cc:15 | Reading a natural number's decimal text back gives the same number. |
| `Logging.IntToStringRoundTrip` | framework/logging/stringstream_color.cc:15 | The text of any `int` code, negative ones included, is a well-formed integer literal that reads back as that code. |
| `Logging.StringStreamColorCarriesCode` | framework/logging/stringstream_color.cc:13-15 | The escape sequence's parameter, between `[` and `m`, reads back as exactly the colour code. |
| `Logging.StringStreamColorDigitsOnly` | framework/logging/stringstream_color.cc:15 | For a non-negative code, the parameter is digits only, with no sign. |
| `SweepWgs.SchedulingFor` | modules/linear_boltzmann_solvers/b_discrete_ordinates_solver/iterative_methods/sweep_wgs_context.cc:29-31 | The scheduler is depth-of-graph exactly when the sweep type is "AAH", and FIFO exactly when it is not. |
| `SweepWgs.MethodName` | modules/linear_boltzmann_solvers/b_discrete_ordinates_solver/iterative_methods/sweep_wgs_context.cc:44-57 | "KRYLOV_RICHARDSON" is logged exactly for Richardson and "KRYLOV_BICGSTAB" exactly for BiCGStab. "KRYLOV_GMRES" is logged exactly for GMRES and for every other method, which falls to the default branch. |
| `SweepWgs.SizeTAsInt64` | modules/linear_boltzmann_solvers/b_discrete_ordinates_solver/iterative_methods/sweep_wgs_context.cc:112 | The `size_t` to `int64_t` cast gives a value in int64 range, congruent to the input modulo 2^64, and equal to it below 2^63. |
| `SweepWgs.SystemSize` | modules/linear_boltzmann_solvers/b_discrete_ordinates_solver/iterative_methods/sweep_wgs_context.cc:87-113 | The local and global sizes are nodes x moments x groups + delayed unknowns. Each is computed in 64-bit unsigned arithmetic and cast to int64. Each is in range and congruent to the exact count modulo 2^64, and equal to it when the count is below 2^63. |
| `SweepWgs.ApplicationCalls` | modules/linear_boltzmann_solvers/b_discrete_ordinates_solver/iterative_methods/sweep_wgs_context.cc:116-129 | One application first sets the boundary-source flag. It zeroes the incoming delayed psi exactly when the scope asks for it. It ends with zeroing the output flux structures and then the sweep. The sweep is the only sweep and comes last. |
| `SweepWgs.PostSolveCalls` | modules/linear_boltzmann_solvers/b_discrete_ordinates_solver/iterative_methods/sweep_wgs_context.cc:131-148 | Richardson makes no calls. Any other method zeroes the outflow balances, sets the source with lhs and rhs scopes combined, and points the destination at PHI_NEW. It then performs one operator application with the combined scope and finally copies PHI_NEW into PHI_OLD. |
| `SweepWgs.PostSolveSweepsOnceBeforeCopy` | modules/linear_boltzmann_solvers/b_discrete_ordinates_solver/iterative_methods/sweep_wgs_context.cc:134-148 | A non-Richardson post-solve callback sweeps exactly once, and the sweep comes before the final copy into PHI_OLD. |
| `SweepWgs.SweepWGSContext.constructor` | modules/linear_boltzmann_solvers/b_discrete_ordinates_solver/iterative_methods/sweep_wgs_context.cc:19-36 | Keeps the settings it is given. Its scheduler is depth-of-graph iff the sweep type is "AAH". It starts with no applications and no calls. The scheduler's flags start false; that starting value is the model's, since the scheduler's constructor is not part of this model. |
| `SweepWgs.SweepWGSContext.PreSetupCallback` | modules/linear_boltzmann_solvers/b_discrete_ordinates_solver/iterative_methods/sweep_wgs_context.cc:38-66 | Reports the group set's method name exactly when logging is on, and nothing otherwise. |
| `SweepWgs.SweepWGSContext.ApplyInverseTransportOperator` | modules/linear_boltzmann_solvers/b_discrete_ordinates_solver/iterative_methods/sweep_wgs_context.cc:115-129 | The application counter goes up by one. The scheduler's boundary-source flag and delayed-psi zeroing follow the scope. The calls made are exactly those of one application. |
| `SweepWgs.SweepWGSContext.PostSolveCallback` | modules/linear_boltzmann_solvers/b_discrete_ordinates_solver/iterative_methods/sweep_wgs_context.cc:131-148 | For Richardson nothing changes. Otherwise one more operator application is made with the combined scope. The boundary-source flag and the delayed-psi zeroing follow that scope, and the calls are exactly the post-solve sequence. |
| `SweepChunks.Route` | modules/linear_boltzmann_solvers/b_discrete_ordinates_solver/sweep_chunks/sweep_chunk.cc:70-76 | A face adds outflow exactly when it is a non-reflecting boundary face. It writes the downwind slot exactly when it does not add outflow. A reflecting face is on the boundary. |
| `SweepChunks.IsReflectingFace` | modules/linear_boltzmann_solvers/b_discrete_ordinates_solver/sweep_chunks/sweep_chunk.cc:107-108 | A face off the boundary is never reflecting. A boundary face is reflecting exactly when the angle set's boundary for its neighbour id is. |
| `SweepChunks.SweepDependencyInterface.SetupIncomingFace` | modules/linear_boltzmann_solvers/b_discrete_ordinates_solver/sweep_chunks/sweep_chunk.cc:82-90 | Records the face index, node count, neighbour and both locality flags. Locality, the reflecting flag and the strides are unchanged. |
| `SweepChunks.SweepDependencyInterface.SetupOutgoingFace` | modules/linear_boltzmann_solvers/b_discrete_ordinates_solver/sweep_chunks/sweep_chunk.cc:93-109 | Records the face and its locality. The face is marked reflecting exactly when it is a boundary face whose boundary reflects, so an interior face routes as interior. The strides are unchanged. |
| `SweepChunks.CellTransportView.AddOutflow` | modules/linear_boltzmann_solvers/b_discrete_ordinates_solver/sweep_chunks/sweep_chunk.cc:76 | Appends one (group, amount) contribution to the cell's outflow log. |
| `SweepChunks.SweepChunk.constructor` | modules/linear_boltzmann_solvers/b_discrete_ordinates_solver/sweep_chunks/sweep_chunk.cc:15-50 | Angular flux is saved exactly when the destination psi is non-empty. The angle-group stride is unknowns x groups, wrapped to 64 bits and exact when it fits. The group stride is the group count. The matrices and vectors are zero with the sizes the source gives them. The interface receives both strides and keeps all its other fields. |
| `SweepChunks.SweepChunk.OutgoingSurfaceOperations` | modules/linear_boltzmann_solvers/b_discrete_ordinates_solver/sweep_chunks/sweep_chunk.cc:52-79 | The flux buffer becomes the prior buffer with each face node's values written into its downwind slot, in node order. The outflow log grows by exactly the face's outflow contributions, in node-then-group order. |
| `SweepChunks.SweepChunk.WriteNodePsi` | modules/linear_boltzmann_solvers/b_discrete_ordinates_solver/sweep_chunks/sweep_chunk.cc:72-73 | Copies the node's value in every group of the sub-set into its slot, and changes nothing else in the buffer. |
| `SweepChunks.SweepChunk.AddNodeOutflows` | modules/linear_boltzmann_solvers/b_discrete_ordinates_solver/sweep_chunks/sweep_chunk.cc:74-76 | Appends the node's leakage in each group of the sub-set, in group order. |
| `SweepChunks.NodeOutflowsAt` | modules/linear_boltzmann_solvers/b_discrete_ordinates_solver/sweep_chunks/sweep_chunk.cc:75-76 | A node's g-th contribution goes to group `gs_gi + g`, with amount wt x mu x b[g][i] x IntF[i]. |
| `SweepChunks.VacuumBoundaryWritesNoPsi` | modules/linear_boltzmann_solvers/b_discrete_ordinates_solver/sweep_chunks/sweep_chunk.cc:70-73 | A non-reflecting boundary face leaves the flux buffer untouched. |
| `SweepChunks.DownwindFaceAddsNoOutflow` | modules/linear_boltzmann_solvers/b_discrete_ordinates_solver/sweep_chunks/sweep_chunk.cc:74-76 | An interior or reflecting face adds no outflow. |
| `SweepChunks.VacuumBoundaryOutflowCount` | modules/linear_boltzmann_solvers/b_discrete_ordinates_solver/sweep_chunks/sweep_chunk.cc:64-76 | On a non-reflecting boundary, n face nodes add exactly n x groups contributions. |
| `SweepChunks.OutflowsPrefix` | modules/linear_boltzmann_solvers/b_discrete_ordinates_solver/sweep_chunks/sweep_chunk.cc:64-78 | Contributions are only ever appended: fewer nodes yield a prefix of the log for more nodes. |
| `SweepChunks.NodeOutflowsFollowEarlierNodes` | modules/linear_boltzmann_solvers/b_discrete_ordinates_solver/sweep_chunks/sweep_chunk.cc:64-76 | A face node's contributions follow those of every earlier node. Its g-th contribution is its leakage in group `gs_gi + g`. |
| `SweepChunks.VacuumBoundaryOutflow` | modules/linear_boltzmann_solvers/b_discrete_ordinates_solver/sweep_chunks/sweep_chunk.cc:64-76 | On a non-reflecting boundary, position fi x groups + g of the log is face node fi's leakage in group `gs_gi + g`. |
| `SweepChunks.DownwindSlotHoldsValues` | modules/linear_boltzmann_solvers/b_discrete_ordinates_solver/sweep_chunks/sweep_chunk.cc:68-73 | On an interior or reflecting face whose nodes have disjoint slots, a node's slot ends up holding b[g][i] in each group g. |
| `SweepChunks.OutsideSlotsUnchanged` | modules/linear_boltzmann_solvers/b_discrete_ordinates_solver/sweep_chunks/sweep_chunk.cc:68-73 | A buffer position in no face node's slot is left as it was. |
| `AahFluds.IncomingFaceInfo.constructor` | modules/linear_boltzmann_solvers/discrete_ordinates_solver/sweep/fluds/aah_fluds_common_data.h:32-35 | The slot address is 0 and there is no dof mapping. |
| `AahFluds.IncomingFaceInfo.Setup` | modules/linear_boltzmann_solvers/discrete_ordinates_solver/sweep/fluds/aah_fluds_common_data.h:37-42 | The slot address is the input's first part. The mapping is a newly allocated array holding exactly the input's dof mapping. |
| `AahFluds.SerializeCellInfo` | modules/linear_boltzmann_solvers/discrete_ordinates_solver/sweep/fluds/aah_fluds_common_data.h:162-168 | The stream is the length-prefixed encoding of the face-dof count and of every cell, face and vertex, in order. |
| `AahFluds.AppendCell` | modules/linear_boltzmann_solvers/discrete_ordinates_solver/sweep/fluds/aah_fluds_common_data.h:162-168 | Appends exactly one cell's encoding, face by face, to the stream. |
| `AahFluds.AppendFace` | modules/linear_boltzmann_solvers/discrete_ordinates_solver/sweep/fluds/aah_fluds_common_data.h:162-168 | Appends exactly one face's encoding to the stream. |
| `AahFluds.DeSerializeCellInfo` | modules/linear_boltzmann_solvers/discrete_ordinates_solver/sweep/fluds/aah_fluds_common_data.h:170-175 | Reads the views and the face-dof count back, as the reference decoder does. The result is None on a truncated stream, a negative count or trailing data. |
| `AahFluds.SerializeDeserialized` | modules/linear_boltzmann_solvers/discrete_ordinates_solver/sweep/fluds/aah_fluds_common_data.h:162-175 | The decoder accepts only serialisations: any stream it reads as views and a count is exactly the serialisation of those views and that count. |
| `AahFluds.ReadCell` | modules/linear_boltzmann_solvers/discrete_ordinates_solver/sweep/fluds/aah_fluds_common_data.h:170-175 | Reads one cell and its faces, and returns the rest of the stream. The result is None on a truncated or negative count. |
| `AahFluds.DecodeEncodedFaces` | modules/linear_boltzmann_solvers/discrete_ordinates_solver/sweep/fluds/aah_fluds_common_data.h:162-175 | Decoding the encoding of any faces whose vertex counts fit in an `int` gives back those faces, with narrowed ids. The rest of the stream is left over. |
| `AahFluds.DecodeEncodedCells` | modules/linear_boltzmann_solvers/discrete_ordinates_solver/sweep/fluds/aah_fluds_common_data.h:162-175 | Decoding the encoding of any cells whose counts fit in an `int` gives back those cells, with narrowed ids. The rest of the stream is left over. |
| `AahFluds.DeserializeSerialized` | modules/linear_boltzmann_solvers/discrete_ordinates_solver/sweep/fluds/aah_fluds_common_data.h:162-175 | When every count fits in an `int`, deserialising a serialised stream gives the same face-dof count. The views come back with every vertex id narrowed through `int`. |
| `AahFluds.NarrowedCellsIdentity` | modules/linear_boltzmann_solvers/discrete_ordinates_solver/sweep/fluds/aah_fluds_common_data.h:162-175 | Narrowing through `int` changes no view whose vertex ids are all below 2^31. |
| `AahFluds.RoundTrip` | modules/linear_boltzmann_solvers/discrete_ordinates_solver/sweep/fluds/aah_fluds_common_data.h:162-175 | When every count and vertex id fits in an `int`, deserialising a serialised stream gives back exactly the views and the face-dof count. |
| `AahFluds.WideVertexIdIsTruncated` | modules/linear_boltzmann_solvers/discrete_ordinates_solver/sweep/fluds/aah_fluds_common_data.h:21-22 | A vertex id of 2^32 does not survive the `int` stream: it comes back as 0. |
| `CylindricalQuadratures.AscendingMeansNonDecreasing` | framework/math/quadratures/angular/cylindrical_quadrature.cc:107-110 | Under `std::is_sorted` with `<`, abscissae count as sorted exactly when they are pairwise non-decreasing, so ties are allowed. |
| `CylindricalQuadratures.FirstAzimuthalError` | framework/math/quadratures/angular/cylindrical_quadrature.cc:85-110 | No error exactly when every azimuthal quadrature passes its sum and order checks. Otherwise the error is that of the first quadrature that fails. |
| `CylindricalQuadratures.SumScaled` | framework/math/quadratures/angular/cylindrical_quadrature.cc:63-70 | Scaling every weight by the factor scales their sum by the same factor. |
| `CylindricalQuadratures.Normalized` | framework/math/quadratures/angular/cylindrical_quadrature.cc:63-71 | Rescaling keeps the number of weights and every abscissa. |
| `CylindricalQuadratures.NormalizedWeights` | framework/math/quadratures/angular/cylindrical_quadrature.cc:88-96 | After rescaling, the weights sum to the target, unless the factor was within epsilon of 1 and they were left as they were. A weight is zero afterwards exactly when it was zero before. |
| `CylindricalQuadratures.PadShape` | framework/math/quadratures/angular/cylindrical_quadrature.cc:112-124 | Padding keeps the quadrature's own points, contiguous and in order. It adds (0, -1) in front exactly when the first point has weight and lies away from -1, and (0, +1) at the end exactly when the last point has weight and lies away from +1. |
| `CylindricalQuadratures.Prepared` | framework/math/quadratures/angular/cylindrical_quadrature.cc:85-125 | An azimuthal quadrature, rescaled and padded, stays well formed and non-empty. |
| `CylindricalQuadratures.ReplicatedInitializeError` | framework/math/quadratures/angular/cylindrical_quadrature.cc:11-19 | With one azimuthal quadrature replicated, the count check cannot fail. The error is the polar quadrature's, or that of the one azimuthal quadrature. |
| `CylindricalQuadratures.ProductDirectionCount` | framework/math/quadratures/angular/cylindrical_quadrature.cc:133-155 | The product has exactly as many directions as all levels' azimuthal points together. |
| `CylindricalQuadratures.ProductDirectionOrder` | framework/math/quadratures/angular/cylindrical_quadrature.cc:133-155 | Direction q of level p sits at the level's offset plus q. Its weight is w_p x w_pq; its azimuthal cosine is x_pq and its polar cosine x_p. |
| `CylindricalQuadratures.OffsetMonotone` | framework/math/quadratures/angular/cylindrical_quadrature.cc:161-170 | A later level never starts before an earlier one. |
| `CylindricalQuadratures.IndexRangeAt` | framework/math/quadratures/angular/cylindrical_quadrature.cc:166-167 | Entry q of a level's index list is its first index plus q. |
| `CylindricalQuadratures.DirectionMapAt` | framework/math/quadratures/angular/cylindrical_quadrature.cc:160-170 | Level p is a key exactly when it is one of the levels. Its indices are the consecutive run starting at the level's offset, one per direction. |
| `CylindricalQuadratures.DirectionMapContents` | framework/math/quadratures/angular/cylindrical_quadrature.cc:160-170 | The keys are exactly the levels, each mapped to its consecutive index run. |
| `CylindricalQuadratures.DirectionMapSize` | framework/math/quadratures/angular/cylindrical_quadrature.cc:160-170 | The map has one entry per polar level. |
| `CylindricalQuadratures.IndexRangeSplit` | framework/math/quadratures/angular/cylindrical_quadrature.cc:166-169 | A run followed by the run starting where it ended is one longer run. |
| `CylindricalQuadratures.ConcatenatedRanges` | framework/math/quadratures/angular/cylindrical_quadrature.cc:160-170 | Level runs that start at the level offsets, concatenated in level order, are 0, 1, ..., n-1. |
| `CylindricalQuadratures.DirectionMapCoversAll` | framework/math/quadratures/angular/cylindrical_quadrature.cc:160-170 | Read level by level, the map lists every direction index exactly once, in order: the levels partition 0..n-1. |
| `CylindricalQuadratures.Resize` | framework/math/quadratures/angular/cylindrical_quadrature.cc:202-203 | `std::vector::resize` keeps the entries it had up to the new size and fills the rest with the value. |
| `CylindricalQuadratures.LevelFactorsAt` | framework/math/quadratures/angular/cylindrical_quadrature.cc:217-235 | After the interior loop of one level, only that level's interior directions hold the level's values. Every other entry is unchanged. |
| `CylindricalQuadratures.FactorsAfterBeyond` | framework/math/quadratures/angular/cylindrical_quadrature.cc:204-236 | Entries past the levels processed so far are unchanged. |
| `CylindricalQuadratures.FactorsAfterAt` | framework/math/quadratures/angular/cylindrical_quadrature.cc:204-236 | A processed level's interior directions are set to that level's values. Its first and last directions keep what they held before. |
| `CylindricalQuadratures.FirstInitializeEndpointFactors` | framework/math/quadratures/angular/cylindrical_quadrature.cc:202-217 | On a first initialisation the first and last direction of every level keep the defaults, 1 for the diamond-difference factor and 0 for the streaming factor. |
| `CylindricalQuadratures.RowPrefixMembers` | framework/math/quadratures/angular/cylindrical_quadrature.cc:247-249 | The part of row l before m holds exactly the kept pairs (l, m') with m' < m. |
| `CylindricalQuadratures.HarmonicRowsMembers` | framework/math/quadratures/angular/cylindrical_quadrature.cc:246-254 | The first n rows hold exactly the kept pairs 0 <= m <= l < n. |
| `CylindricalQuadratures.HarmonicTableMembers` | framework/math/quadratures/angular/cylindrical_quadrature.cc:244-254 | For scattering order L the table holds exactly the pairs 0 <= m <= l <= L. In one dimension it holds only those with l + m even. |
| `CylindricalQuadratures.HarmonicTableSize` | framework/math/quadratures/angular/cylindrical_quadrature.cc:251-254 | In two dimensions the table has (L+1)(L+2)/2 entries. |
| `CylindricalQuadratures.HarmonicTableOrdered` | framework/math/quadratures/angular/cylindrical_quadrature.cc:244-254 | The table is in strictly increasing row-major (l, then m) order, so no pair repeats. |
| `CylindricalQuadratures.CylindricalQuadrature.constructor` | framework/math/quadratures/angular/cylindrical_quadrature.cc:14 | A quadrature starts with no directions, no factors and no harmonic table. |
| `CylindricalQuadratures.CylindricalQuadrature.Initialize` | framework/math/quadratures/angular/cylindrical_quadrature.cc:29-197 | Throws exactly when a check fails, with the first failing check's error, and then changes nothing. On success, the weights and (phi, theta) cosines come from the product of the rescaled polar quadrature and the rescaled, padded azimuthal ones. The direction map and the factors are the ones the parameter pass builds. The harmonic table is untouched. |
| `CylindricalQuadratures.CylindricalQuadrature.InitializeReplicated` | framework/math/quadratures/angular/cylindrical_quadrature.cc:11-19 | Behaves as `Initialize` with the one azimuthal quadrature used for every polar point. |
| `CylindricalQuadratures.CylindricalQuadrature.BuildProduct` | framework/math/quadratures/angular/cylindrical_quadrature.cc:130-158 | The weights and abscissae become those of the product directions, level by level. Nothing else changes. |
| `CylindricalQuadratures.CylindricalQuadrature.AppendLevel` | framework/math/quadratures/angular/cylindrical_quadrature.cc:139-154 | Extends the product by exactly the directions of one more polar level. |
| `CylindricalQuadratures.CylindricalQuadrature.BuildDirectionMap` | framework/math/quadratures/angular/cylindrical_quadrature.cc:160-170 | The map sends each level to the consecutive indices of its directions. Nothing else changes. |
| `CylindricalQuadratures.CylindricalQuadrature.InitializeParameters` | framework/math/quadratures/angular/cylindrical_quadrature.cc:199-237 | The factors are resized to the direction count with defaults 1 and 0. Then every level's interior directions get the level's values, and nothing else changes. |
| `CylindricalQuadratures.CylindricalQuadrature.SetInteriorFactors` | framework/math/quadratures/angular/cylindrical_quadrature.cc:217-235 | Sets the interior directions of one more level, through the direction map. |
| `CylindricalQuadratures.CylindricalQuadrature.MakeHarmonicIndices` | framework/math/quadratures/angular/cylindrical_quadrature.cc:239-259 | An existing table is kept. Otherwise dimension 1 builds the even-parity table and dimension 2 the full one. Any other dimension throws, with the table still empty. |
| `CylindricalQuadratures.CylindricalQuadrature.AppendHarmonicRows` | framework/math/quadratures/angular/cylindrical_quadrature.cc:246-254 | The nested l/m loop builds exactly the harmonic table. |
| `CylindricalQuadratures.AnyEmpty` | framework/math/quadratures/angular/cylindrical_quadrature.cc:52-56 | True exactly when some azimuthal quadrature has no points. |
| `CylindricalQuadratures.CheckAndPad` | framework/math/quadratures/angular/cylindrical_quadrature.cc:85-125 | The error is that of the first azimuthal quadrature that fails its checks. When none fails, every quadrature comes out rescaled and padded. |

## Left out

**Sweep operator context**
- `SetPreconditioner` (sweep_wgs_context.cc:68-85) is a sequence of PETSc calls with no state of its own, so it is not modelled.
- Log output is not modelled: the pre-setup banner beyond the method name, and the post-solve timing report (sweep_wgs_context.cc:150-176). The model keeps only the decision of what is reported.
- The scheduler's sweep, the set-source function, `GSScopedCopyPrimarySTLvectors` and the solver's node counts belong to collaborators. They become entries of the call log, or parameters.
- The `SourceFlags` enumerators are taken as the single bits 1<<0 ... 1<<6. The header that defines them is not part of this model.

**Sweep chunk**
- The cell solve and the assembly that produce `b_` are not modelled. Neither are the sweep-plane data structures behind `GetDownwindPsi`.
  - A face node's downwind slot is given as an optional offset into the flux buffer.
  - The boundaries of the angle set become a map from boundary id to `IsReflecting()`.
- `SweepChunks.CellTransportView.AddOutflow`: the outflow is a log of contributions. Its accumulation into per-group totals belongs to the cell view and is not modelled.
- `SweepChunks.SweepChunk.constructor`: `max_num_cell_dofs` is a natural number. A negative `int` there is not modelled; `resize` would throw on it.
- `SweepChunks.IsReflectingFace`: the neighbour id of a boundary face must be one of the angle set's boundaries. For a missing id, the source's `GetBoundaries()[neighbor_id_]` inserts a null pointer and dereferences it, and that case is not modelled.
- The references the constructor stores (grid, discretisation, cross sections, etc.) are not modelled. They hold no state the modelled code changes.

**FLUDS common data**
- The bodies of `SerializeCellInfo` and `DeSerializeCellInfo` are not part of this model; only their declarations are. The stream layout used here is this model's own, described in `aah_fluds_common_data.dfy`. The round trip is proved for that format.
- The other members of the common data class are not modelled: slot bookkeeping, the incidence mappings and `InitializeBetaElements`. They depend on the SPDS graph and mesh classes, which are not part of this model.
- The destructor of `INCOMING_FACE_INFO` frees memory and has no counterpart in Dafny.

**Cylindrical quadrature**
- The square roots and arc cosines of `Initialize` are kept as the cosines they are taken of, and `omegas_` is not built.
  - A product direction records the azimuthal and polar cosines.
  - `(phi, theta)` is represented by those cosines.
- Real arithmetic is exact, but the epsilon comparisons are kept with the value of `std::numeric_limits<double>::epsilon()`. Floating-point rounding is not modelled.
- Every Gauss quadrature is taken to have as many abscissae as weights (`WellFormed`), as a `GaussQuadrature` always does. The product loop of `Initialize` reads `qpoints[q]` for every `q < weights.size()`, and quadratures whose point and weight vectors differ in length are not modelled.
- `GaussQuadrature::SetRange` (cylindrical_quadrature.cc:77-79, 102-104) is not part of this model. The quadratures are taken to be on [-1, 1] already.
- `CylindricalQuadratures.CylindricalQuadrature.InitializeParameters`: the interior factors are passed in as functions of (level, direction).
  - They are the diamond-difference `tau` and the streaming factor `alpha / (w tau) + mu`.
  - Computing them needs cosines of running interface angles, so they are not computed here.
  - The contract states which entries receive them and which keep their defaults, not their values.
- `CylindricalQuadratures.CylindricalQuadrature.MakeHarmonicIndices`: the scattering order is a natural number. The loop `l <= scattering_order` over an `unsigned int` would never end for `UINT_MAX`, and that case is not modelled.
- The `unsigned int` running index `ind0` of the direction map is exact here. Its 32-bit wrap-around, beyond 2^32 directions, is not modelled.
- `verbose` logging in `Initialize` is not modelled.

**Colour builder**
- `suppress_color` is a runtime global, so it becomes a parameter.
