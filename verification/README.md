# Verification of the Flightplan boosters, generator and planner

Models, in Dafny, of the components of Flightplan that compute something hard, with proofs about every input, every
run or every reachable state. `dafny verify dfyconfig.toml` checks the project.

**Forward error correction.** `Bits`, `GaloisField` and `GfTables` model arithmetic in GF(2^m) by shift-and-add and by
log, exp and inverse tables, for every width m and every modulus for which 2 is primitive; `PrimitiveWidths` shows that
for the moduli of 3, 4 and 8 bits. `Algebra`, `Elimination` and `ErasureCode` work over an abstract field: Gauss-Jordan
elimination without pivoting keeps solutions and never meets a zero pivot, because every square submatrix of the reduced
Vandermonde matrix is non-singular. `MatrixSolver` and `RseCoder` are the coder's own loops over arrays; `RseBlock`,
`RseRecovery`, `RseRoundTrip` and `RseSession` lead to the main theorem, `EncodeLoseDecode`: whatever packets are lost, as
long as enough parity is left, decoding restores every data packet, byte for byte and with its length.
`GeneratorMatrix` and `StreamingEncoder` are the FPGA encoder with its own generator and reused buffers, tied to the batch code, `FecBooster` the CPU booster's packet buffer, and
`DecoderCollector` the FPGA decoder's block collector with its FIFOs.

**Header compression.** `HeaderCompression` models both ends of the TCP/IP header compressor. Whole streams come out as
they went in if and only if every frame is restorable at its turn, a condition on frame and cache that a sender can check.

**Fat-tree generator.** `FatTree`, `FatTreeBuilder` and `FatTreeRouting`: wiring and two-level routing for every even k,
from the loops that make the links to delivery between any two hosts.

**Flight planner.** `ProofRules` and `Prover` are the memoised, depth-bounded prover; `PlanState`, `PlanOrder`, `Planner`
and `PlanSearch` the search over partial allocations, the charging of devices and the dominance order.

**Hash table.** `LinkedLists`, `HashBuckets`, `HashExpand` and `HashTable` model uthash through its link fields, bucket
array and counters, down to the pushing of items during expansion, and prove that it is a finite map.

**Others.** `ExternActions`, `ExternTables`, `ExternMeaning`, `ExternRuns` and `ExternLosses` are the rewriting of bmv2
programs that isolates externs, one after the other;
`WordStream` and `KeyCache` the memcached pipeline from the frame to its direct-mapped key cache; `SpanningTree`
the control spanning tree and the feedback indices computed from it.

Where the code does not do what its comments or tests suggest, the model follows the code and the exact condition is
proved: a changed time to live is lost by the header compressor (`ChangedTtl`); a second parity packet can leave a packet
of the old block in the decoder's FIFO, and with k = 1 a block that its first packet completes is not output
(`NewBlockClean`, `OverfullLeft`);
an extern that occurs twice in an action is dropped once by the rewriting (`PartsSame`), an action that two externs cut
loses the second one or never ends (`TwoSplits`), and the successor dictionary loses its entry when the extern comes first
(`SuccessorKept`); a key whose delimiter is in the packet's last word leaves a stray word in the stream (`ParseKey`), and
keys that differ in trailing NULs can share their key words (`SameWordsExactly`).

Exceptions, failed assertions and null pointers of the original become a `Thrown` or `Raised` result. Numbers of the
planner are reals. Heap cells that the original links by pointers are ids into maps, one map per field.

## Model

| member | source | states |
|---|---|---|
| `GaloisField.MulComm` | FPGA/RSEVivadoHLS/Encoder.c:69-88 | shift-and-add multiplication is commutative on all pairs of symbols of any width |
| `GaloisField.MulAssoc` | FPGA/RSEVivadoHLS/Encoder.c:69-88 | and associative |
| `GaloisField.MulAddLeft` | FPGA/RSEVivadoHLS/Encoder.c:64-88 | and distributes over exclusive or |
| `GaloisField.ExpAdd` | FPGA/RSEVivadoHLS/Encoder.c:147-159 | the product of two powers of 2 is the power with the exponents added |
| `GaloisField.ExpInjective` | cpuBoosters/profilingTools/rse.bkp.c:132-160 | with a primitive modulus no power of 2 below N repeats, so the log table is well defined |
| `GaloisField.ExpSurjective` | cpuBoosters/profilingTools/rse.bkp.c:132-160 | every non-zero symbol is a power of 2, so every log entry is filled |
| `GaloisField.InvCorrect` | FPGA/RSEVivadoHLS/Encoder.c:97-104 | the power N - 2 is the multiplicative inverse of every non-zero symbol |
| `GaloisField.InvByLog` | FPGA/RSEVivadoHLS/Encoder.c:170-174 | the inverse from the exponent table at N - 1 - log is the same |
| `GaloisField.InverseUnique` | FPGA/RSEVivadoHLS/Encoder.c:97-104 | a symbol has only one inverse |
| `GfTables.Tables.constructor` | cpuBoosters/profilingTools/rse.bkp.c:132-160 | after table generation the exponent, logarithm and inverse arrays hold exactly the powers of 2, their logarithms and the inverses |
| `GfTables.Tables.FillLogs` | FPGA/RSEVivadoHLS/Encoder.c:147-168 | the loop that fills exponents and logarithms, against the powers of 2 |
| `GfTables.Tables.FillInverses` | FPGA/RSEVivadoHLS/Encoder.c:170-174 | the inverse table, against the power N - 2 |
| `GfTables.Tables.Mult` | cpuBoosters/profilingTools/rse.bkp.c:59-74 | a table lookup of added logarithms is shift-and-add multiplication, zero factors included |
| `GfTables.TableMultiply` | FPGA/RSEVivadoHLS/Encoder.c:91-95 | adding logarithms modulo N - 1 multiplies, for all pairs |
| `GfTables.InvInvolution` | cpuBoosters/profilingTools/rse.bkp.c:132-160 | inverting twice gives the symbol back |
| `PrimitiveWidths.WidthThree` | cpuBoosters/profilingTools/rse.bkp.c:84-101 | 2 is primitive for the 3-bit modulus, so the field theorems are not empty |
| `PrimitiveWidths.WidthFour` | cpuBoosters/profilingTools/rse.bkp.c:84-101 | 2 is primitive for the 4-bit modulus |
| `PrimitiveWidths.WidthEight` | FPGA/RSEVivadoHLS/Encoder.c:122-143 | 2 is primitive for the 8-bit modulus, so the theorems about the streaming encoder and the boosters are not empty |
| `MatrixSolver.GaloisIsField` | FPGA/RSEVivadoHLS/Encoder.c:69-104 | exclusive or, table multiplication and inversion form a field |
| `Elimination.StepsSolves` | cpuBoosters/profilingTools/rse.bkp.c:271-341 | after k rounds any first r >= k equations have exactly the solutions they started with |
| `Elimination.PivotNonzero` | cpuBoosters/profilingTools/rse.bkp.c:271-341 | if every leading block is non-singular, the pivot of every round is non-zero |
| `Elimination.StepsCleared` | cpuBoosters/profilingTools/rse.bkp.c:271-341 | after k rounds the first k columns are zero off the diagonal and non-zero on it |
| `Elimination.SolveReduced` | cpuBoosters/profilingTools/rse.bkp.c:271-341 | without pivoting the left block ends as the identity |
| `Elimination.SolveSolves` | cpuBoosters/profilingTools/rse.bkp.c:271-341 | the reduced system has exactly the solutions of the original one |
| `MatrixSolver.MatrixSolve` | cpuBoosters/profilingTools/rse.bkp.c:271-341 | the in-place nested loops over the array compute exactly that elimination |
| `MatrixSolver.NormalizePass` | cpuBoosters/profilingTools/rse.bkp.c:280-315 | scaling all rows of a column in place, row by row, with the others untouched |
| `MatrixSolver.EliminatePass` | cpuBoosters/profilingTools/rse.bkp.c:280-315 | adding the pivot row to every row that needs it, in place |
| `ErasureCode.VandermondeKernel` | cpuBoosters/profilingTools/rse.bkp.c:381-406 | a vector on at most as many columns as there are Vandermonde rows, in the kernel of them, is zero |
| `ErasureCode.CodewordWeight` | cpuBoosters/profilingTools/rse.bkp.c:381-406 | a codeword with at most h non-zero symbols is zero: the code is maximum distance separable |
| `ErasureCode.DataKernel` | cpuBoosters/profilingTools/rse.bkp.c:381-406 | every square submatrix of the systematic weights is non-singular |
| `ErasureCode.WeightsGood` | cpuBoosters/profilingTools/rse.bkp.c:381-406 | the generated weights are reduced and make every selection of equations leading-non-singular |
| `ErasureCode.EquationsLeading` | cpuBoosters/profilingTools/rse.bkp.c:830-842 | whatever packets are wanted and whatever parity is used, elimination of the code equations meets no zero pivot |
| `ErasureCode.Recovered` | cpuBoosters/profilingTools/rse.bkp.c:817-894 | solving the selected equations yields the wanted symbols of any word that satisfies them |
| `RseRecovery.EncodeResult` | cpuBoosters/profilingTools/rse.bkp.c:850-1015 | every wanted parity packet receives its symbol of the codeword of the data packets |
| `RseRecovery.DecodeResult` | cpuBoosters/profilingTools/rse.bkp.c:850-1015 | every wanted packet receives its symbol of the codeword that the known packets agree with |
| `RseRoundTrip.Written` | cpuBoosters/profilingTools/rse.bkp.c:900-932 | a wanted packet holds the computed symbols at all positions done |
| `RseRoundTrip.WriteAllFrame` | cpuBoosters/profilingTools/rse.bkp.c:900-932 | packets that are not wanted stay as they are |
| `RseRoundTrip.DataLength` | cpuBoosters/profilingTools/rse.bkp.c:900-932 | the length of a decoded data packet, built up digit by digit, is its true length |
| `RseRoundTrip.EncodedParity` | cpuBoosters/profilingTools/rse.bkp.c:937-1015 | after encoding every parity packet holds the codeword's symbols over its whole length |
| `RseRoundTrip.DecodedPacket` | cpuBoosters/profilingTools/rse.bkp.c:937-1015 | a decoded data slot holds its packet byte for byte, with its length |
| `RseRoundTrip.EncodeLoseDecode` | cpuBoosters/profilingTools/rse.bkp.c:653-677 | for all packets of any lengths and every loss pattern that leaves at least as many parity packets as data packets are missing, encoding, losing and decoding restores every data packet exactly |
| `RseCoder.CodewordsGenerate` | cpuBoosters/profilingTools/rse.bkp.c:381-406 | the generated weight array is the reduced Vandermonde matrix |
| `RseCoder.TypesFind` | cpuBoosters/profilingTools/rse.bkp.c:653-677 | one pass collects the known, wanted and parity slots in order |
| `RseCoder.Coder.GenerateEquations` | cpuBoosters/profilingTools/rse.bkp.c:830-842 | the coefficient array is filled with the selected columns of the weights |
| `RseCoder.Coder.MatrixMultiply` | cpuBoosters/profilingTools/rse.bkp.c:850-894 | the accumulated constants are the inner products over the known packets |
| `RseCoder.Coder.WriteWanted` | cpuBoosters/profilingTools/rse.bkp.c:900-932 | one symbol per wanted packet is written, in place |
| `RseCoder.Coder.RseCode` | cpuBoosters/profilingTools/rse.bkp.c:937-1015 | the whole coder: returns the check's code, and on success the block is the specified result, in both modes |
| `RseSession.Delete` | cpuBoosters/profilingTools/rse.bkp.c:571-595 | deleting packets turns lost data into wanted, lost parity into ignored, generated parity into known, and nothing else |
| `RseSession.Restored` | cpuBoosters/profilingTools/rse.bkp.c:571-595 | after encoding and any deletion, a decodable block is restored |
| `RseSession.Session` | cpuBoosters/profilingTools/rse.bkp.c:937-1015 | a run of the coder object: encode, delete any packets, decode; if both succeed all data is held again |
| `StreamingEncoder.IncrementalEncode` | FPGA/RSEVivadoHLS/Encoder.c:229-248 | one symbol is added into every parity row, or replaces stale contents when clearing |
| `StreamingEncoder.Encoder.EncodeByte` | FPGA/RSEVivadoHLS/RSECore.c:102-160 | the running parity covers one more byte of the packet, also where the buffer held stale bytes; the offsets below the maximum length that are still to come keep their parity |
| `StreamingEncoder.Encoder.EncodeLength` | FPGA/RSEVivadoHLS/RSECore.c:102-160 | the two length symbols are covered too |
| `StreamingEncoder.Encoder.EncodePacket` | FPGA/RSEVivadoHLS/RSECore.c:102-160 | after a packet the buffer below the maximum length is the parity of all packets so far, zero-padded |
| `StreamingEncoder.Encoder.EmitFrame` | FPGA/RSEVivadoHLS/RSECore.c:162-220 | the words emitted for a parity row carry the header, the length parity and the parity bytes in order |
| `StreamingEncoder.Encoder.OutputParity` | FPGA/RSEVivadoHLS/RSECore.c:162-220 | each call emits the next parity row of the block |
| `StreamingEncoder.Encoder.Core` | FPGA/RSEVivadoHLS/RSECore.c:222-245 | the block state machine: k packets in, h parity packets out, then a new block |
| `StreamingEncoder.BeyondMax` | FPGA/RSEVivadoHLS/RSECore.c:102-160 | beyond the longest packet all parity is zero |
| `GeneratorMatrix.GenerateGenerator` | FPGA/RSEVivadoHLS/Encoder.c:176-214 | the FPGA generator matrix, with its own rounds and closing pass over all rows, is exactly the data columns of the systematic weights of the batch coder |
| `GeneratorMatrix.DividedIsFinish` | FPGA/RSEVivadoHLS/Encoder.c:208-213 | dividing every row by its diagonal entry, the bottom one included, is the closing pass of the batch coder |
| `StreamingEncoder.StreamIsBatch` | FPGA/RSEVivadoHLS/RSECore.c:102-220 | with that generator the streamed parity, of the bytes and of the lengths alike, is the parity symbol that completes the packets' symbols to a codeword of the batch code |
| `FecBooster.StoredRetrieved` | cpuBoosters/fecBoosters/fecBooster.c:154-203 | what is stored with its size in front is retrieved as the same frame and size |
| `FecBooster.Insert` | cpuBoosters/fecBoosters/fecBooster.c:154-180 | a frame enters its own slot and nothing else changes |
| `FecBooster.CanDecode` | cpuBoosters/fecBoosters/fecBooster.c:569-597 | true exactly if no more data packets are missing than parity packets are present |
| `FecBooster.Populate` | cpuBoosters/fecBoosters/fecBooster.c:271-358 | data slots: present packets are known with their bytes, missing ones are wanted |
| `FecBooster.PopulateParity` | cpuBoosters/fecBoosters/fecBooster.c:271-358 | parity slots: every present parity packet is known, the rest ignored |
| `FecBooster.Accepted` | cpuBoosters/fecBoosters/fecBooster.c:271-358 | a populated block for which decoding is possible passes the coder's check |
| `FecBooster.AllStored` | cpuBoosters/fecBoosters/fecBooster.c:84-103 | decoding the populated block puts every original stored frame back |
| `FecBooster.DecodeBlock` | cpuBoosters/fecBoosters/fecBooster.c:84-103 | if decoding is possible, the coder accepts and afterwards every data index gives the original frame and size |
| `HeaderCompression.Ccsum` | cpuBoosters/vjCompressor/vjCompression.cpp:48-71 | the checksum loop computes the one's complement of the folded word sum |
| `HeaderCompression.CompressedParts` | cpuBoosters/vjCompressor/vjCompression.cpp:219-247 | the parts of a compressed frame can be read back from it for all four forms of header |
| `HeaderCompression.RebuiltIp` | cpuBoosters/vjCompressor/vjCompression.cpp:350-410 | the rebuilt IP header is the frame's own exactly if the fixed fields and the checksum match |
| `HeaderCompression.HitFrame` | cpuBoosters/vjCompressor/vjCompression.cpp:85-410 | a frame sent compressed comes back, exactly if it is restorable, and the caches stay in step |
| `HeaderCompression.OneFrame` | cpuBoosters/vjCompressor/vjCompression.cpp:85-410 | one frame through both ends: identity if and only if it is restorable |
| `HeaderCompression.StreamRestored` | cpuBoosters/vjCompressor/vjCompression.cpp:85-410 | a whole in-order stream comes out unchanged if and only if every frame is restorable at its turn, and then both caches agree slot by slot |
| `HeaderCompression.ChangedTtl` | cpuBoosters/vjCompressor/vjCompression.cpp:197-212 | two frames of a flow that differ in time to live come out of the two ends different from how they went in, since the cache check does not compare it |
| `HeaderCompression.RebuiltVerifies` | cpuBoosters/vjCompressor/vjCompression.cpp:350-410 | a rebuilt header passes the checksum verification of the Internet Protocol |
| `HeaderCompression.Compressor.Send` | cpuBoosters/vjCompressor/vjCompression.cpp:85-189 | the compressor object performs the compression step on its cache |
| `HeaderCompression.Decompressor.Receive` | cpuBoosters/vjCompressor/vjCompression.cpp:261-346 | the decompressor object performs the decompression step on its cache |
| `HeaderCompression.StartInStep` | cpuBoosters/vjCompressor/vjCompression.cpp:197-212 | zeroed caches start in step |
| `FatTree.PeerInvolution` | Wharf/generate_alv_network.py:277-349 | the wiring is an involution without fixed points on exactly the ports 1 to k of switches and port 1 of hosts |
| `FatTree.LinkStep` | Wharf/generate_alv_network.py:277-289 | each link finds both of its ports free, so the assertions never fail |
| `FatTree.AddressInjective` | Wharf/generate_alv_network.py:222-317 | no two elements share an address |
| `FatTreeBuilder.Network.LinkAt` | Wharf/generate_alv_network.py:277-289 | the link of a moment finds both of its ports free, and afterwards exactly the ports of all moments so far are linked, each to its peer |
| `FatTreeBuilder.Network.WireEdge` | Wharf/generate_alv_network.py:306-326 | the hosts of an edge switch are linked and given their default route |
| `FatTreeBuilder.Network.WireAgg` | Wharf/generate_alv_network.py:334-347 | the uplinks and downlinks of an aggregation switch |
| `FatTreeBuilder.Network.MakePod` | Wharf/generate_alv_network.py:291-349 | a pod adds exactly its own links and puts each of its switches once on the worklist |
| `FatTreeBuilder.Network.CoreRoutes` | Wharf/generate_alv_network.py:235-240 | every core switch gets one prefix per pod |
| `FatTreeBuilder.Network.PodTable` | Wharf/generate_alv_network.py:244-275 | the rule list of a pod switch, built by looking at its links |
| `FatTreeBuilder.Network.PodRoutes` | Wharf/generate_alv_network.py:244-275 | every pod switch gets its rules exactly once |
| `FatTreeBuilder.Network.Build` | Wharf/generate_alv_network.py:351-356 | the generator ends with all ports wired to their peers and all tables complete, for every even k |
| `FatTreeRouting.SuffixBijection` | Wharf/generate_alv_network.py:255-275 | for a fixed switch the suffix rules map host ids one-to-one onto its uplinks |
| `FatTreeRouting.EdgeUp` | Wharf/generate_alv_network.py:245-258 | an edge switch sends any destination outside its subnet by the suffix rule |
| `FatTreeRouting.AggDown` | Wharf/generate_alv_network.py:259-264 | an aggregation switch sends destinations in its pod to their subnet's edge switch |
| `FatTreeRouting.Delivery` | Wharf/generate_alv_network.py:235-275 | between any two distinct hosts, first-match forwarding without default routes arrives in exactly 2, 4 or 6 links and visits no element twice |
| `Prover.CheckBounds` | flightplanner/proof.cpp:36-40 | true exactly if all bounds hold; throws only if one of them is undefined |
| `Prover.SelectRule` | flightplanner/proof.cpp:67-76 | the scan selects the first instance with the most hypotheses |
| `Prover.MultiplyOut` | flightplanner/proof.cpp:121-133 | the bounded product keeps an alternative for every sub-proof and is never empty |
| `Prover.Prover.Prove` | flightplanner/proof.cpp:24-153 | every returned proof is a well-formed derivation; a goal derivable within the remaining depth gets one; the cache keeps its entries and only ever holds non-empty lists of proofs; only an undefined bound throws |
| `Prover.Prover.Hypotheses` | flightplanner/proof.cpp:95-136 | alternatives for all hypotheses of a rule, or none if one of them has no proof |
| `Prover.Prover.SubProofs` | flightplanner/proof.cpp:105-119 | proofs of a hypothesis, cached or new, are sound, and there is one if it is derivable within the depth that is left |
| `Prover.ProofTrue` | flightplanner/proof.cpp:24-153 | the conclusion of every proof lies in every set of properties closed under the usable rules |
| `Prover.ProofDerivable` | flightplanner/proof.cpp:24-153 | a proof of some height is a derivation of that height |
| `Prover.DerivableProof` | flightplanner/proof.cpp:24-153 | and whatever is derivable within a height has a proof no higher |
| `PlanState.RunOps` | flightplanner/parsing.cpp:126-184 | the loop over operations of a rule: sums and products start from the state before the rule, a device is charged once |
| `PlanState.TransformLawful` | flightplanner/table.h:380-393 | whatever a proof charges, the total of a once-only bound stays the sum over devices and no device pays twice |
| `PlanOrder.Compare` | flightplanner/plan.cpp:24-65 | dominance of solutions: terminal states and totals, objective by objective; unequal numbers of terminal tips are refused |
| `PlanOrder.InsertOrdered` | flightplanner/plan.cpp:67-90 | inserting before the first solution that is not better keeps the order, although dominance is only partial |
| `PlanOrder.OrderSolutions` | flightplanner/plan.cpp:67-97 | the result is a permutation in which no later solution strictly dominates an earlier one, or the reverse of such a one |
| `PlanOrder.FrontUndominated` | flightplanner/plan.cpp:577-580 | the greedy choice is strictly dominated by no candidate |
| `Planner.AdvanceGood` | flightplanner/plan.cpp:220-241 | a new allocation keeps every segment in place, every charge, and the balance of the books |
| `Planner.TargetsAt` | flightplanner/plan.cpp:281-294 | the targets at a device are the far ends of the links to it: every joining link exactly once, in order, and nothing else |
| `PlanSearch.Search.CanProceed` | flightplanner/plan.cpp:118-202 | true if and only if the bounds of port, device and solution hold, the single allocation is free and the device is not excluded; throws only if one of those bounds is undefined |
| `PlanSearch.Search.TryProp` | flightplanner/plan.cpp:101-243 | exactly one new solution per proof, in order; none if the target does not fit, at least one if it does and the segment is derivable there; the link is charged exactly if there is a proof; the assertions about the link and the allocation never fail |
| `PlanSearch.Search.Targets` | flightplanner/plan.cpp:427-478 | a segment already allocated is tried at its own device only, over every joining link; a new one where the packet is, and from the focus switch over every link to a supporting device |
| `PlanSearch.Search.Next` | flightplanner/plan.cpp:344-480 | all successors of a tip are good and extend their parent |
| `PlanSearch.Search.Prune` | flightplanner/plan.cpp:577-580 | greedy search keeps one candidate that no other strictly dominates |
| `PlanSearch.Search.Plan` | flightplanner/plan.cpp:526-590 | over the whole search every candidate and every solution satisfies the invariant, and the generations form a run |
| `PlanSearch.NeverMoved` | flightplanner/plan.cpp:220-241 | over any run, every candidate keeps the allocations and once-only charges of an ancestor in every earlier generation |
| `DecoderCollector.Collect` | FPGA/DecoderVivadoHLS/Decoder.cpp:114-195 | a packet enters the FIFOs or is dropped, the 8-bit counters advance, the command is chosen |
| `DecoderCollector.SelectPackets` | FPGA/DecoderVivadoHLS/Decoder.cpp:197-242 | a command takes its packets with their words off the FIFOs; parity is not sent on raw |
| `DecoderCollector.ReadsRun` | FPGA/DecoderVivadoHLS/Decoder.cpp:197-242 | FIFOs that start with the packets of a block give exactly them back |
| `DecoderCollector.Decoder.Process` | FPGA/DecoderVivadoHLS/Decoder.cpp:54-242 | the FIFOs hold exactly the current block, or nothing once it is done; no read starves; each command sends on the packets of its own block; other classes are untouched |
| `DecoderCollector.Decoder.Receive` | FPGA/DecoderVivadoHLS/Decoder.cpp:54-242 | the same over whole streams, with the commands told from the packets alone |
| `DecoderCollector.OneParityOrderly` | FPGA/DecoderVivadoHLS/Decoder.cpp:103-112 | with one parity packet and no repeated index no block ends overfull and no counter overflows |
| `DecoderCollector.NewBlockClean` | FPGA/DecoderVivadoHLS/Decoder.cpp:54-101 | a new block finds the FIFO clean if and only if the old block was not overfull and one packet does not complete a block |
| `DecoderCollector.OverfullLeft` | FPGA/DecoderVivadoHLS/Decoder.cpp:54-101 | for every overfull block: exactly its packets beyond the first k stay in front of the packet that starts the next block |
| `DecoderCollector.Surplus` | FPGA/DecoderVivadoHLS/Decoder.cpp:54-242 | such a state is reached from the start: after receiving an overfull block and a packet of another one, the FIFOs hold the surplus of the first while the counter says one packet |
| `DecoderCollector.TwoParities` | FPGA/DecoderVivadoHLS/Decoder.cpp:54-101 | one of two data packets and two parity packets make an overfull block |
| `SpanningTree.GetFromSegment` | Wharf/fpctl.py:263-274 | the one segment that progresses to a segment; an error if and only if there are two, nothing if there is none |
| `SpanningTree.FindNeighbour` | Wharf/fpctl.py:284-300 | the switch that the last interface on the port leads to and the port that leads back, or nothing if no interface is on it |
| `SpanningTree.Traversal.Visit` | Wharf/fpctl.py:276-304 | the traversal terminates, enters every switch once and records every control edge of every switch it enters once; it raises only at a switch that is reachable and faulty |
| `SpanningTree.ControlSpanningTree` | Wharf/fpctl.py:276-304 | succeeds if and only if every reachable switch has state, one source per segment and neighbours that resolve; then the entries that are not loops form a tree over exactly the switches reachable from the start |
| `SpanningTree.Covers` | Wharf/fpctl.py:276-304 | visited once, and visited if and only if reachable |
| `SpanningTree.FeedbackAckNak` | Wharf/fpctl.py:198-205 | one backward row per tree entry into the switch, numbered in order |
| `SpanningTree.FeedbackAckReq` | Wharf/fpctl.py:206-214 | one forward row per distinct next segment, numbered on from there |
| `SpanningTree.FeedbackTables` | Wharf/fpctl.py:216-222 | over both tables the indices are exactly 0 to n - 1 |
| `SpanningTree.OneParent` | Wharf/fpctl.py:198-304 | in a spanning tree the start has no backward row and every other switch exactly one |
| `LinkedLists.PushBackIsList` | kvstore/uthash.h:278-284 | appending at the tail keeps a consistent doubly linked list |
| `LinkedLists.UnlinkIsList` | kvstore/uthash.h:450-477 | joining the neighbours of an item leaves a consistent list of the others |
| `HashBuckets.MaskIsMod` | kvstore/uthash.h:430-433 | the mask is the remainder by the number of buckets |
| `HashBuckets.ChainedAdd` | kvstore/uthash.h:849-868 | adding to a bucket keeps every item once in its bucket and the counts adding up to the number of items |
| `HashBuckets.ChainedDel` | kvstore/uthash.h:871-883 | and so does removing from one |
| `HashExpand.Expand` | kvstore/uthash.h:915-963 | doubling moves every item once into its new bucket; the ideal chain length is the ceiling and the statistics are exact |
| `HashExpand.MoveChain` | kvstore/uthash.h:934-950 | one old chain is followed while its items are pushed elsewhere |
| `HashExpand.IdealIsCeiling` | kvstore/uthash.h:925-927 | shift and mask compute the ceiling of items over buckets |
| `HashTable.FindInBucket` | kvstore/uthash.h:827-846 | the walk finds the item with the key if the chain has one |
| `HashTable.Table.Find` | kvstore/uthash.h:156-166 | exactly the item of the key in the map view |
| `HashTable.Table.Add` | kvstore/uthash.h:396-416 | an absent key is added to the map view and to the end of the list, expansion included |
| `HashTable.Table.ExpandTable` | kvstore/uthash.h:915-963 | the table expands, and stops expanding after two ineffective expansions |
| `HashTable.Table.Delete` | kvstore/uthash.h:450-477 | one item leaves list, bucket and map view; the last one takes the table with it |
| `ExternActions.CutPrimitives` | Wharf/split_extern_event.py:66-73 | the loop over primitives, in which a later extern replaces an earlier one |
| `ExternActions.PartsSame` | Wharf/split_extern_event.py:58-106 | the parts of an action run the same primitives in the same order if and only if the extern occurs at most once |
| `ExternActions.NewActionsGood` | Wharf/split_extern_event.py:55-107 | action ids stay equal to positions, the extern is alone, and externs that were alone stay alone |
| `ExternActions.NewActionsOnce` | Wharf/split_extern_event.py:55-107 | other externs still occur at most once per action |
| `ExternActions.AllIsolated` | Wharf/split_extern_event.py:178-180 | after all externs have been split, each is alone in every action |
| `ExternTables.SplitOne` | Wharf/split_extern_event.py:58-106 | the script builds exactly the named and numbered parts of an action |
| `ExternTables.SplitActions` | Wharf/split_extern_event.py:55-107 | the new action list, the id map, the split counts and the labels |
| `ExternTables.ExtendTable` | Wharf/split_extern_event.py:131-152 | a chain of tables with consecutive ids and actions, linked by default successors, ending at the old successor |
| `ExternTables.SplitTables` | Wharf/split_extern_event.py:109-154 | every table is replaced by its chain |
| `ExternMeaning.TableRuns` | Wharf/split_extern_event.py:109-154 | running a table's chain runs the table's primitives and reaches its successor |
| `ExternMeaning.SameRun` | Wharf/split_extern_event.py:40-154 | one call, on a condition about the program before it: for any number of tables run before, some number run after has executed the same primitives and come to the same successor |
| `ExternMeaning.TableIdsCount` | Wharf/split_extern_event.py:109-154 | table ids go on counting positions through the pipelines |
| `ExternMeaning.SuccessorKept` | Wharf/split_extern_event.py:150-152 | the last table of a chain keeps an entry for its own label among its successors if and only if the extern does not come first in the action |
| `ExternMeaning.Program.SplitOp` | Wharf/split_extern_event.py:40-154 | one call rewrites the actions and every pipeline |
| `ExternRuns.ActionsKept` | Wharf/split_extern_event.py:55-107 | the conditions on the actions hold again after a split, for the externs still to come |
| `ExternRuns.PipelineKept` | Wharf/split_extern_event.py:109-154 | and so do the conditions on the tables of a pipeline, names included |
| `ExternRuns.SplitKept` | Wharf/split_extern_event.py:40-154 | if no part that a split makes is split again, one split leaves the program ready for all the other externs and keeps every run |
| `ExternRuns.SplitOps` | Wharf/split_extern_event.py:178-180 | the whole loop over externs, on conditions about the original program: every pipeline goes on running the primitives it ran, from every starting point its new names avoid |
| `ExternLosses.TwoSplits` | Wharf/split_extern_event.py:178-180 | for a program of one table, any action and any two externs: both splits go through, and the run stays complete if and only if no part made by the first is split by the second |
| `ExternLosses.SecondHalfLost` | Wharf/split_extern_event.py:121-128 | a later part that is split again: its table is not found, and no number of steps runs all primitives to the end |
| `ExternLosses.FrontLoops` | Wharf/split_extern_event.py:132-143 | the first part split again: names are given twice, the new chain leads back into itself, and no run ever ends |
| `ExternLosses.TwoExternsLost` | Wharf/split_extern_event.py:178-180 | the smallest case, two externs each with a primitive before it: split in their order, the last extern is never run; split the other way round, the run never ends |
| `WordStream.Align` | FPGA/MemcachedVivadoHLS/MemHLS.cpp:143-205 | the alignment loop outputs the rest of the first word and all following bytes, with one end mark on the last word |
| `WordStream.ParseHeaders` | FPGA/MemcachedVivadoHLS/MemHLS.cpp:143-205 | the stream without its first 42 bytes |
| `WordStream.ParseMemcachedHeader` | FPGA/MemcachedVivadoHLS/MemHLS.cpp:206-235 | the stream without its first 8 bytes |
| `WordStream.ParseCommand` | FPGA/MemcachedVivadoHLS/MemHLS.cpp:236-354 | the command is recognised and exactly its bytes are dropped; other packets are consumed |
| `WordStream.RemoveFlags` | FPGA/MemcachedVivadoHLS/MemHLS.cpp:532-608 | four or two bytes are dropped from packets that carry data |
| `KeyCache.FindDelimiter` | FPGA/MemcachedVivadoHLS/MemHLS.cpp:17-27 | the first delimiter of a word, or 8 |
| `KeyCache.ScanKey` | FPGA/MemcachedVivadoHLS/MemHLS.cpp:381-440 | the key words are the whole words before the first delimiter, wherever it is, and the front of its own word |
| `KeyCache.ParseKey` | FPGA/MemcachedVivadoHLS/MemHLS.cpp:355-470 | for every packet: the key words are those of the bytes before the first delimiter; the stream goes on right after it unless the delimiter is in the last word, and then what is left of that word goes out as a stray word with no length or end mark |
| `KeyCache.DelimiterPosition` | FPGA/MemcachedVivadoHLS/MemHLS.cpp:355-470 | the delimiter the word scan finds, in any word, is the first one in the byte stream |
| `KeyCache.BeginsUnique` | FPGA/MemcachedVivadoHLS/MemHLS.cpp:500-530 | zero-padded key words are prefix-free for keys without NUL, whatever stale words follow |
| `KeyCache.SameWordsExactly` | FPGA/MemcachedVivadoHLS/MemHLS.cpp:500-530 | two keys have the same key words if and only if they take as many words and differ only in trailing NULs |
| `KeyCache.NulHidden` | FPGA/MemcachedVivadoHLS/MemHLS.cpp:500-530 | one trailing NUL is invisible if and only if it does not start a word |
| `KeyCache.Cache.StoreKey` | FPGA/MemcachedVivadoHLS/MemHLS.cpp:471-531 | storing overwrites a slot from the front |
| `KeyCache.Cache.CompareKey` | FPGA/MemcachedVivadoHLS/MemHLS.cpp:471-531 | the comparison word by word is a comparison with the last key stored in the slot |
| `KeyCache.ServeFrame` | FPGA/MemcachedVivadoHLS/MemHLS.cpp:143-531 | one frame through header, command, key and cache stages: the answer and the new cache contents, told from the bytes of the frame |
| `KeyCache.Serve` | FPGA/MemcachedVivadoHLS/MemHLS.cpp:143-531 | over any run of set, value and get frames a get is a hit exactly if the last store to its slot had the same key, a miss exactly if there was none |

## Left out

- Primitivity for symbols of 5, 6, 7 and 16 bits: that 2 generates all non-zero symbols for the moduli of these widths is a hypothesis of the field theorems, as it is in the sources; it is proved for 3, 4 and 8 bits.
- RseCoder.Coder.RseCode: the symbol type is taken to be exactly FEC_M bits wide and FEC_MAX_N below FEC_N; at equality, which the bounds check admits, column numbers leave the field.
- RseCoder.Coder.RseCode: packet contents are values inside the block; that the booster's block points into its own packet buffer is modelled by an explicit copy back.
- FecBooster.DecodeBlock: one port, class and block at a time, frames stored at offset zero, and no earlier recovered entry in the block.
- StreamingEncoder.Encoder.Core: k and h stay the same during a block, and the Ethernet and FEC fields of the output tuple are not modelled.
- The precomputed multiplication table of the coder: another form of the same arithmetic.
- GeneratorMatrix.GenerateGenerator: multiplies and inverts by table where the original uses its slow loops; the two are proved equal.
- HeaderCompression.StreamRestored: frames of at most 1500 bytes on a little-endian host; reads beyond the end of a short frame are excluded.
- FatTreeRouting.Delivery: addresses have unbounded octets, so the limit of k to one octet is not modelled; MAC addresses, ARP and switching rules are left out.
- Prover.Prover.Prove: a proof that uses cached sub-proofs may be higher than the depth limit; no bound on the height of results is stated.
- PlanSearch.Search.Plan: a first step without any proof, which the original answers with a null candidate, ends the search with an exception; solutions are values without identity.
- DecoderCollector.Decoder.Process: k is the same for all packets of a class, and bypassed packets are left out because they do not touch the class.
- SpanningTree.ControlSpanningTree: names and dictionaries only; which of its exceptions a failing traversal raises is not told apart.
- HashTable.Table.Add: out-of-memory paths, the bloom filter and the sorted variants are left out, the hash function is arbitrary, and counters do not wrap.
- ExternRuns.SplitOps: runs follow default actions and default successors, a table that names a split action has only that action, and the names that new actions and tables are given are not in use before.
- ExternLosses.TwoSplits: the converse is stated for a pipeline of one table that ends; with more tables, later ones can run the lost primitives by coincidence.
- KeyCache.Serve: delete requests leave the state of the comparison undefined in the original and are left out, as are frames with a known command and no delimiter after it, keys with a NUL or of more than 32 words, and request lines of a single word, after which the original reads on into the next frame; the slot index is an arbitrary function of the key words below the number of slots.
- WordStream.ParseHeaders: packets that end inside the header, for which the original emits an uninitialised word.
- Tagging and stripping of Wharf frames, the FPGA decoder's arithmetic and header stages, link accounting and coarsening in the planner, and all input, output and command-line code.
