# RINASim: verified models of its stateful cores

RINASim simulates a recursive network architecture. Most of it is plumbing between simulation
modules; this project models the parts where the result depends on state carried over many calls,
and proves what those parts are for.

| files | what they model |
|---|---|
| `Fips180.dfy`, `Fips180Constants.dfy`, `Fips180Example.dfy`, `Sha256.dfy` | The streaming SHA-256 context (`src/Common/SHA256.cc`), with its 128-byte buffer and 32-bit counters, against the Secure Hash Standard (FIPS 180-4) as a function of the whole message; what the constants are, and the standard's own example. |
| `DelimitingModel.dfy`, `DelimitingRuns.dfy`, `DelimitingBranches.dfy`, `Delimiting.dfy` | The delimiting task (`src/DIF/Delimiting`): a sender that fragments, concatenates and splits SDUs under a timer, a receiver that reassembles them, and every interleaving of the two over an in-order link, against a one-Data-at-a-time reference decoder. |
| `ShortestPaths.dfy`, `DirectedPaths.dfy`, `RelaxInPlace.dfy`, `ShortestPathExamples.dfy` | `iterateDM` (`src/Common/Utils.cc`): an unsigned-char distance matrix relaxed in place, against walks of the original matrix, symmetric or not. |
| `EnrollmentModel.dfy`, `EnrollmentRuns.dfy`, `EnrollmentFifo.dfy`, `EnrollmentCredentials.dfy`, `Enrollment.dfy` | The connect/authenticate/retry and enrollment handshake at both levels (`src/DAF/Enrollment`, `src/DIF/Enrollment`): one member and any number of initiators, over a network that loses, duplicates and reorders, and over FIFO channels. |
| `Text.dfy`, `Stats.dfy` | `split`/`join`/`isPrefix` over `getline`, and the comma-separated statistics table (`src/DAF/AE/Stats.cc`) built on it. |
| `CdapSplitter.dfy` | The CDAP splitter and its message log (`src/DAF/CDAP`), judged over whole histories. |

Each core appears twice where the source changes state: as a class or an in-place method with the
source's own fields, loops and branches, and as a function of values. The methods are proved to
compute the function, and the theorems are about the function. What a function means is stated once
more without it, in the terms of the fields, lengths, characters and numbers that go in and come out.

Six places where the code does not do what its name or its callers suggest are stated exactly, each with
an input that shows it:

- The padding of `final` is the standard's exactly for messages shorter than 2^29 bytes
  (`PaddingIsFipsIff`), and chunks are invisible exactly when no call makes the 32-bit sum
  `m_len + len` wrap (`ChunkingIsInvisibleIff`); a wrapping call takes nothing and drops buffered bytes.
- `iterateDM` writes the mirror entry without comparing it. It ends on every matrix and finds all
  distances on symmetric ones; on others it does so only if every detour that beats an edge is as short
  on the way back, which is also enough as long as nodes at distance 0 both ways are joined by zeros
  (`DistancesIff`, `AsymmetricExample`, `ZeroExample`).
- An initiator whose flow comes up again sends M_CONNECT again without counting a retry, so it has sent
  one more than its retries exactly when one flow came up (`RetriesAreBounded`).
- `split` loses an empty last piece and `join` appends nothing for a NUL delimiter
  (`JoinOfSplitIff`, `SplitOfJoinIff`).
- A statistics table survives saving and loading exactly when it has a column (or no rows) and no cell
  holds a comma or a newline (`RoundTripIff`).
- The message log keeps opcodes in an unsigned char, so that a response can pass for which there was no
  request exactly when some opcode is cut to the request of another (`TruthfulIff`).

Names follow the source. `Daf` and `Dif` are the application and the IPC level. `Apni` is a full
application naming information, `apn` its process name.

## Model

| member | source | states |
|---|---|---|
| Fips180.ZeroBitsIsSmallest | src/Common/SHA256.cc:127-139 | The number of padding zero bits is the least one that brings the length to 448 modulo 512, as section 5.1.1 of FIPS 180-4 asks. |
| Fips180.ZeroBytes | src/Common/SHA256.cc:133-139 | For whole bytes the zero bits are seven more than a multiple of eight, and padding plus an 8-byte length field completes a block. |
| Fips180.HashBlocksAppend | src/Common/SHA256.cc:52-88 | Compressing blocks is a fold: any grouping into calls gives the same state. |
| Fips180Constants.PrimesAreTheFirst | src/Common/SHA256.cc:34-50 | The 64 numbers that the constants are made from are the primes below 312, all of them and in order, by the definition of a prime. |
| Fips180Constants.ConstantsAreCubeRoots | src/Common/SHA256.cc:34-50 | Each of the 64 round constants is the first 32 bits of the fractional part of the cube root of its prime, as section 4.2.2 asks: (n 2^32 + K)^3 <= p 2^96 < (n 2^32 + K + 1)^3. |
| Fips180Constants.InitialWordsAreSquareRoots | src/Common/SHA256.cc:92-99 | The eight initial words are those of the square roots of the first eight primes, as section 5.3.3 asks. |
| Fips180Example.DigestInOrder | src/Common/SHA256.cc:141-143 | The digest is the eight words in order, each with its first byte foremost. |
| Fips180Example.AbcDigest | src/Common/SHA256.cc:146-161 | The hash of "abc" is the digest of the standard's example, all 32 bytes, by its padded block, 64 schedule words and 64 rounds. |
| Fips180Example.AbcPrinted | src/Common/SHA256.cc:156-160 | Printed, it is ba7816bf 8f01cfea 414140de 5dae2223 b00361a3 96177a9c b410ff61 f20015ad. |
| Sha256.MacrosAreFips | src/Common/SHA256.h:60-68 | The shift-and-or macros F1 to F4 equal the rotation functions of section 4.1.2, for every word. |
| Sha256.PackUnpack | src/Common/SHA256.h:69-82 | Packing four bytes and unpacking a word are inverse, both ways, big-endian. |
| Sha256.FillSchedule | src/Common/SHA256.cc:62-67 | The schedule filled in place holds the 64 words of the recursive message schedule. |
| Sha256.RunRounds | src/Common/SHA256.cc:71-83 | 64 rounds over the rotating eight-word array are 64 applications of the standard's round. |
| Sha256.Context.CompressBlock | src/Common/SHA256.cc:60-87 | One pass of the outer loop is the section 6.2.2 compression of one block. |
| Sha256.Context.AddBack | src/Common/SHA256.cc:84-86 | The state gains the working variables, word by word modulo 2^32. |
| Sha256.Context.Transform | src/Common/SHA256.cc:52-88 | For every number of blocks and every starting state, the new state is the fold of the compression over those blocks. |
| Sha256.Context.Init | src/Common/SHA256.cc:90-102 | The context stands for no bytes, in the section 5.3.3 initial state. |
| Sha256.Context.Update | src/Common/SHA256.cc:104-125 | A valid context stays valid, and stands for its former bytes followed by the chunk unless the 32-bit sum wraps; all buffer accesses are inside 128 bytes. |
| Sha256.Context.FlushBlocks | src/Common/SHA256.cc:116-124 | Once the buffer is full: its block and the whole blocks of the rest are compressed and the remainder is buffered. |
| Sha256.Context.PadBuffer | src/Common/SHA256.cc:136-139 | The buffer becomes the partial block, 0x80, zeros and the 32-bit bit count, filling one or two blocks. |
| Sha256.Context.Final | src/Common/SHA256.cc:127-144 | The digest is that of the absorbed bytes with the code's padding. |
| Sha256.Context.WriteDigest | src/Common/SHA256.cc:141-143 | The eight words are unpacked big-endian into 32 bytes. |
| Sha256.CodePad | src/Common/SHA256.cc:127-139 | Padding extends the message to whole blocks. |
| Sha256.PaddingIsFipsIff | src/Common/SHA256.cc:135-139 | The code's padding equals the standard's exactly for messages shorter than 2^29 bytes. |
| Sha256.LongMessageExample | src/Common/SHA256.cc:135-139 | 2^29 zero bytes are padded otherwise than the standard asks. |
| Sha256.ShortAbsorb | src/Common/SHA256.cc:109-115 | What an update that completes no block leaves in the buffer, wrapping sum included. |
| Sha256.LongAbsorb | src/Common/SHA256.cc:116-124 | What an update that completes blocks hashes and what it leaves. |
| Sha256.PadsToBlocks | src/Common/SHA256.cc:133-140 | One or two blocks are chosen so that the padding just fits, and hashing them completes the padded message's hash. |
| Sha256.BitCount | src/Common/SHA256.cc:133-139 | The 32-bit counters give the low word of the true bit count, whatever wrapped. |
| Sha256.ChunkingIsInvisibleIff | src/Common/SHA256.cc:104-125 | Any sequence of chunks is absorbed as its concatenation exactly when no call's 32-bit sum wraps; otherwise bytes are missing. |
| Sha256.WrappingChunksExample | src/Common/SHA256.cc:104-115 | Chunks of 1 and 2^32 - 1 bytes leave the context with no bytes at all. |
| Sha256.ShortNeverWraps | src/Common/SHA256.cc:104-112 | No call wraps while the whole input stays below 2^32 bytes. |
| Sha256.HashChunks | src/Common/SHA256.cc:146-161 | init, update on every chunk and final give the FIPS 180-4 hash of the concatenation, for every chunking of fewer than 2^29 bytes; the constants and the example above fix what that hash is. |
| Sha256.HexReadsBack | src/Common/SHA256.cc:156-160 | The printed digits determine every byte of the digest. |
| Sha256.HashToHex | src/Common/SHA256.cc:146-161 | The string returned is the hexadecimal form of the standard's hash of the input below 2^29 bytes; a length beyond 32 bits is cut to its low 32 bits. |
| ShortestPaths.JoinWalks | src/Common/Utils.cc:113-132 | Walks compose and their weights add, the fact a relaxation rests on. |
| ShortestPaths.ReverseWalk | src/Common/Utils.cc:124-125 | On a symmetric matrix a walk weighs the same backwards, which is why the mirror entry may be written. |
| ShortestPaths.RelaxKeepsSound | src/Common/Utils.cc:119-127 | Every stored distance stays the weight of some original walk, below the direct edge, and the matrix stays symmetric. |
| ShortestPaths.RelaxProgresses | src/Common/Utils.cc:123-127 | On every matrix a relaxation that fires makes one more pair agree, or leaves those that differ and lowers the sum of the entries: the termination measure. |
| ShortestPaths.RunProgresses | src/Common/Utils.cc:116-130 | A list of relaxations makes progress exactly as its flag says, or changes nothing because every triple is tight. |
| ShortestPaths.OuterInRange | src/Common/Utils.cc:117-122 | The three loops visit every triple of distinct nodes. |
| ShortestPaths.PassProgresses | src/Common/Utils.cc:115-131 | A pass changes nothing exactly when no triple can be relaxed, and otherwise makes progress. |
| ShortestPaths.IterateCloses | src/Common/Utils.cc:113-132 | Whatever the matrix, the passes end with nothing left to relax. |
| ShortestPaths.ClosedIsBelowWalks | src/Common/Utils.cc:113-132 | When no triple can be relaxed, every entry is at most the weight of every walk. |
| ShortestPaths.ClosedIsShortest | src/Common/Utils.cc:113-132 | Then every off-diagonal entry is the distance, and the diagonal is untouched. |
| ShortestPaths.SymmetricGivesDistances | src/Common/Utils.cc:113-132 | On a symmetric matrix the result holds every distance. |
| DirectedPaths.DistancesNeedMirrored | src/Common/Utils.cc:124-125 | If the result holds every distance, then wherever a detour beats an edge the distance back is the same, because the mirror entry is overwritten. |
| DirectedPaths.RelaxKeepsAbove | src/Common/Utils.cc:123-127 | Under that condition no entry ever falls below its distance, and a pair that was written has the same distance both ways. |
| DirectedPaths.ServeAll | src/Common/Utils.cc:117-129 | While the loops serve one node only its pairs change, its row only falls, and pairs written for the first time are written from its side. |
| DirectedPaths.ServesWays | src/Common/Utils.cc:117-129 | In that time the node takes every two-step way of an edge at its distance and a zero, or a zero and an edge not yet written. |
| DirectedPaths.IterateHistory | src/Common/Utils.cc:113-132 | A whole run is a history in which one node after the other is served. |
| DirectedPaths.HeldUp | src/Common/Utils.cc:113-132 | If at the end an entry with a detour is above its distance, so is an edge on the way that weighs the whole distance, with zeros before and after. |
| DirectedPaths.TouchedArrives | src/Common/Utils.cc:113-132 | No pair that was written ends above its distance: what would hold it up was written before it, back to the start. |
| DirectedPaths.Arrives | src/Common/Utils.cc:113-132 | Hence every entry ends at its distance, by the size of the distance. |
| DirectedPaths.MirroredGivesDistances | src/Common/Utils.cc:113-132 | As long as nodes at distance 0 both ways are joined by zeros, that condition is enough. |
| DirectedPaths.DistancesIff | src/Common/Utils.cc:113-132 | When the result is the matrix of directed distances: always on symmetric matrices; whenever nodes at distance 0 both ways are joined by zeros, exactly when every detour that beats an edge is as short on the way back; on all others only then. |
| DirectedPaths.PositiveHasNoHiddenZeros | src/Common/Utils.cc:113-132 | Matrices without a zero between different nodes are among those the exact condition covers. |
| ShortestPathExamples.AsymmetricExample | src/Common/Utils.cc:113-132 | A positive 3 by 3 matrix whose detours are longer than the way back, its exact result, and that this is not the matrix of distances. |
| ShortestPathExamples.ZeroExample | src/Common/Utils.cc:113-132 | A 4 by 4 matrix with nodes at distance 0 both ways that no zero joins: it meets the condition, its exact result, and that this is not the matrix of distances. |
| RelaxInPlace.RelaxEntry | src/Common/Utils.cc:122-127 | The innermost body is one relaxation, fits in a byte, and leaves the cached entry valid. |
| RelaxInPlace.RelaxThrough | src/Common/Utils.cc:120-128 | The innermost loop relaxes its triples in order and sets the flag exactly when one of them fired. |
| RelaxInPlace.RunPass | src/Common/Utils.cc:116-130 | One round of the loops, in place, is the pass, and the flag says whether it changed anything. |
| RelaxInPlace.IterateDM | src/Common/Utils.cc:113-132 | On every byte matrix it terminates with nothing left to relax; the result is the iterated pass, the diagonal is untouched, on symmetric matrices every entry is the least weight over all walks, and where nodes at distance 0 both ways are joined by zeros all are distances exactly under the condition above. |
| DelimitingModel.EncapsulateExact | src/DIF/Delimiting/PDUData.cc:59-88 | A PDU's recorded length and flags stay exactly those of its contents. |
| DelimitingModel.TailShape | src/DIF/Delimiting/Delimiting.cc:127-141 | The fragments after the first are full middles and one last, positive, within the limit, adding up. |
| DelimitingModel.FragmentsAddUp | src/DIF/Delimiting/Delimiting.cc:115-171 | An SDU of length L over the limit becomes ceil(L/max) fragments that add up to L, each within the limit. |
| DelimitingModel.DecodeConservesBytes | src/DIF/Delimiting/Delimiting.cc:313-389 | The bytes of a well-formed stream are those of the SDUs it completes plus those still open. |
| DelimitingModel.DecodeShift | src/DIF/Delimiting/Delimiting.cc:313-381 | Decoding does not depend on what was delivered before. |
| DelimitingModel.DrainIsDecode | src/DIF/Delimiting/Delimiting.cc:331-381 | On every well-formed continuation the receiver's loop delivers and keeps exactly what the reference decoder says, and what it keeps is one FIRST followed by MIDDLEs. |
| DelimitingModel.LastClosesFirst | src/DIF/Delimiting/Delimiting.cc:343-372 | The LAST that the search finds belongs to the FIRST at the head, and delivering drops exactly that SDU's fragments. |
| DelimitingRuns.EncodingDecodes | src/DIF/Delimiting/Delimiting.cc:109-311 | Whatever the sender's state, what it makes of an SDU decodes to that SDU. |
| DelimitingRuns.FragmentedDecodes | src/DIF/Delimiting/Delimiting.cc:115-171 | A FIRST of any length, even zero, and the tail of the rest decode to the SDU. |
| DelimitingRuns.SplitShape | src/DIF/Delimiting/Delimiting.cc:198-251 | A small SDU that does not fit fills the waiting PDU exactly, which leaves; the rest waits as one LAST. |
| DelimitingRuns.SubmitKeepsStream | src/DIF/Delimiting/Delimiting.cc:109-311 | One submission keeps at most one PDU waiting, loses and reorders nothing, and sends only fields within the limit. |
| DelimitingRuns.OversizeKeepsStream | src/DIF/Delimiting/Delimiting.cc:115-171 | The oversize branch sends what waited and then all fragments. |
| DelimitingRuns.SplitKeepsStream | src/DIF/Delimiting/Delimiting.cc:198-251 | The splitting branch loses nothing across the two PDUs. |
| DelimitingRuns.FitKeepsStream | src/DIF/Delimiting/Delimiting.cc:252-264 | The concatenating branch extends the waiting PDU within the limit. |
| DelimitingRuns.MediumKeepsStream | src/DIF/Delimiting/Delimiting.cc:267-310 | The unfragmented branch flushes and then sends the SDU alone. |
| DelimitingRuns.SubmitTimer | src/DIF/Delimiting/Delimiting.cc:390-404 | After a submission either nothing waits or the timer runs as scheduled. |
| DelimitingRuns.NextKeepsInv | src/DIF/Delimiting/Delimiting.cc:61-404 | Every submission, timer firing and delivery keeps the stream, receiver and timer invariants. |
| DelimitingRuns.DeliveredIsPrefix | src/DIF/Delimiting/Delimiting.cc:61-389 | In every run the receiver has delivered a prefix of the submitted SDUs, and all of them once queue and link are empty. |
| DelimitingRuns.BytesAreConserved | src/DIF/Delimiting/Delimiting.cc:109-311 | In every reachable state at most one PDU waits, every field sent fits the limit and describes itself, and bytes sent plus pending equal bytes submitted. |
| DelimitingRuns.DelayIsBounded | src/DIF/Delimiting/Delimiting.cc:61-404 | In every run an SDU that has not completely left is within its deadline and the timer is due by the oldest such deadline. |
| DelimitingBranches.TimerAfterSubmit | src/DIF/Delimiting/Delimiting.cc:109-311 | By lengths alone: an SDU from 4/5 of the limit up to the limit stops the timer, any other that is not too long makes an idle timer due at its arrival plus the delay, and nothing else touches it. |
| DelimitingBranches.TimerIsDueFromAnArrival | src/DIF/Delimiting/Delimiting.cc:390-404 | In every reachable state a running timer is due exactly the delay after the arrival of some submitted SDU. |
| DelimitingBranches.IdleTimerIsStarted | src/DIF/Delimiting/Delimiting.cc:174-193 | In every run an SDU below 4/5 of the limit that finds the timer idle finds nothing waiting, sends nothing and makes the timer due at its own arrival plus the delay. |
| DelimitingBranches.WaitsIfItFits | src/DIF/Delimiting/Delimiting.cc:174-265 | A small SDU that fits behind what waits joins it whole, nothing is sent and no number is used. |
| DelimitingBranches.SplitsIfItDoesNot | src/DIF/Delimiting/Delimiting.cc:198-251 | One that does not fit fills the waiting PDU to the limit with a first fragment, which alone is sent; the remainder waits as a last fragment. |
| DelimitingBranches.SentAlone | src/DIF/Delimiting/Delimiting.cc:267-310 | One from 4/5 of the limit up to the limit is sent whole and alone, behind what waited and with the next sequence number modulo 2^32. |
| DelimitingBranches.Fragmented | src/DIF/Delimiting/Delimiting.cc:115-171 | A longer one leaves in ceil(len/max) fields behind what waited: a first and middle fragments as long as the limit and a last with the remainder, all with one sequence number. |
| DelimitingBranches.SentAtOnceIff | src/DIF/Delimiting/Delimiting.cc:109-311 | An SDU is sent at once and unfragmented exactly when 4 max <= 5 len and len <= max. |
| DelimitingBranches.FiringEmpties | src/DIF/Delimiting/Delimiting.cc:64-86 | When the timer fires, all that waits is sent and the timer is idle. |
| Delimiting.PDUData.Encapsulate | src/DIF/Delimiting/PDUData.cc:59-88 | Appending in place equals the model's step on contents, length and flags. |
| Delimiting.PDUData.Decapsulate | src/DIF/Delimiting/PDUData.cc:90-106 | First in, first out, with the length kept exact. |
| Delimiting.Task.SendAll | src/DIF/Delimiting/Delimiting.cc:72-84 | The flushing loop sends every waiting PDU in order and empties the queue. |
| Delimiting.Task.SendNearlyFull | src/DIF/Delimiting/Delimiting.cc:235-248 | The loop sends the nearly full PDUs at the front and keeps the last. |
| Delimiting.Task.SendFragmented | src/DIF/Delimiting/Delimiting.cc:115-171 | The fragmenting loop sends the model's fragments in order. |
| Delimiting.Task.SplitAcross | src/DIF/Delimiting/Delimiting.cc:198-251 | Splitting an SDU over the waiting PDU and new ones is the model's step. |
| Delimiting.Task.ProcessMsgFromFAI | src/DIF/Delimiting/Delimiting.cc:109-311 | The whole handler, over its queue of objects, is the model's submission step, output included; in particular the timer is due, stopped or left, and the SDU sent at once and whole, exactly as its length and the idle timer decide. |
| Delimiting.Task.HandleTimer | src/DIF/Delimiting/Delimiting.cc:64-86 | The timer branch is the model's firing step: the queue is empty after it and the timer idle. |
| Delimiting.Task.FindLast | src/DIF/Delimiting/Delimiting.cc:345-354 | The search answers exactly whether a LAST is queued behind the head. |
| Delimiting.Task.DeliverFragmented | src/DIF/Delimiting/Delimiting.cc:356-371 | The SDU at the head is delivered and its other fragments erased, nothing else. |
| Delimiting.Task.Reassemble | src/DIF/Delimiting/Delimiting.cc:331-381 | The loop with its erasing iterator computes the model's drain. |
| Delimiting.Task.HandleMsgFromEfcpi | src/DIF/Delimiting/Delimiting.cc:313-389 | Unpacking, reassembling and sending north are the model's receiving step. |
| EnrollmentModel.FindApn | src/DAF/Enrollment/DAFEnrollmentStateTable.cc:58-67 | The first entry of that process name (with a management entity at the application level), or none. |
| EnrollmentModel.FindApni | src/DAF/Enrollment/DAFEnrollmentStateTable.cc:69-81 | The first entry of that full name, or none. |
| EnrollmentModel.LookupsAgree | src/DAF/Enrollment/DAFEnrollmentStateTable.cc:58-81 | Where an entry with the process name of a peer is that peer's, and at the application level peers are management entities, the two lookups find the same entry, and none exactly when the peer has no entry. |
| EnrollmentModel.MgmtIff | src/DAF/Enrollment/DAFEnrollmentStateTable.cc:61-62 | A name is that of a management entity exactly when it has the substring "mgmt". |
| EnrollmentModel.PeerIsFirst | src/DAF/Enrollment/DAFEnrollmentStateTable.cc:69-81 | Connection messages find the first entry of the whole name at the application level and of the process name at the IPC level. |
| EnrollmentModel.ManagementIsFirst | src/DAF/Enrollment/DAFEnrollmentStateTable.cc:58-67 | At the application level enrollment messages find the first entry of the process whose entity name contains "mgmt". |
| EnrollmentModel.EntriesOfFirst | src/DAF/Enrollment/DAFEnrollmentStateTable.cc:54-81 | Writing the entry a lookup found changes the head of that peer's entries and nothing of anybody else's. |
| EnrollmentModel.EnrolledIsFinal | src/DAF/Enrollment/DAFEnrollment.cc:388-578 | No message of any kind changes an enrolled, connected entry. |
| EnrollmentModel.StartingSucceeds | src/DAF/Enrollment/DAFEnrollment.cc:899-913 | Starting a connection never fails: the lookup finds at least the entry just made. |
| EnrollmentRuns.ConnectKeeps | src/DAF/Enrollment/CACEMgmt.cc:175-289 | A request, however often repeated, is answered only with the one answer the credentials allow and keeps what each side knows of the other. |
| EnrollmentRuns.NegativeKeeps | src/DAF/Enrollment/CACEMgmt.cc:146-173 | A rejection is followed by a retry within the limit or by giving up, and M_CONNECTs sent stay the flows plus the retries. |
| EnrollmentRuns.PositiveKeeps | src/DAF/Enrollment/CACEMgmt.cc:122-144 | An acceptance starts enrollment only when the credentials match. |
| EnrollmentRuns.StartKeeps | src/DAF/Enrollment/DAFEnrollment.cc:496-530 | M_START is answered once, by M_START_R and an immediate M_STOP, with the flag written. |
| EnrollmentRuns.StartRKeeps | src/DAF/Enrollment/DAFEnrollment.cc:405-436 | M_START_R moves only a waiting initiator. |
| EnrollmentRuns.StopKeeps | src/DAF/Enrollment/DAFEnrollment.cc:438-487 | M_STOP enrolls the initiator, which answers. |
| EnrollmentRuns.StopRKeeps | src/DAF/Enrollment/DAFEnrollment.cc:532-559 | M_STOP_R reads a flag that has been written and enrolls the member. |
| EnrollmentRuns.AllocateKeeps | src/DAF/Enrollment/CACEMgmt.cc:113-120 | An entry made for an accepted flow leaves the pair consistent. |
| EnrollmentRuns.BeginSends | src/DAF/Enrollment/CACEMgmt.cc:56-111 | A flow that comes up, the first or a later one, sends the same M_CONNECT, from the entry already in use if there is one. |
| EnrollmentRuns.EveryStepIsSafe | src/DAF/Enrollment/CACEMgmt.cc:56-331 | In a consistent world every enabled step succeeds and leaves a consistent world, at both levels. |
| EnrollmentRuns.Agreement | src/DAF/Enrollment/DAFEnrollment.cc:388-578 | Over all runs with loss, duplication, reordering and repeated flows: an enrolled initiator has a member waiting for its last answer or enrolled, an enrolled member has an enrolled initiator, either implies both connected and matching credentials, and later entries on either side never change. |
| EnrollmentRuns.NoHandlerFaults | src/DAF/Enrollment/DAFEnrollment.cc:405-559 | In every reachable world each unchecked lookup finds an entry and the immediate flag is written before it is read. |
| EnrollmentRuns.NobodyWaitsForOperation | src/DAF/Enrollment/DAFEnrollment.cc:470-487 | ENROLL_WAIT_START_OPERATION is never entered, and whoever waits for M_STOP_R has its flag set; entries for others than the initiators are those of the start. |
| EnrollmentRuns.StrangersStay | src/DIF/Enrollment/Enrollment.cc:74-82 | What the member had from the start, such as the entry it made for itself, never changes. |
| EnrollmentRuns.IpcSetupIsProper | src/DIF/Enrollment/Enrollment.cc:74-82 | The runs cover IPC processes, whose names have no entity part, with a member enrolled by itself. |
| EnrollmentRuns.RetriesAreBounded | src/DAF/Enrollment/CACEMgmt.cc:56-173 | In every run the retry counter is at most max(maxConRetries, 0) and the M_CONNECTs sent are the flows that came up plus the retries; so they are one more than the retries exactly when one flow came up. |
| EnrollmentRuns.SecondFlowAsksAgain | src/DAF/Enrollment/DAFEnrollment.cc:899-913 | A second flow before any answer: a second M_CONNECT without a retry, and at the application level a second entry. |
| EnrollmentRuns.AddressesAreEchoed | src/DIF/Enrollment/Enrollment.cc:297-344 | At the IPC level, where entities have no names, every M_START and M_START_R carries the initiator's own address, which therefore never changes. |
| EnrollmentRuns.EnrolledForGood | src/DAF/Enrollment/DAFEnrollment.cc:388-578 | An entry that is enrolled is the same entry in every later world of the run. |
| EnrollmentFifo.RequestStep | src/DAF/Enrollment/CACEMgmt.cc:175-289 | Over FIFO channels a request that the member takes is accepted once, rejected or passed over, and uses up one step. |
| EnrollmentFifo.RejectedRequest | src/DAF/Enrollment/CACEMgmt.cc:251-289 | Without matching credentials every request is rejected and counted. |
| EnrollmentFifo.IgnoredRequest | src/DAF/Enrollment/CACEMgmt.cc:196-200 | Once a peer is admitted its further requests change nothing but the number of entries. |
| EnrollmentFifo.StartsStep | src/DAF/Enrollment/CACEMgmt.cc:56-111 | A flow that comes up adds exactly the steps it will cause. |
| EnrollmentFifo.AcceptKeeps | src/DAF/Enrollment/CACEMgmt.cc:113-120 | A flow that is accepted adds no steps but its own. |
| EnrollmentFifo.RejectedStep | src/DAF/Enrollment/CACEMgmt.cc:146-173 | A rejection leads to the next request, to giving up with the limit reached, or to nothing after that, and uses up one step. |
| EnrollmentFifo.UpLeads | src/DAF/Enrollment/DAFEnrollment.cc:496-559 | Any message the member takes uses up exactly one of its pair's remaining steps and touches no other pair. |
| EnrollmentFifo.DownLeads | src/DAF/Enrollment/DAFEnrollment.cc:405-487 | Any message an initiator takes uses up exactly one of its pair's remaining steps. |
| EnrollmentFifo.QuietIff | src/DAF/Enrollment/CACEMgmt.cc:56-331 | A pair has no step left exactly when both its channels are empty. |
| EnrollmentFifo.RunOnSchedule | src/DAF/Enrollment/CACEMgmt.cc:56-331 | The steps taken and the steps the pairs have left add up to what the flows so far allow. |
| EnrollmentFifo.RunsEnd | src/DAF/Enrollment/CACEMgmt.cc:146-331 | No run is longer than one step per accepted flow and, for an initiator with b flows, 2b + 5 steps with matching credentials or b + 2(b + max(maxConRetries, 0)) without: seven for one flow, or a first step and two per attempt. |
| EnrollmentFifo.StopsExactly | src/DAF/Enrollment/DAFEnrollment.cc:388-578 | A run is exactly that long when and only when no message is under way, and until then whatever is ready can be taken. |
| EnrollmentFifo.Outcome | src/DAF/Enrollment/CACEMgmt.cc:146-331 | Where a run leaves each pair once no message is under way: both sides enrolled if the credentials match, otherwise the initiator CON_NIL, all of its flows and max(maxConRetries, 0) retries rejected, and the member back in CON_CONNECTPENDING having counted them. |
| EnrollmentCredentials.OnlyTheRightCredentials | src/DAF/Enrollment/CACEMgmt.cc:30-54 | In every reachable world an entry that is connected or enrolled, on either side, means equal authentication types, none or password, and for passwords equal ones. |
| EnrollmentCredentials.MessagesOfTheHandshake | src/DAF/Enrollment/CACEMgmt.cc:56-331 | Every message ever sent is one of six, field by field: an initiator's M_CONNECT, M_START and M_STOP_R, the member's M_START_R and M_STOP, and its M_CONNECT_R, which is positive exactly for the right credentials. |
| EnrollmentCredentials.CredentialsDecide | src/DAF/Enrollment/CACEMgmt.cc:30-54 | A pair whose FIFO channels are empty is enrolled on both sides with no authentication or with equal passwords; with different passwords, different types or another type the initiator is CON_NIL after max(maxConRetries, 0) retries and the member listens. |
| EnrollmentCredentials.StepsAreCounted | src/DAF/Enrollment/CACEMgmt.cc:146-331 | With one initiator the length of a finished run is an explicit number made from flows, retry limit and the configured credentials. |
| Enrollment.Address.constructor | src/Common/Address.cc:31-56 | The token loop with find and erase is the parse of the composite name: two tokens are the parts, one is the name, and more leave the address empty. |
| Enrollment.NameSurvivesIff | src/Common/Address.cc:31-56 | Of the tokens a name is cut into, an address gives the name back exactly when there are at most two; this is what the handlers see. |
| Enrollment.ParsedBy | src/Common/Address.cc:31-56 | A name without an underscore is kept as the name alone, one with a single underscore is its two parts, one with more leaves everything empty. |
| Enrollment.PartsSurviveIff | src/Common/Address.cc:31-64 | An address made from two parts, printed and parsed again, is the same address exactly when neither part has an underscore. |
| Enrollment.TokensCount | src/Common/Address.cc:33-41 | The loop leaves one token more than there are underscores. |
| Enrollment.Address.FromStrings | src/Common/Address.cc:58-64 | The two-part constructor keeps its parts and joins them for the name. |
| Enrollment.Reread | src/Common/Address.cc:31-88 | Writing an address out and reading it back gives an equal address exactly when neither part has an underscore. |
| Enrollment.StateTable.Insert | src/DIF/Enrollment/EnrollmentStateTable.cc:50-54 | A new entry object joins the end, unless the IPC-level table already knows the process. |
| Enrollment.StateTable.FindEntryByDstAPN | src/DAF/Enrollment/DAFEnrollmentStateTable.cc:58-67 | Returns the live first entry of that process name, or null when there is none. |
| Enrollment.StateTable.FindEntryByDstAPNI | src/DAF/Enrollment/DAFEnrollmentStateTable.cc:69-81 | Returns the live first entry of that full name, or null when there is none. |
| Enrollment.Task.StartCACE | src/DAF/Enrollment/CACEMgmt.cc:56-111 | Entering the peer and sending M_CONNECT is the model's beginning step, and needs nothing of the table. |
| Enrollment.Task.InsertStateTableEntry | src/DIF/Enrollment/Enrollment.cc:211-217 | Only the first flow of a peer is entered, looked up by its full name or, at the IPC level, by the process the flow is addressed to. |
| Enrollment.Task.Authenticate | src/DAF/Enrollment/CACEMgmt.cc:30-54 | The nested checks establish the connection exactly when the types are equal and none (0), or password (1) with equal passwords, and answer accordingly. |
| Enrollment.Task.ReceiveConnectRequest | src/DAF/Enrollment/CACEMgmt.cc:175-211 | The handler, over live entries, is the model's handling of M_CONNECT. |
| Enrollment.Task.ReceivePositiveConnectResponse | src/DAF/Enrollment/CACEMgmt.cc:122-144 | The handler is the model's handling of a positive M_CONNECT_R. |
| Enrollment.Task.ReceiveNegativeConnectResponse | src/DAF/Enrollment/CACEMgmt.cc:146-173 | The handler is the model's handling of a negative M_CONNECT_R, retry included. |
| Enrollment.Task.ReceiveStartEnrollmentRequest | src/DIF/Enrollment/Enrollment.cc:401-435 | The handler is the model's handling of M_START, with the address echoed at the IPC level. |
| Enrollment.Task.ReceiveStartEnrollmentResponse | src/DIF/Enrollment/Enrollment.cc:313-344 | The handler is the model's handling of M_START_R, taking the address at the IPC level. |
| Enrollment.Task.ReceiveStopEnrollmentRequest | src/DAF/Enrollment/DAFEnrollment.cc:438-468 | The handler is the model's handling of M_STOP. |
| Enrollment.Task.ReceiveStopEnrollmentResponse | src/DAF/Enrollment/DAFEnrollment.cc:532-559 | The handler is the model's handling of M_STOP_R. |
| Text.Split | src/Common/Utils.cc:33-46 | The getline loop collects every item of the stream in order. |
| Text.JoinFirst | src/Common/Utils.cc:48-60 | The loop joins at most the first n elements. |
| Text.IsPrefix | src/Common/Utils.cc:62-67 | True exactly when the string is the prefix followed by something. |
| Text.PiecesCount | src/Common/Utils.cc:33-38 | There are as many pieces as delimiters, and one more when the text does not end with one. |
| Text.PieceIsAt | src/Common/Utils.cc:33-38 | What stands between delimiters or the ends of a text is the piece whose number is that of the delimiters before it. |
| Text.JoinOfSplitIff | src/Common/Utils.cc:33-60 | Joining all pieces of a text gives the text less one final delimiter, exactly when the delimiter is not NUL or does not occur elsewhere. |
| Text.SplitOfJoinIff | src/Common/Utils.cc:33-60 | Splitting a joined list gives the list back exactly when no element holds the delimiter, the last is not empty, and a separator was needed only if there is one. |
| Text.SplitOfJoin | src/Common/Utils.cc:33-60 | With a delimiter other than NUL, a list free of it comes back less an empty last element. |
| Text.LostPiecesExample | src/Common/Utils.cc:33-60 | A NUL delimiter that is not put back, a list it does not separate, and an empty last piece that is lost. |
| Text.JoinGrows | src/Common/Utils.cc:48-67 | Joining fewer elements gives a prefix of joining more. |
| Stats.TrimIsCore | src/DAF/AE/Stats.h:34-40 | Trimming gives the part of the text that only blanks surround and that has none at either end; every text has one. |
| Stats.CoreIsUnique | src/DAF/AE/Stats.h:34-40 | And it has only one, so trimming gives no less and no more. |
| Stats.TrimTwice | src/DAF/AE/Stats.h:34-40 | Trimming twice is trimming once. |
| Stats.BlanksAreTrimmed | src/DAF/AE/Stats.h:34-40 | Any of the six blanks of the C locale around a text make no difference to trimming. |
| Stats.InkStays | src/DAF/AE/Stats.h:34-40 | A text with none of them at either end is not changed. |
| Stats.RowsAreLines | src/DAF/AE/Stats.cc:61-75 | Reading gives as many rows as the text has newlines, and one more for a last line without. |
| Stats.FieldIsRead | src/DAF/AE/Stats.cc:61-75 | A field between commas, newlines or the ends is read, trimmed, into the column and row given by the commas before it in its line and the newlines before that; only an empty one at the end of its line is not. |
| Stats.SeparatorsPrinted | src/DAF/AE/Stats.cc:91-108 | The printed text has one newline a row when there is a column and no cell holds one, one comma fewer than columns a row when no cell holds one, and is empty without columns. |
| Stats.Stats.OpenNow | src/DAF/AE/Stats.cc:56-76 | The table read has one row a line, exactly the trimmed fields of each line as cells, and the widest line as its width; the rows are the newlines of the text and one for a last line without. |
| Stats.Stats.ReadRow | src/DAF/AE/Stats.cc:63-73 | One line fills its row from the left and touches no other. |
| Stats.Stats.SaveNow | src/DAF/AE/Stats.cc:91-108 | The text is the printed table, with exactly one newline a row and the commas between its columns where the cells hold none; printing leaves every printed cell trimmed and present, and changes no reading. |
| Stats.TidiedReadsSame | src/DAF/AE/Stats.cc:91-108 | What printing does to the map changes no cell's reading. |
| Stats.LinesReadBack | src/DAF/AE/Stats.cc:56-108 | The lines of a printable table's text are its rows. |
| Stats.PrintableComesBack | src/DAF/AE/Stats.cc:56-108 | A printable table with a column comes back with the same rows and cells, in no more columns. |
| Stats.RoundTripIff | src/DAF/AE/Stats.cc:56-108 | Printing and parsing gives the same row count and cells exactly when there is a column or no row, and no cell holds a comma or a newline. |
| Stats.CommaExample | src/DAF/AE/Stats.cc:56-108 | The one-cell table "a,b" does not come back. |
| Stats.Stats.SaveAndOpen | src/DAF/AE/Stats.cc:39-108 | Saving and opening in place keeps rows and cells exactly when the table met that condition before. |
| CdapSplitter.ResponsesWereAskedFor | src/DAF/CDAP/CDAPSplitter.cc:54-61 | In every history each response that passes has, before it, a passed request that the log knows as the opcode below with the same invoke id. |
| CdapSplitter.RequestsPass | src/DAF/CDAP/CDAPSplitter.cc:54-61 | A response finds its request among what passed exactly when it has arrived at all. |
| CdapSplitter.PassedIsSolicited | src/DAF/CDAP/CDAPSplitter.cc:42-102 | So an arrival passes exactly when it is no response or its request arrived before it. |
| CdapSplitter.PassesIff | src/DAF/CDAP/CDAPSplitter.cc:54-61 | In the fields of the messages: after any history an arrival passes exactly when its opcode is odd or an earlier arrival, from either side, has its invoke id and, modulo 256, the opcode just below. |
| CdapSplitter.TruthfulIff | src/DAF/CDAP/CDAPMsgLogEntry.h:33-60 | For messages with given opcodes, every history has exactly the request before each passed response, if and only if no opcode, cut to an unsigned char, is mistaken for the request of another. |
| CdapSplitter.NoAliasIsTruthful | src/DAF/CDAP/CDAPSplitter.cc:54-61 | Without such an opcode in a history each response that passes follows its request. |
| CdapSplitter.AliasPasses | src/DAF/CDAP/CDAPMsgLogEntry.h:33-60 | With one, the two messages alone make a history in which a response passes that nobody asked for. |
| CdapSplitter.WrappedOpCodeExample | src/DAF/CDAP/CDAPMsgLogEntry.h:33-60 | Opcodes 257 and 2 are such a pair. |
| CdapSplitter.BytesAreTruthful | src/DAF/CDAP/CDAPMessage.msg:36-60 | Opcodes from 0 to 255, so all that the protocol has, are never mistaken. |
| CdapSplitter.SentResponsesFollowRequests | src/DAF/CDAP/CDAPSplitter.cc:54-102 | Where no opcode is mistaken for another, each even-opcode message sent has an earlier one sent with opcode one less and the same invoke id. |
| CdapSplitter.MsgLog.FindRequestByInvId | src/DAF/CDAP/CDAPMsgLog.cc:54-61 | The first entry logged with the opcode below and the same invoke id, or none. |
| CdapSplitter.Splitter.HandleMessage | src/DAF/CDAP/CDAPSplitter.cc:42-102 | After every arrival the log and the gates hold exactly what passed, in order: one that passes is logged with its opcode modulo 256; from the north it is sent south, from the south to the CDAP gate if its class is listed, and otherwise the splitter fails; any other leaves everything as it was. |

## Left out

- Simulation plumbing: gates and their connection, module creation, signals, display strings, ownership of messages. A send appends to an output sequence or to the network.
- XML configuration, module parameters, opening files, logging.
- `CACEGeneric.cc`, a near copy of `CACEMgmt.cc`.
- Simultaneous open and preloaded entries for a pair: each pair has one initiator and one member that start without entries for each other. The member may start with entries for others, such as its own when it is enrolled by itself; an initiator starts with none.
- Operation start, read requests and release: empty or unreached in the source.
- The runs assume that all nodes work at one level, that process names differ, that each name survives its address (at most one underscore, `Enrollment.NameSurvivesIff`), that an initiator is known under one full name and, at the application level, that peers are management entities. With other names the handlers are still modelled, but nothing is claimed about runs.
- Flows that the member accepts are steps of the runs, although the listener that calls `insertStateTableEntry` is subscribed at neither level; without them there are only fewer runs.
- The first flow of an initiator names it as in the setting; later flows of an application may carry any instance name, since the entry in use keeps the first.
- Messages of the handshake carry the fields that some handler reads; invoke ids, the result string and the source address of connection messages are not part of this model.
- An unwritten flag and a null entry are a `Fault` outcome; the class requires that there is none, which `EnrollmentRuns.NoHandlerFaults` proves of every run.
- Sha256.Context.Transform: does not model the signed overflow of `i << 6`, which needs a message of 2^31 bytes in one call.
- Sha256.Context.Update: requires a chunk of fewer than 2^32 bytes, the range of the length parameter; `memcpy` copies a sequence.
- DirectedPaths.DistancesIff: on asymmetric matrices with two nodes at distance 0 both ways that no zero joins the condition is proved necessary and, by `ShortestPathExamples.ZeroExample`, is not sufficient; no exact condition is given there.
- RelaxInPlace.IterateDM: does not model rows that share storage or rows longer than the matrix; the matrix is a two-dimensional array and the unused parameter `inf` stays unused.
- Delimiting: user data and PDU headers count zero bytes, the factor 0.8 is taken exactly as four fifths, time is real, and the link is in order and loss-free. The sequence number is carried and wraps, but no receiver reads it.
- Stats: counters are unbounded, characters are classified as the C locale does, and cell arithmetic, row erasure and load lookup are not modelled. Reading and printing use the comma that the object always passes.
- CdapSplitter.Splitter.HandleMessage: sending through the null gate is a failure after which nothing more arrives; the log keeps the entry, as in the source. The difference `opcode - 1` is taken without 32-bit overflow; `findByMessage`, which nothing calls, is left out.
- `SDU.cc` fragmentation, EFCP and DTCP machines, QoS records, random numbers, directory tables: a legacy path, or easy claims.
