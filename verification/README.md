# Verification of the mining core

A Dafny model of the parts of this Ethereum/ProgPoW miner whose correctness is not visible from any
one function, with proofs of what they are for. `dafny verify dfyconfig.toml` checks the whole
project. Nothing here executes the C++, C or OpenCL code.

## What is modelled

**RLP** (`RlpFormat`, `RlpBuilder`, `RlpStream`, `RlpReader`, `RlpScalars`, `RlpCursor`,
`RlpIterator`, `RlpIndex`, on top of `CommonData` and `FixedHash`). `RlpFormat.Encode` is the recursive serialisation of Appendix B of the
Ethereum Yellow Paper. The streaming encoder is a class with the bytes written and the stack of open
lists; its methods insert list headers into those bytes when lists fill. Its state means a forest of
trees under construction (`RlpBuilder.Builder`), every operation commutes with that meaning, and so
every history of appends, legal or not, does. The reader is a set of functions of the bytes;
exceptions are `Err` results and a null object refers to no bytes. Loops, iterator and indexing cache
are methods and classes, proved against the plain left-to-right scan `RlpCursor.Split`; an iterator
has a position that can be null, and the cache can be left behind by a failed call.

**Block headers** (`HeaderFields`, `BlockHeader`). Thirteen fields, written to a stream and read back
through the index operator.

**Keccak and Ethash** (`Fips202`, `Keccak`, `Sponge`, `SpongePadding`, `LaneBits`, `NodeMemory`,
`Ethash`, `EthashHash`, `EthashAux`, and for the OpenCL kernel `Halves`, `KernelLanes`, `KernelRotations`, `KernelRound`,
`DagKernel`, `DagBuild`).
`Fips202` is section 3 of FIPS 202: the offsets come from the walk of section 3.2.2 and the round
constants from the shift register of section 3.2.5, not from tables. The in-place permutation on
64-bit lanes and the unrolled one on pairs of 32-bit words are both proved equal to it, and the DAG
items they compute are therefore equal; `DagBuild` adds the host's launches, with the work items of
each in any order.

**ProgPoW** (`Kiss99`, `Shuffle`, `ProgPowWords`, `ProgPow`, `ProgPowKernel`, `ProgPowGroup`,
`ProgPowGenerator`, `ProgPowStaging`, `ProgPowCorrect`, `ProgPowLoops`, `ProgPowSlowLane`,
`ProgPowCoverage`, `ProgPowStream`, `ProgPowVectors`, `ProgPowCacheLoad`). The generator is a compiler: the statements it emits are a syntax tree with a meaning on sixteen lanes,
under the CUDA or the OpenCL prelude. The lanes meet at the shuffle or at the barrier; between such
points each runs on its own and any order of the lanes is allowed. `ProgPowStaging.Interpret` draws
the same random numbers and acts at once; running the whole emitted loop body, from the exchange of
the first register and the 32-bit address arithmetic on, is shown to be the same, and so are n bodies
one after another, as far as that is true (see below).

**The worker protocol** (`Worker`). Controllers and worker threads are a machine whose steps are
single accesses to the atomic state, the thread pointer and the lock. A run is any interleaving, with
any number of controllers, and a spinning wait is a step that changes nothing.

## Where promise and code part

* The strict reader and the encoder are inverse only below the reader's length limit: the encoder
  writes any 64-bit length, the reader refuses the last 257 (`RlpReader.ParseIff`).
* A header reads back unchanged if and only if its number is below 2^32 and it used no more gas than
  its limit (`HeaderFields.RoundTripIff`). The reader looks at thirteen items, present or not, and at
  nothing behind them, not even to see whether it is well formed: a list of twelve reads as one with
  empty extra data, and bytes that are read are the header's own encoding exactly if they split into
  thirteen items and the last is a string (`HeaderFields.ReadIsCanonicalIff`,
  `HeaderFields.MissingExtraDataIsEmpty`).
* `operator[]` answers as a new object would, whatever was asked before, except that a call that fails
  puts the unmeasured rest in the place of the last good item, which is then refused
  (`RlpIndex.Rlp.Index`, `RlpIndex.FailedCallLosesItem`). The comment in libdevcore/RLP.h:133-135
  promises a null object for anything that is no list; strings are indexed all the same, and give null
  only if they are empty (`RlpIndex.StringsAreIndexed`).
* The stored boundary is the quotient 2^256 / difficulty for every difficulty but one, for which it
  is cut to zero (`BlockHeader.BoundaryIff`).
* `sha3_*` pads with 0x01, so it is KECCAK[c] of section 5.2 of FIPS 202 without the suffix of
  section 6.1; `shake*` pads with 0x1f and is section 6.2 (`SpongePadding.PadIsStandard`).
* `ROL2` rotates exactly by the amounts that are not 0 or 32 (`KernelRotations.Rol2Iff`). The kernel
  asks for neither.
* The kernel is told the size of the DAG through a 32-bit `unsigned`
  (libethash-cl/CLMiner.cpp:212-218, 613). The device ends up with the whole data set if and only if
  the size is below 2^32 bytes, which it exceeds from epoch 385 on (`DagBuild.WholeIff`); beyond, the
  nodes past the reduced size are never written.
* `toEpoch` undoes `ethash_get_seedhash` exactly if the first 2048 seed hashes are distinct
  (`EthashAux.InverseIffDistinct`), which is a fact about the hash function and is not assumed.
* The merge and math tables, the draw of the sources and the period of ten blocks are those of
  `ProgPow.cpp` and `ProgPow.h`; the reference code in the repository's README differs. So does
  `test-vectors.md`: it puts block 30,000 into period 600, and the random numbers that it gives for
  merge and math select other cases here (`ProgPowVectors.CasesDiffer`). What is published for
  fnv1a, for the first two calls of kiss99, for the four merges and for ten of the twelve examples of
  operations agrees with the functions here.
* A call of `startWorking` leads to a running body if and only if, when it touches the state, no body
  has returned on its own unnoticed (`Worker.StartIff`); libethash-cuda/CUDAMiner.cpp:122-123 has a
  body that does. `Worker.StartCanBeLost` is a run in which that swallows a start. Mutual exclusion
  and the effect of stop and kill do not need this.
* `toList` returns exactly from what is no list, from a list whose payload fails or does not split into
  whole items, and from what the VeryStrict constructor accepts (`RlpIterator.ReturnsIff`). From an
  object that a lenient constructor made of c0 01, which has a byte too many, or of c2 01, which lacks
  one, it never returns (`RlpIterator.LoopsForEver`).
* In OpenCL nothing keeps a fast lane from writing the shared word for the next loop before a slow lane
  has read it for this one: the only barrier lies between writing and reading. Over any number of
  loops, all lanes read their own loop's word if and only if in every stretch between two barriers the
  next writer comes last or writes the same word again, and then the run is interpreted
  (`ProgPowLoops.OpenClLoops`); in CUDA it always is (`ProgPowLoops.CudaLoops`). For every block number
  there is a run in which a lane ends with wrong registers (`ProgPowSlowLane.SlowLaneGoesWrong`).
  Lanes that advance in lock step are never late in this way.

## Model

| member | source | states |
|---|---|---|
| CommonData.ToBigEndian | libdevcore/CommonData.h:93-102 | a buffer of n bytes receives the last n base-256 digits, most significant first |
| CommonData.FromBigEndian | libdevcore/CommonData.h:107-114 | the number the bytes denote, modulo the width of the target type |
| CommonData.BytesRequired | libdevcore/CommonData.h:156-163 | the number of base-256 digits, none for zero |
| CommonData.ToCompactBigEndian | libdevcore/CommonData.h:122-131 | a string of the asked minimum length that denotes the number |
| CommonData.ValueOfDigits | libdevcore/CommonData.h:93-114 | writing n digits and reading them back reduces modulo 256^n |
| CommonData.DigitsOfValue | libdevcore/CommonData.h:93-114 | reading a string and writing as many digits gives the string |
| CommonData.CompactDecodes | libdevcore/CommonData.h:122-131 | the compact form denotes the number and has no leading zero |
| CommonData.CompactShortest | libdevcore/CommonData.h:122-131 | nothing shorter denotes the number, and having no leading zero is being the compact form |
| FixedHash.Hash.FromArith | libdevcore/FixedHash.h:70 | an N-byte hash made of a number denotes it if it fits |
| FixedHash.Hash.ToArith | libdevcore/FixedHash.h:88 | the number of a hash, from which the same bytes can be made again |
| FixedHash.Hash.Less | libdevcore/FixedHash.h:96 | byte-wise comparison is the order of the big-endian numbers, for every width |
| FixedHash.Hash.Increment | libdevcore/FixedHash.h:111 | adds one modulo 2^(8N) |
| FixedHash.ValueInjective | libdevcore/FixedHash.h:94-96 | equal widths: equal numbers if and only if equal bytes |
| FixedHash.FirstDifferenceDecides | libdevcore/FixedHash.h:96 | the first differing byte decides the order of the numbers |
| RlpFormat.WrapInjective | libdevcore/RLP.h:47-57 | a list header and payload determine the payload |
| RlpBuilder.NoteAppended | libdevcore/RLP.cpp:227-264 | the cascade of list closings keeps the stack in order and fails exactly when the innermost list is too small |
| RlpBuilder.NoteAppendedCommutes | libdevcore/RLP.cpp:227-264 | counting items off and inserting headers in place is adding trees to the innermost list and closing full ones |
| RlpBuilder.StepCommutes | libdevcore/RLP.cpp:220-339 | every append operation is the rendering of one step on trees |
| RlpBuilder.HistoryCommutes | libdevcore/RLP.cpp:220-339 | so is every sequence of appends, failures included |
| RlpBuilder.ClosedHistoryIsForest | libdevcore/RLP.cpp:220-339 | once all lists are closed the bytes are the encodings of the trees described, and nothing else |
| RlpBuilder.PreorderAddsTree | libdevcore/RLP.cpp:266-305 | a tree fed in preorder inside any half-built stream adds exactly that tree |
| RlpBuilder.PreorderEncodes | libdevcore/RLP.cpp:220-339 | a tree fed in preorder to an empty stream leaves no open list and its Appendix B encoding |
| RlpStream.WriteBackwards | libdevcore/RLP.cpp:255-257 | the byte-by-byte loop stores the compact form and touches nothing else |
| RlpStream.RlpStream.InsertListHeader | libdevcore/RLP.cpp:241-260 | resizing, moving and writing puts the header in front of the payload |
| RlpStream.RlpStream.NoteAppended | libdevcore/RLP.cpp:227-264 | the loop computes the specified cascade, and too many items leave the state as it was |
| RlpStream.RlpStream.AppendRaw | libdevcore/RLP.cpp:220-225 | bytes appended and items counted as specified |
| RlpStream.RlpStream.PushInt | libdevcore/RLP.h:380-386 | appends the compact form |
| RlpStream.RlpStream.PushCount | libdevcore/RLP.cpp:332-339 | appends the long header, or fails beyond eight length bytes and appends nothing |
| RlpStream.RlpStream.AppendBytes | libdevcore/RLP.cpp:286-305 | appends the encoding of the string, without leading zeros if asked |
| RlpStream.RlpStream.AppendInt | libdevcore/RLP.cpp:307-330 | appends the encoding of the shortest form of the number |
| RlpStream.RlpStream.AppendList | libdevcore/RLP.cpp:266-274 | opens a list, or appends the empty one |
| RlpStream.RlpStream.AppendListPayload | libdevcore/RLP.cpp:276-284 | appends a list given by its payload |
| RlpStream.RlpStream.OfList | libdevcore/RLP.h:332-333 | a stream that begins with an open list |
| RlpReader.ReadHeader | libdevcore/RLP.cpp:149-205 | the length written by the encoder is the length read |
| RlpReader.LengthIsReadIff | libdevcore/RLP.cpp:200-203 | a length that the encoder writes is read if and only if 257 can be added to it in 64 bits |
| RlpReader.HeaderIsCanonical | libdevcore/RLP.cpp:149-205 | any header the reader accepts is the one the encoder writes |
| RlpReader.ReadFront | libdevcore/RLP.h:312 | an encoded tree in front of anything is measured as exactly that tree |
| RlpReader.ReadPayload | libdevcore/RLP.h:283 | the payload of an encoding is the string or the encoded items |
| RlpReader.AcceptedIsCanonical | libdevcore/RLP.cpp:26-43 | a string the VeryStrict constructor accepts is its payload behind the canonical header |
| RlpReader.SizeAsEncoded | libdevcore/RLP.h:312 | a measured size lies inside the bytes and is not zero |
| RlpReader.ParseEncoded | libdevcore/RLP.cpp:90-122 | parsing the encoding of any readable tree returns it |
| RlpReader.ParsedIsCanonical | libdevcore/RLP.cpp:26-43 | re-encoding what was parsed gives the same bytes |
| RlpReader.ParseIff | libdevcore/RLP.cpp:26-71 | a string parses as a tree if and only if it is its encoding and every payload is below the limit |
| RlpReader.ShortIsRead | libdevcore/RLP.cpp:26-71 | every encoding of fewer than 2^63 bytes is read back |
| RlpReader.Unambiguous | libdevcore/RLP.cpp:26-71 | no two accepted strings denote the same tree |
| RlpScalars.IsIntMeaning | libdevcore/RLP.cpp:124-147 | isInt on an accepted item: a string without a leading zero |
| RlpScalars.ToIntIff | libdevcore/RLP.h:237-258 | a strict conversion yields v if and only if the item encodes the shortest form of v and v fits |
| RlpScalars.ToHashIff | libdevcore/RLP.h:260-277 | a VeryStrict conversion yields h if and only if the item encodes h and the width is right |
| RlpScalars.LenientToInt | libdevcore/RLP.h:237-258 | a conversion that does not throw takes what is no integer as zero |
| RlpScalars.LenientToHash | libdevcore/RLP.h:260-277 | a conversion that does not throw right-aligns: the hash denotes the number that the string denotes |
| RlpScalars.ToBytesOfEncoded | libdevcore/RLP.h:187 | toBytes undoes the encoding of a string |
| RlpCursor.SplitIff | libdevcore/RLP.cpp:207-218 | a payload splits into items if and only if it is their concatenation and each is accepted |
| RlpCursor.SplitEncodings | libdevcore/RLP.cpp:90-98 | the payload of a list of trees splits into their encodings |
| RlpCursor.ReadLength | libdevcore/RLP.cpp:149-205 | the shifting loop and its tests compute the length |
| RlpCursor.Items | libdevcore/RLP.cpp:207-218 | items counts the items of the payload and fails if it does not split; the remaining bytes decrease |
| RlpIterator.Iterator.Begin | libdevcore/RLP.cpp:58-71 | the whole payload is still to come, behind a null item if the announced payload leaves the bytes; fails as the payload does |
| RlpIterator.Iterator.Next | libdevcore/RLP.cpp:45-56 | moves to the next item and loses no byte; with nothing left it stands still |
| RlpIterator.Collect | libdevcore/RLP.cpp:95-97 | the range loop collects exactly the items of the scan |
| RlpIterator.ReturnsIff | libdevcore/RLP.cpp:45-98 | some number of turns ends the loop of toList if and only if there is no list, its payload fails or does not split, or the bytes are what VeryStrict accepts |
| RlpIterator.LoopsForEver | libdevcore/RLP.cpp:58-71 | a list with one byte too many and one with a byte missing from which it never returns |
| RlpIterator.ToList | libdevcore/RLP.cpp:90-98 | wherever the loop returns, the result is the scan of the payload, failures included |
| RlpIndex.Rlp.Index | libdevcore/RLP.cpp:73-88 | on any bytes and after any earlier calls the answer of a new object, except for the one item that a failed call has lost |
| RlpIndex.ScanOfSplit | libdevcore/RLP.cpp:73-88 | on a payload that splits, the answer is the item of that index, null past the last |
| RlpIndex.FailedCallLosesItem | libdevcore/RLP.cpp:81-86 | a list whose first item is found, then not found after asking for the second |
| RlpIndex.StringsAreIndexed | libdevcore/RLP.h:133-136 | the first item of a string is null if and only if the string is empty |
| HeaderFields.ReadIff | libethcore/BlockHeader.cpp:78-108 | when and as what any bytes read as a header |
| HeaderFields.ItemsOfEncoded | libethcore/BlockHeader.cpp:57-61 | the items of an encoded header are its encoded fields |
| HeaderFields.HeaderIsReadable | libethcore/BlockHeader.cpp:57-61 | every header with extra data of fewer than 2^63 bytes is short enough for the reader |
| HeaderFields.RoundTripIff | libethcore/BlockHeader.cpp:57-108 | reading back restores any such header if and only if its number is below 2^32 and its gas within the limit |
| HeaderFields.ReadIsCanonicalIff | libethcore/BlockHeader.cpp:78-96 | a list read as a header is its encoding if and only if the payload splits into thirteen items and the last is a string |
| HeaderFields.MissingExtraDataIsEmpty | libethcore/BlockHeader.cpp:95 | a header without extra data reads the same with and without its last item |
| BlockHeader.FieldsFillList | libethcore/BlockHeader.cpp:46-61 | the thirteen fields close the list of thirteen and leave exactly the header's encoding |
| BlockHeader.BoundaryIff | libethcore/BlockHeader.cpp:39-44 | the stored boundary is the true quotient if and only if the difficulty is not one |
| BlockHeader.BlockHeader.GetBoundary | libethcore/BlockHeader.cpp:39-44 | whatever was called before, the boundary of the present difficulty |
| BlockHeader.BlockHeader.SetNumber | libethcore/BlockHeader.h:82-92 | changes one field and keeps the memos honest |
| BlockHeader.BlockHeader.SetDifficulty | libethcore/BlockHeader.h:83-92 | changes one field and keeps the memos honest |
| BlockHeader.BlockHeader.StreamFields | libethcore/BlockHeader.cpp:57-61 | thirteen appends, up to the first failure, on any stream |
| BlockHeader.BlockHeader.HashWithout | libethcore/BlockHeader.cpp:46-55 | whatever was called before, the hash of the encoding of the present fields |
| BlockHeader.BlockHeader.PopulateFromHeader | libethcore/BlockHeader.cpp:78-108 | on any bytes, whatever was indexed before, assigns the fields that they read as, or reports the first error |
| Fips202.RolMovesBits | libethash/sha3.c:38 | rotation moves each bit of a lane by n modulo 64 |
| Keccak.TablesFollowWalk | libethash/sha3.c:19-27 | the two tables are the walk of FIPS 202 section 3.2.2 and its offsets |
| Keccak.WalkVisitsOnce | libethash/sha3.c:62-68 | no step of the walk overwrites a lane that an earlier step wrote |
| Keccak.EveryLaneWritten | libethash/sha3.c:62-68 | every lane but lane 0 is written |
| Keccak.RcIsComputed | libethash/sha3.c:29-37 | the 24 constants are those of the shift register of section 3.2.5 |
| Keccak.RhoPiInPlace | libethash/sha3.c:62-68 | the walk with one temporary is rho then pi on all lanes at once |
| Keccak.ThetaInPlace | libethash/sha3.c:54-61 | is theta |
| Keccak.ChiInPlace | libethash/sha3.c:69-75 | row by row with a copy is chi |
| Keccak.KeccakfInPlace | libethash/sha3.c:47-79 | 24 in-place rounds are KECCAK-f[1600] |
| Sponge.LanesOfBytes | libethash/sha3.c:47-48 | lanes stored as bytes are loaded back |
| Sponge.BytesOfLanes | libethash/sha3.c:47-48 | bytes loaded as lanes are stored back |
| LaneBits.BitOfLane | libethash/sha3.c:47-48 | bit z of lane i is bit 64 i + z of the state, as in section 3.1 of FIPS 202 |
| Sponge.Permute | libethash/sha3.c:47-79 | the permutation on the 200 bytes of the state |
| Sponge.PadFillsBlocks | libethash/sha3.c:124-132 | a padded message is a whole number of blocks for every length |
| Sponge.AbsorbInput | libethash/sha3.c:124-132 | the absorbing loop, with the delimiter written before the last block, absorbs the padded message |
| Sponge.SqueezeOutput | libdevcore/SHA3.cpp:172-174 | the squeezing loop emits the sponge's output for every length |
| Sponge.Hash | libethash/sha3.c:116-138 | error cases, and otherwise the sponge of FIPS 202 section 4, also when input and output overlap exactly |
| Sponge.Sha3 | libethash/sha3.c:140-147 | refuses longer outputs than the digest |
| Sponge.Shake | libdevcore/SHA3.cpp:180-184 | any output length |
| SpongePadding.PadIsStandard | libethash/sha3.c:126-130 | in bits, the padded message is message, suffix and pad10*1, for every length |
| KernelRotations.Rol2Iff | libethash-cl/CLMiner_kernel.cl:334-348 | ROL2 rotates every pair of words if and only if the amount is not a multiple of 32 |
| KernelRotations.Rol2Rotates | libethash-cl/CLMiner_kernel.cl:334-348 | for any such amount the two words are those of the rotated lane |
| KernelRound.RhoPiKernel | libethash-cl/CLMiner_kernel.cl:402-432 | the unrolled moves of word pairs are rho then pi |
| KernelRound.ThetaKernel | libethash-cl/CLMiner_kernel.cl:365-400 | the unrolled columns are theta |
| KernelRound.ChiIotaKernel | libethash-cl/CLMiner_kernel.cl:434-443 | bitselect rows with the constant in between are chi then iota |
| KernelRound.KernelConstantIsRc | libethash-cl/CLMiner_kernel.cl:280-305 | the constants as word pairs are those of the standard |
| KernelRound.RoundKernel | libethash-cl/CLMiner_kernel.cl:360-444 | a round on 2x32-bit lanes is the round of FIPS 202 |
| NodeMemory.WordsOfBytes | libethash/internal.c:82-132 | words stored as bytes are loaded back |
| NodeMemory.BytesOfWords | libethash/internal.c:82-132 | bytes loaded as words are stored back |
| NodeMemory.Sha512IsOnePermutation | libethash-cl/CLMiner_kernel.cl:504-513 | hashing a 64-byte node is one permutation of its lanes, the padding lane and zeros |
| Ethash.HashNode | libethash/internal.c:98-99 | a node hashed in place |
| Ethash.FnvLaws | libethash/fnv.h:32-35 | the three laws that only FNV-1 with this prime has |
| Ethash.StartOfItem | libethash/internal.c:98-100 | an item starts from the cache node of its number, with the index in word 0 and nowhere else |
| Ethash.ParentsOfItem | libethash/internal.c:110-112 | 256 parents, and the word of the mix that chooses each |
| Ethash.CalculateDagItem | libethash/internal.c:82-132 | the host computes the DAG item, each parent chosen from the mix so far |
| DagKernel.NoAbsorb | libethash-cl/CLMiner_kernel.cl:446-473 | the loop under isolate is KECCAK-f[1600] |
| DagKernel.Sha512Kernel | libethash-cl/CLMiner_kernel.cl:504-513 | with padding written by hand it is the host's SHA3_512 of the node |
| DagKernel.Kernel | libethash-cl/CLMiner_kernel.cl:515-534 | for every cache and index a work item writes exactly the host's node, or nothing past the given size |
| DagBuild.Launch | libethash-cl/CLMiner.cpp:696-698 | one launch, its work items in any order, computes the nodes it reaches and no others |
| DagBuild.BuildDag | libethash-cl/CLMiner.cpp:684-699 | all launches compute exactly the nodes below the size that the kernel was told, wrapped indices included |
| DagBuild.WholeIff | libethash-cl/CLMiner.cpp:600-613 | the device ends up with the whole data set, whatever it held, if and only if the size is below 2^32 |
| DagBuild.BuildAndHash | libethash/internal.c:134-215 | full evaluation on the DAG that the device built answers what light evaluation answers |
| EthashHash.CompressInPlace | libethash/internal.c:201-209 | the in-place reduction is the reduction from a copy |
| EthashHash.PageOfAccess | libethash/internal.c:165-167 | which word of the mix chooses the page of an access, and that no other does |
| EthashHash.AccessLoop | libethash/internal.c:162-199 | every page is in range and both sources of nodes give the same mix |
| EthashHash.Hash | libethash/internal.c:134-215 | refuses exactly the sizes that are not multiples of 32 and otherwise answers the function of the data set |
| EthashHash.SameDataSetIff | libethash/internal.c:168-176 | both sources of nodes are one data set if and only if the given nodes are the computed items |
| EthashHash.LightAndFull | libethash/internal.c:134-215 | a light run and a full run of ethash_hash return the same answer or refusal whenever the full array holds the computed items |
| EthashAux.GetSeedHash | libethash/internal.c:217-225 | the zero hash, hashed once per epoch |
| EthashAux.FirstEpochIsLeast | libethcore/EthashAux.cpp:38-48 | the search finds the least epoch with the seed, or there is none below 2048 |
| EthashAux.Memo.ToEpoch | libethcore/EthashAux.cpp:32-55 | for every history of calls, failed ones included, the memo agrees with the plain search |
| EthashAux.InverseIffDistinct | libethcore/EthashAux.cpp:32-55 | toEpoch inverts the seed hash below 2048 if and only if the seeds are distinct |
| Kiss99.MwcDivides | libprogpow/ProgPow.cpp:242-243 | a multiply-with-carry step never overflows and divides by 2^16 modulo a*2^16 - 1 |
| Kiss99.MwcBecomesProper | libprogpow/ProgPow.cpp:242-243 | after two steps a word is below a*2^16, and stays there |
| Kiss99.MwcInjective | libprogpow/ProgPow.cpp:242-243 | on that range a step is one-to-one |
| Kiss99.MwcFixedIff | libprogpow/ProgPow.cpp:242-243 | on that range only zero and the modulus are left alone |
| Kiss99.JsrInjective | libprogpow/ProgPow.cpp:245-247 | the shift register step is one-to-one, and only zero becomes zero |
| Kiss99.JcongInjective | libprogpow/ProgPow.cpp:248 | the congruential step is one-to-one |
| Kiss99.HealthyForEver | libprogpow/ProgPow.cpp:240-250 | from any seed, all states after two steps are in range, and the register is zero only if it began so |
| Kiss99.NextInjective | libprogpow/ProgPow.cpp:240-250 | on that range the four-word step is one-to-one |
| Kiss99.Fnv1aInjective | libprogpow/ProgPow.cpp:232-235 | different words hash differently from the same start |
| Kiss99.SeededInjective | libprogpow/ProgPow.cpp:21-30 | different seeds give different generator states |
| Kiss99.CombineEqual | libprogpow/ProgPow.cpp:249 | equal words cancel in the returned number, which leaves the register |
| ProgPowVectors.PublishedFnv1a | test-vectors.md:5-11 | the three published results of fnv1a |
| ProgPowVectors.PublishedSeed | libprogpow/ProgPow.cpp:25-30 | the published words seed the generator in the order z, w, jsr, jcong |
| ProgPowVectors.PublishedKiss99 | test-vectors.md:13-25 | the first two published results of kiss99 |
| ProgPowVectors.PublishedMerges | test-vectors.md:94-101 | the published results of the four merges |
| ProgPowVectors.PublishedMath | test-vectors.md:103-118 | the published results of eight operations |
| ProgPowVectors.PublishedMinima | test-vectors.md:103-118 | those of the minimum, which is unsigned |
| ProgPowVectors.CasesDiffer | libprogpow/ProgPow.cpp:200-230 | the published random numbers select other cases than the published ones |
| ProgPowVectors.MathInOrder | libprogpow/ProgPow.cpp:213-230 | what each random number below eleven does to a pair of words |
| Shuffle.ShuffledIsPermutation | libprogpow/ProgPow.cpp:44-51 | for any choices the array keeps its contents |
| Shuffle.ShuffledInjective | libprogpow/ProgPow.cpp:44-51 | different choices give different permutations |
| ProgPowWords.PreludesAgree | libprogpow/ProgPow.cpp:53-78 | for all operands the CUDA and OpenCL preludes give rotations and minimum the same meaning |
| ProgPowWords.MergeLosesNothing | libprogpow/ProgPow.cpp:200-210 | for every merged word and random number a merge is a bijection on the old value |
| ProgPowWords.MergeDistinguishes | libprogpow/ProgPow.cpp:200-210 | from one old value, merging different words gives different values |
| ProgPowWords.MergeAmount | libprogpow/ProgPow.cpp:204-205 | a merge rotates by 1 to 31, never by zero |
| ProgPowWords.SelectorAndAmount | libprogpow/ProgPow.cpp:202-215 | the case is the remainder of the random number, the amount comes from its upper half |
| ProgPowWords.ProductHalves | libprogpow/ProgPow.cpp:223-225 | product and mul_hi are the two halves of the 64-bit product |
| ProgPowWords.OnesByPosition | libprogpow/ProgPow.cpp:220 | popcount is the number of positions that hold a one |
| ProgPowWords.CountsByPosition | libprogpow/ProgPow.cpp:220-221 | clz tells between which powers of two the word lies |
| ProgPowWords.SourcesBijective | libprogpow/ProgPow.cpp:163-166 | the numbers below 992 are one to one with ordered pairs of different registers |
| ProgPow.CudaIsOpenCl | libprogpow/ProgPow.cpp:53-78 | every program has the same effect on every lane under both preludes |
| ProgPow.MergeExprMeans | libprogpow/ProgPow.cpp:200-210 | the emitted merge evaluates to the merge of the values |
| ProgPow.MathExprMeans | libprogpow/ProgPow.cpp:213-230 | the emitted math expression evaluates to the table's operation |
| ProgPowStream.MathByNumber | libprogpow/ProgPow.cpp:159-171 | three numbers in a row: sources, operation, merge |
| ProgPowStream.PreparedByNumber | libprogpow/ProgPow.cpp:35-51 | both arrays are shuffled by the odd and the even ones of the first 62 numbers |
| ProgPowStream.KernelByNumber | libprogpow/ProgPow.cpp:112-191 | every statement of every kernel by position: the random number and the entry of the shuffled arrays that it is made of |
| ProgPowStream.Parameters | libprogpow/ProgPow.h:6-24 | the parameters |
| ProgPowGenerator.Kiss.Rnd | libprogpow/ProgPow.cpp:240-250 | updates the four words and returns the combination |
| ProgPowGenerator.ShuffleArrays | libprogpow/ProgPow.cpp:44-51 | the in-place shuffle of both arrays with interleaved draws |
| ProgPowGenerator.EmitSteps | libprogpow/ProgPow.cpp:145-176 | the main loop emits the specified statements |
| ProgPowGenerator.GetKern | libprogpow/ProgPow.cpp:17-194 | seeding, shuffling in place and emitting the global load and the steps give exactly Kernel, for either prelude |
| ProgPowCorrect.StagingIsCorrect | libprogpow/ProgPow.cpp:112-191 | for every block, loop, registers, DAG, prelude and order of the lanes, running the whole emitted loop body is interpreting |
| ProgPowCorrect.ExchangeHands | libprogpow/ProgPow.cpp:126-135 | under either prelude and any order each lane goes on with the first register of the same lane |
| ProgPowCorrect.TargetIsEntry | libprogpow/ProgPow.cpp:136-138 | the 32-bit address arithmetic does not wrap and ends on the entry of the lane in the common row |
| ProgPow.CacheWordAt | libprogpow/ProgPow.cpp:154-155 | a cached access takes the word at the address modulo 4096 |
| ProgPowGroup.XorByDigit | libprogpow/ProgPow.cpp:137 | lane_id ^ loop has a one exactly where one of the two has one |
| ProgPowGroup.ShareStretch | libprogpow/ProgPow.cpp:130-132 | up to the barrier one lane writes the shared word, whatever the order |
| ProgPowGroup.QuietStretch | libprogpow/ProgPow.cpp:133-191 | code that shares nothing leaves each lane as if it had run alone, whatever the order |
| ProgPowLoops.WriterStretch | libprogpow/ProgPow.cpp:130-133 | in a stretch that ends with sharing, all lanes find the first word if and only if the writer comes last or writes it again |
| ProgPowLoops.IntoNextIff | libprogpow/ProgPow.cpp:130-191 | from one OpenCL loop into the next, the same for the loop's own word, and what then holds |
| ProgPowLoops.OpenClLoops | libethash-cl/CLMiner_kernel.cl:234-235 | over n loops all lanes read their own loop's word if and only if every next writer is in time, and then the run is n interpreted loops |
| ProgPowLoops.CudaLoops | libethash-cuda/CUDAMiner_kernel.cu:215-216 | for every order of the lanes in every stretch, n loops run as interpreted |
| ProgPowSlowLane.EmitTells | libprogpow/ProgPow.cpp:177-189 | a lane ends with other registers if only the first word of its entry is another one |
| ProgPowSlowLane.SlowLaneGoesWrong | libprogpow/ProgPow.cpp:130-133 | for every block number a run in which a lane reads the next loop's word and ends the loop with wrong registers |
| ProgPowStaging.TailIsNeverLoaded | libprogpow/ProgPow.cpp:136-138 | entries behind the last whole row of the DAG do not matter |
| ProgPowStaging.StepsAreInterpreted | libprogpow/ProgPow.cpp:145-176 | the same for the steps from any point on |
| ProgPowStaging.LanesShareRow | libprogpow/ProgPow.cpp:121-137 | in every loop the sixteen lanes load sixteen different entries of one row |
| ProgPowCoverage.PreparedIsPermutation | libprogpow/ProgPow.cpp:35-51 | whatever is drawn, both arrays are permutations of 0 to 31 |
| ProgPowCoverage.ShuffleBothIsShuffled | libprogpow/ProgPow.cpp:44-51 | the interleaved shuffle is two shuffles by the choices drawn |
| ProgPowCoverage.EveryRegisterIsMerged | libprogpow/ProgPow.cpp:32-34 | every emitted kernel merges into every register, and its eleven cache sources are different |
| ProgPowCoverage.PeriodDecides | libprogpow/ProgPow.cpp:21-30 | two blocks share a seed if and only if they are in the same period |
| ProgPowCacheLoad.LoadShare | libethash-cl/CLMiner_kernel.cl:179-185 | a work item writes the words of its own entries and no others |
| ProgPowCacheLoad.LoadCache | libethash-cl/CLMiner_kernel.cl:179-185 | all work items, in any order, fill the cache with the first words of the DAG |
| Worker.InvNext | libdevcore/Worker.cpp:30-102 | what every atomic step keeps |
| Worker.AtMostOneBody | libdevcore/Worker.cpp:44-72 | over all runs at most one workLoop body, Starting is never restored, and claiming a start never fails |
| Worker.StopIsEffective | libdevcore/Worker.cpp:80-91 | when stopWorking returns no body runs, and none runs before a later start |
| Worker.KillIsKept | libdevcore/Worker.cpp:93-102 | a kill is in the state or about to be put back, no body can begin, and at the end every thread is gone |
| Worker.KillIsBrieflyOverwritten | libdevcore/Worker.cpp:63-66 | a run in which Stopped replaces Killing while the destructor waits |
| Worker.WaitsEnd | libdevcore/Worker.cpp:68-90 | every wait of a controller has its condition met within five steps of the thread, and it stays met until the controller looks |
| Worker.StartIff | libdevcore/Worker.cpp:30-78 | for every reachable call of startWorking: a body runs when it returns if and only if none had returned unnoticed when it touched the state |
| Worker.StartIsEffective | libdevcore/Worker.cpp:30-78 | with bodies that return only when told to, a body runs when startWorking returns, and until a stop |
| Worker.StartCanBeLost | libdevcore/Worker.cpp:34-38 | a run in which a body that returned on its own swallows a start |

## Left out

- Network and pool clients, JSON-RPC, the API server, command line, logging and D-Bus are plumbing around the code modelled here.
- OpenCL and CUDA driver calls, compilation of emitted text, the vendor intrinsics behind `ROL2` and hardware monitoring are foreign code.
- The characters of emitted kernels, their comments and fixed prologue: statements and operands are modelled.
- What else `ethash_search` keeps in the shared words before the first and after the last loop body: the model is of the loop bodies, n of them one after another.
- What `hack_false` guards: it is never carried out.
- `keccak_f800` and the repeated calls in `ethash_search` have nothing shown to compare them with, and no standard is claimed for them.
- `ethash_compute_cache_nodes` and the size tables of `data_sizes.h`: the cache is any nonempty sequence of nodes.
- Big-endian hosts, allocation failure and the freeing of memory.
- `extractHeader` and the fields of a header that are not serialised.
- RlpIterator.ToList: takes the objects from which the loop of the source returns; RlpIterator.ReturnsIff says which these are.
- RlpStream.RlpStream.NoteAppended: after the exception for an oversized list nothing more is said about the bytes than that the stream stays valid.
- BlockHeader.BlockHeader.HashWithout: takes a header small enough to have an encoding, which the source needs memory of 2^64 bytes to violate.
- BlockHeader.BlockHeader.PopulateFromHeader: takes a new header object, and says nothing about fields assigned before an error.
- Sponge.Hash: takes a rate that is not zero, for which the source would not terminate; buffers that overlap partly are not modelled.
- EthashHash.Hash: takes at least one page, since the source divides by their number, and at most 2^31 pages of 128 bytes, beyond which the 32-bit arithmetic on page indices wraps.
- EthashAux.GetSeedHash: takes epochs below 2^32, beyond which the 32-bit counter of the source would not reach the end.
- EthashAux.Memo.ToEpoch: concurrent calls, which the source does not guard, are not modelled.
- DagKernel.Kernel: takes a nonzero isolate, as the host passes; for zero the source does not terminate.
- ProgPowCorrect.StagingIsCorrect: takes a DAG of at least one row and fewer than 2^32 entries of 16 bytes, which is 64 GiB and beyond every size in `data_sizes.h`; with more the 32-bit offset would wrap.
- DagBuild.BuildAndHash: takes a size below 2^32, which is when the device has the whole DAG.
- ProgPowCacheLoad.LoadCache: runs the work items one after another, each word having one writer.
- Worker.WaitsEnd: counts the return of workLoop as a step of the thread, so it assumes that workLoop returns.
- Words that ProgPoW only adds and multiplies are numbers below 2^32 with the reduction written out; words it shifts or combines bitwise are bit vectors.
- Fixed-size hashes in block headers are byte sequences of the right length, and DAG nodes are values: the source reaches the light node through a pointer into a block that has ended (libethash/internal.c:170-175), which the model does not reproduce.
- The SSE branches of `internal.c`: the plain loops beside them are modelled.
