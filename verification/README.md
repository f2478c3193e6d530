# very-prince contracts, verified in Dafny

A Dafny 4.11 model of the Soroban contract crate (`packages/contracts`) and its companion `packages/amm-math`, with
proofs of what the contracts promise. `dafny verify dfyconfig.toml` checks the whole project. Nothing here runs the
contracts; every claim is a theorem about the model.

## What is modelled

- **BN254 field arithmetic** (`Limbs`, `Powers`, `ModArith`, `Fermat`, `Montgomery`, `Polynomials`, `Tower`,
  `TowerInverses`). The limb loops of `zk_verifier.rs` are methods over 64-bit limbs proved against arithmetic modulo
  P; the Fp2, Fp6 and Fp12 formulas are functions proved equal, limb for limb, to schoolbook polynomial products.
  Primality of P is a hypothesis of the inversion theorems and of nothing else; given it, inversion in Fp6 and Fp12 is
  total on non-zero elements if and only if the polynomials that define the two extensions have no root.
- **RLP and Merkle-Patricia proofs** (`Rlp`, `RlpBuffers`, `Mpt`, `Tries`). The decoder is a function, the encode
  buffer, child vector, nibble buffer and proof loop are classes and methods. The specifications are appendices B, C
  and D of the Ethereum Yellow Paper. The hash is an arbitrary function; the theorems that decide which proofs are
  accepted assume only that no two of the nodes in play share a hash. Tries may embed short nodes in their parents. A
  `usize` has 4 or 8 bytes; the theorems hold of both.
- **Keccak-256** (`KeccakF`, `Keccak`, `KeccakBits`). The streaming object against the batch sponge of section 4 of
  FIPS 202 with pad10*1 (section 5.1) and no SHA-3 suffix, and the in-place permutation against the step maps of
  section 3.2, its three tables included. `KeccakBits` writes state arrays, step maps and padding bit by bit, as the
  standard does, and proves that the lanes and bytes represent them. The sponge theorems use nothing about the
  permutation.
- **TWAP oracle** (`PriceHistory`, `TwapOracle`). The bounded ring of one feed refines the unbounded history of
  accepted observations, and the average, bounds and deviation theorems are about that history.
- **Priority list** (`SortedList`). The doubly linked list over storage keys refines a sequence of distinct ids.
- **Numbers** (`SquareRoots`, `PoolRoots`, `Swaps`, `Rounding`, `Shares`, `VestingSearch`, `Sums`). Integer square
  roots, constant-product swaps, explicit rounding, share conversion, the vesting search, and sums over maps.
- **Payout registry** (`Ledger`, `Solvency`, `LedgerLaws`, `LedgerFlows`, `LedgerGuards`, `LedgerRights`,
  `LedgerPayments`, `LedgerLimits`, `PayoutRegistry`), in two levels. `Ledger` is a transition system without caches:
  contributions instead of statistics, tranches and claims instead of unclaimed amounts, share balances instead of
  vault totals. `Solvency`, `LedgerLaws` and `LedgerFlows` prove laws of all its runs, `LedgerGuards` gives the
  reasons for every refusal, `LedgerRights` says what the roles protect and `LedgerPayments` who pays whom;
  `LedgerLimits` says exactly when promises about claims and pausing fail. The class in `PayoutRegistry` stores what
  the contract stores, with its caches, loops, incremental updates and the reentrancy guard, and is proved to follow
  the ledger call by call: the same new books with exact caches, or the same error and no change. A panic is a call
  that returns an error and changes nothing. A borrower's callback is any sequence of token transfers and of calls
  back into the registry, caught or not.

Every 128-bit, 64-bit or 32-bit limit that the code checks, or that its arithmetic relies on, is written out; sums of
shifted and masked bits are written as arithmetic on integers.

## Assumptions

Storage entries stay alive. The token is exact: a transfer moves the amount, or fails for lack of funds or overflow.
The contract's own address never signs a call, so it is never a payer and nobody else can move its tokens. Signatures
are taken as given for all other addresses. The ledger time of a call is a parameter; it need not grow along a run.

## Where the code and its documentation differ

- `isqrt` of amm-math documents a start value close to the root. Its start value (line 62) lies far below the root
  from 2^64 on, and the result is then that start value plus one, or none for the largest u128:
  `SquareRoots.IsqrtExactBelow` gives the exact range.
- `isqrt_amm` allows ten rounds and falls back to the digit method. Eight rounds always suffice and some numbers need
  them, so the fallback is never reached (`PoolRoots.EightRounds`, `PoolRoots.EightRoundsNeeded`).
- `compute_input_amount` is described as the inverse of `compute_output_amount`, but against empty reserves it quotes
  any output at nothing (`Swaps.EmptyReservesQuoteNothing`). The quote brackets the wanted output if and only if both
  reserves are non-empty or nothing is wanted (`Swaps.QuotesBracket`).
- Burning shares rounds up, which the comments of `fixed_point.rs` call favourable to the pool. It favours the burner:
  `Shares.UnwrapKeepsPriceIffExact` and `Shares.BurnRoundsAgainstThePool`. In the registry's own vault shares and
  assets stay equal, so nothing is rounded.
- The error table of `compute_unwrap` promises `InvalidAmount` for any negative argument; a negative balance of the
  caller, and a negative total when the caller lacks the shares, give `InsufficientShareBalance`
  (`Shares.UnwrapOutcome`).
- `batch_allocate` does not check the pause flag, unlike the single allocation. It is the only modelled call that
  moves money on a paused registry, and it does so exactly when it would otherwise
  (`LedgerLimits.AcceptedWhilePausedIff`).
- Tranche times are sorted within one allocation, but allocations are appended, so a merged schedule may be unsorted.
  The search then still sums a prefix (`VestingSearch.VestedAmountBinary`), which may miss unlocked tranches
  (`VestingSearch.UnsortedSearchMisses`) and may also include locked ones: `LedgerLimits.ClaimPaidEarly` is a run in
  which a claim pays 7 at time 1, of which 5 are locked until 100. An accepted claim pays for exactly the unlocked
  tranches if and only if no locked tranche stands before an unlocked one (`LedgerLimits.ClaimPaysUnlockedIffPrefix`);
  that holds at all times if and only if the schedule is sorted (`VestingSearch.SearchExactIffSorted`). A claim may
  also be refused as locked while something is unlocked: a first claim exactly when the first tranche is locked and a
  later one is not (`LedgerLimits.FirstClaimRefusedIff`, with a run in `LedgerLimits.ClaimRefused`). The laws about
  runs do not need sortedness.
- The nesting limit of the RLP decoder is never reached, since every list is iterated from depth one again
  (`Rlp.DepthLimitUnreached`, `Rlp.NestingIsNotLimited`); its error is reported for a 65th child instead, and for
  nothing else (`Rlp.TooManyChildren`).
- `usize_to_be_bytes` (rlp.rs, 425-433) documents a length without leading zeroes but keeps all eight bytes, so the
  decoder reads what `encode_bytes` and `encode_list_payload` append if and only if the payload has at most 55 bytes
  (`RlpBuffers.WideEncodeDecodesIff`). The second versions are exact.
- `get_page` refuses a request for fifty or more nodes whenever the list goes on after the fiftieth.
- `mpt.rs` answers an absent key and a proof that simply ends alike, so `verify_exclusion_proof` accepts the first
  nodes of an honest proof of a present key (`Tries.TruncatedProofExcludes`); for a present key those are what it
  accepts (`Tries.PresentKeyExcludedIff`). It refuses the leaf with a different path that its documentation allows
  (`Tries.OtherLeafNotExcluded`): a complete honest proof is accepted if and only if the path ends at an empty slot
  (`Tries.HonestExclusionIff`).
- Supplied nodes below 32 bytes are not hashed. When a proof departs from the trie's path at such a node the walk goes
  on from it whatever its hash; a proof accepted for a value that is not stored must depart at one
  (`Tries.AcceptedProofIsTrue`, `Tries.FalseProofDepartsAtShortNode`).

## Model

| member | source | states |
|---|---|---|
| Montgomery.LessThan | packages/contracts/src/zk_verifier.rs:107-116 | four-limb comparison from the top limb down decides the comparison of the numbers the limbs spell |
| Montgomery.MontAdd | packages/contracts/src/zk_verifier.rs:119-138 | the reduced sum modulo P of two reduced elements, through both carry chains |
| Montgomery.MontSub | packages/contracts/src/zk_verifier.rs:141-160 | the reduced difference modulo P, adding P back exactly when the subtraction borrows |
| Montgomery.WideProduct | packages/contracts/src/zk_verifier.rs:163-173 | the eight-limb schoolbook product is the exact product of the two numbers; no 128-bit partial product overflows |
| Montgomery.Reduce | packages/contracts/src/zk_verifier.rs:175-190 | the reduction adds a multiple q*P with q < 2^256, clears the four low limbs, and loses no carry past limb 7 |
| Montgomery.UpperHalf | packages/contracts/src/zk_verifier.rs:192-200 | what is left above the cleared limbs is below 2P, so one conditional subtraction is enough |
| Montgomery.SubtractOnce | packages/contracts/src/zk_verifier.rs:192-202 | the conditional subtraction returns the value below P |
| Montgomery.MontMul | packages/contracts/src/zk_verifier.rs:163-203 | for all reduced operands the limb loops return the reduced Montgomery product: no partial product overflows, no carry is lost, one conditional subtraction suffices |
| Montgomery.MontgomeryProduct | packages/contracts/src/zk_verifier.rs:163-203 | the Montgomery product times 2^256 is congruent to the ordinary product modulo P |
| Montgomery.ConstantsRepresent | packages/contracts/src/zk_verifier.rs:16-35 | R_MOD_P represents one, R2_MOD_P represents 2^256, and P_MINUS_2 is P - 2 |
| Montgomery.DecodeAdd | packages/contracts/src/zk_verifier.rs:119-138 | addition of Montgomery forms is addition modulo P of what they represent |
| Montgomery.DecodeSub | packages/contracts/src/zk_verifier.rs:141-160 | subtraction of Montgomery forms is subtraction modulo P of what they represent |
| Montgomery.DecodeMul | packages/contracts/src/zk_verifier.rs:163-203 | multiplication of Montgomery forms is multiplication modulo P of what they represent |
| Montgomery.DecodeInjective | packages/contracts/src/zk_verifier.rs:86-92 | an element is determined by what it represents, so limb equality is equality in the field |
| Montgomery.MontPow | packages/contracts/src/zk_verifier.rs:206-220 | for every 256-bit exponent the result represents the power modulo P |
| Montgomery.ParseFp | packages/contracts/src/zk_verifier.rs:752-762 | accepts exactly the 32-byte big-endian integers below P, and the result represents that integer |
| Montgomery.OutOfMontgomery | packages/contracts/src/zk_verifier.rs:843-846 | multiplying by the plain limbs of one gives back the represented integer |
| Montgomery.FpInvert | packages/contracts/src/zk_verifier.rs:223-230 | none for zero, otherwise the power with exponent P - 2 |
| Montgomery.InverseCorrect | packages/contracts/src/zk_verifier.rs:223-230 | if P is prime, every non-zero element times its inverse is one (Fermat's little theorem, proved in Fermat.dfy) |
| Tower.Fp2MulIsSchoolbook | packages/contracts/src/zk_verifier.rs:253-262 | the three-multiplication product is limb for limb the schoolbook product modulo u^2 = -1 |
| Tower.Fp2SquareIsSelfProduct | packages/contracts/src/zk_verifier.rs:265-269 | squaring is limb for limb self-multiplication |
| Tower.Fp2MulXiIsProduct | packages/contracts/src/zk_verifier.rs:284-290 | multiplication by xi by additions is multiplication by 9 + u |
| Tower.Fp6MulIsSchoolbook | packages/contracts/src/zk_verifier.rs:309-337 | the Karatsuba product is limb for limb the schoolbook product modulo v^3 = 9 + u |
| Tower.Fp6SquareIsSelfProduct | packages/contracts/src/zk_verifier.rs:340-349 | squaring is limb for limb self-multiplication |
| Tower.Fp6MulVIsProduct | packages/contracts/src/zk_verifier.rs:389-391 | the shift with xi is multiplication by v |
| Tower.Fp12MulIsSchoolbook | packages/contracts/src/zk_verifier.rs:417-428 | the Karatsuba product is limb for limb the schoolbook product modulo w^2 = v |
| Tower.Fp12SquareIsSelfProduct | packages/contracts/src/zk_verifier.rs:431-438 | squaring is limb for limb self-multiplication |
| Tower.Fp6CofactorsCorrect | packages/contracts/src/zk_verifier.rs:352-378 | x times the cofactors (A, B, C) computed by the inversion is (D, 0, 0) |
| Tower.Fp2InverseTotal | packages/contracts/src/zk_verifier.rs:272-276 | if P is prime, inversion fails for zero and nothing else |
| Tower.Fp2InverseCorrect | packages/contracts/src/zk_verifier.rs:272-276 | if P is prime, an element times its inverse is one |
| Tower.Fp6InverseCorrect | packages/contracts/src/zk_verifier.rs:352-386 | if P is prime, an element times its inverse is one |
| Tower.Fp12InverseCorrect | packages/contracts/src/zk_verifier.rs:441-447 | if P is prime, an element times its inverse is one |
| TowerInverses.Fp6NoZeroDivisors | packages/contracts/src/zk_verifier.rs:309-337 | if P is prime and 9 + u is no cube in Fp2, a product in Fp6 is zero only if a factor is |
| TowerInverses.Fp6InverseTotalIff | packages/contracts/src/zk_verifier.rs:352-386 | if P is prime, inversion in Fp6 fails on zero alone if and only if 9 + u is no cube in Fp2 |
| TowerInverses.Fp12InverseTotalIff | packages/contracts/src/zk_verifier.rs:441-447 | if P is prime, inversion in Fp12 fails on zero alone if and only if 9 + u is no cube in Fp2 and v is no square in Fp6 |
| Rlp.DecodeUsizeLoop | packages/contracts/src/rlp.rs:317-326 | for a usize of 4 or 8 bytes the shift loop returns the big-endian value without overflow, or the size error for too many bytes |
| Rlp.DecodeReEncode | packages/contracts/src/rlp.rs:225-313 | decoding a re-encoded item followed by anything returns the item and exactly its length |
| Rlp.ReEncodeDecode | packages/contracts/src/rlp.rs:225-313 | re-encoding whatever is decoded reproduces the bytes it occupied: the decoder accepts canonical forms only |
| Rlp.ItemsReEncode | packages/contracts/src/rlp.rs:136-160 | the children of a list re-encode to the list's payload |
| Rlp.DecodeEncode | packages/contracts/src/rlp.rs:77-85 | for every tree of lists of at most 64 children, decoding its encoding followed by rest yields the tree and consumes the encoding |
| Rlp.DecodeTreeExact | packages/contracts/src/rlp.rs:88-94 | an input decodes to a tree if and only if it is that tree's encoding, within the input limit |
| Rlp.PrefixFree | packages/contracts/src/rlp.rs:77-94 | no encoding is a proper prefix of another one |
| Rlp.DecodeErrors | packages/contracts/src/rlp.rs:225-313 | which malformed or truncated buffer gives which error |
| Rlp.InputErrors | packages/contracts/src/rlp.rs:77-94 | which input is refused as empty, too long or trailed by other data |
| Rlp.DepthLimitUnreached | packages/contracts/src/rlp.rs:225-228 | no call of the decoder, all of which start at depth zero or one, reports the nesting limit |
| Rlp.TooManyChildren | packages/contracts/src/rlp.rs:136-142 | collecting children reports that error exactly for payloads that begin with 65 well-formed items |
| Rlp.NestingIsNotLimited | packages/contracts/src/rlp.rs:17-19 | lists nested to any depth the input limit admits, 55 and more levels, decode to the bottom |
| RlpBuffers.EncodeBuf.PushSlice | packages/contracts/src/rlp.rs:379-386 | appends the whole slice, or reports that it does not fit 4096 bytes |
| RlpBuffers.LenToMinBe | packages/contracts/src/rlp.rs:438-444 | the significant bytes are the minimal big-endian form of the length |
| RlpBuffers.EncodeBytesV2 | packages/contracts/src/rlp.rs:447-460 | appends the encoding of the bytes exactly when it fits |
| RlpBuffers.EncodeListPayloadV2 | packages/contracts/src/rlp.rs:463-474 | appends the encoding of the list exactly when it fits |
| RlpBuffers.EncodeBytes | packages/contracts/src/rlp.rs:396-409 | the first version appends its own form, eight length bytes wide beyond 55 bytes, exactly when that fits |
| RlpBuffers.EncodeListPayload | packages/contracts/src/rlp.rs:412-423 | the same for list payloads |
| RlpBuffers.WideEncodeDecodesIff | packages/contracts/src/rlp.rs:396-433 | decoding reads that form back if and only if the payload has at most 55 bytes, and otherwise reports the leading zero |
| RlpBuffers.CollectItems | packages/contracts/src/rlp.rs:136-160 | iterator and fixed child vector together return the children, with the first error in order |
| Mpt.HexPrefixInverse | packages/contracts/src/mpt.rs:370-390 | decoding the hex-prefix form of at most 64 nibbles returns the nibbles and the leaf flag |
| Mpt.DecodeCompactLoop | packages/contracts/src/mpt.rs:370-390 | the nibble-by-nibble loop computes the hex-prefix decoding, errors included |
| Mpt.Nibbles.Push | packages/contracts/src/mpt.rs:335-348 | appends a nibble, refusing values above 15 and a 65th nibble |
| Mpt.ExtractChildHashBuffered | packages/contracts/src/mpt.rs:285-319 | re-encoding inline children through the buffer gives the child hash or the error of the rule |
| Mpt.VerifyOneNode | packages/contracts/src/mpt.rs:166-241 | what one node decides: parse, then the leaf, extension or branch step, with its first error |
| Mpt.NodeErrors | packages/contracts/src/mpt.rs:166-241 | what a supplied node that is no leaf, extension or branch leads to |
| Mpt.ChildErrors | packages/contracts/src/mpt.rs:285-319 | which child slots are empty, oversized or too long |
| Mpt.VerifyInner | packages/contracts/src/mpt.rs:151-245 | the loop over the proof computes the recursive walk |
| Tries.WalkFollows | packages/contracts/src/mpt.rs:151-245 | over a proof that follows the trie the walk runs out of nodes if the proof stops early, and otherwise gives what the trie says: the stored value is accepted, another one mismatches, a diverging path mismatches, an empty slot is a missing key |
| Tries.AcceptedProofIsTrue | packages/contracts/src/mpt.rs:91-115 | for every trie, embedded nodes included, and every proof, with no hash collision among the nodes in play: accepted are exactly the path of the trie, followed by anything, for the value that looking up the hashed key returns, and the proofs that depart from it at a node below 32 bytes from which the walk succeeds |
| Tries.ProofVerdict | packages/contracts/src/mpt.rs:91-115 | the verdict on a proof that does not depart at a short node, with every error |
| Tries.FalseProofDepartsAtShortNode | packages/contracts/src/mpt.rs:257-272 | a proof accepted for anything but the stored value departs from the path of the trie at a supplied node below 32 bytes |
| Tries.RootDecides | packages/contracts/src/mpt.rs:151-245 | when the path ends at the root nothing but the stored value is accepted |
| Tries.WalkDeparts | packages/contracts/src/mpt.rs:151-272 | a proof that departs from the path of the trie at the root or at a node of at least 32 bytes fails with the root or node hash mismatch; at a shorter node the walk goes on from that node |
| Tries.HonestProofIsAccepted | packages/contracts/src/mpt.rs:91-115 | the root-to-leaf node list of a present key, at most 16 nodes long, is accepted, embedded nodes included |
| Tries.ExclusionExact | packages/contracts/src/mpt.rs:117-145 | an exclusion proof is accepted if and only if it follows the path of the trie and stops early or reaches an empty slot, or departs at a node below 32 bytes from which the walk accepts or finds no key |
| Tries.PresentKeyExcludedIff | packages/contracts/src/mpt.rs:117-145 | for a present key and a proof without such a departure: accepted if and only if it is a proper start of the honest proof |
| Tries.HonestExclusionIff | packages/contracts/src/mpt.rs:117-145 | the complete honest proof of a key is accepted if and only if the path ends at an empty slot; the verdict is wrong exactly for absent keys whose path ends elsewhere |
| Tries.TruncatedProofExcludes | packages/contracts/src/mpt.rs:141-145 | the first nodes of an honest proof of any key, present or not, are accepted as an exclusion proof |
| Tries.OtherLeafNotExcluded | packages/contracts/src/mpt.rs:117-119 | a trie whose only leaf has another path: the key is absent and its proof is refused |
| KeccakF.RhoTable | packages/contracts/src/keccak.rs:36-42 | the rotation offsets are those of the walk in section 3.2.2 of FIPS 202 |
| KeccakF.PiForward | packages/contracts/src/keccak.rs:45-51 | the lane table is the pi permutation of section 3.2.3 of FIPS 202 |
| KeccakF.RcTable | packages/contracts/src/keccak.rs:20-33 | the round constants are the output of the shift register of section 3.2.5 of FIPS 202 |
| KeccakF.KeccakF1600 | packages/contracts/src/keccak.rs:150-189 | the in-place loops compute 24 rounds of theta, rho, pi, chi and iota |
| KeccakBits.BitOfRot | packages/contracts/src/keccak.rs:155-171 | rotating a lane by n moves bit z - n, modulo 64, to bit z |
| KeccakBits.ThetaBits | packages/contracts/src/keccak.rs:152-163 | the lanes after theta hold the bits of section 3.2.1: column parities at (x - 1, z) and (x + 1, z - 1) |
| KeccakBits.RhoBits | packages/contracts/src/keccak.rs:165-169 | the lanes after rho hold the bits of section 3.2.2, each lane moved up by its offset |
| KeccakBits.PiBits | packages/contracts/src/keccak.rs:165-169 | the lanes after pi hold the bits of section 3.2.3 |
| KeccakBits.ChiBits | packages/contracts/src/keccak.rs:171-184 | the lanes after chi hold the bits of section 3.2.4: a bit is flipped when the next is zero and the one after it is one |
| KeccakBits.IotaBits | packages/contracts/src/keccak.rs:186-187 | the lanes after iota hold the bits of section 3.2.5 |
| KeccakBits.RoundsBits | packages/contracts/src/keccak.rs:150-189 | n rounds on lanes are n rounds of the standard on bits, n up to 24 |
| KeccakBits.PermutationBits | packages/contracts/src/keccak.rs:150-189 | bit for bit the permutation of a 1600-bit string is KECCAK-p[1600, 24] of its state array, lanes and bytes in the order of section 3.1 |
| Keccak.XorIntoState | packages/contracts/src/keccak.rs:198-205 | XORs the bytes into the 200-byte state at the offset and nothing else |
| Keccak.PaddingInPlace | packages/contracts/src/keccak.rs:103-110 | the two bytes XORed in place are the whole pad10*1 block, also when both fall on the same byte |
| KeccakBits.PaddingBits | packages/contracts/src/keccak.rs:103-107 | the padding is a one, zeroes and a one, bit by bit |
| KeccakBits.AbsorbedBits | packages/contracts/src/keccak.rs:195-205 | absorbing a block flips the bits it sets; the rate leaves a capacity of 512 bits |
| Keccak.AbsorbChunk | packages/contracts/src/keccak.rs:83-98 | absorbing a chunk within a block continues the batch state, permuting exactly when the block is full |
| Keccak.Keccak256.Update | packages/contracts/src/keccak.rs:83-98 | after any update the object stands for the concatenation of everything absorbed |
| Keccak.Keccak256.Finalize | packages/contracts/src/keccak.rs:103-110 | the digest is that of the batch sponge over the padded message |
| Keccak.HashChunks | packages/contracts/src/keccak.rs:127-141 | for every way of cutting a message into updates the digest is the batch digest of the whole |
| PriceHistory.TimestampsIncrease | packages/contracts/src/twap_oracle.rs:186-275 | timestamps of accepted observations strictly increase |
| PriceHistory.NeighboursSpaced | packages/contracts/src/twap_oracle.rs:211-231 | neighbouring accepted observations lie the update interval apart and within the deviation limit |
| PriceHistory.AdmittedIff | packages/contracts/src/twap_oracle.rs:186-275 | an update is admitted if and only if the price is positive, the feed active, the time and the deviations within limits and the area so far within range; it then records that area |
| PriceHistory.RefusedUpdate | packages/contracts/src/twap_oracle.rs:186-275 | the error of every refused update, in the order of the checks |
| PriceHistory.CumulativeIsArea | packages/contracts/src/twap_oracle.rs:186-325 | differences of cumulative prices are the exact integral of price over time |
| PriceHistory.TwapIsExactAverage | packages/contracts/src/twap_oracle.rs:279-325 | the result is the floor of the exact time-weighted average over its interval, lies between the smallest and largest price in it, and the zero-elapsed error never occurs |
| PriceHistory.TwapAnsweredIff | packages/contracts/src/twap_oracle.rs:279-325 | an average is answered if and only if a window is asked for, the feed is active with two observations, the newest neither in the future nor stale, and the area within range |
| PriceHistory.RefusedAverage | packages/contracts/src/twap_oracle.rs:279-325 | which error answers which missing condition |
| PriceHistory.FlashScanComplete | packages/contracts/src/twap_oracle.rs:485-517 | with non-decreasing ledgers the early break loses no observation of the window |
| PriceHistory.BufferedDeviation | packages/contracts/src/twap_oracle.rs:233-275 | any two buffered observations within the ledger window deviate by at most the flash threshold |
| PriceHistory.DeviationMeaning | packages/contracts/src/twap_oracle.rs:471-481 | short of saturation the bound in basis points is a bound on the prices |
| TwapOracle.BackwardSlot | packages/contracts/src/twap_oracle.rs:463-469 | reading slots backwards from the newest index visits the newest observations in order |
| TwapOracle.TwapFeed.InitializeAsset | packages/contracts/src/twap_oracle.rs:122-180 | a new feed with parameters in range starts empty and active with its defaults filled in; otherwise the first of the three errors, and nothing changes |
| TwapOracle.TwapFeed.UpdatePrice | packages/contracts/src/twap_oracle.rs:186-275 | on success the history grows by the admitted observation, otherwise nothing changes; the ring keeps holding the last observations |
| TwapOracle.TwapFeed.GetTwap | packages/contracts/src/twap_oracle.rs:279-325 | the ring computes the average defined on the unbounded history |
| TwapOracle.TwapFeed.FlashVolatilityTriggered | packages/contracts/src/twap_oracle.rs:485-517 | the ring scan decides the predicate on the history |
| TwapOracle.TwapFeed.TripCircuitBreaker | packages/contracts/src/twap_oracle.rs:358-362 | a configured feed is broken afterwards, a missing one is reported |
| TwapOracle.TwapFeed.ResetCircuitBreaker | packages/contracts/src/twap_oracle.rs:365-375 | a configured feed is active again, a missing one is reported and stays as it is |
| SortedList.InsertRefines | packages/contracts/src/linked_list.rs:119-146 | linking a fitting node into its neighbours is insertion into the ordered sequence of ids |
| SortedList.RemoveRefines | packages/contracts/src/linked_list.rs:158-183 | unlinking a node is deletion from the ordered sequence of ids |
| SortedList.HintsExact | packages/contracts/src/linked_list.rs:101-122 | the two hint checks pass exactly for neighbouring places between which the priority fits |
| SortedList.HintErrors | packages/contracts/src/linked_list.rs:100-122 | refused hints are a missing node exactly when the first names none, otherwise a wrong place |
| SortedList.SomeHintsAccepted | packages/contracts/src/linked_list.rs:101-122 | for every priority some pair of hints passes |
| SortedList.PriorityList.Insert | packages/contracts/src/linked_list.rs:91-155 | an accepted insertion puts a fresh id at the hinted place and keeps the list sorted, linked and counted; a refused one changes nothing |
| SortedList.PriorityList.Remove | packages/contracts/src/linked_list.rs:158-183 | removes exactly one place, or reports a missing node and changes nothing |
| SortedList.PriorityList.GetPage | packages/contracts/src/linked_list.rs:187-213 | returns the places from the start on, or refuses when fifty nodes were read and the list goes on |
| SquareRoots.RootUnique | packages/amm-math/src/lib.rs:35-40 | only one number meets r^2 <= n < (r+1)^2 |
| SquareRoots.IsqrtBitwise | packages/amm-math/src/lib.rs:162-190 | the floor of the square root for every u128, without overflow |
| SquareRoots.Isqrt | packages/amm-math/src/lib.rs:52-116 | the root below 2^64; above, the start value plus one, or none for the largest u128 |
| SquareRoots.IsqrtExactBelow | packages/amm-math/src/lib.rs:52-62 | the result is the square root if and only if the argument is below 2^64 |
| PoolRoots.IsqrtAmm | packages/amm-math/src/lib.rs:218-282 | the floor of the square root for every u128, after at most eight Newton rounds; the fallback is not reached |
| PoolRoots.NearStep | packages/amm-math/src/lib.rs:235-249 | a Newton round takes a distance of a c-th part of the root, plus one, to a 2c(c+1)-th part, plus one |
| PoolRoots.EightRounds | packages/amm-math/src/lib.rs:231-281 | for every u128 the convergence test succeeds in the eighth round or before |
| PoolRoots.EightRoundsNeeded | packages/amm-math/src/lib.rs:231-281 | the bound is exact: the first seven rounds of (2^60 + 1)^2 - 1 all go down |
| SquareRoots.IsqrtU128 | packages/contracts/src/lib.rs:337-357 | the floor of the square root for every u128, without overflow |
| Swaps.OutputBounds | packages/amm-math/src/lib.rs:312-335 | the output is the exact floor of the formula and below the output reserves |
| Swaps.QuotesExist | packages/amm-math/src/lib.rs:312-389 | quotes exist exactly when their products and sums fit and less than the reserves is wanted |
| Swaps.ProductNeverDecreases | packages/amm-math/src/lib.rs:312-335 | the reserve product never decreases along any sequence of swaps in both directions |
| Swaps.SplittingNeverYieldsMore | packages/amm-math/src/lib.rs:312-335 | with input reserves, no way of splitting an input yields more than one swap |
| Swaps.SplittingRewardedWithoutReserves | packages/amm-math/src/lib.rs:317-319 | splitting is never rewarded if and only if there are input reserves or at most one unit to pay out |
| Swaps.QuotesBracket | packages/amm-math/src/lib.rs:365-389 | of any quote whose two outputs exist: the quoted input buys at most the wanted output and one unit more at least it, if and only if both reserves are non-empty or nothing is wanted |
| Swaps.EmptyReservesQuoteNothing | packages/amm-math/src/lib.rs:370-372 | against empty input or output reserves a wanted output is quoted at zero, and one unit buys nothing |
| Rounding.SafeDivRounds | packages/contracts/src/rounding.rs:124-167 | for all i128 operands: fails exactly on a zero denominator and on the smallest i128 over -1, otherwise the true floor, ceiling or truncation |
| Rounding.FloorDistribution | packages/contracts/src/rounding.rs:193-239 | floored proportional shares sum to at most the pool and leave less than one unit per recipient |
| Shares.ToSharesBounds | packages/contracts/src/fixed_point.rs:40-59 | minting rounds the exact conversion down |
| Shares.ToAssetsBounds | packages/contracts/src/fixed_point.rs:69-105 | burning rounds the exact conversion up and never exceeds the pool |
| Shares.WrapOutcome | packages/contracts/src/fractional_wrap.rs:105-150 | the books after an accepted wrap, the caller included, or which error it gives |
| Shares.WrapAccepted | packages/contracts/src/fractional_wrap.rs:105-150 | a valid wrap that mints something is accepted when the new books are within range |
| Shares.UnwrapOutcome | packages/contracts/src/fractional_wrap.rs:165-206 | the books after an accepted unwrap, the caller included, or which error it gives |
| Shares.UnwrapAccepted | packages/contracts/src/fractional_wrap.rs:165-206 | a valid unwrap whose conversion is within range is accepted |
| Shares.WrapKeepsPrice | packages/contracts/src/fractional_wrap.rs:105-150 | a wrap never lowers (assets + 1) / (shares + 1) |
| Shares.WrapThenUnwrapNeverProfits | packages/contracts/src/fractional_wrap.rs:105-206 | from any pool, unwrapping some or all of the shares just minted returns at most what was wrapped |
| Shares.UnwrapKeepsPriceIffExact | packages/contracts/src/fractional_wrap.rs:165-206 | an accepted unwrap keeps (assets + 1) / (shares + 1) if and only if the division is exact or the exact payout reaches the whole pool |
| Shares.BurnRoundsAgainstThePool | packages/contracts/src/fixed_point.rs:61-105 | a burn that is paid more than its exact share |
| Shares.PreviewsNearPool | packages/contracts/src/fractional_wrap.rs:235-252 | what all holders are quoted at the same time exceeds the pool by at most one unit each |
| Shares.ProportionalSharesWithinAssets | packages/contracts/src/fractional_wrap.rs:265-285 | proportional shares of holdings within the total add up to at most the assets |
| Shares.OneToOne | packages/contracts/src/fixed_point.rs:40-105 | while shares equal assets both conversions are the identity, and overflow exactly where the product does |
| VestingSearch.VestedAmountBinary | packages/contracts/src/vesting_search.rs:84-118 | the binary search sums the prefix it ends at, sorted or not |
| VestingSearch.SumPrefix | packages/contracts/src/vesting_search.rs:126-135 | the checked sum of a prefix |
| VestingSearch.CheckedSumExact | packages/contracts/src/vesting_search.rs:126-135 | the sum fails exactly when some partial sum leaves the i128 range |
| VestingSearch.SearchExactIffPrefix | packages/contracts/src/vesting_search.rs:84-118 | the search ends behind exactly the unlocked tranches if and only if no locked one stands before an unlocked one |
| VestingSearch.SearchExactIffSorted | packages/contracts/src/vesting_search.rs:84-118 | the search is exact at every time if and only if the schedule is sorted |
| VestingSearch.SearchIsLinearScan | packages/contracts/src/vesting_search.rs:84-118 | when the unlocked tranches form a prefix, as on every sorted schedule, the search sums what a linear scan sums |
| VestingSearch.AllMatured | packages/contracts/src/vesting_search.rs:94-97 | once every time has passed the whole schedule is vested, sorted or not |
| VestingSearch.CountOnlyGrows | packages/contracts/src/vesting_search.rs:84-118 | on any schedule the search ends no earlier at a later time |
| VestingSearch.VestingOnlyGrows | packages/contracts/src/vesting_search.rs:84-118 | the vested amount never falls as time passes, sorted or not |
| VestingSearch.UnsortedSearchMisses | packages/contracts/src/vesting_search.rs:84-118 | an unsorted schedule on which an unlocked tranche is missed |
| VestingSearch.UnsortedSearchAnticipates | packages/contracts/src/vesting_search.rs:94-97 | an unsorted schedule on which a locked tranche is summed before its time |
| VestingSearch.TranchesSorted | packages/contracts/src/vesting_search.rs:41-53 | accepted exactly when the whole list is sorted |
| Sums.CauchySchwarz | packages/contracts/src/lib.rs:1714-1762 | the squared sum of any number of roots is at most their number times the sum of their squares' bounds |
| Solvency.ScheduleAccepted | packages/contracts/src/lib.rs:2001-2031 | a vesting schedule passes exactly when its amounts are in bounds, its times sorted and its sum fits |
| Solvency.PreviewWithinPool | packages/contracts/src/lib.rs:1029-1070 | the matches use up the pool except for less than one unit per project, and only projects with contributions are matched |
| Solvency.FeeRoundsUp | packages/contracts/src/lib.rs:3328-3336 | the loan fee is the exact fee rounded up, never zero |
| Solvency.CallbackCannotTake | packages/contracts/src/lib.rs:3346-3357 | whatever a callback does, the registry's balance does not fall during it |
| Solvency.FlashLoanEarnsFee | packages/contracts/src/lib.rs:3294-3377 | a completed loan leaves the ledger alone and adds at least its fee to the surplus |
| Solvency.CallKeepsBooks | packages/contracts/src/lib.rs:831-3377 | every accepted call of every modelled entry point keeps all accounts non-negative and the surplus equal, a flash loan raises it |
| Solvency.SurplusNeverFalls | packages/contracts/src/lib.rs:831-3377 | along every run the surplus grows by at least the fees and gifts received, by exactly that without flash loans |
| Solvency.AlwaysSolvent | packages/contracts/src/lib.rs:831-3377 | in every run from a new registry the token balance covers budgets, unclaimed payouts, pool, vault and time-locks |
| LedgerLaws.HoldersAreWhole | packages/contracts/src/lib.rs:2451-2609 | in every run a holder's shares are the tokens paid in minus the tokens taken out |
| LedgerLaws.ClaimsAreRecorded | packages/contracts/src/lib.rs:2199-2265 | in every run what a maintainer was paid by claims is the recorded claimed amount |
| LedgerLaws.MaturedClaimPaysAll | packages/contracts/src/lib.rs:2199-2265 | once all tranches have matured a claim is accepted exactly when their sum fits, and pays all that is left; funds never lack |
| LedgerLaws.ContributionsAddUp | packages/contracts/src/lib.rs:897-912 | in every run a stored contribution is the sum of the accepted ones |
| LedgerLaws.OrderAndSplittingIrrelevant | packages/contracts/src/lib.rs:897-941 | two runs giving a project the same totals per contributor leave the same contributions, hence the same statistics |
| LedgerLaws.WeightBound | packages/contracts/src/lib.rs:936-941 | a project's weight is at most its number of contributors times their direct contributions |
| LedgerLaws.EqualContributions | packages/contracts/src/lib.rs:936-941 | n equal contributions weigh n squared times one of them alone, which weighs at most itself |
| LedgerLaws.DistributionConserves | packages/contracts/src/lib.rs:1074-1137 | each project gets exactly its floored share, no other budget changes, budgets gain what the pool loses, and the rest is below the number of projects |
| LedgerLaws.CallConsumesNonce | packages/contracts/src/lib.rs:1493-1512 | an accepted call with a nonce consumes exactly the current one; nonces never go back |
| LedgerLaws.NonceNeverReplayed | packages/contracts/src/lib.rs:1457-1512 | in no run are two calls with the same caller and nonce both accepted |
| LedgerFlows.BudgetsAddUp | packages/contracts/src/zero_copy.rs:220-255 | in every run an organisation's budget is what it was funded, contributed and matched, less what it allocated |
| LedgerFlows.AllocationsAddUp | packages/contracts/src/lib.rs:2040-2060 | in every run a maintainer's tranches sum to what single and batch allocations granted |
| LedgerFlows.MaintainersAreWhole | packages/contracts/src/lib.rs:1955-2265 | in every run a maintainer is still owed exactly what was allocated less what claims paid out |
| LedgerFlows.LockCall | packages/contracts/src/lib.rs:3061-3141 | a time-lock grows by what its payer transfers and is paid out whole, once, and not before its maturity |
| LedgerFlows.LocksAreWhole | packages/contracts/src/lib.rs:3061-3141 | in every run a time-lock holds what was paid into it less what was paid out of it |
| LedgerGuards.CallRefused | packages/contracts/src/lib.rs:466-3377 | every modelled call is refused exactly when there is a reason against it, with the error of the first reason in the order of the checks |
| LedgerGuards.ScheduleRefused | packages/contracts/src/lib.rs:2001-2024 | a schedule is refused for the first tranche with a reason against it |
| LedgerGuards.BatchValid | packages/contracts/src/lib.rs:2114-2130 | a batch passes validation exactly when every entry is in bounds and goes to a maintainer of the organisation, and the sum fits |
| LedgerGuards.BatchRefused | packages/contracts/src/lib.rs:2114-2130 | a batch is refused for the first entry with a reason against it |
| LedgerGuards.GrantsSucceed | packages/contracts/src/lib.rs:2137-2163 | all grants of a batch succeed exactly when what each maintainer is owed in the end fits |
| LedgerGuards.MatchesFit | packages/contracts/src/lib.rs:1086-1113 | paying the matches of distinct projects fails exactly when one does not fit |
| LedgerRights.OnlyAdminsAllocate | packages/contracts/src/lib.rs:1955-2130 | budgets are spent by admins of the organisation only, on maintainers it employs |
| LedgerRights.BudgetFallsByAdmins | packages/contracts/src/lib.rs:1955-2170 | when a budget falls over a run, an accepted allocation by an admin of the organisation is in it |
| LedgerRights.OnlyProtocolAdmin | packages/contracts/src/lib.rs:750-1137 | distribution, loan fee and humanity are in the hands of the protocol admin |
| LedgerRights.OnlyHumansContribute | packages/contracts/src/lib.rs:885-887 | only attested humans contribute |
| LedgerRights.AdminsAfterCall | packages/contracts/src/lib.rs:1153-1440 | who is an admin after a call: as before, but for the one registered, named or removed |
| LedgerRights.AdminsAreAppointed | packages/contracts/src/lib.rs:1153-1440 | in every run from a new registry every admin was appointed by registration or by an admin |
| LedgerRights.AdminsStaySound | packages/contracts/src/lib.rs:1339-1440 | in every run an organisation has one to ten distinct admins |
| LedgerRights.SettingsAfterCall | packages/contracts/src/lib.rs:466-3260 | configuration, loan fee, humans and employment change by the calls meant for it, as they say, and by no others |
| LedgerRights.SchedulesOnlyGrow | packages/contracts/src/lib.rs:2040-2163 | a schedule changes by appending what an allocation says, times included, batch entries unlocked at once |
| LedgerPayments.CallPays | packages/contracts/src/lib.rs:831-3141 | every accepted call but a loan makes exactly the transfer it stands for, between the right two parties; nobody else notices |
| LedgerPayments.DisbursedPays | packages/contracts/src/lib.rs:3340-3340 | when a callback begins the borrower has the loan and the registry does not |
| LedgerPayments.LoanLeaves | packages/contracts/src/lib.rs:3294-3377 | a completed loan leaves the balances after the callback on the disbursed balances, and nothing else |
| LedgerPayments.RepaidLoanAccepted | packages/contracts/src/lib.rs:3294-3377 | a loan paid back by one transfer is accepted if and only if that covers principal and fee and the borrower can pay it |
| LedgerPayments.CallbackInOrder | packages/contracts/src/lib.rs:3346-3357 | a callback acts in order and fails at the first transfer that fails or re-entry that is not caught |
| LedgerPayments.CallbackIsItsTransfers | packages/contracts/src/lib.rs:3346-3357 | a callback that succeeds leaves what its transfers leave outside the registry |
| LedgerPayments.SupplyIsConstant | packages/contracts/src/lib.rs:831-3377 | in every run, loans included, the balances of all holders add up to the same |
| LedgerPayments.OnlyPayersPay | packages/contracts/src/lib.rs:831-3377 | a balance falls only by its holder paying in, transferring, or being drawn on in a callback |
| LedgerPayments.WithdrawalAccepted | packages/contracts/src/lib.rs:2535-2609 | a withdrawal is accepted exactly up to the last share held while the conversion fits; the funds are always there |
| LedgerPayments.LockClaimAccepted | packages/contracts/src/lib.rs:3110-3141 | a lock is paid exactly when it exists and has matured; the funds are always there |
| LedgerLimits.ClaimPaysUnlockedIffPrefix | packages/contracts/src/lib.rs:2199-2265 | an accepted claim leaves its maintainer paid for exactly the unlocked tranches if and only if no locked tranche stands before an unlocked one |
| LedgerLimits.ClaimsPayWholeTranches | packages/contracts/src/lib.rs:2199-2265 | in every run what a maintainer has claimed is the sum of the first tranches of the merged schedule, up to some place |
| LedgerLimits.RefusedOnlyWhenPaid | packages/contracts/src/lib.rs:2199-2265 | when no locked tranche stands before an unlocked one, a claim refused as locked has nothing left to pay |
| LedgerLimits.FirstClaimRefusedIff | packages/contracts/src/lib.rs:2199-2265 | a first claim is refused as locked while something is unlocked if and only if the guards pass, the first tranche is locked and a later one is not |
| LedgerLimits.LaterClaimRefusedIff | packages/contracts/src/lib.rs:2199-2265 | after j tranches have been paid, a claim is refused as locked if and only if the guards pass and the search ends among them |
| LedgerLimits.ClaimRefused | packages/contracts/src/lib.rs:2085-2265 | a run from a new registry after which a claim is refused while five units are unlocked |
| LedgerLimits.ClaimPaidEarly | packages/contracts/src/lib.rs:2085-2265 | a run from a new registry, one vested allocation and one batch, after which a claim pays five units before their time |
| LedgerLimits.PauseRefuses | packages/contracts/src/lib.rs:702-708 | on a paused registry every modelled call outside administration and batch allocation fails with the pause error |
| LedgerLimits.BatchIgnoresPause | packages/contracts/src/lib.rs:2085-2170 | a batch allocation has the same outcome and the same effect under every configuration |
| LedgerLimits.AcceptedWhilePausedIff | packages/contracts/src/lib.rs:2085-2170 | what moves money on a paused registry is exactly a batch allocation that an unpaused one would accept |
| LedgerLimits.BatchWhilePaused | packages/contracts/src/lib.rs:2085-2170 | a batch accepted on a paused registry that refuses the same payout as a single allocation |
| PayoutRegistry.IncrementalStats | packages/contracts/src/lib.rs:914-941 | one more contribution changes sum, root sum and count by the differences the code adds |
| PayoutRegistry.VaultPrice | packages/contracts/src/lib.rs:2451-2609 | shares, total shares and total assets agree, so the offset price is one |
| PayoutRegistry.SharePart | packages/contracts/src/lib.rs:1052-1058 | the floored multiply-divide is the integer quotient, or overflows exactly when the product does |
| PayoutRegistry.PayoutRegistry.FundOrg | packages/contracts/src/lib.rs:1285-1325 | the budget, nonce and balances change as the ledger says, or nothing does |
| PayoutRegistry.PayoutRegistry.QfDepositMatchingPool | packages/contracts/src/lib.rs:831-870 | the pool and balances change as the ledger says, or nothing does |
| PayoutRegistry.PayoutRegistry.UpdatedStats | packages/contracts/src/lib.rs:914-941 | updating by differences yields the statistics recomputed from the contributions, or the overflow error |
| PayoutRegistry.PayoutRegistry.QfContribute | packages/contracts/src/lib.rs:873-964 | a contribution is recorded, statistics stay exact, budget and balances follow, in the code's error order |
| PayoutRegistry.PayoutRegistry.QfPreviewDistribution | packages/contracts/src/lib.rs:1018-1070 | the allocations are the floored shares with the statistics they rest on, or the first error |
| PayoutRegistry.PayoutRegistry.TotalWeight | packages/contracts/src/lib.rs:1029-1042 | the checked loop returns the total of the recomputed weights, or fails exactly when it does not fit |
| PayoutRegistry.PayoutRegistry.UniqueProjects | packages/contracts/src/lib.rs:729-742 | the double loop decides whether the projects are distinct |
| PayoutRegistry.PayoutRegistry.PayAllocations | packages/contracts/src/lib.rs:1086-1113 | the loop pays every match into its budget and statistics and returns the total |
| PayoutRegistry.PayoutRegistry.QfDistribute | packages/contracts/src/lib.rs:1074-1137 | the pool shrinks to the dust, budgets grow by the matches, statistics stay exact |
| PayoutRegistry.PayoutRegistry.ValidateTranches | packages/contracts/src/lib.rs:1993-2024 | the checking loop returns the schedule's total or its first error |
| PayoutRegistry.PayoutRegistry.AllocatePayoutVesting | packages/contracts/src/lib.rs:1955-2076 | budget moves into the maintainer's account as new tranches, keeping amount plus claimed equal to the sum of tranches |
| PayoutRegistry.PayoutRegistry.ValidateBatch | packages/contracts/src/lib.rs:2114-2130 | the validation pass returns the batch total or its first error |
| PayoutRegistry.PayoutRegistry.GrantBatch | packages/contracts/src/lib.rs:2137-2163 | the second pass credits every entry, repeated maintainers included |
| PayoutRegistry.PayoutRegistry.BatchAllocate | packages/contracts/src/lib.rs:2085-2170 | the whole batch is deducted once and credited entry by entry, or nothing changes |
| PayoutRegistry.PayoutRegistry.ClaimPayout | packages/contracts/src/lib.rs:2199-2265 | pays what is vested beyond what was claimed and keeps the account exact |
| PayoutRegistry.PayoutRegistry.VaultDeposit | packages/contracts/src/lib.rs:2451-2529 | mints exactly as many shares as assets are deposited |
| PayoutRegistry.PayoutRegistry.VaultWithdraw | packages/contracts/src/lib.rs:2535-2609 | returns exactly as many assets as shares are burned |
| PayoutRegistry.PayoutRegistry.CreateVault | packages/contracts/src/lib.rs:3061-3105 | adds to the owner's time-lock what the payer transfers |
| PayoutRegistry.PayoutRegistry.ClaimVault | packages/contracts/src/lib.rs:3110-3141 | pays a matured time-lock out once and deletes it |
| PayoutRegistry.PayoutRegistry.FlashLoan | packages/contracts/src/lib.rs:3294-3377 | lends, runs the callback with the guard held, and undoes everything unless principal and fee are back |
| PayoutRegistry.PayoutRegistry.RunCallback | packages/contracts/src/lib.rs:377-424 | every modelled call the callback makes of the registry, all of them guarded, fails and leaves its storage untouched |
| PayoutRegistry.PayoutRegistry.Invoke | packages/contracts/src/lib.rs:397-424 | refused while the guard is held, otherwise exactly the ledger's step; books stay sound and caches exact after every call |
| PayoutRegistry.PayoutRegistry.Play | packages/contracts/src/lib.rs:831-3377 | the contract run over any sequence of calls and outside transfers follows the ledger's run, so every law about runs holds of it |
| PayoutRegistry.GrantRefines | packages/contracts/src/zero_copy.rs:112-149 | adding to the stored unclaimed amount is adding to what the tranches leave unclaimed |
| Solvency.CreditSum | packages/contracts/src/zero_copy.rs:241-255 | adding to one budget adds as much to the sum of budgets |
| Solvency.DebitSum | packages/contracts/src/zero_copy.rs:220-234 | deducting from one budget deducts as much from the sum of budgets |

## Left out

- TypeScript services, frontend, infrastructure and documentation: wiring over services this model does not contain.
- `bls_verifier.rs`, curve points, the pairing loop, `fp12_pow`, Frobenius maps, final exponentiation and the Groth16
  check: they need curve theory or external crates.
- The offset argument of `decode_at`, which is always zero.
- A persistent automatic trip of the circuit breaker: the panic that follows reverts it, so those paths are refused
  calls.
- More than one price feed and more than one list id: entries of different assets and lists are separate keys.
- Capability tokens, XDR cursors, storage rent and lifetime, events, upgrades, token metadata and admin rotation.
- `flash_mint` and the allowance calls: they depend on the token contract's mint, burn and allowance entry points.
- The list of an organisation's maintainers, its name and metadata, and the stored proof-of-humanity record beyond its
  presence.
- Read-only getters and `allocate_payout`, which passes one tranche to the vesting allocation.
- The order of two aborts where the code extends the lifetime of a missing entry before reporting it missing.
- Tower.Fp6InverseCorrect: like Tower.Fp12InverseCorrect it speaks of the inverses returned; which elements have one
  is stated in TowerInverses. That P is prime, 9 + u no cube and v no square are facts about one large number and not
  proved.
- Tries.PresentKeyExcludedIff: says nothing of proofs that depart from the trie's path at a node below 32 bytes, which
  the code does not hash; Tries.ExclusionExact covers them. For which tries such a departure can succeed is not
  stated.
- PayoutRegistry.PayoutRegistry.RunCallback: `token_approve` and `token_transfer_from` (lib.rs, 623-663) take no
  reentrancy guard and are not among the calls a callback can make in the model; both act on the token contract's
  allowances and write nothing the registry stores.
- PriceHistory.BufferedDeviation: bounds the saturating deviation the code computes; its meaning for prices is
  PriceHistory.DeviationMeaning, for prices small enough not to saturate.
- Swaps.SplittingNeverYieldsMore: reserves between swaps are kept by the caller, so outputs and reserves are followed
  by the model rather than by stored pool state.
