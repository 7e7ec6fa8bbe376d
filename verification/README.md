# RfTPM in Dafny

This project models three parts of the RfTPM host code and proves what they promise, for every
input and every run.

**The secure heap** (`cryptomini/mem_sec.c`). A buddy allocator that describes one power-of-two
arena three times: by two bitmaps over the nodes of a complete binary tree (`bittable`: the block
exists, `bitmalloc`: it is handed out), by free lists whose cells lie in the free memory itself, and
by a counter of bytes in use. The model has two layers.

- On values, `BuddyHeap` states every step of `sh_malloc` and `sh_free` on sets of tree nodes and
  sequences of blocks. `BuddyTree` and `Tiling` supply the geometry: which blocks overlap, what it
  means that the set bits tile the arena, what a tiling sums up to, and why a free aligned region is
  one free block when no two buddies are free. `HeapLaws` has allocation and freeing undo each
  other, and `HeapMemory` does the pointer work of the lists.
- The class `SecureHeap` has the source's arrays (arena, `freelist`, the two byte-packed bitmaps) and
  its loops, and every method is proved to do what `BuddyHeap` says. `HeapView` and `HeapRep` tie the
  arrays to the abstract heap. Every `OPENSSL_assert` on the way is a Dafny `assert`, so none can
  fire in a legal run.

`SecureRuns` puts the two together: any legal sequence of a client's allocations, frees and byte stores
runs on the arrays, from initialisation to the end. A legal run frees only live blocks, and clients
write only inside live blocks.

**The unmarshaller** (`ibmtss-ftpm/Unmarshal.c`, `ibmtss-ftpm/Unmarshal12.c`). `WireFormat` gives the
byte formats of the TPM library, part 2, as data: scalars, length-prefixed strings, records, unions
selected by an earlier field, counted lists and structures behind their own length. A format has a
parser, with the source's response codes and cursor positions, and an encoder, the encoding of part 2.
All laws are proved once, for every format and without side conditions. `TpmStructures` lists the
formats of the TPM2B_PUBLIC family, the sensitive area, NV public areas, creation data, attestation data
and the TPM 1.2 key. `Unmarshal` holds the C functions themselves, one method each, over a cursor with a
position and a remaining size, and proves that each reads its format. The `rc` flag that guards every
step in C is the `:-` operator here: the first error ends the function. `AreaLayout`,
`AttestLayout` and `Key12Layout` have the structures once more, independently: as datatypes with the fields of
the C structures, and as their bytes, in numbers. A structure is read exactly from its bytes, nothing else is
accepted, and the errors that its checks report are located. `Marshal` does the same as `Unmarshal` for the
TPM2B_PUBLIC family of `ibmtss-ftpm/tssmarshal.c`, with the size filled in behind the content, so that
marshalling and unmarshalling are proved inverse as code against code, in a caller's buffer, in a
buffer allocated by counting, and through a file. `MarshalPlan` says what is stored for any value, also
for one that is not well-formed or does not fit. The comments of the source promise that a size bounds
what is written; for sized structures this is false, and the exact condition is proved.

**Certificate provisioning and EC points**. `NvStorage` models the chunked write and read of an NV
index (`createekcert.c`, `ekutils.c`), `EcPoint` the path of an elliptic-curve point from two
integers to a TPM public area (`cryptoutils.c`), with the zero padding of section 2.3.3 of SEC 1.

Capacities (`sizeof` of the TPM2B buffers, `HASH_COUNT`, `PCR_SELECT_MAX`, `MAX_NV_BUFFER_SIZE`) and
reserved-bit masks come from the TSS's own headers, which the repository does not contain (the firmware
tree has its own values under `ftpm-opensbi/include/ftpm`). They are unspecified constants, so the
results hold for all their values. Algorithm and structure-tag numbers are those of the TCG algorithm
registry and of part 2.

The heap is compiled out of this build by `#undef OPENSSL_SECURE_MEMORY` (`cryptomini/mem_sec.c:24`), and
is modelled as written under its `#ifdef`. Where the TSS's two directions differ, formats follow the
unmarshaller: `TSS_TPMU_ATTEST_Marshalu` has no arm for the NV digest, and `TSS_TPM2B_SENSITIVE_Marshalu`
never writes the absent form.

`dafny verify dfyconfig.toml` checks the project.

## Model

| member | source | states |
|---|---|---|
| BuddyTree.OverlapIffComparable | cryptomini/mem_sec.c:327-329 | two blocks share a byte exactly if one node is above the other in the tree |
| BuddyTree.BlockInArena | cryptomini/mem_sec.c:327-330 | a block lies inside the arena and is aligned to its own size |
| BuddyTree.NodeAtOff | cryptomini/mem_sec.c:329-329 | the bit index computed from level and offset of a block is the block's node |
| BuddyTree.NodeAtIsNode | cryptomini/mem_sec.c:328-330 | every aligned offset at every level has a bit inside the table, and the bit has that level and offset |
| BuddyTree.NodeInjective | cryptomini/mem_sec.c:327-330 | blocks of one level with one offset are one node: the numbering is injective |
| Tiling.SplitTiles | cryptomini/mem_sec.c:558-585 | replacing a block by its two halves keeps a tiling of the arena |
| Tiling.MergeTiles | cryptomini/mem_sec.c:618-637 | replacing two buddies by their parent keeps a tiling of the arena |
| Tiling.TilingSum | cryptomini/mem_sec.c:536-640 | the block sizes of a tiling add up to the arena size |
| Tiling.FreeRegionIsOneTile | cryptomini/mem_sec.c:617-639 | if no two buddies are free, a wholly free aligned region lies inside one free block |
| BitOps.SetBitInserts | cryptomini/mem_sec.c:266-266 | SETBIT on the packed table inserts one number in the set of set bits |
| BitOps.ClearBitDeletes | cryptomini/mem_sec.c:267-267 | CLEARBIT on the packed table deletes one number from the set of set bits |
| BitOps.BitsDetermineTable | cryptomini/mem_sec.c:265-267 | tables of one length with the same set bits are equal byte for byte |
| BitOps.MaskIsPow2 | cryptomini/mem_sec.c:263-267 | the mask of bit `i` is `2^i` |
| BitOps.XorOneIsBuddy | cryptomini/mem_sec.c:527-528 | XOR with 1 is the buddy's node |
| Bitwise.AndMask | cryptomini/mem_sec.c:531-531 | masking with `2^k - 1` is the remainder by `2^k` |
| Bitwise.PowerOfTwoTest | cryptomini/mem_sec.c:392-400 | `x & (x - 1)` is zero exactly for powers of two |
| BuddyHeap.BlockSize | cryptomini/mem_sec.c:545-547 | the rounded size holds the request and is less than twice the request unless it is the smallest size |
| BuddyHeap.FirstNonEmpty | cryptomini/mem_sec.c:551-555 | the search finds the nearest non-empty list at or above the level, or proves that all are empty |
| BuddyHeap.SplitHeadInv | cryptomini/mem_sec.c:558-585 | one split keeps the invariant: tiling, live blocks among the set bits, each list holds its level's free blocks once |
| BuddyHeap.TakeHeadInv | cryptomini/mem_sec.c:587-591 | handing out a list head keeps the invariant and takes just that block off the free ones |
| BuddyHeap.MergeUpInv | cryptomini/mem_sec.c:618-638 | one round of coalescing keeps the invariant and replaces two free buddies by their parent |
| BuddyHeap.CoalesceSettles | cryptomini/mem_sec.c:617-639 | when the coalescing loop ends, no two buddies are free, and the live blocks are unchanged |
| BuddyHeap.MallocFailsIff | cryptomini/mem_sec.c:536-556 | `sh_malloc` fails exactly if the request exceeds the arena or no aligned region of the rounded size is free |
| BuddyHeap.MallocSettled | cryptomini/mem_sec.c:536-599 | a success adds one new live block of the rounded size and keeps the invariant and the coalesced form |
| BuddyHeap.FreeSettled | cryptomini/mem_sec.c:601-640 | freeing removes exactly that block from the live ones and leaves no two free buddies |
| BuddyHeap.EmptyIsInit | cryptomini/mem_sec.c:617-639 | a coalesced heap without live blocks is the initial heap |
| BuddyHeap.InitSettled | cryptomini/mem_sec.c:467-468 | the initial heap satisfies the invariant |
| BuddyHeap.Conservation | cryptomini/mem_sec.c:121-139 | live bytes plus free bytes are the arena size, and no live bytes means no live block |
| BuddyHeap.LiveBlocksApart | cryptomini/mem_sec.c:536-640 | live blocks lie in the arena, are aligned to their size and are pairwise disjoint |
| BuddyHeap.StartBit | cryptomini/mem_sec.c:299-300 | the leaf bit that `sh_getlist` starts from is the first leaf of the block |
| BuddyHeap.ClimbStep | cryptomini/mem_sec.c:302-306 | on the way up every bit below the block's own is clear and even, so the parity assertion holds |
| BuddyHeap.RunSettled | cryptomini/mem_sec.c:536-640 | every run of legal mallocs and frees keeps the invariant and the coalesced form |
| BuddyHeap.RunThenEmptyRestores | cryptomini/mem_sec.c:601-640 | after any run from the initial heap, nothing live means the initial heap again |
| BuddyHeap.LiveUntilFreed | cryptomini/mem_sec.c:536-652 | a block stays live with its level, hence its size, until it is freed itself |
| BuddyHeap.FreeAllAnyOrder | cryptomini/mem_sec.c:601-640 | freeing the live blocks in any order is legal and ends in the initial heap |
| HeapLaws.MallocPlaces | cryptomini/mem_sec.c:551-591 | the block handed out is the last part of the first block on the nearest non-empty list |
| HeapLaws.CoalesceUndoesSplit | cryptomini/mem_sec.c:558-639 | coalescing from the block that the split loop arrives at undoes the whole loop |
| HeapLaws.FreeUndoesMalloc | cryptomini/mem_sec.c:536-640 | freeing what was just allocated restores the heap exactly, the order of every list included |
| HeapLaws.MallocUndoesFree | cryptomini/mem_sec.c:536-640 | allocating the size of a block that was freed without merging returns the same block and restores the heap exactly |
| HeapMemory.AddRefinesPrepend | cryptomini/mem_sec.c:347-365 | the stores of `sh_add_to_list` prepend to one list, keep the other lists and all `p_next` links, and write only in list headers |
| HeapMemory.RemoveRefinesDelete | cryptomini/mem_sec.c:367-380 | the stores of `sh_remove_from_list` delete at any position, keep the other lists and all `p_next` links, and write only in list headers |
| HeapRep.SplitRepresents | cryptomini/mem_sec.c:558-585 | after a split, memory holds the new lists, is zero outside them and live blocks, and live blocks are unchanged |
| HeapRep.TakeRepresents | cryptomini/mem_sec.c:587-598 | after the header is cleared, the block handed out is zero and memory holds the rest |
| HeapRep.ReleaseRepresents | cryptomini/mem_sec.c:612-615 | linking a wiped block keeps memory zero outside headers and live blocks |
| HeapRep.MergeRepresents | cryptomini/mem_sec.c:618-638 | after a merge, with the upper header cleared, memory holds the new lists and is zero outside them |
| HeapRep.LiveWriteRepresents | cryptomini/mem_sec.c:163-164 | writes inside one live block disturb nothing else |
| HeapRep.BuddyArithmetic | cryptomini/mem_sec.c:527-531 | bit and offset arithmetic of `sh_find_my_buddy` give the buddy's node and offset |
| HeapRep.EmptyMemory | cryptomini/mem_sec.c:601-640 | memory of an empty heap is determined: one header at the start of the arena, zeros elsewhere |
| SecureHeap.SecureHeap.BitFor | cryptomini/mem_sec.c:314-319 | the bit index is the block's node and lies in the table |
| SecureHeap.SecureHeap.TestBitAt | cryptomini/mem_sec.c:312-321 | tells whether the block is in the table's set |
| SecureHeap.SecureHeap.ClearBitAt | cryptomini/mem_sec.c:323-333 | deletes a present block from the set of one bitmap and changes nothing else |
| SecureHeap.SecureHeap.SetBitAt | cryptomini/mem_sec.c:335-345 | inserts an absent block in the set of one bitmap and changes nothing else |
| SecureHeap.SecureHeap.AddToList | cryptomini/mem_sec.c:347-365 | prepends the block to its list in the arrays |
| SecureHeap.SecureHeap.RemoveFromList | cryptomini/mem_sec.c:367-380 | deletes the block from wherever it is on its list |
| SecureHeap.SecureHeap.GetList | cryptomini/mem_sec.c:297-309 | the climb stops at the level of the block that starts at the address |
| SecureHeap.SecureHeap.FindMyBuddy | cryptomini/mem_sec.c:522-534 | returns the buddy's address exactly if the buddy is free, and NULL at the root |
| SecureHeap.SecureHeap.SplitOne | cryptomini/mem_sec.c:559-585 | one round of the split loop is one `SplitHead`; its assertions hold, live blocks are unchanged |
| SecureHeap.SecureHeap.ListForSize | cryptomini/mem_sec.c:545-549 | the rounding loop finds the level of the rounded size |
| SecureHeap.SecureHeap.FindSource | cryptomini/mem_sec.c:551-555 | the search loop finds the nearest non-empty list |
| SecureHeap.SecureHeap.SplitTo | cryptomini/mem_sec.c:558-585 | the split loop makes the wanted list non-empty and leaves live blocks unchanged |
| SecureHeap.SecureHeap.TakeOne | cryptomini/mem_sec.c:587-598 | the head is handed out, all zero |
| SecureHeap.SecureHeap.Malloc | cryptomini/mem_sec.c:536-599 | refines the abstract allocation; NULL changes nothing; a block is all zero; other live blocks are unchanged |
| SecureHeap.SecureHeap.MergeOne | cryptomini/mem_sec.c:618-638 | one round of coalescing is one `MergeUp` and returns the lower address; its assertions hold |
| SecureHeap.SecureHeap.CoalesceFrom | cryptomini/mem_sec.c:617-639 | the loop computes the abstract coalescing and ends before the level passes below zero |
| SecureHeap.SecureHeap.Free | cryptomini/mem_sec.c:601-640 | refines the abstract free; other live blocks are unchanged |
| SecureHeap.SecureHeap.ActualSize | cryptomini/mem_sec.c:642-652 | returns the size fixed when the block was handed out |
| SecureHeap.SecureHeap.SecureMalloc | cryptomini/mem_sec.c:121-139 | the abstract allocation on the arrays: NULL exactly if no aligned free region fits; else a zeroed block of the rounded size, the counter raised by it, other live words unchanged |
| SecureHeap.SecureHeap.SecureFree | cryptomini/mem_sec.c:151-198 | wipes, gives back and coalesces, lowers the counter by the block's size, and leaves other live words unchanged |
| SecureHeap.SecureHeap.ClearBlock | cryptomini/mem_sec.c:163-164 | wiping a live block zeroes it and nothing else |
| SecureHeap.SecureHeap.ClientStoreByte | cryptomini/mem_sec.c:255-258 | a byte that a client stores in its own block changes that byte of the arena only and keeps the whole heap valid |
| SecureHeap.BytesDetermineWords | cryptomini/mem_sec.c:281-287 | the arena is modelled in 64-bit words, and arenas that agree byte for byte are equal |
| SecureHeap.SecureHeap.MallocDone | cryptomini/mem_sec.c:98-110 | succeeds exactly if nothing is live, and then the heap is the initial one |
| SecureHeap.SecureHeap.EmptyHeapsEqual | cryptomini/mem_sec.c:601-640 | two empty heaps of one shape agree in every byte of arena, lists and bitmaps, whatever their history |
| SecureHeap.SecureHeap.Init | cryptomini/mem_sec.c:383-505 | aborts exactly on sizes that are not powers of two or without its tables, rejects fewer than four smallest blocks or no mapping, and else gives one free block with return value 1 or 2; `2^(lists-1)` smallest blocks are the arena |
| SecureHeap.SecureHeap.RoundMin | cryptomini/mem_sec.c:402-403 | the smallest block is the request raised to the header size, still a power of two |
| SecureHeap.SecureHeap.CountLevels | cryptomini/mem_sec.c:413-415 | the shift loop computes the logarithm of the number of bits |
| SecureHeap.SecureHeap.GeometryOf | cryptomini/mem_sec.c:405-411 | the table is rejected exactly for fewer than four smallest blocks; else sizes and bit count are those of the tree |
| SecureRuns.Perform | cryptomini/mem_sec.c:121-198 | any legal call does the abstract step, and every other block live before holds what it held |
| SecureRuns.Replay | cryptomini/mem_sec.c:121-198 | after any legal run of calls the arrays hold the heap of the abstract run, and every block not freed holds its former words changed by the stores in that block alone |
| SecureRuns.Survives | cryptomini/mem_sec.c:642-652 | a block that a legal run neither frees nor stores in keeps every word, and its size is still the one it was allocated with |
| SecureRuns.Session | cryptomini/mem_sec.c:75-110 | initialise, run, finish: finishing succeeds exactly if the run freed every block, and the heap is then the initial one |
| SecureRuns.MallocThenFree | cryptomini/mem_sec.c:121-198 | on the arrays: a block given back at once leaves bitmaps, lists, counter and live words as they were |
| WireFormat.Sound | ibmtss-ftpm/Unmarshal.c:188-204 | for every format, accepted input is the encoding of the returned value followed by the unread bytes, and the value is well-formed |
| WireFormat.SoundBoxed | ibmtss-ftpm/Unmarshal.c:3687-3712 | the same for structures behind their own length |
| WireFormat.SoundFields | ibmtss-ftpm/Unmarshal.c:3659-3683 | the same for records, with unions selected by earlier fields |
| WireFormat.SoundItems | ibmtss-ftpm/Unmarshal.c:1767-1784 | the same for lists: as many elements as counted, back to back |
| WireFormat.Complete | ibmtss-ftpm/Unmarshal.c:188-204 | for every format, decoding an encoded well-formed value before any suffix returns the value and leaves the suffix |
| WireFormat.CompleteBoxed | ibmtss-ftpm/Unmarshal.c:3687-3712 | the same for structures behind their own length |
| WireFormat.CompleteFields | ibmtss-ftpm/Unmarshal.c:3659-3683 | the same for records |
| WireFormat.CompleteItems | ibmtss-ftpm/Unmarshal.c:1767-1784 | the same for lists |
| WireFormat.PrefixFree | ibmtss-ftpm/Unmarshal.c:2173-2238 | encodings are injective and no encoding is a prefix of another |
| WireFormat.ConsumedDecides | ibmtss-ftpm/Unmarshal.c:56-144 | a success depends on the consumed bytes only; anything may follow them |
| WireFormat.BoxIsWindow | ibmtss-ftpm/Unmarshal.c:3687-3712 | "parse, then compare the size" accepts exactly what "cut the declared window, then parse all of it" accepts, with the same result |
| WireFormat.RestIsSuffix | ibmtss-ftpm/Unmarshal.c:56-144 | in success and failure the unread bytes are a suffix of the input: the cursor never moves back or past the end |
| WireFormat.ErrorsAreFinal | ibmtss-ftpm/Unmarshal.c:56-144 | any error but INSUFFICIENT stays the same error at the same place when input is appended |
| WireFormat.TruncationIsInsufficient | ibmtss-ftpm/Unmarshal.c:130-144 | every proper prefix of every valid encoding fails with INSUFFICIENT |
| Unmarshal.Cursor.UInt8 | ibmtss-ftpm/Unmarshal.c:56-66 | reads an 8-bit scalar or reports INSUFFICIENT |
| Unmarshal.Cursor.UInt16 | ibmtss-ftpm/Unmarshal.c:76-86 | reads a big-endian 16-bit scalar |
| Unmarshal.Cursor.UInt32 | ibmtss-ftpm/Unmarshal.c:89-102 | reads a big-endian 32-bit scalar |
| Unmarshal.Cursor.UInt64 | ibmtss-ftpm/Unmarshal.c:112-128 | reads a big-endian 64-bit scalar |
| Unmarshal.Cursor.Array | ibmtss-ftpm/Unmarshal.c:131-144 | reads a byte array of given length |
| Unmarshal.Cursor.Tpm2b | ibmtss-ftpm/Unmarshal.c:188-204 | reads a 16-bit length within capacity and that many bytes |
| Unmarshal.Cursor.Checked32 | ibmtss-ftpm/Unmarshal.c:490-504 | reads a 32-bit word and rejects values that fail the test of its type |
| Unmarshal.Cursor.Sized8 | ibmtss-ftpm/Unmarshal.c:1428-1438 | reads an 8-bit length within capacity, else VALUE, and that many bytes |
| Unmarshal.Cursor.Sized32 | ibmtss-ftpm/Unmarshal12.c:354-370 | reads a 32-bit length within capacity and that many bytes |
| Unmarshal.Cursor.SymKeyBits | ibmtss-ftpm/Unmarshal.c:2322-2353 | reads the selected arm or reports SELECTOR |
| Unmarshal.Cursor.SymMode | ibmtss-ftpm/Unmarshal.c:2358-2385 | reads the selected arm or reports SELECTOR |
| Unmarshal.Cursor.SymDefObject | ibmtss-ftpm/Unmarshal.c:2409-2423 | reads the record; the algorithm selects both unions |
| Unmarshal.Cursor.SchemeEcdaa | ibmtss-ftpm/Unmarshal.c:2534-2545 | reads the record |
| Unmarshal.Cursor.SchemeXor | ibmtss-ftpm/Unmarshal.c:2577-2588 | reads the record |
| Unmarshal.Cursor.SchemeKeyedHash | ibmtss-ftpm/Unmarshal.c:2593-2614 | reads the selected arm or reports SELECTOR |
| Unmarshal.Cursor.KeyedHashScheme | ibmtss-ftpm/Unmarshal.c:2619-2630 | reads the record |
| Unmarshal.Cursor.KdfDetails | ibmtss-ftpm/Unmarshal.c:2894-2925 | reads the selected arm or reports SELECTOR |
| Unmarshal.Cursor.KdfScheme | ibmtss-ftpm/Unmarshal.c:2930-2941 | reads the record |
| Unmarshal.Cursor.AsymDetails | ibmtss-ftpm/Unmarshal.c:2961-3022 | reads the selected arm or reports SELECTOR |
| Unmarshal.Cursor.AsymScheme | ibmtss-ftpm/Unmarshal.c:3059-3070 | reads the record |
| Unmarshal.Cursor.EccPoint | ibmtss-ftpm/Unmarshal.c:3164-3175 | reads the record |
| Unmarshal.Cursor.RsaParms | ibmtss-ftpm/Unmarshal.c:3561-3578 | reads the record |
| Unmarshal.Cursor.EccParms | ibmtss-ftpm/Unmarshal.c:3583-3600 | reads the record |
| Unmarshal.Cursor.PublicParms | ibmtss-ftpm/Unmarshal.c:3605-3634 | reads the selected arm or reports SELECTOR |
| Unmarshal.Cursor.PublicId | ibmtss-ftpm/Unmarshal.c:3496-3525 | reads the selected arm or reports SELECTOR |
| Unmarshal.Cursor.Public | ibmtss-ftpm/Unmarshal.c:3659-3683 | reads TPMT_PUBLIC, including response code and cursor position on failure |
| Unmarshal.Cursor.Tpm2bPublic | ibmtss-ftpm/Unmarshal.c:3687-3712 | reads TPM2B_PUBLIC with its size check, and inverts the encoding: returns the value from its encoding before any suffix, and has consumed the encoding of what it returns |
| Unmarshal.Cursor.Tpm2bPublicArea | ibmtss-ftpm/Unmarshal.c:3687-3712 | the size check itself: the declared size must be the size read and not zero |
| Unmarshal.Cursor.Tpm2bEccPoint | ibmtss-ftpm/Unmarshal.c:3180-3205 | reads TPM2B_ECC_POINT with its size check |
| Unmarshal.Cursor.SensitiveCreate | ibmtss-ftpm/Unmarshal.c:2473-2484 | reads the record |
| Unmarshal.Cursor.Tpm2bSensitiveCreate | ibmtss-ftpm/Unmarshal.c:2489-2514 | reads TPM2B_SENSITIVE_CREATE with its size check |
| Unmarshal.Cursor.SensitiveComposite | ibmtss-ftpm/Unmarshal.c:3731-3760 | reads the selected arm or reports SELECTOR |
| Unmarshal.Cursor.Sensitive | ibmtss-ftpm/Unmarshal.c:3765-3782 | reads the record |
| Unmarshal.Cursor.Tpm2bSensitive | ibmtss-ftpm/Unmarshal.c:3787-3810 | reads TPM2B_SENSITIVE; a zero size is an absent area |
| Unmarshal.Cursor.NvPublic | ibmtss-ftpm/Unmarshal.c:3860-3880 | reads the record with its index range and reserved bits |
| Unmarshal.Cursor.Tpm2bNvPublic | ibmtss-ftpm/Unmarshal.c:3885-3910 | reads TPM2B_NV_PUBLIC with its size check |
| Unmarshal.Cursor.PcrSelection | ibmtss-ftpm/Unmarshal.c:1421-1440 | reads the record |
| Unmarshal.Cursor.PcrSelections | ibmtss-ftpm/Unmarshal.c:1767-1784 | the loop reads the counted list, with at most `HASH_COUNT` elements |
| Unmarshal.Cursor.CreationData | ibmtss-ftpm/Unmarshal.c:3983-4009 | reads the record |
| Unmarshal.Cursor.Tpm2bCreationData | ibmtss-ftpm/Unmarshal.c:4014-4039 | reads TPM2B_CREATION_DATA with its size check |
| Unmarshal.Cursor.ClockInfo | ibmtss-ftpm/Unmarshal.c:1984-2001 | reads the record |
| Unmarshal.Cursor.TimeInfo | ibmtss-ftpm/Unmarshal.c:2006-2017 | reads the record |
| Unmarshal.Cursor.TimeAttestInfo | ibmtss-ftpm/Unmarshal.c:2024-2035 | reads the record |
| Unmarshal.Cursor.CertifyInfo | ibmtss-ftpm/Unmarshal.c:2040-2051 | reads the record |
| Unmarshal.Cursor.QuoteInfo | ibmtss-ftpm/Unmarshal.c:2056-2067 | reads the record |
| Unmarshal.Cursor.CommandAuditInfo | ibmtss-ftpm/Unmarshal.c:2072-2089 | reads the record |
| Unmarshal.Cursor.SessionAuditInfo | ibmtss-ftpm/Unmarshal.c:2094-2105 | reads the record |
| Unmarshal.Cursor.CreationInfo | ibmtss-ftpm/Unmarshal.c:2110-2121 | reads the record |
| Unmarshal.Cursor.NvCertifyInfo | ibmtss-ftpm/Unmarshal.c:2126-2140 | reads the record |
| Unmarshal.Cursor.NvDigestCertifyInfo | ibmtss-ftpm/Unmarshal.c:2144-2155 | reads the record |
| Unmarshal.Cursor.AttestInfo | ibmtss-ftpm/Unmarshal.c:2173-2207 | reads the selected arm or reports SELECTOR |
| Unmarshal.Cursor.Attest | ibmtss-ftpm/Unmarshal.c:2212-2238 | reads TPMS_ATTEST; the second field selects the attested data |
| Unmarshal.Cursor.PcrSelection12 | ibmtss-ftpm/Unmarshal12.c:115-130 | reads the TPM 1.2 selection |
| Unmarshal.Cursor.PcrInfoLong | ibmtss-ftpm/Unmarshal12.c:161-187 | reads the record |
| Unmarshal.Cursor.Tpm4bPcrInfoLong | ibmtss-ftpm/Unmarshal12.c:133-158 | reads the structure behind a 32-bit size with its size check |
| Unmarshal.Cursor.RsaKeyParms | ibmtss-ftpm/Unmarshal12.c:233-254 | reads the record |
| Unmarshal.Cursor.Parms12 | ibmtss-ftpm/Unmarshal12.c:257-270 | reads the RSA arm or reports SELECTOR |
| Unmarshal.Cursor.Tpm4bParms12 | ibmtss-ftpm/Unmarshal12.c:273-298 | reads the union behind a 32-bit size with its size check |
| Unmarshal.Cursor.KeyParms | ibmtss-ftpm/Unmarshal12.c:301-317 | reads the record; the algorithm selects the boxed union |
| Unmarshal.Cursor.Key12 | ibmtss-ftpm/Unmarshal12.c:320-350 | reads TPM_KEY12 |
| Unmarshal.ReadingInverts | ibmtss-ftpm/Unmarshal.c:3687-3712 | every function that reads its format inverts the encoding: a success consumed the encoding of its result, and from an encoding before anything it returns the value and leaves the rest |
| Layout.ReadIff | ibmtss-ftpm/Unmarshal.c:188-204 | a value whose encoding is written out is read exactly from those bytes, whatever follows them |
| Layout.RecordLaid | ibmtss-ftpm/Unmarshal.c:3659-3683 | a record fits exactly if its fields do, and its bytes are theirs in order |
| Layout.Stops | ibmtss-ftpm/Unmarshal.c:3659-3683 | reading ends at the first bad field: the code of that field, at the place where it was found |
| Layout.TestedScalar | ibmtss-ftpm/Unmarshal.c:223-236 | on input bytes: a wrong constant or a number out of range is VALUE, a reserved bit RESERVED_BITS, found behind the scalar |
| Layout.StringTooLong | ibmtss-ftpm/Unmarshal.c:188-204 | a string longer than its buffer is SIZE, found behind its length |
| Layout.Refusals | ibmtss-ftpm/Unmarshal.c:1767-1784 | the codes of lengths, counts, unknown selectors and empty structures, and where they are found |
| Layout.WrongLength | ibmtss-ftpm/Unmarshal.c:3687-3712 | a structure behind a length that is not its own is SIZE, found behind the structure |
| AreaLayout.SymLaid | ibmtss-ftpm/Unmarshal.c:2409-2423 | the bytes of TPMT_SYM_DEF_OBJECT: algorithms 0x0006, 0x0013 and 0x0026 with key bits and mode, 0x000A with a hash, 0x0010 alone |
| AreaLayout.SymOf | ibmtss-ftpm/Unmarshal.c:2409-2423 | every value that fits is one of these structures |
| AreaLayout.KeyedHashLaid | ibmtss-ftpm/Unmarshal.c:2619-2630 | scheme 0x0005 with a hash, 0x000A with hash and KDF, 0x0010 alone |
| AreaLayout.KdfLaid | ibmtss-ftpm/Unmarshal.c:2930-2941 | schemes 0x0007, 0x0020, 0x0021 and 0x0022 with a hash, 0x0010 alone |
| AreaLayout.SchemeLaid | ibmtss-ftpm/Unmarshal.c:3059-3070 | eight schemes with a hash, 0x001A with hash and counter, 0x0010 and 0x0015 alone |
| AreaLayout.RsaLaid | ibmtss-ftpm/Unmarshal.c:3561-3578 | the bytes of RSA parameters: symmetric algorithm, scheme, 16-bit key bits, 32-bit exponent |
| AreaLayout.EccLaid | ibmtss-ftpm/Unmarshal.c:3583-3600 | the bytes of ECC parameters: symmetric algorithm, scheme, curve, KDF |
| AreaLayout.ParmsLaid | ibmtss-ftpm/Unmarshal.c:3605-3634 | parameters of types 0x0008, 0x0025, 0x0001 and 0x0023, down to their scalars |
| AreaLayout.UniqueLaid | ibmtss-ftpm/Unmarshal.c:3496-3525 | unique fields of the four types: a buffer within its capacity, or x and y; of other types none |
| AreaLayout.PublicLaid | ibmtss-ftpm/Unmarshal.c:3659-3683 | the bytes of a TPMT_PUBLIC, down to its scalars; the type selects parameters and unique field alike |
| AreaLayout.PublicReadIff | ibmtss-ftpm/Unmarshal.c:3687-3712 | a TPM2B_PUBLIC is read exactly from its bytes |
| AreaLayout.PublicRead | ibmtss-ftpm/Unmarshal.c:3687-3712 | nothing but public areas is accepted |
| AreaLayout.PublicSelectors | ibmtss-ftpm/Unmarshal.c:2961-3022 | the selectors of all eight unions, as numbers |
| AreaLayout.UnknownPublicType | ibmtss-ftpm/Unmarshal.c:3659-3683 | any other type is SELECTOR, found behind the policy |
| AreaLayout.ReservedAttributes | ibmtss-ftpm/Unmarshal.c:490-504 | reserved attribute bits are RESERVED_BITS, found behind the attributes |
| AreaLayout.PointReadIff | ibmtss-ftpm/Unmarshal.c:3180-3205 | a TPM2B_ECC_POINT is read exactly from the bytes of x and y |
| AreaLayout.SensitiveCreateReadIff | ibmtss-ftpm/Unmarshal.c:2489-2514 | a TPM2B_SENSITIVE_CREATE is read exactly from the bytes of its auth value and data |
| AreaLayout.SensitiveCreateRead | ibmtss-ftpm/Unmarshal.c:2473-2484 | nothing else is accepted |
| AreaLayout.SensitiveReadIff | ibmtss-ftpm/Unmarshal.c:3765-3782 | a TPM2B_SENSITIVE is read exactly from its bytes: type, auth value, seed, secret of the type |
| AreaLayout.SensitiveRead | ibmtss-ftpm/Unmarshal.c:3787-3810 | what is accepted is such an area, or two zero bytes for none |
| AreaLayout.EmptyBoxes | ibmtss-ftpm/Unmarshal.c:3787-3810 | two zero bytes are an absent sensitive area; all other sized structures refuse them with SIZE |
| AttestLayout.NvPublicReadIff | ibmtss-ftpm/Unmarshal.c:3860-3880 | a TPM2B_NV_PUBLIC is read exactly from its bytes: index from 0x01000000 to 0x01FFFFFF, hash, attributes, policy, size |
| AttestLayout.NvPublicRead | ibmtss-ftpm/Unmarshal.c:3885-3910 | nothing else is accepted |
| AttestLayout.NvIndexRange | ibmtss-ftpm/Unmarshal.c:1031-1046 | any other first word is VALUE, found behind it |
| AttestLayout.NvReservedBits | ibmtss-ftpm/Unmarshal.c:3842-3856 | reserved attribute bits are RESERVED_BITS, found behind the attributes |
| AttestLayout.SelectionsLaid | ibmtss-ftpm/Unmarshal.c:1767-1784 | the bytes of a list of PCR selections: their count, then hash, length and bitmap of each |
| AttestLayout.TooManySelections | ibmtss-ftpm/Unmarshal.c:1767-1784 | a count over `HASH_COUNT` is SIZE, found behind the count |
| AttestLayout.SelectionTooLong | ibmtss-ftpm/Unmarshal.c:1428-1438 | a bitmap that is too long is VALUE, found behind its length |
| AttestLayout.CreationDataReadIff | ibmtss-ftpm/Unmarshal.c:3983-4009 | a TPM2B_CREATION_DATA is read exactly from the bytes of its seven fields |
| AttestLayout.CreationDataRead | ibmtss-ftpm/Unmarshal.c:4014-4039 | nothing else is accepted |
| AttestLayout.ClockInfoLaid | ibmtss-ftpm/Unmarshal.c:1984-2001 | the bytes of TPMS_CLOCK_INFO |
| AttestLayout.TimeInfoLaid | ibmtss-ftpm/Unmarshal.c:2006-2017 | the bytes of TPMS_TIME_INFO |
| AttestLayout.TimeAttestInfoLaid | ibmtss-ftpm/Unmarshal.c:2024-2035 | the bytes of TPMS_TIME_ATTEST_INFO |
| AttestLayout.CertifyInfoLaid | ibmtss-ftpm/Unmarshal.c:2040-2051 | the bytes of TPMS_CERTIFY_INFO |
| AttestLayout.QuoteInfoLaid | ibmtss-ftpm/Unmarshal.c:2056-2067 | the bytes of TPMS_QUOTE_INFO |
| AttestLayout.CommandAuditInfoLaid | ibmtss-ftpm/Unmarshal.c:2072-2089 | the bytes of TPMS_COMMAND_AUDIT_INFO |
| AttestLayout.SessionAuditInfoLaid | ibmtss-ftpm/Unmarshal.c:2094-2105 | the bytes of TPMS_SESSION_AUDIT_INFO |
| AttestLayout.CreationInfoLaid | ibmtss-ftpm/Unmarshal.c:2110-2121 | the bytes of TPMS_CREATION_INFO |
| AttestLayout.NvCertifyInfoLaid | ibmtss-ftpm/Unmarshal.c:2126-2140 | the bytes of TPMS_NV_CERTIFY_INFO |
| AttestLayout.NvDigestCertifyInfoLaid | ibmtss-ftpm/Unmarshal.c:2144-2155 | the bytes of TPMS_NV_DIGEST_CERTIFY_INFO |
| AttestLayout.AttestArm | ibmtss-ftpm/Unmarshal.c:2173-2207 | the eight types as numbers, and the structure that each selects |
| AttestLayout.AttestReadIff | ibmtss-ftpm/Unmarshal.c:2212-2238 | a TPMS_ATTEST is read exactly from its bytes: 0xFF544347, type, signer, extra data, clock, firmware version, attested data of the type |
| AttestLayout.AttestRead | ibmtss-ftpm/Unmarshal.c:2212-2238 | nothing else is accepted |
| AttestLayout.AttestMagic | ibmtss-ftpm/Unmarshal.c:223-236 | any first word but 0xFF544347 is VALUE, found behind it; whatever is accepted begins with it |
| AttestLayout.UnknownAttestType | ibmtss-ftpm/Unmarshal.c:2173-2207 | any other type is SELECTOR, found behind the header |
| Key12Layout.RsaKeyParmsLaid | ibmtss-ftpm/Unmarshal12.c:233-254 | the bytes of TPM_RSA_KEY_PARMS: key length, primes, sized exponent |
| Key12Layout.KeyParmsLaid | ibmtss-ftpm/Unmarshal12.c:301-317 | the bytes of TPM_KEY_PARMS: algorithm 1, two schemes, RSA parameters behind their length |
| Key12Layout.UnknownAlgorithm | ibmtss-ftpm/Unmarshal12.c:257-270 | any other algorithm is SELECTOR, found behind the length of the parameters |
| Key12Layout.PcrInfoLongLaid | ibmtss-ftpm/Unmarshal12.c:161-187 | the bytes of TPM_PCR_INFO_LONG, with digests of 20 bytes |
| Key12Layout.StringTooLong12 | ibmtss-ftpm/Unmarshal12.c:354-370 | keys, encrypted data and exponents that are too long are SIZE, found behind their length |
| Key12Layout.Key12ReadIff | ibmtss-ftpm/Unmarshal12.c:320-350 | a TPM_KEY12 is read exactly from the bytes of its nine fields |
| Key12Layout.Key12Read | ibmtss-ftpm/Unmarshal12.c:320-350 | nothing else is accepted |
| Marshal.Writer.Put | ibmtss-ftpm/tssmarshal.c:214-233 | stores bytes whole, or nothing and reports that they do not fit; a NULL size is no limit; without a buffer it only counts, modulo 2^16 |
| Marshal.Writer.UInt16 | ibmtss-ftpm/tssmarshal.c:129-149 | stores a 16-bit scalar, most significant byte first, or reports no room |
| Marshal.Writer.UInt32 | ibmtss-ftpm/tssmarshal.c:152-174 | stores a 32-bit scalar, most significant byte first, or reports no room |
| Marshal.Writer.Tpm2b | ibmtss-ftpm/tssmarshal.c:2904-2914 | stores length and bytes; no room is reported exactly if both together are too long, with the length stored if it fits |
| Marshal.Writer.SymKeyBits | ibmtss-ftpm/tssmarshal.c:4437-4475 | writes the selected arm; for an unknown selector it writes nothing and succeeds |
| Marshal.Writer.SymMode | ibmtss-ftpm/tssmarshal.c:4480-4514 | writes the selected arm; an unknown selector is reported, and nothing is written |
| Marshal.Writer.SymDefObject | ibmtss-ftpm/tssmarshal.c:4537-4550 | for every value of the C type: the bytes stored, in order, up to the first scalar or array without room or to an unknown algorithm, which is reported |
| Marshal.Writer.SchemeEcdaa | ibmtss-ftpm/tssmarshal.c:4673-4683 | the same for its record |
| Marshal.Writer.SchemeXor | ibmtss-ftpm/tssmarshal.c:4712-4722 | the same for its record |
| Marshal.Writer.SchemeKeyedHash | ibmtss-ftpm/tssmarshal.c:4727-4751 | writes the selected arm; an unknown selector is reported, and nothing is written |
| Marshal.Writer.KeyedHashScheme | ibmtss-ftpm/tssmarshal.c:4756-4766 | the same for its record |
| Marshal.Writer.KdfDetails | ibmtss-ftpm/tssmarshal.c:5002-5040 | writes the selected arm; an unknown selector is reported, and nothing is written |
| Marshal.Writer.KdfScheme | ibmtss-ftpm/tssmarshal.c:5044-5054 | the same for its record |
| Marshal.Writer.AsymDetails | ibmtss-ftpm/tssmarshal.c:5059-5139 | writes the selected arm; an unknown selector is reported, and nothing is written |
| Marshal.Writer.AsymScheme | ibmtss-ftpm/tssmarshal.c:5156-5166 | the same for its record |
| Marshal.Writer.EccPoint | ibmtss-ftpm/tssmarshal.c:5246-5256 | the same for its record |
| Marshal.Writer.RsaParms | ibmtss-ftpm/tssmarshal.c:5622-5638 | the same for its record |
| Marshal.Writer.EccParms | ibmtss-ftpm/tssmarshal.c:5642-5658 | the same for its record |
| Marshal.Writer.PublicParms | ibmtss-ftpm/tssmarshal.c:5663-5699 | writes the selected arm; an unknown selector is reported, and nothing is written |
| Marshal.Writer.PublicId | ibmtss-ftpm/tssmarshal.c:5569-5605 | writes the selected arm; an unknown selector is reported, and nothing is written |
| Marshal.Writer.Public | ibmtss-ftpm/tssmarshal.c:5719-5741 | the same for TPMT_PUBLIC, whatever its type, attribute bits and lengths |
| Marshal.Writer.BackPatch | ibmtss-ftpm/tssmarshal.c:5789-5791 | the size stored in front makes the content a sized structure; without room for it the gap stays as it was |
| Marshal.Writer.Tpm2bPublic | ibmtss-ftpm/tssmarshal.c:5774-5797 | for every TPM2B_PUBLIC of the C type and every room, also none: which bytes of the buffer are changed, and to what; the structure is written whole exactly if it fits with its size; errors are told apart |
| Marshal.Writer.Tpm2bEccPoint | ibmtss-ftpm/tssmarshal.c:5261-5284 | the same for TPM2B_ECC_POINT |
| Marshal.MarshalThenUnmarshal | ibmtss-ftpm/tssmarshal.c:5774-5797 | code against code, in a buffer that may end with its room: marshalling succeeds exactly if the encoding fits, and unmarshalling what it wrote, before any tail, returns the same value and leaves the tail |
| Marshal.StructureMarshal | ibmtss-ftpm/tssutils.c:151-173 | counting, allocating and filling agree: the buffer is filled to its last byte with the structure and its size; nothing is returned for an unknown selector, a length that counts as zero, or without memory |
| Marshal.CountHoldsIff | ibmtss-ftpm/tssutils.c:160-171 | filling stays in the counted buffer exactly if the structure is shorter than 65536 bytes (or its count wraps to zero, which allocation refuses) |
| Marshal.ReadStructure | ibmtss-ftpm/tssfile.c:192-213 | reads a TPM2B_PUBLIC from the contents of a file and inverts the encoding |
| Marshal.WriteThenRead | ibmtss-ftpm/tssfile.c:252-273 | a TPM2B_PUBLIC written to a file is read back as the same value, with nothing left over |
| AreaLayout.PublicPlan | ibmtss-ftpm/tssmarshal.c:5719-5741 | what the marshaller stores for a public area is its bytes, as `AreaLayout.PublicLaid` has them |
| AreaLayout.MarshalPublic | ibmtss-ftpm/tssutils.c:151-173 | code against bytes: the stream returned for a public area is its bytes behind their length |
| AreaLayout.UnmarshalPublic | ibmtss-ftpm/Unmarshal.c:3687-3712 | code against bytes: unmarshalling succeeds exactly on the bytes of a public area, and returns it |
| MarshalPlan.PlanEncodes | ibmtss-ftpm/tssmarshal.c:5719-5741 | for every format, what is written for a well-formed value, one scalar or array after the other, is its encoding |
| MarshalPlan.FitsTyped | ibmtss-ftpm/tssmarshal.c:5719-5741 | every well-formed value has the C type that the marshalling functions take |
| MarshalPlan.LeavesRoomIff | ibmtss-ftpm/tssmarshal.c:5774-5797 | the source does not keep a sized structure in the room it is given: its stores leave the room exactly if some of the content, from the first scalar on, takes all of it or all but one byte |
| MarshalPlan.NeverWhenItFits | ibmtss-ftpm/tssmarshal.c:5774-5797 | a structure that fits with its size never leaves the room |
| Marshal.EmptyPointLeavesRoom | ibmtss-ftpm/tssmarshal.c:5261-5284 | an input that does: two empty coordinates in four bytes of room are refused, with two bytes stored behind it |
| NvStorage.ReadNvBufferMax | ibmtss-ftpm/ekutils.c:110-159 | nothing if the query fails; else the smaller of the host's buffer and what the TPM reports, or 512 if it reports nothing; zero exactly if zero is reported |
| NvStorage.DefineEkCertIndex | ibmtss-ftpm/createekcert.c:402-478 | fails if the public area cannot be read; an existing index is accepted exactly if it is large enough; a new one has 1000 bytes, or the low 16 bits of the length from 1000 on |
| NvStorage.StoreEkCertificate | ibmtss-ftpm/createekcert.c:483-553 | succeeds exactly for certificates that fit the index in chunks the TPM takes; the index then holds the certificate over its former contents, and a part of it from the start otherwise; its loop runs the rounds of `NvStorage.After` |
| NvStorage.EndsIff | ibmtss-ftpm/createekcert.c:505-535 | the rounds of the two chunk loops, with 16-bit counter and refusals, come to an end exactly if the chunk size is positive, there is nothing to transfer or there is no index |
| NvStorage.Outcome | ibmtss-ftpm/createekcert.c:505-535 | a loop that has ended has moved all bytes, without error, exactly if the index is there, holds them and the TPM takes the first chunk |
| NvStorage.GetIndexData | ibmtss-ftpm/ekutils.c:206-272 | succeeds exactly for a positive size within the index in chunks the TPM takes, and reads the first bytes of the index; its loop runs the rounds of `NvStorage.After` |
| NvStorage.GetIndexContents | ibmtss-ftpm/ekutils.c:279-299 | reads the whole index |
| NvStorage.ProvisionAndRead | ibmtss-ftpm/createekcert.c:370-386 | provisioning succeeds exactly up to 65535 bytes in an index that fits and chunks the TPM takes; what is read back with any other chunk size starts with the certificate |
| EcPoint.GetEcModulusBytes | ibmtss-ftpm/cryptoutils.c:2997-3035 | the modulus of each supported curve is two coordinates and one byte |
| EcPoint.ModulusSizes | ibmtss-ftpm/cryptoutils.c:2997-3035 | curves 1 to 4 have coordinates of 192, 224, 256 and 384 bits; others are unknown |
| EcPoint.Curves | ibmtss-ftpm/cryptoutils.c:2904-2937 | the two curve names, with number and width; any other name is unknown |
| EcPoint.RightAligned | ibmtss-ftpm/cryptoutils.c:680-686 | minimal octets right-aligned in zeros are the octet string of full width |
| EcPoint.GetEccPublic | ibmtss-ftpm/cryptoutils.c:633-694 | the buffer is the uncompressed point of SEC 1, and its halves denote x and y, exactly if both are as wide as the curve |
| EcPoint.ConvertEcPublic | ibmtss-ftpm/cryptoutils.c:879-943 | rejects unknown curves and wrong lengths; else the area, in numbers, of a signing, storage or decryption key with the two halves of the point, and for other types the fields that the code sets |
| EcPoint.AreaInNumbers | ibmtss-ftpm/cryptoutils.c:906-941 | attributes, symmetric algorithm, scheme and KDF of signing, storage and decryption keys, as numbers; of other types what the code sets |
| EcPoint.KeyToPublic | ibmtss-ftpm/cryptoutils.c:633-694 | from integers to public area: two buffers of the curve's width denote the same integers exactly if these are as wide as the curve |
| EcPoint.UncompressedInjective | ibmtss-ftpm/cryptoutils.c:680-686 | distinct points have distinct octet strings |
| EcPoint.PointSurvivesTheWire | ibmtss-ftpm/cryptoutils.c:906-941 | the area is a well-formed TPM2B_PUBLIC: encoded and parsed it is the same area with the same coordinates |
| EcPoint.SendKey | ibmtss-ftpm/cryptoutils.c:879-943 | the whole way in code, in any buffer of the point and 30 bytes: built, marshalled and unmarshalled, the area that arrives is the expected one and holds the key's point |

## Left out

- `mmap`, guard pages, `mprotect`, `mlock`, `madvise`, `munmap` and `sh_done` as code: the arena arrives zero-filled at a given address, and flags say whether each succeeded.
- Locks and the `secure_mem_initialized` switch to the ordinary allocator: a heap object exists exactly while the heap is initialised, and calls are atomic.
- Frees of addresses that are not starts of live blocks: the code only asserts there.
- SecureHeap.SecureHeap.Free: requires the block to be wiped, as both callers do, since the zero-memory invariant rests on it.
- Targets that are partly written when an unmarshalling function fails: the model returns the error and the cursor only.
- The marshalling functions outside the TPM2B_PUBLIC family, and the caller's counter after an error.
- Marshal.Writer.Tpm2bPublic: stores that leave the memory of the buffer are excluded, because C gives them no meaning; with a buffer that ends with its room they are those of `MarshalPlan.LeavesRoomIff`, and there are none if the structure fits. The same holds for TPM2B_ECC_POINT and `Marshal.MarshalThenUnmarshal`.
- Marshal.StructureMarshal: excludes structures that are longer than their 16-bit count, for the same reason (`Marshal.CountHoldsIff`); `Marshal.WriteThenRead` likewise, where only a length of 65537 is concerned. The structure is a TPM2B_PUBLIC, and the file is its contents.
- Wrapper functions that forward to a scalar (`TPMI_*`, `TPMS_SIG_SCHEME_*`, `TPM_ALG_ID` and the like) and the deprecated signed-size wrappers: their callers use the scalar directly.
- Lists and structures outside the families named above (`TPML_*` of handles, properties and digests, signatures, tickets, contexts, capability data), `Commands.c` and `Commands12.c`: they repeat the same formats.
- NvStorage.StoreEkCertificate: a reported chunk size of zero is excluded if there is an index and something to write, because the loop does not end then and only then (`NvStorage.EndsIff`); `GetIndexData`, `GetIndexContents` and `ProvisionAndRead` likewise.
- EcPoint.GetEccPublic: coordinates so wide that their octets would begin in front of the buffer are excluded, because C gives such stores no meaning; `EcPoint.KeyToPublic` likewise. Only the OpenSSL 3 branch is modelled, with `BN_bn2bin` as minimal big-endian.
- EcPoint.SendKey: key types other than signing, storage and decryption are excluded, because the source leaves their algorithm fields as the caller had them.
- OpenSSL certificate and key calls, `TSS_Execute`, files, command lines and the kernel driver.
