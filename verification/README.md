# A Dafny model of AetherKiri's stateful algorithms

AetherKiri runs visual-novel engines (KiriKiri, ONScripter, Artemis and others) behind one host
interface. This project models the small state machines and codecs that hold the system together
and proves what they are for. Code that updates fields or buffers in place is a class or a method
over arrays here, proved against a specification function; the theorems are about those functions,
over every input or every run.

| module | what it models | main results |
|---|---|---|
| `Tlg5Lzss`, `Tlg5Image`, `Tlg5Decode`, `Tlg5RoundTrip` | the TLG5 image decoder | the 4096-byte ring and its 8-literal shortcut refine plain LZ77 over an unbounded history; each colour is a two-dimensional prefix sum mod 256 across planes and blocks; an image written in blocks, packed or stored, decodes to itself |
| `TjsFormat`, `TjsReader`, `TjsLoad`, `TjsKnownPack` | the checked value format of TJS/ns0 packs | parser and printer are inverse to each other; a payload loads if and only if it is a printed one; which seeds load it; one document byte for byte |
| `Ns0Words`, `Ns0Cipher`, `Ns0Stream`, `Ns0Pack`, `Ns0Numbers`, `Ns0Reference`, `Ns0KnownBlock` | the ns0 stream cipher and the pack file around it | quarter round, eight-round permutation and xorshift are bijections; all of it equals ChaCha on machine words, worked out for one block; where the zero fallback can fire; blocks never repeat within 2^64; a file loads if and only if it is a (possibly encrypted) pack of a printed value |
| `BarrierPlanner` | the GPU barrier planner | every hazard is separated, no safe placement has fewer barriers in any prefix, and flags and counters tell the kinds of hazard |
| `CoffeeAccess`, `CoffeeLedger` | time-limited access from purchases | the expiry loop equals a closed form, is the earliest over all orders, and is monotone; expired access stays expired |
| `FpsLimiter` | the frame limiter of the KiriKiri tick | no drift, a bound on bursts, and exactly when two renders come close |
| `InputQueueGate` | the click gate and the input queue | counter, bounds and alternation of presses and releases over every run |
| `MenuPaths` | menu export and menu paths | exported paths resolve to exactly the exported items and stand in menu order; which resolvable items are exported; what a path means |
| `JsonText`, `DiagnosticQueue`, `DiagnosticReader` | JSON escaping and the diagnostic event queue | conservation of events, newline framing of whole sessions, all that went into a line reads back |
| `OnscripterEvents`, `OnscripterQueueRuns` | the ONScripter host event queue | merging cursor motions is invisible; what can be lost, and when |
| `OnscripterPresentation`, `OnscripterFrame` | viewport, scrolling, the published frame, clicks | the snapshot follows the surface; crops stay in bounds; clicks hit the pixel shown |
| `EngineDispatch`, `DispatchOwnership` | the engine dispatcher's handles, runtimes and media players | over every call sequence each resource is destroyed exactly once, and calls on public players always reach a live one |
| `ProviderResume` | deferred resume of runtime providers | no provider tick before a provider resume has succeeded; pause cancels |
| `TickPacer` | frame pacer and millisecond quantizer | conservation of time with bounded error, alone and together |
| `UserFsSync` | the browser's user-file sync scheduler | no update is forgotten, what is stored exactly, and the scheduler comes to rest |

`Common` holds shared types, little-endian numbers and flat-buffer arithmetic. The project
verifies with `dafny verify dfyconfig.toml`.

## How the source's world appears

- Answers of code outside the model (store, file system, audio session, providers, `syncfs`, the
  surface conversion, hash functions, LZ4) and clock readings are parameters of the calls, and the
  theorems hold for all of them.
- A locked call is one atomic step; a run is a sequence of such calls with any arguments.
- Ghost fields record history (what was pushed, delivered, drained, destroyed, accepted). They are
  tied to the real fields by the methods' contracts.
- Handles and timers are ids, and a call that creates one is given a new one (`Fresh`, `Enabled`).
- TLG5 and TJS bytes are integers below 256; the words of the cipher are lists of bits, lowest
  first, which makes packing words into bytes a matter of cutting the list. `Ns0Numbers` and
  `Ns0Reference` prove that they compute what 32-bit machine words do.
- Definitions shared by a method and its specification have a partner that does not use them: a
  closed form, a writer or reader of the format, published test vectors, or an answer worked out.

## Where behaviour and expectation differ

- The frame limiter keeps its deadline after a tick that is late by at most one interval, and starts
  anew only beyond that, as its comment says. Two renders can therefore follow each other closely:
  `FpsLimiter.CloseRenderIff` says exactly when, `FpsLimiter.NoThirdRender` that it stays at two.
- The menu export stops at the first void child; finding an item by its path does not look at the
  children before it. `MenuPaths.ResolvableIsExportedIff` says which items can be found without
  having been exported, `MenuPaths.HiddenBehindVoid` shows one.
- The escaping of diagnostic events does not cover the fields, which callers hand over ready-made;
  a line is one line exactly when they contain no newline: `DiagnosticQueue.LineIsOneLine`.
- A failing `syncfs` is not tried again by itself. `UserFsSync.RetriedIff` says when anything is left
  to happen, `UserFsSync.StoredIffLanded` exactly when the latest change has reached storage, and
  `UserFsSync.FailureIsNotRetried` shows both outcomes.
- With three colours the decoder always writes opaque pixels, so only opaque images are reached:
  `Tlg5Image.DecodeInvertsEncode` says exactly which. With more than four colours it takes the
  fourth plane as the alpha of the first row only.
- Clicks and the displayed crop agree exactly when the crop fits the frame or nothing is cropped:
  `OnscripterFrame.ClickHitsShownPixel`. For frames of the size the game was opened with it fits;
  for others a scrolled list makes clicks miss: `OnscripterFrame.ScrolledClickMisses`.
- When a provider runtime fails to start it is destroyed, but the handle keeps its provider
  pointer and stays undecided: `DispatchOwnership.FailedStartIsRetried`.

## Model

| member | source | states |
|---|---|---|
| Tlg5Lzss.ParseIffSpells | tools/decode_tlg5.py:18-56 | parsing returns some tokens if and only if the payload spells them: control bytes govern eight tokens each, and the payload may not stop right behind a control byte |
| Tlg5Lzss.SpelledPayloadInflates | tools/decode_tlg5.py:18-57 | any bytes that spell tokens decode to the expansion of those tokens |
| Tlg5Lzss.Endings | tools/decode_tlg5.py:18-56 | a payload may end behind any token, not behind a control byte nor inside a match, and which error says so |
| Tlg5Lzss.MatchWord | tools/decode_tlg5.py:31-42 | a match is a little-endian word, slot in its low twelve bits, with a third byte exactly from length 18 on |
| Tlg5Lzss.ControlBit | tools/decode_tlg5.py:19-31 | bit i of a control byte, lowest first, governs the i-th token behind it |
| Tlg5Lzss.AgeIsRingDistance | tools/decode_tlg5.py:36-48 | a match at ring slot m reaches back ((r-m-1) mod 4096)+1 bytes |
| Tlg5Lzss.ExpandIsLocal | tools/decode_tlg5.py:43-48 | no match reaches back further than 4096 bytes, so a longer past changes nothing |
| Tlg5Lzss.ExpandLength | tools/decode_tlg5.py:36-56 | the expansion is longer than the history by one byte for a literal and by its length for a match |
| Tlg5Lzss.ExpandedByte | tools/decode_tlg5.py:43-56 | every byte of an expansion: a literal is its value, each byte of a match the one as far back as its slot was old where the match began |
| Tlg5Lzss.CopyBackIsPeriodic | tools/decode_tlg5.py:43-48 | an overlapping match repeats with the distance as its period |
| Tlg5Lzss.LiteralRun | tools/decode_tlg5.py:23-30 | eight literals taken at once are the eight tokens taken one by one |
| Tlg5Lzss.PutByte | tools/decode_tlg5.py:54-56 | one literal: history one byte longer, ring and position follow |
| Tlg5Lzss.CopyMatch | tools/decode_tlg5.py:43-48 | the copy loop through the ring appends the plain LZ77 copy to the history, overlaps included |
| Tlg5Lzss.ReadMatch | tools/decode_tlg5.py:31-42 | slot and length of a match, and exactly the two truncation errors |
| Tlg5Lzss.DecodeToken | tools/decode_tlg5.py:31-56 | a token decoded through the ring: output, position, ring and error are those of the token stream |
| Tlg5Lzss.NextControl | tools/decode_tlg5.py:19-23 | shifting and reloading the flags yields the next control bit of the stream; 0xff00 after a reload means eight literals |
| Tlg5Lzss.CopyChunk | tools/decode_tlg5.py:23-30 | the 8-literal shortcut leaves output, ring and position as the slow path would |
| Tlg5Lzss.Decompress | tools/decode_tlg5.py:14-57 | for every payload, ring and position: output, new position and ring, or the error, are those of the LZ77 expansion of the token stream |
| Tlg5Lzss.FiveAs | tools/decode_tlg5.py:14-57 | the payload 02 41 00 10 decodes to 41 41 41 41 41 |
| Tlg5Image.RectSumIsModular | tools/decode_tlg5.py:92-131 | running sums masked byte by byte are the integer sums over rectangles of residuals, mod 256 |
| Tlg5Image.PixelIsPlaneSums | tools/decode_tlg5.py:92-131 | each byte of a pixel, in the order blue, green, red, alpha, from the integer sums of the planes as stored: blue and red with the green taken back in, alpha summed, given or 255 |
| Tlg5Image.ImageIsDetermined | tools/decode_tlg5.py:92-134 | the rectangle sums, with opaque alpha for three colours, fix every byte of the image |
| Tlg5Image.FirstRow | tools/decode_tlg5.py:92-107 | the first-row branch is the general one with a row of zeros above |
| Tlg5Image.NextRow | tools/decode_tlg5.py:108-131 | each channel of a row is its prefix sum plus the row above; alpha is 255 unless there are four colours |
| Tlg5Image.EncodeInvertsDecode | tools/decode_tlg5.py:92-134 | the three or four summed planes are recovered from the image, so decoding them is injective |
| Tlg5Image.DecodeInvertsEncode | tools/decode_tlg5.py:92-134 | an image is reached by decoding if and only if it is opaque or has four colours |
| Tlg5Decode.RowsHere | tools/decode_tlg5.py:88-88 | a block has the block height of rows, or those left at the foot of the image if they are fewer |
| Tlg5Decode.BlocksCoverHeight | tools/decode_tlg5.py:75-75 | there are as many blocks as the height divided by the block height, rounded up |
| Tlg5Decode.RingSuffices | tools/decode_tlg5.py:71-84 | decoding with the 4096-byte ring gives what decoding with the whole past in sight gives, errors included |
| Tlg5Decode.DecodePlane | tools/decode_tlg5.py:78-87 | one plane: mark, size, clipped slice, packed or stored, and the errors of a short file |
| Tlg5Decode.DecodePlanes | tools/decode_tlg5.py:76-87 | all planes of a block, in order, through one ring |
| Tlg5Decode.DecodeRows | tools/decode_tlg5.py:88-133 | the row loop of a block extends a right image by the block's rows |
| Tlg5Decode.DecodeBlock | tools/decode_tlg5.py:75-133 | one block: planes first, then rows, with reading position and ring carried on |
| Tlg5Decode.DecodeBody | tools/decode_tlg5.py:71-134 | for every number of colours the whole image is the closed form of all blocks' residuals stacked, with the alpha the source gives it, or the first error in reading order |
| Tlg5RoundTrip.PackedInflates | tools/decode_tlg5.py:14-57 | a plane packed as literals, in groups of eight behind zero control bytes, decompresses to itself behind any history |
| Tlg5RoundTrip.PlaneReadsBack | tools/decode_tlg5.py:77-87 | a plane behind mark and size, packed behind mark 0 or stored behind any other, is read back, and the position and ring behind it |
| Tlg5RoundTrip.ClippedPlane | tools/decode_tlg5.py:79-82 | a stored plane that the end of the file cuts off is taken as far as it goes |
| Tlg5RoundTrip.BodyReadsBack | tools/decode_tlg5.py:75-88 | rows cut into blocks and written plane by plane are read back, for every block height, every choice of marks and whatever follows |
| Tlg5RoundTrip.ImageReadsBack | tools/decode_tlg5.py:71-134 | the body written for an image decodes to that image and nothing else; with three colours the image must be opaque |
| TjsFormat.FinalIsInjective | tools/inspect_tjs_ns0.py:192-197 | equal checksums come from equal checker states, as far as the checker uses them |
| TjsFormat.ParsePrinted | tools/inspect_tjs_ns0.py:223-243 | parsing a printed tree returns the tree, consumes exactly its bytes whatever follows, and leaves the checker in the printer's state; nesting up to 128 |
| TjsFormat.ParsedIsPrinted | tools/inspect_tjs_ns0.py:223-243 | bytes that parse to a tree are that tree's printed bytes: one spelling per tree and checker state, hence the same length consumed |
| TjsFormat.BeginOfNumber | tools/inspect_tjs_ns0.py:173-174 | the starting seed as a 32-bit number: the lowest byte absorbs the highest |
| TjsFormat.MixIsLinear | tools/inspect_tjs_ns0.py:176-182 | the byte a round makes is linear over exclusive or |
| TjsFormat.MixOfBits | tools/inspect_tjs_ns0.py:176-182 | its values at all sixteen single bits, which fix it everywhere |
| TjsFormat.WellPairedIff | tools/inspect_tjs_ns0.py:221-221 | strict UTF-16: every high surrogate is followed by a low one and every low one preceded by a high one |
| TjsFormat.SignBit | tools/inspect_tjs_ns0.py:235-236 | integers are two's complement of 64 bits, low byte first |
| TjsFormat.NestingLimit | tools/inspect_tjs_ns0.py:224-225 | 128 levels below the outermost value can be held, not one more |
| TjsFormat.FaultsInOrder | tools/inspect_tjs_ns0.py:223-243 | depth, length, check byte and kind are complained about in this order |
| TjsReader.NormalIsIdentity | tools/inspect_tjs_ns0.py:241-242 | without repeated keys Python's dictionaries change nothing |
| TjsReader.DictionaryMeaning | tools/inspect_tjs_ns0.py:241-242 | a dictionary holds the last value of each key, and its keys in the order they first came |
| TjsReader.Checker.constructor | tools/inspect_tjs_ns0.py:173-174 | the seed a checker starts from |
| TjsReader.Checker.Rnd | tools/inspect_tjs_ns0.py:176-182 | one round in place on four bytes |
| TjsReader.Checker.Next | tools/inspect_tjs_ns0.py:184-190 | the check byte of a tag, and the advanced seed; null does not advance it |
| TjsReader.Checker.Final | tools/inspect_tjs_ns0.py:192-197 | the four bytes of the checksum, three of them compared |
| TjsReader.Reader.Take | tools/inspect_tjs_ns0.py:206-211 | exactly the bytes asked for, or an error that moves nothing |
| TjsReader.Reader.U32 | tools/inspect_tjs_ns0.py:216-217 | a little-endian 32-bit number, or truncation |
| TjsReader.Reader.String | tools/inspect_tjs_ns0.py:219-221 | length-prefixed UTF-16, or the error |
| TjsReader.Reader.Value | tools/inspect_tjs_ns0.py:223-243 | the recursive descent with running position and checker computes the parser of the format, error for error; repeated keys are merged as by a dictionary |
| TjsReader.Reader.Body | tools/inspect_tjs_ns0.py:231-243 | what follows a tag, kind by kind, and unknown kinds |
| TjsReader.Reader.Items | tools/inspect_tjs_ns0.py:239-240 | the list comprehension |
| TjsReader.Reader.Pairs | tools/inspect_tjs_ns0.py:241-242 | the dictionary comprehension: key before value, later entries replace earlier ones |
| TjsLoad.LoadPayload | tools/inspect_tjs_ns0.py:261-267 | parsing and the comparison of 24 checksum bits through the objects |
| TjsLoad.LoadIffPrinted | tools/inspect_tjs_ns0.py:261-267 | a payload loads as a value if and only if it is that value printed and sealed, anything behind it ignored |
| TjsLoad.LoadedTreeIsPrintedTree | tools/inspect_tjs_ns0.py:261-267 | trees with distinct keys survive printing and loading unchanged |
| TjsLoad.ParseTwice | tools/inspect_tjs_ns0.py:223-243 | over the same bytes, two checkers end alike only if they started alike, and then read the same |
| TjsLoad.LoadDeterminesSeed | tools/inspect_tjs_ns0.py:261-267 | a payload that loads under one seed loads under another if and only if they agree in the middle bytes and in the exclusive or of the outer ones, and then as the same value |
| TjsLoad.NullLoads | tools/inspect_tjs_ns0.py:261-267 | 00 00 03 03 03 and any byte load as null under the seed 0x01000000; one byte less, or another checksum, is refused |
| TjsKnownPack.DocumentLoads | tools/inspect_tjs_ns0.py:223-267 | a document with every kind of value loads from its sixty bytes |
| TjsKnownPack.KnownFile | tools/inspect_tjs_ns0.py:246-267 | and from its whole file, header included |
| Ns0Words.RolIsShifts | tools/inspect_tjs_ns0.py:16-17 | rotation joins the two shifts, which never overlap |
| Ns0Words.PlusIsModular | tools/inspect_tjs_ns0.py:62-68 | addition of words is addition modulo 2^32 |
| Ns0Words.QuarterRoundInvertible | tools/inspect_tjs_ns0.py:61-69 | the quarter round is a bijection, its inverse given |
| Ns0Words.XorshiftInvertible | tools/inspect_tjs_ns0.py:100-104 | the xorshift step is a bijection with the given inverse, and only zero is mapped to zero |
| Ns0Numbers.NumberOfPlus | tools/inspect_tjs_ns0.py:62-68 | addition of bit lists is 32-bit machine addition |
| Ns0Numbers.NumberOfXor | tools/inspect_tjs_ns0.py:63-69 | exclusive or of bit lists is the machine's |
| Ns0Numbers.NumberOfRol | tools/inspect_tjs_ns0.py:16-17 | rotation of bit lists by 16, 12, 8 and 7 is shifting the machine word both ways |
| Ns0Numbers.NumberIsInjective | tools/inspect_tjs_ns0.py:61-69 | different bit lists are different machine words |
| Ns0Cipher.PermuteInvertible | tools/inspect_tjs_ns0.py:72-83 | the eight rounds are a bijection of states |
| Ns0Cipher.Qr | tools/inspect_tjs_ns0.py:61-69 | the eight assignments in place are the quarter round, and touch no other word |
| Ns0Cipher.Chacha8Block | tools/inspect_tjs_ns0.py:72-83 | four double rounds plus the source state |
| Ns0Reference.QuarterVector | tools/inspect_tjs_ns0.py:61-69 | the quarter round on machine words meets the test vector of RFC 8439, section 2.1.1 |
| Ns0Reference.CoreIsReference | tools/inspect_tjs_ns0.py:72-83 | the core on bit lists is eight rounds on machine words, columns and diagonals all at once, plus the source |
| Ns0Reference.XorshiftVector | tools/inspect_tjs_ns0.py:101-103 | xorshift with 13, 17 and 5 takes 1 to 270369 |
| Ns0Reference.XorshiftIsReference | tools/inspect_tjs_ns0.py:101-103 | xorshift on bit lists is that on machine words |
| Ns0Stream.FallbackOnlyOnce | tools/inspect_tjs_ns0.py:99-107 | the nonzero fallback fires exactly where a word of the ChaCha core is zero, at offsets 64 to 127, so at most once in each lane; every later word is nonzero |
| Ns0Stream.LaneIsReversible | tools/inspect_tjs_ns0.py:99-107 | elsewhere each word of the stream can be recovered from the one 64 bytes on |
| Ns0Stream.FallbackIsNotZero | tools/inspect_tjs_ns0.py:91-94 | the fallback itself is never zero |
| Ns0Stream.FallbackCases | tools/inspect_tjs_ns0.py:91-93 | the fallback is seed and hash mixed, or the seed if that is zero, or all ones if that is zero too |
| Ns0Stream.BaseWords | tools/inspect_tjs_ns0.py:88-90 | the sixteen words: the text expand 32-byte k in little-endian bytes, the key, two zeros, the hash, the seed |
| Ns0Stream.BlockWords | tools/inspect_tjs_ns0.py:96-114 | block n starts from the same words but for the counter, n in words 12 and 13, low half first |
| Ns0Stream.KeyByteIs | tools/inspect_tjs_ns0.py:97-111 | byte j of word k of block n is byte 1024 n + 4 k + j of the key stream |
| Ns0Stream.CounterCounts | tools/inspect_tjs_ns0.py:112-114 | the two counter words hold the number of blocks modulo 2^64 |
| Ns0Stream.BlocksDiffer | tools/inspect_tjs_ns0.py:96-114 | no two of the first 2^64 blocks start from, or are permuted to, the same state |
| Ns0Stream.CryptIsInvolution | tools/inspect_tjs_ns0.py:86-115 | decrypting twice gives the payload back |
| Ns0Stream.CryptPrefix | tools/inspect_tjs_ns0.py:86-115 | decrypting commutes with taking prefixes |
| Ns0Stream.KeyStream | tools/inspect_tjs_ns0.py:97-107 | the 1024 bytes of a block: core, then sixteen xorshift lanes with fallback |
| Ns0Stream.Decrypt | tools/inspect_tjs_ns0.py:86-115 | for every payload, each byte is combined with the key stream byte of its own position, block counter included |
| Ns0KnownBlock.StreamBegins | tools/inspect_tjs_ns0.py:72-111 | with a key of zeros, hash 1 and seed 2 the key stream begins 1e fc 72 81 |
| Ns0KnownBlock.KnownPayload | tools/inspect_tjs_ns0.py:86-115 | so four bytes of zeros are decrypted to these |
| Ns0Pack.HeaderBytes | tools/inspect_tjs_ns0.py:248-250 | the sixteen bytes of a header, one by one |
| Ns0Pack.SeedIsNumber | tools/inspect_tjs_ns0.py:250-254 | the seed of the cipher is the little-endian number in the header |
| Ns0Pack.Refusals | tools/inspect_tjs_ns0.py:247-260 | which bytes of a file lead to which refusal, the first reason first |
| Ns0Pack.CompressedFile | tools/inspect_tjs_ns0.py:257-267 | a compressed file loads as what its payload decompresses to |
| Ns0Pack.OpenedPack | tools/inspect_tjs_ns0.py:250-256 | behind the header of a pack file lies its payload in clear, encrypted or not |
| Ns0Pack.LoadPack | tools/inspect_tjs_ns0.py:246-267 | header, decryption, decompression and value, with the first error in the source's order |
| Ns0Pack.FileLoadsIffSpelled | tools/inspect_tjs_ns0.py:246-267 | an uncompressed file loads as a value if and only if it is a pack of that printed value, encrypted or not, whatever the hash functions return |
| BarrierPlanner.GodotGpuBarrierShadowPlanner.Intersects | bridge/godot_extension/src/GodotGpuBarrierShadowPlanner.h:62-71 | whether a nonzero resource is pending |
| BarrierPlanner.GodotGpuBarrierShadowPlanner.InsertValid | bridge/godot_extension/src/GodotGpuBarrierShadowPlanner.h:73-78 | adds exactly the nonzero resources |
| BarrierPlanner.GodotGpuBarrierShadowPlanner.Record | bridge/godot_extension/src/GodotGpuBarrierShadowPlanner.h:25-44 | step, pending sets and all four counters after an operation |
| BarrierPlanner.GodotGpuBarrierShadowPlanner.Finish | bridge/godot_extension/src/GodotGpuBarrierShadowPlanner.h:47-52 | a completion barrier exactly if writes are pending |
| BarrierPlanner.GodotGpuBarrierShadowPlanner.Reset | bridge/godot_extension/src/GodotGpuBarrierShadowPlanner.h:55-55 | nothing pending afterwards, counters as they were |
| BarrierPlanner.PendingIsEpoch | bridge/godot_extension/src/GodotGpuBarrierShadowPlanner.h:33-42 | the pending sets are the nonzero resources touched since the last barrier, no more and no less |
| BarrierPlanner.BarrierIffHazard | bridge/godot_extension/src/GodotGpuBarrierShadowPlanner.h:28-31 | a barrier is reported if and only if a RAW, WAW or WAR hazard begins in the current epoch |
| BarrierPlanner.FlagIffConflict | bridge/godot_extension/src/GodotGpuBarrierShadowPlanner.h:28-31 | each of the three flags is raised if and only if a hazard of its own kind begins in the current epoch |
| BarrierPlanner.FlagsAreCounted | bridge/godot_extension/src/GodotGpuBarrierShadowPlanner.h:32-38 | each of the three counters counts the steps that raise its flag |
| BarrierPlanner.PlannedSeparates | bridge/godot_extension/src/GodotGpuBarrierShadowPlanner.h:25-52 | between any two conflicting operations, and between a write and completion, there is a reported barrier |
| BarrierPlanner.PlannedIsMinimal | bridge/godot_extension/src/GodotGpuBarrierShadowPlanner.h:25-52 | in every prefix, no placement that separates all hazards has fewer barriers |
| BarrierPlanner.Submit | bridge/godot_extension/src/GodotGpuBarrierShadowPlanner.h:25-57 | a whole submission through the object reports the planned barriers and counts them, and the steps of each kind |
| CoffeeAccess.SortByDate | bridge/godot_extension/src/apple_storekit.swift:529-534 | the same grants in order of date |
| CoffeeAccess.CoffeeExpiration | bridge/godot_extension/src/apple_storekit.swift:527-540 | the loop computes the expiry of the grants |
| CoffeeAccess.ExpiryIsEarliest | bridge/godot_extension/src/apple_storekit.swift:527-540 | no order of the same grants expires earlier, and ties do not matter |
| CoffeeAccess.ExpiryIsClosedForm | bridge/godot_extension/src/apple_storekit.swift:535-539 | the expiry is exactly the maximum over grants of its date plus 30 days times all quantities from that date on, or of all of them from time zero |
| CoffeeAccess.ExpiryIsMonotone | bridge/godot_extension/src/apple_storekit.swift:527-540 | more grants never shorten access, refunds never extend it |
| CoffeeAccess.NewestGrantExtends | bridge/godot_extension/src/apple_storekit.swift:535-539 | a newest purchase is worth its full duration from the expiry so far or from its date |
| CoffeeAccess.DurationAdds | bridge/godot_extension/src/apple_storekit.swift:537-537 | units bought together are worth as much as bought apart, and one unit, or less, is worth thirty days |
| CoffeeAccess.ExpiryOfSplitPurchase | bridge/godot_extension/src/apple_storekit.swift:527-540 | a purchase of several units extends access exactly as several purchases at the same time do |
| CoffeeAccess.ExpiryOfOne | bridge/godot_extension/src/apple_storekit.swift:535-539 | a single purchase lasts 2592000 seconds from its date for each unit |
| CoffeeLedger.ListingDoesNotMatter | bridge/godot_extension/src/apple_storekit.swift:350-361 | the order in which a dictionary is listed does not influence the expiry |
| CoffeeLedger.CoffeeLedgerStore.PerformCheck | bridge/godot_extension/src/apple_storekit.swift:348-366 | merging revoked and verified transactions by id, the ledger's clock, expiry and entitlement |
| CoffeeLedger.CoffeeLedgerStore.RecordGrant | bridge/godot_extension/src/apple_storekit.swift:507-525 | a transaction is recorded once, and the clock moves on with it |
| CoffeeLedger.Values | bridge/godot_extension/src/apple_storekit.swift:359-359 | some listing of a dictionary, each transaction once |
| CoffeeLedger.MergedMeaning | bridge/godot_extension/src/apple_storekit.swift:348-361 | a verified transaction is held as last reported, others as before unless revoked |
| CoffeeLedger.ClockIsLatest | bridge/godot_extension/src/apple_storekit.swift:362-363 | over every history the clock shows the latest time observed, or what it showed at first |
| CoffeeLedger.ClockNeverReturns | bridge/godot_extension/src/apple_storekit.swift:362-363 | over every history the observed time never decreases and no transaction is held twice |
| CoffeeLedger.ExpiredStaysExpired | bridge/godot_extension/src/apple_storekit.swift:348-366 | once a check finds access expired, every later one does until a new purchase, whatever the wall clock says |
| FpsLimiter.FpsLimitState.SetLimit | bridge/krkr2_runtime/src/krkr2_legacy_engine_api.cpp:3003-3008 | limit and interval in whole microseconds, deadline forgotten |
| FpsLimiter.FpsLimitState.Tick | bridge/krkr2_runtime/src/krkr2_legacy_engine_api.cpp:2643-2680 | skipped or rendered, and where the deadline moves |
| FpsLimiter.NeverAhead | bridge/krkr2_runtime/src/krkr2_legacy_engine_api.cpp:2643-2680 | never more rendered ticks than the limit allows since the first |
| FpsLimiter.NoDrift | bridge/krkr2_runtime/src/krkr2_legacy_engine_api.cpp:2658-2675 | with ticks at most an interval apart, exactly floor((t-t0)/I)+1 are rendered by time t |
| FpsLimiter.NoBurst | bridge/krkr2_runtime/src/krkr2_legacy_engine_api.cpp:2665-2675 | for arbitrary ticks, a window of length L has at most floor(L/I)+2 rendered ones |
| FpsLimiter.CloseTickIff | bridge/krkr2_runtime/src/krkr2_legacy_engine_api.cpp:2647-2675 | after a render, a tick less than an interval later is rendered if and only if the render was late, by at most one interval, and the tick has reached the next deadline |
| FpsLimiter.CloseRenderIff | bridge/krkr2_runtime/src/krkr2_legacy_engine_api.cpp:2643-2680 | the same for every tick of every run: exactly when two renders come closer than an interval |
| FpsLimiter.NoThirdRender | bridge/krkr2_runtime/src/krkr2_legacy_engine_api.cpp:2647-2675 | there are never three renders in less than an interval |
| FpsLimiter.BurstOfTwo | bridge/krkr2_runtime/src/krkr2_legacy_engine_api.cpp:2665-2675 | such a pair of renders, meeting the bound of NoBurst |
| InputQueueGate.PrimaryClickQueueGate.ShouldEnqueue | abi/src/engine_input_queue_gate.h:18-67 | verdict and new gate state for every event |
| InputQueueGate.PrimaryClickQueueGate.OnDequeued | abi/src/engine_input_queue_gate.h:69-73 | a primary release leaving the queue is counted down, never below zero |
| InputQueueGate.PrimaryClickQueueGate.Reset | abi/src/engine_input_queue_gate.h:75-79 | an open gate |
| InputQueueGate.InputState.SendInput | bridge/krkr2_runtime/src/krkr2_legacy_engine_api.cpp:3819-3875 | state, kind and coordinate checks in order, gate, queue, and eviction at 512 |
| InputQueueGate.InputState.DispatchPending | bridge/krkr2_runtime/src/krkr2_legacy_engine_api.cpp:2540-2555 | events are dispatched in order up to the first failure, which has left the queue |
| InputQueueGate.InputState.DoPause | bridge/krkr2_runtime/src/krkr2_legacy_engine_api.cpp:2919-2932 | pausing an open game drops queue and gate together; what is refused |
| InputQueueGate.InputState.DoOpen | bridge/krkr2_runtime/src/krkr2_legacy_engine_api.cpp:1227-1231 | so does a completed start |
| InputQueueGate.InputState.DoResume | bridge/krkr2_runtime/src/krkr2_legacy_engine_api.cpp:2962-2971 | resuming keeps both; what is refused |
| InputQueueGate.RunKeepsInv | bridge/krkr2_runtime/src/krkr2_legacy_engine_api.cpp:3857-3870 | over every run: the counter equals the primary releases queued, at most 8, at most 7 while a press is open; at most 512 events queued, in order |
| InputQueueGate.AcceptedAlternates | abi/src/engine_input_queue_gate.h:18-67 | accepted primary edges strictly alternate DOWN p, UP p with the same pointer |
| InputQueueGate.DispatchedAlternates | bridge/krkr2_runtime/src/krkr2_legacy_engine_api.cpp:2541-2555 | so do dispatched ones, in the order accepted, as long as nothing was evicted since the last reset |
| InputQueueGate.TickReopens | bridge/krkr2_runtime/src/krkr2_legacy_engine_api.cpp:2541-2555 | after a complete tick a press is accepted if and only if none is open |
| InputQueueGate.PressAndRelease | abi/src/engine_input_queue_gate.h:26-66 | in every run a press is accepted if and only if none is open and fewer than eight gestures wait, a release if and only if its own press is open |
| InputQueueGate.OthersPass | abi/src/engine_input_queue_gate.h:18-67 | other buttons and other kinds of events always pass and leave the gate alone |
| InputQueueGate.MotionRefusedIff | abi/src/engine_input_queue_gate.h:18-67 | primary motion is refused if and only if its pointer, not down, was pressed in vain and has been neither pressed nor released since |
| InputQueueGate.SendOutcome | bridge/krkr2_runtime/src/krkr2_legacy_engine_api.cpp:3855-3875 | an accepted event goes to the end of the queue, at 512 pushing the first one out; a refused one changes the gate only |
| InputQueueGate.NothingSent | bridge/krkr2_runtime/src/krkr2_legacy_engine_api.cpp:3819-3853 | an event outside a running game, of an unknown kind or without finite coordinates changes nothing |
| InputQueueGate.TickOutcome | bridge/krkr2_runtime/src/krkr2_legacy_engine_api.cpp:2541-2555 | what a tick hands on and what it leaves, event by event |
| InputQueueGate.PhaseOutcome | bridge/krkr2_runtime/src/krkr2_legacy_engine_api.cpp:2919-2971 | what pausing, resuming and a completed start leave of state, gate and queue |
| OnscripterEvents.HostEventQueue.PushRuntimeEvent | bridge/onscripter_runtime/src/onscripter_runtime.cpp:152-175 | merging, eviction of the oldest motion or else the oldest event, and the new queue |
| OnscripterEvents.HostEventQueue.PopHostEvent | bridge/onscripter_runtime/src/onscripter_runtime.cpp:118-129 | the front of the queue |
| OnscripterEvents.HostEventQueue.PopHostKeyRelease | bridge/onscripter_runtime/src/onscripter_runtime.cpp:131-145 | the first key release, taken out of the middle |
| OnscripterEvents.WatchPushed | bridge/onscripter_runtime/src/onscripter_runtime.cpp:152-175 | without eviction, a push is a push to an unbounded queue that merges nothing, as its consumer sees it |
| OnscripterEvents.WatchRelease | bridge/onscripter_runtime/src/onscripter_runtime.cpp:131-145 | taking a release out of the middle changes no other event's cursor position |
| OnscripterEvents.LosesIffFull | bridge/onscripter_runtime/src/onscripter_runtime.cpp:161-172 | an event other than a motion is lost if and only if 256 of them are waiting; the queue never exceeds 256 |
| OnscripterEvents.PushOutcome | bridge/onscripter_runtime/src/onscripter_runtime.cpp:152-175 | the queue after a push, place by place: what is replaced, and what is evicted at 256 |
| OnscripterQueueRuns.MergingIsInvisible | bridge/onscripter_runtime/src/onscripter_runtime.cpp:118-175 | if nothing was evicted, delivered and waiting events, each with its cursor position, are those of an unbounded uncoalesced queue, less the releases taken out of turn |
| OnscripterQueueRuns.NothingLost | bridge/onscripter_runtime/src/onscripter_runtime.cpp:118-175 | with fewer than 256 non-motion events waiting at each push, delivered plus waiting ones are all that were pushed, in order, less the releases taken out of turn |
| OnscripterPresentation.ViewportIsLargestFit | bridge/onscripter_runtime/include/onscripter_presentation.h:14-41 | full width from the corner, and the greatest height the aspect allows: floor(sw*ah/aw) when cropping; the whole source if not even a row fits |
| OnscripterPresentation.ScrollState.constructor | bridge/onscripter_runtime/src/onscripter_runtime.cpp:1347-1362 | a game opens with the viewport of its source |
| OnscripterPresentation.ScrollState.BeginSystemListScroll | bridge/onscripter_runtime/src/onscripter_runtime.cpp:210-214 | scroll from the top, on |
| OnscripterPresentation.ScrollState.EndSystemListScroll | bridge/onscripter_runtime/src/onscripter_runtime.cpp:216-220 | and off |
| OnscripterPresentation.ScrollState.AdjustSystemListScroll | bridge/onscripter_runtime/src/onscripter_runtime.cpp:1617-1654 | scroll clamped to the list, revision raised only if it moved; whether the scroll is the list's |
| OnscripterPresentation.ScrollStaysInBounds | bridge/onscripter_runtime/include/onscripter_presentation.h:43-64 | after any run of scroll calls the presented rows lie inside the source |
| OnscripterPresentation.ScrollUndone | bridge/onscripter_runtime/include/onscripter_presentation.h:43-64 | scrolling back by what the list really moved returns to where it was |
| OnscripterPresentation.ScrollIsNearest | bridge/onscripter_runtime/include/onscripter_presentation.h:43-64 | the scroll is the position in bounds nearest to the one asked for |
| OnscripterPresentation.ScrollOutcome | bridge/onscripter_runtime/src/onscripter_runtime.cpp:1617-1654 | what a scroll call does to position and revision |
| OnscripterPresentation.ListOutcome | bridge/onscripter_runtime/src/onscripter_runtime.cpp:210-220 | a list begins and ends at its top, and the revision tells both |
| OnscripterFrame.RegionIsClip | bridge/onscripter_runtime/src/onscripter_runtime.cpp:361-379 | the flushed region is exactly the part of the dirty rectangle on the surface, or the whole surface if there is none or the frame is new |
| OnscripterFrame.PublishedFrame.Publish | bridge/onscripter_runtime/src/onscripter_runtime.cpp:333-415 | pixels inside the region are the converted surface, the others as before; serial raised; nothing changes on failure |
| OnscripterFrame.FlushSyncs | bridge/onscripter_runtime/src/onscripter_runtime.cpp:333-415 | a flush brings the snapshot up to date if and only if it covers every stale pixel |
| OnscripterFrame.SnapshotFollows | bridge/onscripter_runtime/src/onscripter_runtime.cpp:333-415 | as long as changes lie inside the dirty rectangles, the snapshot is the converted surface after every flush, also when the surface changes size |
| OnscripterFrame.SerialCounts | bridge/onscripter_runtime/src/onscripter_runtime.cpp:333-415 | the serial number counts the flushes that had something to flush |
| OnscripterFrame.CropIffInside | bridge/onscripter_runtime/src/onscripter_runtime.cpp:1891-1911 | the crop is used if and only if the frame has the expected size and the scrolled viewport lies inside it |
| OnscripterFrame.ReadFrame | bridge/onscripter_runtime/src/onscripter_runtime.cpp:1891-1924 | the pixels handed out are the cropped part of the frame, always in bounds; the whole frame if the crop does not fit |
| OnscripterFrame.ClickHitsShownPixel | bridge/onscripter_runtime/src/onscripter_runtime.cpp:1709-1747 | a click lands on the source pixel displayed there if and only if the crop fits or nothing is cropped or scrolled |
| OnscripterFrame.ClickFollowsScroll | bridge/onscripter_runtime/src/onscripter_runtime.cpp:1709-1747 | for an opened game it always does, after any run of scrolls |
| OnscripterFrame.ScrolledClickMisses | bridge/onscripter_runtime/src/onscripter_runtime.cpp:1891-1911 | on a frame of another size than the game was opened with, a click hits the pixel shown if and only if the list has not been scrolled |
| OnscripterFrame.ScrolledListExample | bridge/onscripter_runtime/src/onscripter_runtime.cpp:1633-1654 | such a scroll is reached |
| MenuPaths.ParseMenuPath | bridge/krkr2_runtime/src/krkr2_legacy_engine_api.cpp:1652-1683 | segments between slashes, a trailing slash allowed; empty, negative or other than numeric segments refused |
| MenuPaths.AppendChildren | bridge/krkr2_runtime/src/krkr2_legacy_engine_api.cpp:1587-1608 | up to the first void child, each child that is an object is exported, then what is below it |
| MenuPaths.BuildMainMenu | bridge/krkr2_runtime/src/krkr2_legacy_engine_api.cpp:1611-1650 | all items below the root, in menu order |
| MenuPaths.ResolveMenuItemByPath | bridge/krkr2_runtime/src/krkr2_legacy_engine_api.cpp:1685-1724 | following the indices from the root, or failing at the first hole or gap |
| MenuPaths.ParseSpelledPath | bridge/krkr2_runtime/src/krkr2_legacy_engine_api.cpp:1652-1683 | the path of any list of indices parses back to it |
| MenuPaths.FirstSegment | bridge/krkr2_runtime/src/krkr2_legacy_engine_api.cpp:1652-1683 | a path segment by segment: the last may be missing behind a slash, none other may be empty, each must be a number |
| MenuPaths.LongIsRead | bridge/krkr2_runtime/src/krkr2_legacy_engine_api.cpp:1663-1675 | blanks, a sign or none, and digits are read as the number, as far as 64 bits hold it |
| MenuPaths.LongIsOnlyRead | bridge/krkr2_runtime/src/krkr2_legacy_engine_api.cpp:1663-1675 | nothing else is read as a number |
| MenuPaths.SegmentIsIndex | bridge/krkr2_runtime/src/krkr2_legacy_engine_api.cpp:1663-1675 | a segment is an index unless negative, and keeps its lowest 32 bits |
| MenuPaths.ValueIsDecimal | bridge/krkr2_runtime/src/krkr2_legacy_engine_api.cpp:1669-1669 | digits are read in base ten |
| MenuPaths.ExportedPathsResolve | bridge/krkr2_runtime/src/krkr2_legacy_engine_api.cpp:1562-1724 | every exported path parses, and resolves to exactly the item it was exported for |
| MenuPaths.ResolvableIsExportedIff | bridge/krkr2_runtime/src/krkr2_legacy_engine_api.cpp:1590-1599 | an item that resolves was exported under that path if and only if no void child comes before it at any level |
| MenuPaths.HiddenBehindVoid | bridge/krkr2_runtime/src/krkr2_legacy_engine_api.cpp:1590-1599 | an item behind a void child resolves and was never exported |
| MenuPaths.ExportedInOrder | bridge/krkr2_runtime/src/krkr2_legacy_engine_api.cpp:1562-1650 | the exported items stand in menu order, each before those below it and these before its next sibling; all their paths are different |
| JsonText.JsonEscape | bridge/krkr2_runtime/src/krkr2_legacy_engine_api.cpp:705-728 | the escaped text |
| JsonText.EscapedIsPrintable | bridge/krkr2_runtime/src/krkr2_legacy_engine_api.cpp:705-728 | no escaped byte is below 0x20 |
| JsonText.EscapedReadsBack | bridge/krkr2_runtime/src/krkr2_legacy_engine_api.cpp:705-728 | a JSON string reader (RFC 8259, section 7) gets the text back and stops at the closing quote |
| JsonText.KnownEscapes | bridge/krkr2_runtime/src/krkr2_legacy_engine_api.cpp:705-728 | which bytes are escaped by a letter, which by their number, and which not at all |
| DiagnosticQueue.LineIsOneLine | bridge/krkr2_runtime/src/krkr2_legacy_engine_api.cpp:743-754 | a line contains a newline if and only if the caller's ready-made fields do |
| DiagnosticQueue.DiagnosticState.Push | bridge/krkr2_runtime/src/krkr2_legacy_engine_api.cpp:730-756 | sequence number, drops at the front, and the line with both counters in it; nothing when disabled |
| DiagnosticQueue.DiagnosticState.SetConfig | bridge/krkr2_runtime/src/krkr2_legacy_engine_api.cpp:4488-4512 | a fresh session with a clamped size, opened by its first event |
| DiagnosticQueue.DiagnosticState.Drain | bridge/krkr2_runtime/src/krkr2_legacy_engine_api.cpp:4559-4574 | as many whole lines as fit with the final NUL, in order; the rest stays queued and the rest of the buffer as it was |
| DiagnosticQueue.RunKeepsInv | bridge/krkr2_runtime/src/krkr2_legacy_engine_api.cpp:730-756 | over every run: sequence = dropped + drained + queued, queued numbers consecutive up to sequence, size within the limit, drained numbers increasing |
| DiagnosticQueue.RunIsFramed | bridge/krkr2_runtime/src/krkr2_legacy_engine_api.cpp:730-756 | no line of a run contains a newline if no caller's fields do |
| DiagnosticQueue.SessionSplits | bridge/krkr2_runtime/src/krkr2_legacy_engine_api.cpp:4559-4574 | appending all drains of a session and splitting gives exactly the drained events in order |
| DiagnosticQueue.PushOutcome | bridge/krkr2_runtime/src/krkr2_legacy_engine_api.cpp:736-754 | only a full queue drops an event, its oldest, and the new line carries both counters |
| DiagnosticQueue.SessionStarts | bridge/krkr2_runtime/src/krkr2_legacy_engine_api.cpp:4495-4512 | a session starts at zero with a size clamped to 64..10000; an enabled one opens with event number one |
| DiagnosticQueue.FitIsMost | bridge/krkr2_runtime/src/krkr2_legacy_engine_api.cpp:4561-4570 | a drain hands out as many lines as leave room for the final NUL and not one fewer |
| DiagnosticReader.LineReads | bridge/krkr2_runtime/src/krkr2_legacy_engine_api.cpp:741-754 | a consumer reading the keys in their order gets back every text unescaped, every number, and the fields as they were |
| EngineDispatch.Dispatcher.EngineCreate | abi/src/engine_api_dispatch.cpp:905-911 | a new undecided handle in the registry |
| EngineDispatch.Dispatcher.EnsureLegacyLocked | abi/src/engine_api_dispatch.cpp:283-301 | the backend is created once, on first use |
| EngineDispatch.Dispatcher.SelectBackendLocked | abi/src/engine_api_dispatch.cpp:605-723 | no second decision; a runtime that fails to start is destroyed again and leaves the handle undecided; success also needs the options replayed |
| EngineDispatch.Dispatcher.EngineMediaOpen | abi/src/engine_api_dispatch.cpp:1049-1078 | a player registered for its handle if and only if there is a backend and it makes one |
| EngineDispatch.Dispatcher.EngineMediaDestroy | abi/src/engine_api_dispatch.cpp:1080-1100 | a known player is destroyed and forgotten |
| EngineDispatch.Dispatcher.HostMediaOpen | abi/src/engine_api_dispatch.cpp:472-494 | a provider's own player, if and only if there is a backend and it makes one |
| EngineDispatch.Dispatcher.HostMediaDestroy | abi/src/engine_api_dispatch.cpp:496-506 | a provider can close its own players and no others |
| EngineDispatch.Dispatcher.EngineDestroy | abi/src/engine_api_dispatch.cpp:985-1047 | handle and its public players leave the registry, then runtime, players and backend are destroyed, after whatever the provider did meanwhile |
| DispatchOwnership.RunKeepsInv | abi/src/engine_api_dispatch.cpp:836-1100 | over every sequence of calls: public players belong to live handles, and a resource is destroyed once if no longer held and not at all before |
| DispatchOwnership.DestroyedExactlyOnce | abi/src/engine_api_dispatch.cpp:985-1047 | over every call sequence nothing is destroyed twice, and what belonged to a handle that is gone has been destroyed |
| DispatchOwnership.DestroyReleasesAll | abi/src/engine_api_dispatch.cpp:985-1047 | right after a handle is destroyed every runtime, backend and player ever made for it has been destroyed exactly once |
| DispatchOwnership.KnownPlayerIsReachable | abi/src/engine_api_dispatch.cpp:756-776 | the owner of a public player is always a live handle and the player not destroyed |
| DispatchOwnership.RouteInSession | abi/src/engine_api_dispatch.cpp:756-776 | in every state a session can be in, a call on a player reaches the backend if and only if the player is registered, and never one that has been destroyed |
| DispatchOwnership.FailedStartIsRetried | abi/src/engine_api_dispatch.cpp:661-684 | a provider that fails to start leaves its pointer and an undecided handle; a later selection decides as if nothing had happened, and only a started runtime is handed back to a provider |
| DispatchOwnership.LiveHandleIsIntact | abi/src/engine_api_dispatch.cpp:605-685 | nothing a live handle refers to has been destroyed; it has a runtime exactly if it chose a provider |
| DispatchOwnership.BackendIsFinal | abi/src/engine_api_dispatch.cpp:607-607 | a decided backend and its runtime never change while the handle lives |
| DispatchOwnership.CreationOutcome | abi/src/engine_api_dispatch.cpp:905-911 | a new handle has decided nothing and holds nothing |
| DispatchOwnership.OthersUntouched | abi/src/engine_api_dispatch.cpp:836-1100 | no call changes another handle or its players |
| DispatchOwnership.SelectionOutcome | abi/src/engine_api_dispatch.cpp:605-723 | which backend, provider and runtime a selection ends with, for each way it can turn out |
| DispatchOwnership.OpeningOutcome | abi/src/engine_api_dispatch.cpp:1049-1078 | a public player is its handle's if and only if there is a backend, which is made at once if there is none |
| DispatchOwnership.ClosingOutcome | abi/src/engine_api_dispatch.cpp:1080-1100 | closing a public player takes it out of the registry and destroys it, and nothing else |
| DispatchOwnership.HostOutcome | abi/src/engine_api_dispatch.cpp:472-506 | a provider's players are its own, behind the handle's backend |
| ProviderResume.DispatchHandle.EngineTick | abi/src/engine_api_dispatch.cpp:1346-1379 | a deferred resume first, if the audio session allows it; a tick only once it has succeeded |
| ProviderResume.DispatchHandle.EnginePause | abi/src/engine_api_dispatch.cpp:1383-1391 | the deferred resume is dropped even if the provider cannot pause |
| ProviderResume.DispatchHandle.EngineResume | abi/src/engine_api_dispatch.cpp:1393-1411 | resumed now, or put off with success, or refused |
| ProviderResume.PendingIsWaiting | abi/src/engine_api_dispatch.cpp:1346-1411 | in every run the flag is set if and only if a deferred resume has been neither made up for nor paused away |
| ProviderResume.NoTickBeforeResume | abi/src/engine_api_dispatch.cpp:1346-1411 | after a host resume returned success no provider tick happens, absent a pause, until a provider resume has succeeded |
| ProviderResume.TickResumesIffWaiting | abi/src/engine_api_dispatch.cpp:1346-1379 | a tick resumes the provider if and only if a deferred resume waits and can go ahead; it reaches the provider's tick if and only if none is left waiting |
| ProviderResume.PauseCancels | abi/src/engine_api_dispatch.cpp:1383-1391 | after a pause, ticks go straight to the provider until the next host resume |
| ProviderResume.EntryMeaning | abi/src/engine_api_dispatch.cpp:1346-1411 | in every run, what each call answers: the provider's answer if it reached it, success if put off, -3 if the provider cannot |
| TickPacer.ArtemisLogicalFramePacer.Advance | bridge/godot_extension/src/RuntimeTickPacer.h:18-38 | phase, pending time and the step handed on, for every delta |
| TickPacer.ArtemisLogicalFramePacer.Reset | bridge/godot_extension/src/RuntimeTickPacer.h:40-43 | a fresh pacer |
| TickPacer.TimeIsConserved | bridge/godot_extension/src/RuntimeTickPacer.h:18-38 | emitted plus pending time is the accepted host time; less than 1/60 s is pending; the phase is in [0, 1/60 - 1e-9) |
| TickPacer.NeverTooFast | bridge/godot_extension/src/RuntimeTickPacer.h:18-38 | for all deltas N/60 <= T + N*1e-9 |
| TickPacer.TicksAtBoundary | bridge/godot_extension/src/RuntimeTickPacer.h:18-38 | a delta is a tick if and only if it is positive and takes the phase to 1/60 - 1e-9 |
| TickPacer.TickRate | bridge/godot_extension/src/RuntimeTickPacer.h:18-38 | with deltas at most 1/60, T - 1/60 < N/60 <= T + N*1e-9 |
| TickPacer.RuntimeTickMillisecondQuantizer.Quantize | bridge/godot_extension/src/RuntimeTickPacer.h:57-72 | milliseconds put out, remainder kept, saturation at 2^32-1 |
| TickPacer.RuntimeTickMillisecondQuantizer.Reset | bridge/godot_extension/src/RuntimeTickPacer.h:74-74 | no remainder |
| TickPacer.ClampIsIdle | bridge/godot_extension/src/RuntimeTickPacer.h:66-67 | neither end of the clamp is ever reached below saturation |
| TickPacer.QuantizeOutcome | bridge/godot_extension/src/RuntimeTickPacer.h:57-72 | the nearest number of milliseconds, or 4294967295, is put out; the rest is kept, or cut off |
| TickPacer.MillisecondsDoNotDrift | bridge/godot_extension/src/RuntimeTickPacer.h:57-72 | output differs from 1000 times the input, less what saturation cut off, by at most 1/2 forever |
| TickPacer.ShortTicksAreNotCut | bridge/godot_extension/src/RuntimeTickPacer.h:57-72 | with ticks short of 2^32 ms nothing is cut off, so the bound is 1/2 outright |
| TickPacer.RuntimePlayer.Tick | bridge/godot_extension/src/aether_runtime_player.cpp:9667-9681 | what the engine is ticked with, paced or not, if at all |
| TickPacer.RuntimeClockFollowsHost | bridge/godot_extension/src/aether_runtime_player.cpp:9667-9681 | through both stages the runtime's clock is at most 1/2 ms ahead of the host's and less than a frame and 1/2 ms behind |
| UserFsSync.UserFs.FlushUserFs | scripts/web_export_range_fs.js:19-40 | a sync starts, or is queued behind the running one, or throws |
| UserFsSync.UserFs.OnOperation | scripts/web_export_range_fs.js:6-8 | a file operation schedules a sync exactly if one of its paths is a user path; a rename has two |
| UserFsSync.UserFs.OnTimeout | scripts/web_export_range_fs.js:44-47 | the timer fires |
| UserFsSync.UserFs.OnSynced | scripts/web_export_range_fs.js:27-34 | a completed sync, with or without an error, re-arms the timer if a flush was queued |
| UserFsSync.UserFs.AetherKiriSyncUserFs | scripts/web_export_range_fs.js:98-105 | a manual flush clears the timer |
| UserFsSync.UserFs.OnPageHidden | scripts/web_export_range_fs.js:107-116 | page events flush and leave the timer |
| UserFsSync.UserPathIff | scripts/web_export_range_fs.js:6-8 | which paths are user paths: those below /userfs with either slash, and /userfs itself as it is spelled |
| UserFsSync.ChangeOutcome | scripts/web_export_range_fs.js:42-48 | a change arms a new timer in place of the last one and starts nothing |
| UserFsSync.AttemptOutcome | scripts/web_export_range_fs.js:19-40 | a timer, a manual flush and a page event attempt a sync or queue one, and which of them leaves the timer |
| UserFsSync.NoUpdateIsForgotten | scripts/web_export_range_fs.js:19-116 | in every interleaving of changes, timers, flushes and completions at most one sync runs and one timer is armed, a flush is queued only behind a running sync, and a change since the last attempt has a timer or a queued flush |
| UserFsSync.RestMeansStored | scripts/web_export_range_fs.js:19-48 | at rest the last attempt was made after the last change, and unless it failed everything is stored |
| UserFsSync.StoredIffLanded | scripts/web_export_range_fs.js:19-48 | after every run the latest version is in storage if and only if it was there or a sync started at that version has completed without an error |
| UserFsSync.RetriedIff | scripts/web_export_range_fs.js:19-48 | after a completed sync, failed or not, anything is left to happen if and only if a flush was queued or a timer armed; after one that threw, if and only if another sync was running or a page event left the timer |
| UserFsSync.FailureIsNotRetried | scripts/web_export_range_fs.js:27-39 | runs that come to rest after a failure, one with a change not stored and one with nothing lost |
| UserFsSync.NoUpdateIsLost | scripts/web_export_range_fs.js:19-48 | if no sync fails, at rest everything written is in storage |
| UserFsSync.NotStuck | scripts/web_export_range_fs.js:19-48 | short of rest there is a callback to come |
| UserFsSync.ComesToRest | scripts/web_export_range_fs.js:19-48 | once changes and flushes stop, at most four callbacks are left in any order, and then the scheduler is at rest |

## Left out

- Tlg5Decode.DecodeBody: starts behind the file header, whose parsing is not modelled; a block height of zero, which the header parsing fails on, is excluded.
- Tlg5Decode.DecodeBlock: a plane that is too short is reported before any row of its block is decoded, where the source fails in the middle of a row; no image results either way.
- TjsReader.Reader.Value: strings are UTF-16 code units and doubles their eight raw bytes.
- Ns0Pack.LoadPack: BLAKE2s, xxHash and LZ4 are parameters; the if-and-only-if covers uncompressed files, since nothing is known of LZ4 here.
- Ns0KnownBlock.KnownPayload: the key and the hash of the initial vector, which BLAKE2s and xxHash yield, are given.
- Tlg5RoundTrip.PackedInflates: the packer of the round trip uses literals only; matches are the subject of the lemmas on expansion.
- BarrierPlanner.GodotGpuBarrierShadowPlanner.Record: the counters are unbounded, without the wrap-around of 64-bit integers.
- CoffeeAccess.CoffeeExpiration: times are real numbers, so rounding of doubles is not modelled.
- CoffeeLedger.CoffeeLedgerStore.PerformCheck: the Keychain, StoreKit's verification and the snapshots for the user interface are not modelled; a debug build keeps no ledger.
- CoffeeLedger.ExpiredStaysExpired: is about checks; a successful purchase that sets the entitlement at once is an event with a new grant here.
- FpsLimiter.FpsLimitState.Tick: assumes a steady clock; above a million frames a second the interval is zero and the limiter lets everything through.
- InputQueueGate.InputState.SendInput: handle and thread checks, and the set of active pointers, are left out; the outcome of dispatching an event is a parameter of the tick.
- OnscripterQueueRuns.ApplyKeepsInv: clearing the queue when a game closes ends a run.
- OnscripterFrame.PublishedFrame.Publish: a pixel is one value, surface pitch is not modelled, and a conversion that fails is taken to have written nothing.
- OnscripterFrame.ReadFrame: the serial number, mixed from frame serial and view revision, is not returned.
- OnscripterFrame.ClickFollowsScroll: for a device scale of one and no offset; other scales round.
- MenuPaths.AppendChildren: exports pairs of path and item; captions, flags and the JSON text around them are not modelled.
- MenuPaths.ExportedPathsResolve: assumes no item has more than 2^31 children, because indices are 32-bit.
- MenuPaths.ParseMenuPath: `strtol` is modelled in the C locale with a 64-bit `long`.
- MenuPaths.ResolveMenuItemByPath: a negative index, which the cast to 32 bits can produce, is taken to fail; the source asks the script array, whose answer is unknown here.
- DiagnosticQueue.DiagnosticState.Drain: lengths are unbounded, so an overflow of the 32-bit sum of `written` and `needed` is not modelled.
- DiagnosticQueue.DiagnosticState.SetConfig: category mask, frame threshold and clock offset only feed the events' text.
- EngineDispatch.Dispatcher.SelectBackendLocked: how a provider is chosen, and whether replaying options and surface size succeeds, are arguments.
- EngineDispatch.Dispatcher.EngineDestroy: a handle record is a value in the registry, so memory that is freed is not modelled, nor is exclusion between threads; callbacks are those the provider makes before and while it is destroyed.
- DispatchOwnership.DestroyReleasesAll: counts destructions; the order of players before backend is in the method but not in the ledger.
- ProviderResume.DispatchHandle.EngineTick: is the provider route; the legacy route passes the call on. The tick of the texture recycler is left out.
- TickPacer.ArtemisLogicalFramePacer.Advance: over the reals, so rounding of doubles is not modelled; a delta that is not finite is `None`.
- UserFsSync.UserFs.OnOperation: is called for operations that have succeeded; how the file system functions are wrapped is not modelled.
- UserFsSync.StoredIffLanded: a sync is taken to store the version current when it starts.
- Left out altogether: GPU, EGL, JNI, SDL, FFmpeg and script-object calls; provider registration and scoring; option parsing; pass-through routes; startup-log drains, whose last newline can be overwritten by the final NUL; the local picker, build scripts and other engines' adapters.
