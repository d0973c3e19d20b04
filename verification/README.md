# Verified models of Ollama's core algorithms

This project models the parts of Ollama whose correctness is decided by their own code, and proves what each is
for. `dafny verify dfyconfig.toml` verifies all of it.

* **Causal KV cache** (`CacheStore`, `Causal`, `CacheHistory`, `CacheRuns`, `CacheLoss`, `CacheCapacity`,
  `WrapperCache`). The `Causal` class has the source's fields and methods: cells shared by sequences, the range kept
  per sequence, sliding-window eviction, prefix sharing, middle removal with key rotation, and the mask. Each method
  is proved against a function on stores. The functions are proved against a reference that never evicts, shares or
  reuses anything: one unbounded history per sequence. Over every run by a disciplined caller a token attends to
  exactly its window of that history.
* **Tokenizers** (`Vocabulary`, `MergeList`, `SentencePiece`, `BytePair`, `Strings`, `BpeEncode`, `BpeSplit`,
  `BpeRoundTrip`). The merge loops over a linked list in an array, with a heap of candidates that may be stale, are
  proved against the naive algorithms that look at all neighbours before each merge. For byte-pair encoding with any
  vocabulary it is proved exactly when decoding gives the input back, if the pre-tokenizer leaves no gaps, and that
  a gap alone spoils it.
* **Layer layout and load search** (`GreedyFit`, `LayoutSearch`, `LayoutOptimal`, `LoadLayout`, `LoadLimits`,
  `LoadBackoff`, `FreeSpace`, `LoadSearch`, `LoadServer`, `LoadFailure`). Packing is optimal, the capacity search
  keeps the optimum, unforced layouts over-commit no GPU even counting all loaded runners. The load loop is a run of
  a machine that is driven by what createLayout makes and what the runner answers; it ends for all answers, and what
  it sends and which layout goes on is proved for every run.
* **Harmony streaming parser** (`Harmony`, `HarmonyStream`, `HarmonyMessages`, `HarmonyHeader`, `FunctionNames`).
  Every text is some messages and the beginning of another; the parser and the message handler report exactly those,
  however the text is cut into chunks.
* **Modelfile parser and printer** (`Modelfile`, `ModelfileValues`, `ModelfileRoundTrip`, `ModelfileLines`). Exactly
  the command lists that survive printing and parsing; what files with comments, empty lines and any case of
  keywords mean; and which errors other files give.
* **Scheduler** (`Scheduler`): the loaded set in every interleaving of steps under its locks, and that a model can
  always be loaded in one.
* **Sampling** (`Sampling`): top-k, temperature, softmax, top-p, min-p and the choice, over reals.

`Arith`, `Sets` and `Options` hold facts about integers, finite sets and bags, and the type of a missing value.

Conventions: runes and bytes are integers or characters of unbounded sequences; the random number, the hash
function, the exponential, the regular-expression splitter, Unicode classes, the printable-rune table, the runner's
answers and the model's shift function are parameters about which only what is stated is assumed. Sorting and heap
operations of Go's library are methods whose contracts say what the library promises (some least element leaves the
heap; a sorted permutation), so no result depends on how ties fall. GPU lists are taken in any order the sort may
give; only `FirstLayout` needs them sorted.

## What the proofs say about the code

* `split` of the byte-pair tokenizer yields the text from the start of the part, not from the previous match, when a
  match leaves a gap: "a1b2" cut at its digits becomes "a", "1", "a1b", "2" (`GapRepeats`). It keeps the text
  exactly when no expression leaves a gap in any part it is given (`SplitAllKeeps`).
* Byte-pair decoding drops NUL and writes one byte for each rune of a special token, and encoding drops every piece
  the merges leave that is not a token: with a vocabulary that has "b" and not "a", "a" is encoded to nothing
  (`LetterLost`, `ByteLost`). Where no expression leaves a gap, the round trip holds exactly when the text has no
  NUL, no special token in it is outside ASCII and every piece is a token. Where none of that is lost, it holds
  exactly when there is no gap (`BpeRoundTrip.RoundTrip`). With both a loss and a gap nothing is claimed.
* In the SentencePiece loop the size test finds stale candidates only together with the two emptiness tests
  (`SizeAloneIsNotEnough`, in a state the loop reaches, `StaleStateReached`); with them it is exact (`FreshExact`).
* Removing positions from the middle of a sequence with a finite window can lose tokens the window still needs
  (`ShiftLosesWindow`, at the end of a run of ten tokens). Before the call it is known exactly whether it will: the
  window before the new end must start behind the cut, or `CanResume` must accept the new end already
  (`ShiftKeepsWindow`).
* A built-in function name is issued without looking at the names in use, and takes over the name of an earlier user
  function that reduces to it (`MapsBack`, `BuiltInTakesName`).
* The underscore that keeps a function name from starting with a digit is decided on the first byte, so a name can
  still start with a digit outside ASCII (`StartsWithDigit`).
* On darwin, `verifyLayout` empties only its own copy of a layout that exceeds the total memory: `createLayout`
  returns that layout all the same, and only leaves a request for no layers behind (`AboveTotalMemory`,
  `NothingRequested`). While exploring, `Load` even overwrites that request.
* While exploring intermediate layer counts, `Load` overwrites the reply it later reads. When the last trial can be
  allocated but `createLayout` would place fewer layers, and only then, the operation moves on with a layout that
  reply was not about: the one sent before the exploration (`MovesOn`), even if the runner could not allocate it
  (`MovesOnAfterFailure`, a run with the layouts `createLayout` makes for two GPUs and three layers). With a
  requested number of layers there is no exploration (`NoExploration`).
* If a model's metadata cannot be read again when its load is retried after an eviction, its server stays the active
  one and the next load of another model panics. Without that the panic is unreachable (`NeverPanics`,
  `AbandonedPanics`, `PanicReachable`).
* Printing a Modelfile protects neither three quotes before a newline nor a leading quote
  (`ModelfileRoundTrip.RoundTrip`, `NotReadBack`). Names and roles are printed as they are, so a bad one does not
  survive either.

## Model

| member | source | states |
|---|---|---|
| CausalCache.Causal.Init | kvcache/causal.go:130-182 | the window, memory and cache sizes, including the extra cell per sequence when several share the cache and the rounding to the padding; fails exactly where the source panics; the cache is empty and of the size computed, rounded up to the padding |
| CausalCache.Causal.FindLocs | kvcache/causal.go:258-271 | returns the first free cells in order, and fails exactly when fewer are free than the batch has tokens |
| CausalCache.Causal.UpdateSlidingWindow | kvcache/causal.go:273-349 | evicts from every sequence exactly the entries below its lowest position minus the memory, trims every recorded range to the exact span, and leaves a current range that covers every cell the batch may see |
| CausalCache.SlideOne | kvcache/causal.go:324-348 | the deletion loop for one sequence: each cell loses the sequence exactly if it lies below the bound, the new range is the exact span, and the current range covers the window |
| CausalCache.Causal.BuildMask | kvcache/causal.go:362-389 | the range is widened to multiples of the padding, by less than one at either end; its mask marks exactly the cells visible to each token, and no visible cell lies outside it |
| CausalCache.Causal.SetCausal | kvcache/causal.go:402-409 | the mask for the given exceptions; nothing is touched when they are the same as before |
| CausalCache.Causal.StartForward | kvcache/causal.go:198-248 | evicts, then stores the batch in the first free cells and builds the mask; refuses exactly when too few cells are free, with nothing changed but eviction |
| CausalCache.Causal.CopyPrefix | kvcache/causal.go:497-518 | the destination shares exactly the cells of the source below the length, and nothing else |
| CausalCache.Causal.CanResumeAt | kvcache/causal.go:520-547 | true for every position if there is no memory limit, and otherwise exactly if the cells of the sequence reach back over the window before the position and up to it; CanResumeExact says what that means |
| CausalCache.Causal.Shift | kvcache/causal.go:549-613 | over all slices, exactly the keys of the sequence from the position on turn by the offset; on failure only some of those and no others |
| CausalCache.ShiftSlices | kvcache/causal.go:556-610 | the slices of at most maxBatch cells together turn each key once; succeeds if and only if the shift function takes every slice with a key to turn |
| CausalCache.Causal.Remove | kvcache/causal.go:615-666 | succeeds if and only if no other sequence shares a later position, and, unless it removes a tail or all there is, the model can shift and does not fail on any slice with a later key; then the range is cut out, later positions moved and their keys turned; failure leaves a store CutFailed describes |
| CacheHistory.SlideTracks | kvcache/causal.go:273-349 | eviction is invisible: what is left is still a suffix of the history with the right data and rotations, and whole from any point within the memory |
| CacheHistory.PlaceAllTracks | kvcache/causal.go:211-231 | storing a batch extends the tracked histories by exactly the batch, cells reused or not |
| CacheHistory.CopyTracks | kvcache/causal.go:497-518 | the copy tracks the prefix of the source's history |
| CacheHistory.CutTracks | kvcache/causal.go:615-666 | after a removal the cells track the history without the range: every key was rotated by exactly the amount its position moved |
| CacheHistory.CutSame | kvcache/causal.go:615-666 | a removal changes no entry, position or rotation of any other sequence |
| CacheHistory.CutFailedSame | kvcache/causal.go:629-649 | neither does a removal that fails on a shared cell or in the middle of rotating |
| CacheHistory.CutAllTracks | kvcache/causal.go:615-666 | removing a whole sequence never fails and leaves nothing of it |
| CacheHistory.CanResumeExact | kvcache/causal.go:520-547 | CanResume holds if and only if the sequence is present, reaches the position, and the whole window before it is in the cache |
| CacheRuns.StepAgrees | kvcache/causal.go:198-248 | every operation of a disciplined caller keeps the agreement between the cache and the unbounded histories |
| CacheRuns.ForwardAttends | kvcache/causal.go:362-389 | after any accepted batch the cells visible to a token are exactly the entries of its history in its window and chunk up to it, each once, with the data last stored and the right rotation |
| CacheRuns.RunAgrees | kvcache/causal.go:198-666 | agreement holds in every state of every disciplined run |
| CacheRuns.RunAttends | kvcache/causal.go:198-389 | in every disciplined run every token of every accepted batch attends to exactly its window of the never-evicting history |
| CacheRuns.MaskAttends | kvcache/causal.go:362-389 | the same read off the mask array the class builds, row by row |
| CacheRuns.ShiftFailedAgrees | kvcache/causal.go:615-666 | after a failed removal, removing the whole sequence succeeds and restores agreement for all sequences |
| CacheRuns.ShiftKeepsWindow | kvcache/causal.go:615-666 | before the call: a middle removal under a finite window leaves the sequence whole if and only if the new window starts behind the cut or CanResume already accepts the new end |
| CacheRuns.ShiftedWhole | kvcache/causal.go:520-547 | asked after the call, CanResume at the new end tells whether the window is whole |
| CacheLoss.Rolls | kvcache/causal.go:198-248 | storing tokens one at a time in a cache of the size Init gives for a window of two is a disciplined run; each token takes the location of the one that just left the window |
| CacheLoss.ShiftLosesWindow | kvcache/causal.go:615-666 | such a run of ten tokens, after which removing positions 3 to 8 meets no shared cell and leaves a window with a missing token |
| CacheCapacity.SlidHeldSize | kvcache/causal.go:273-349 | after eviction a sequence holds at most the memory size in cells |
| CacheCapacity.NeverFull | kvcache/causal.go:130-182 | with the size Init gives, batches of at most maxBatch and at most that many sequences, enough cells are free |
| CacheCapacity.RunNeverRefuses | kvcache/causal.go:258-271 | no run of such events ever has a batch refused |
| WrapperCaches.WrapperCache.StartForward | kvcache/wrapper.go:44-60 | all caches take the batch, or the first that refuses makes those before it undo it and those after it never see it |
| WrapperCaches.WrapperCache.CanResumeAt | kvcache/wrapper.go:90-98 | true exactly if every wrapped cache can resume |
| WrapperCaches.UnwindOne | kvcache/wrapper.go:49-54 | no removal of the unwinding fails |
| WrapperCaches.UnwindRestores | kvcache/wrapper.go:44-60 | unwinding appended positions leaves for every sequence exactly the entries there were after eviction |
| WrapperCaches.UnwindAgrees | kvcache/wrapper.go:44-60 | after unwinding the cache agrees with the histories before the batch |
| WrapperCaches.EvictedUnreachable | kvcache/wrapper.go:44-60 | no token at or after the end of a history could have attended to what eviction took |
| WrapperCaches.RefusalInvisible | kvcache/wrapper.go:44-60 | after a refused batch every wrapped cache agrees with the old histories, whatever its part was |
| WrapperCaches.WrapperCache.Remove | kvcache/wrapper.go:100-110 | succeeds if and only if every wrapped cache has no reason to fail; otherwise those before the first that fails have removed the positions and those after it are as they were; removing up to the end never fails |
| WrapperCaches.FailureCleared | kvcache/wrapper.go:100-110 | after a failed removal, whatever its part was, every wrapped cache can remove the whole sequence, and then all agree with the same histories without it |
| Vocabularies.BuildTable | model/vocabulary.go:68-81 | the table has exactly the listed values, each with its last index |
| Vocabularies.RankExact | model/vocabulary.go:99-112 | two pieces have a rank if and only if they are in the list of merges with a space between them, and it is their last place there |
| MergeList.AbsorbLinked | model/sentencepiece.go:142-147 | joining two neighbours in the array keeps it the linked list of the live pieces, the second one gone |
| MergeList.DropPieces | model/bytepairencoding.go:210-216 | the live pieces after a join are the old ones with that pair merged |
| MergeList.StillNeighbours | model/sentencepiece.go:135-140 | two entries that were neighbours and are both live still are, and the right one can only have grown |
| SentencePieces.Best | model/sentencepiece.go:202-204 | the leftmost of the highest-scoring neighbours whose join is in the vocabulary, or none |
| SentencePieces.NaiveEnds | model/sentencepiece.go:134-156 | the naive algorithm keeps the text and ends with no pair to join |
| SentencePieces.FreshExact | model/sentencepiece.go:135-140 | the staleness test accepts a candidate if and only if it is of two pieces that are neighbours now |
| SentencePieces.ByteLenIsUtf8 | model/sentencepiece.go:138-140 | the size compared is that of the UTF-8 text |
| SentencePieces.SizeAloneIsNotEnough | model/sentencepiece.go:138-140 | a stale candidate that the size test alone would accept |
| SentencePieces.StaleStateReached | model/sentencepiece.go:134-156 | a vocabulary with which the loop goes through that state |
| SentencePieces.CurrentBest | model/sentencepiece.go:202-204 | the first current candidate of the queue is the best pair of all |
| SentencePieces.MergeLoop | model/sentencepiece.go:97-156 | the loop returns exactly the pieces of the naive algorithm |
| BytePairs.FreshExact | model/bytepairencoding.go:200-204 | the staleness test accepts a pair if and only if it is of two pieces that are neighbours now |
| BytePairs.RunKeeps | model/bytepairencoding.go:158-225 | merges never change the text and make only tokens |
| BytePairs.MergeLoop | model/bytepairencoding.go:158-225 | every merge is of a pair of lowest rank among current neighbours whose join is a token, and the loop ends, with no such pair left |
| BpeEncode.SplitSpecial | model/bytepairencoding.go:101-127 | the loop that inserts into the list it walks ends with each text fragment cut around one special token |
| BpeEncode.SplitSpecials | model/bytepairencoding.go:101-127 | the same for all special tokens in turn |
| BpeEncode.CutSpecialsExact | model/bytepairencoding.go:101-127 | splitting keeps the text and leaves no special token inside a text fragment |
| BpeEncode.CutSpecialsKinds | model/bytepairencoding.go:101-127 | only special tokens carry ids, each its own |
| BpeEncode.Utf8Exact | model/bytepairencoding.go:101-127 | the bytes of a rune in a special token, by section 3 of RFC 3629 |
| BpeEncode.WriteRunes | model/bytepairencoding.go:135-149 | the loop that writes a part in printable runes |
| BpeEncode.RuneExact | model/bytepairencoding.go:137-147 | for every byte: the printable ones of Latin-1 stand for themselves and the others, in order, for the runes from 256 on, which gives the ranges and constants of the switch |
| BpeEncode.RuneRoundTrip | model/bytepairencoding.go:137-147 | the switches of Encode and Decode undo each other on every byte but NUL, which is lost |
| BpeEncode.DecodedRunes | model/bytepairencoding.go:246-272 | decoding the runes of a byte string gives the string without its NULs |
| BpeEncode.DecodedUtf8 | model/bytepairencoding.go:246-272 | decoding a special token gives its UTF-8 text back if and only if it is ASCII |
| BpeEncode.Decode | model/bytepairencoding.go:246-272 | the loop writes the bytes of all ids in order |
| BpeRoundTrip.EncodePart | model/bytepairencoding.go:135-233 | for every vocabulary, the ids are those of the tokens among the pieces: the part itself if it is a token, otherwise what a run of lowest-rank merges with none left to do makes of it; they decode to the part if and only if it has no NUL and every piece is a token, and otherwise to something shorter |
| BpeRoundTrip.CutsShown | model/bytepairencoding.go:158-233 | the same for any way ties between merges may fall; every piece is a token if the vocabulary spells every byte |
| BpeRoundTrip.ByteLost | model/bytepairencoding.go:227-233 | for every vocabulary, a byte that is no token is dropped when it stands alone |
| BpeRoundTrip.LetterLost | model/bytepairencoding.go:227-233 | a vocabulary with which "a" is encoded to nothing |
| BpeRoundTrip.WordEncoded | model/bytepairencoding.go:99-156 | a string that is one part and a token is encoded to that token alone |
| BpeRoundTrip.SpaceEncoded | model/bytepairencoding.go:99-156 | a space that is a part of its own is encoded to the token of the rune 0x120 |
| BpeRoundTrip.RoundTrip | model/bytepairencoding.go:99-272 | for every vocabulary, pre-tokenizer and way the parts may be cut: without gaps, decoding gives the string back if and only if no text has a NUL, no special token in it is outside ASCII and every piece is a token; when none of that is lost, if and only if there is no gap |
| BpeRoundTrip.Encode | model/bytepairencoding.go:99-244 | the ids of the special tokens and, in between, of the tokens every part is cut into, to which RoundTrip applies; without gaps the string comes back if and only if nothing is lost to NULs, special tokens and unknown pieces, of which there are none if the vocabulary spells every byte |
| BpeRoundTrip.NulFreeKept | model/bytepairencoding.go:99-127 | in a string without NUL, with ASCII special tokens, nothing is lost to NULs or special tokens |
| BpeSplit.SplitPart | model/bytepairencoding.go:53-74 | the loop over the matches of one expression in one part |
| BpeSplit.SplitKeepsText | model/bytepairencoding.go:53-74 | what it yields concatenates to the part if and only if no match after the first leaves a gap |
| BpeSplit.GapRepeats | model/bytepairencoding.go:55-59 | an input in which a gap repeats text |
| BpeSplit.Split | model/bytepairencoding.go:48-79 | each expression cuts every part the one before it left |
| BpeSplit.SplitAllKeeps | model/bytepairencoding.go:48-79 | for any list of expressions the parts concatenate to the text if and only if no expression leaves a gap in any part it is given; they are never shorter |
| GreedyFits.SumOf | ml/device.go:94-102 | the number of layers is the length of the flattened layout |
| GreedyFits.GreedyOptimal | llm/server.go:1128-1156 | no assignment of one block per GPU in order, within the same capacities and the request, places more layers |
| GreedyFits.CountMonotone | llm/server.go:1128-1156 | more capacity never places fewer layers |
| GreedyFits.GreedyFit | llm/server.go:1128-1156 | the layout is the greedy blocks of consecutive layers, as many layers as that count |
| LayoutSearch.GroupBy | ml/device.go:371-411 | the groups are the devices of each key in order, the keys in order of first appearance |
| LayoutSearch.SearchFactor | llm/server.go:1096-1118 | the binary search keeps the count of the largest factor and ends within 1e-6 of the smallest factor that reaches it |
| LayoutSearch.FindBestFit | llm/server.go:1095-1125 | one contiguous suffix of the layers, each once in ascending order, no more than requested, every block within its GPU, no GPU twice; each group takes the most it can at a factor within 1e-6 of the smallest that does |
| LayoutOptimal.FitIsBest | llm/server.go:1092-1125 | no assignment of one block per GPU, faster GPUs behind slower ones, within the capacities and the request, places more layers |
| LayoutOptimal.FitIsMost | llm/server.go:1095-1125 | on equally fast GPUs the number placed is the largest, up to the request, of last layers that can be cut in order into one fitting block per GPU |
| LayoutOptimal.RoundMeets | llm/server.go:1066-1074 | with a request, a round on equally fast GPUs meets it if and only if some first GPUs can take it, only all of them forced, and otherwise places the most that all can take |
| LayoutOptimal.PlacedOnRequest | llm/server.go:1053-1093 | with a request: all layers if it asks for them and some first GPUs can take them; otherwise what it asks for of all but the output layer if some can take that; otherwise the most of those that all GPUs can take |
| LayoutOptimal.PlacedSpread | llm/server.go:1074-1093 | when spreading: all layers if they are wanted and all GPUs together can take them, otherwise the most, up to the request, of all but the output layer |
| LayoutSearch.AssignRound | llm/server.go:1062-1082 | the number of layers placed, which RoundMeans and RoundMeets explain; no more GPUs are used than the first ones, from those in use on, that take everything |
| LayoutSearch.RoundMeans | llm/server.go:1066-1074 | without a request a round places everything if and only if some first GPUs take it, and otherwise as much as all GPUs take |
| LayoutSearch.AssignLayers | llm/server.go:1053-1093 | the output layer is offloaded only with all layers; the number of layers placed, which PlacedMeans, PlacedOnRequest and PlacedSpread explain; no more GPUs than needed |
| LayoutSearch.PlacedMeans | llm/server.go:1052-1093 | without a request: all layers if and only if some first GPUs take them; otherwise all but the output layer if some take those; otherwise as many of those as all GPUs take |
| LoadLayout.SumLayers | llm/server.go:932-941 | the size of each layer over all devices |
| LoadLayout.LayerSizesConserve | llm/server.go:932-941 | the layer sizes add up to all per-layer memory reported, wherever it is |
| LoadLayout.ReserveOne | llm/server.go:951-981 | a GPU keeps its free memory less the backoff, in tenths of it, the fixed minimum, the overhead and the graph of the first report about it, or nothing if that is not positive; an unreported one nothing |
| LoadLayout.LastUsedExact | llm/server.go:945-956 | the GPU to start from is the last with a graph on it |
| LoadLayout.Reserve | llm/server.go:945-982 | the same for all GPUs of a library |
| LoadLayout.BuildLayout | llm/server.go:928-988 | an unforced layout fits besides everything kept back on its GPUs, and even a forced one uses no GPU with nothing left; no GPU is listed twice; it is the layout of the first library, in order of appearance, whose GPUs hold the most layers, and uses as few of them as hold the whole model |
| LoadBackoff.BackoffLeavesLess | llm/server.go:959-964 | one more tenth leaves a tenth of the free memory less, as long as anything is left; ten tenths leave nothing |
| LoadBackoff.BackoffPlacesNoMore | llm/server.go:943-986 | without a request one more tenth never makes a library hold more layers |
| LoadLayout.LibraryMeans | llm/server.go:943-986 | how many layers a library holds, without a request: everything if its first GPUs take it, otherwise as many layers but the output layer as they take |
| LoadLayout.TakesAllIfPossible | llm/server.go:943-986 | without a request all layers are placed if and only if the GPUs of some library take them |
| LoadLimits.Totals | llm/server.go:990-1014 | VRAM is the graphs plus the placed layers, CPU the rest |
| LoadLimits.EachLayerOnce | llm/server.go:1003-1014 | every layer is in exactly one of the two totals |
| LoadLimits.TotalsConserve | llm/server.go:990-1014 | for a layout as made here, VRAM is the offloaded suffix, and both totals are all memory reported |
| LoadLimits.VerifyLayout | llm/server.go:990-1050 | refuses exactly in the three cases, in their order; on darwin a layout above the total memory stops later offloading |
| LoadLimits.CreateLayout | llm/server.go:913-926 | what BuildLayout promises, the refusal of that very layout, and exactly when no layers are requested from now on |
| LoadLimits.NothingRequested | llm/server.go:1037-1043 | layouts made for a request of no layers are empty |
| LoadLimits.AboveTotalMemory | llm/server.go:1037-1043 | a darwin machine for which createLayout returns, without refusing it, a layout above the total memory |
| LoadLimits.FirstLayout | llm/server.go:722-735 | with nothing known, the whole model goes to the GPU with the most free memory, a discrete one if there is any |
| FreeSpace.ChargeAll | server/sched.go:546-569 | the predicted use of each GPU over all loaded runners |
| FreeSpace.VramByGpu | llm/server.go:1866-1878 | what a runner uses on a device: the weights, the cache and the graph of the first report about it, or nothing |
| FreeSpace.UseConserved | ml/device.go:174-176 | over the devices a runner reports, these are all the memory it reports for them |
| FreeSpace.UpdateFreeSpace | server/sched.go:546-587 | free memory becomes the smaller of what is reported and what prediction leaves |
| FreeSpace.FreeIsFree | server/sched.go:571-586 | what is left free is never claimed by a runner |
| FreeSpace.FreeExact | server/sched.go:571-586 | the free memory of each of several different GPUs is what is reported if no runner is live, and otherwise the smaller of that and what the predicted use of all runners leaves of the total |
| FreeSpace.WithinTotal | server/sched.go:546-587 | for every GPU given layers in an unforced layout: layers, backoff in tenths, 512 or 457 MiB, overhead and graph fit in its free memory, and with the predicted use of all runners in its total memory |
| LoadServer.UniqueDeviceIds | llm/server.go:890-905 | each device of the layout once |
| LoadServer.OllamaServer.ProbeOne | llm/server.go:806-842 | one trial of that many layers is sent, and its layout is kept exactly if the runner could allocate it and createLayout places as many layers by itself |
| LoadServer.OllamaServer.Explore | llm/server.go:805-845 | the trials sent go from the top down, one layer at a time, to the first that is confirmed or, if none is, to the number of layers at hand; what is left is the last trial's answer |
| LoadServer.OllamaServer.Settle | llm/server.go:779-869 | after an answer: a layout not tried before with no more layers, or the operation is done with the layout at hand or the one exploration found, or an error; backs off at most eleven times |
| LoadServer.OllamaServer.Search | llm/server.go:760-871 | ends for every sequence of answers and every hash function, by operations left, hashes not yet tried and backoff steps left, in a run of the machine |
| LoadServer.OllamaServer.Load | llm/server.go:735-888 | a run of the machine from its start to its end, with createLayout's layouts and the runner's answers in order; a load that fails closes the model |
| LoadSearch.StepKeeps | llm/server.go:760-888 | every step keeps the log in order and the layout at hand the one sent in this operation before any trials |
| LoadSearch.MovesOn | llm/server.go:827-850 | in every run, an operation moves on by one, after a success, with a layout sent in it: the one last answered, unless that was the last trial of an exploration and createLayout would place fewer layers, and only then the one sent before the exploration |
| LoadSearch.NoExploration | llm/server.go:805-806 | with a requested number of layers no trial is ever sent |
| LoadSearch.GivesUpLast | llm/server.go:850-868 | a load gives up only without a request, and after layouts were made with every backoff from none to eleven tenths |
| LoadSearch.RunFounded | llm/server.go:745-888 | every layout sent was made of memory information known by then and not refused, and a refusal is of such a layout |
| LoadSearch.LoadedMeans | llm/server.go:872-888 | a load that ends well has committed its layout, after an allocation and a fit that succeeded |
| LoadSearch.ReachedBySuccess | llm/server.go:760-888 | each operation was reached through a success of the one before it |
| LoadFailure.MovesOnAfterFailure | llm/server.go:805-850 | two GPUs and three layers: whichever layouts createLayout makes, and for any hash function that tells the first two apart, a run in which allocation starts with a layout the runner could not fit and never could |
| LoadFailure.RunAfterFailure | llm/server.go:805-850 | createLayout does make such layouts |
| Harmony.OverlapOf | harmony/harmonyparser.go:244-252 | the longest end of the text that starts the delimiter |
| Harmony.DrainInTwo | harmony/harmonyparser.go:113-184 | reading a text in two parts gives the same state and the same events, adjacent content merged, as reading it whole |
| HarmonyMessages.MessageParsed | harmony/harmonyparser.go:113-184 | a message, each of whose tags first occurs where it is written, is reported as its start, its header, its content if there is any, and its end; then the parser is where it was before |
| HarmonyMessages.TranscriptParsed | harmony/harmonyparser.go:113-184 | any messages and the beginning of another are reported as just those, the content of the last up to what may begin its end tag |
| HarmonyMessages.GivenOutExact | harmony/harmonyparser.go:160-182 | content is held back exactly from the first place on from which it may begin the end tag, and nothing if and only if there is no such place |
| HarmonyMessages.EveryText | harmony/harmonyparser.go:113-184 | every text is some messages and the beginning of another |
| HarmonyStream.HarmonyParser.Eat | harmony/harmonyparser.go:113-184 | a found tag closes its state and is removed; otherwise only what may begin the end tag is held back |
| HarmonyStream.HarmonyParser.AddContent | harmony/harmonyparser.go:93-110 | ends for non-empty tags, with the outcome of reading all the text held and added |
| HarmonyStream.ChunksDoNotMatter | harmony/harmonyparser.go:93-184 | for any list of chunks the outcome is that of their concatenation |
| HarmonyStream.SameTextSameEvents | harmony/harmonyparser.go:93-184 | two ways of cutting a text give the same state and merged events |
| HarmonyMessages.FeedChunks | harmony/harmonyparser.go:93-110 | calls of AddContent, one after another, are what the results on chunks are about |
| HarmonyMessages.ChunksParsed | harmony/harmonyparser.go:93-184 | however the text of some messages and the beginning of another is cut, the merged events are those of these messages |
| HarmonyMessages.EveryChunking | harmony/harmonyparser.go:93-184 | and every text cut in any way can be read so |
| HarmonyHeaders.ParseHeader | harmony/harmonyparser.go:186-242 | the words of the header without its channel, after the constraint was set apart: the role or a recipient in its place, and possibly the recipient |
| HarmonyHeaders.HeaderRead | harmony/harmonyparser.go:186-242 | the channel is the word behind its tag, and the words are those before it and behind it |
| HarmonyHeaders.RecipientAnywhere | harmony/harmonyparser.go:186-242 | the recipient may stand before or behind the channel, or in place of the role, and a constraint may follow with or without a space: the header is the same |
| HarmonyHeaders.PlacesRead | harmony/harmonyparser.go:300-320 | where the content behind the headers of analysis, commentary and final, with and without a recipient, goes |
| HarmonyStream.HandledIsRouted | harmony/harmonyparser.go:289-334 | the answer, the thinking and the tool call are exactly the content, in order, that comes while the last header or end of message sends it there |
| HarmonyMessages.ConversationHandled | harmony/harmonyparser.go:289-334 | however a text is cut, the answer, the thinking and the tool call are the contents of the messages whose headers send them there, in order, with what is certain of the last; the tool is the recipient of the last call |
| HarmonyStream.HandlerChunksDoNotMatter | harmony/harmonyparser.go:289-334 | total content, thinking and tool text depend only on the whole text |
| FunctionNames.CandidatesDiffer | harmony/harmonyparser.go:527-544 | the numbered candidates for a name are pairwise different |
| FunctionNames.CandidateNames | harmony/harmonyparser.go:527-544 | the name itself, then with an underscore and the numbers from two on, in decimal without zeros in front |
| FunctionNames.FunctionNameMap.DeriveName | harmony/harmonyparser.go:527-544 | ends within one more than the names in use, with the first candidate not in use |
| FunctionNames.FunctionNameMap.ConvertAndAdd | harmony/harmonyparser.go:464-473 | the four built-in names stay; both maps gain exactly this name |
| FunctionNames.OriginalExact | harmony/harmonyparser.go:475-485 | over every history, a name turns back into its user exactly as MapsBack says, and a name never issued stays as it is |
| FunctionNames.Classes.StartsWithDigit | harmony/harmonyparser.go:518-522 | a converted name starts with a digit if and only if what is left of the given one starts with a digit outside ASCII |
| FunctionNames.Classes.MapsInPlace | harmony/harmonyparser.go:498-511 | position by position: spaces, dashes and dots become underscores, letters, digits, underscores and dollar signs stay |
| FunctionNames.Classes.OthersDropped | harmony/harmonyparser.go:509-511 | any other character is as if it were not there |
| FunctionNames.Classes.ValidKept | harmony/harmonyparser.go:512-524 | a valid name is kept, one that starts with a digit gains an underscore, and an empty one is called unnamed |
| FunctionNames.IssuedDistinct | harmony/harmonyparser.go:527-544 | over every history, a name issued to a function that is not built in differs from all earlier ones |
| FunctionNames.MapsBack | harmony/harmonyparser.go:464-485 | after all later additions a name maps back to its user if and only if no built-in function of that name was added for another |
| FunctionNames.MapsBackAlways | harmony/harmonyparser.go:464-485 | without built-in names every issued name maps back for ever |
| FunctionNames.BuiltInTakesName | harmony/harmonyparser.go:466-469 | a history in which a built-in function takes an issued name |
| Modelfiles.PrintFile | parser/parser.go:34-41 | the commands printed one per line |
| Modelfiles.ParseFile | parser/parser.go:377-506 | the rune loop, the flush and the check for a FROM compute the state machine's result, errors included |
| ModelfileValues.FirstCommit | parser/parser.go:449-466 | if parsing succeeds, the value in hand is committed next with the name and role read before it, and stays |
| ModelfileValues.GoodReads | parser/parser.go:567-598 | a good value, printed by quote, is read back at the newline after it and not before |
| ModelfileValues.OnlyGoodRead | parser/parser.go:567-598 | whatever follows it, a value that is read back as it was is good |
| ModelfileRoundTrip.RoundTripFrom | parser/parser.go:377-598 | from between commands, a list is read back if and only if each of its commands is good |
| ModelfileRoundTrip.RoundTrip | parser/parser.go:34-41 | for every command list whatsoever, printing and parsing returns it if and only if it has a FROM and each command is good |
| ModelfileRoundTrip.PlainIsGood | parser/parser.go:331-346 | printable ASCII and newlines without three quotes in a row or an unprotected leading quote are good, for FROM on one line without spaces at the edges |
| ModelfileRoundTrip.NotReadBack | parser/parser.go:567-577 | two commands that do not survive |
| ModelfileLines.FillerRun | parser/parser.go:553-559 | from between commands, a line of blanks, possibly with a comment, changes nothing but the line number |
| ModelfileLines.StatementRun | parser/parser.go:377-506 | from between commands, a line with a good command, its keyword in any case and blanks around its value, adds that command and leads back to between commands |
| ModelfileLines.FileParsed | parser/parser.go:377-506 | any such lines in any order, with or without a last line end after a comment, are parsed to their commands if there is a FROM among them, and otherwise found to have none |
| ModelfileLines.LinesCounted | parser/parser.go:395-397 | the line number counts the line ends passed |
| ModelfileLines.ErrorLine | parser/parser.go:399-410 | an error is at the line of the rune that caused it |
| ModelfileLines.KnownCommand | parser/parser.go:413-438 | each of the ten keywords, in any case, leads to its value, role or name |
| ModelfileLines.UnknownCommand | parser/parser.go:620-627 | any other word is an invalid command |
| ModelfileLines.BadCommandRune | parser/parser.go:517-525 | so is a word with anything but letters in it |
| ModelfileLines.KnownRole | parser/parser.go:616-618 | each of the three roles is accepted |
| ModelfileLines.UnknownRole | parser/parser.go:440-447 | any other role is reported as such |
| ModelfileLines.BadWordRune | parser/parser.go:535-552 | a wrong rune in a role or in the name of a parameter is an unexpected end |
| ModelfileLines.EndsInWord | parser/parser.go:475-497 | so is the end of the file in a keyword or in the word after it |
| ModelfileLines.OpenQuote | parser/parser.go:579-598 | so is the end of the file in a quote that is never closed |
| ModelfileLines.PrintsKeyword | parser/parser.go:331-346 | keywords are printed in capitals, and a parameter behind its own |
| Scheduler.StepKeeps | server/sched.go:130-363 | every step of any goroutine keeps the limit and what the pending loop has found out |
| Scheduler.NeverTooMany | server/sched.go:505-518 | in every interleaving the loaded set stays within the limit, is empty before the limit is set, and publishing a runner never finds one under its path |
| Scheduler.LimitStays | server/sched.go:184-195 | the limit never changes once set |
| Scheduler.CanLoad | server/sched.go:130-262 | where there is room a model that is not loaded can be loaded, with nothing else changed but the limit, if there was none: three for each GPU |
| Scheduler.RoomDemanded | server/sched.go:392-470 | a load is required to fit in full if and only if other runners are loaded; then it makes room for itself when it does not fit, and otherwise it is given up |
| Scheduler.CanReplace | server/sched.go:130-363 | at the limit it can be loaded in place of any runner that expires, and of no other |
| Scheduler.CanUse | server/sched.go:148-160 | a model that is loaded can be used at once, and nothing changes |
| Scheduler.ExpiredExact | server/sched.go:309-358 | an expired runner goes if and only if it is the one loaded under its path |
| Scheduler.NeverPanics | server/sched.go:412-437 | unless metadata cannot be read on a retried load, no other model is attempted in its place |
| Scheduler.AbandonedPanics | server/sched.go:197-204 | once that happens, the next load of any other model panics |
| Scheduler.PanicReachable | server/sched.go:197-204 | a run from the start in which it does |
| Sampling.TopK | sample/transforms.go:61-96 | a descending list of the k largest of the input multiset, by the heap as by sorting |
| Sampling.FewAbove | sample/transforms.go:61-96 | no more tokens are above the i-th of the list than come before it |
| Sampling.Temperature | sample/transforms.go:29-35 | every value is divided by the temperature, which is at least 1e-7 |
| Sampling.Softmax | sample/transforms.go:38-58 | the values become positive, in proportion to the exponential, and sum to one |
| Sampling.SoftmaxDescending | sample/transforms.go:38-58 | softmax keeps the order |
| Sampling.TopP | sample/transforms.go:100-115 | the shortest prefix with more than p, or everything |
| Sampling.MinP | sample/transforms.go:119-130 | the prefix before the first value below p times the largest |
| Sampling.MinPrefixExact | sample/transforms.go:119-130 | of sorted probabilities exactly those of at least p times the largest are kept |
| Sampling.Greedy | sample/samplers.go:73-82 | the first of the largest |
| Sampling.NewSampler | sample/samplers.go:130-165 | parameters outside their ranges go to the nearest end, those inside stay |
| Sampling.BinarySearch | sample/samplers.go:116-121 | the first running sum not below the target |
| Sampling.FallsOnce | sample/samplers.go:108-121 | one random number falls on one token, so each token has its own share of the numbers |
| Sampling.ShareExact | sample/samplers.go:108-121 | the numbers that fall on a token are an interval as long as its probability among those kept |
| Sampling.ChosenByShare | sample/samplers.go:86-127 | of the tokens kept, a token is chosen if and only if the random number is in its interval |
| Sampling.Sample | sample/samplers.go:86-127 | the first of the largest at temperature zero; otherwise the running sum before the chosen token is below the random number times the sum of all kept, and the one with it is not, among the min-p part of the top-p prefix of the softmax of the top k |
| Sampling.ChoiceMeans | sample/samplers.go:86-127 | fewer than k tokens are larger than the chosen one, those before it have at most p together, and its probability is at least min-p of the largest |

## Left out

- Tensor contents, views and backend calls of Put and Get: a cell carries a data tag and a rotation instead, and the
  model's shift function adds the offset to the rotation or fails on a slice.
- Reserve passes of StartForward, the encoder cache, and SetConfig's mask types and permutations.
- Int32 overflow of positions: histories and positions stay below the maximum, as batches of appended positions do.
- SentencePiece.Encode around the merge loop: splitting out special tokens works as in byte-pair encoding and is
  modelled there; the byte fallback for unknown pieces, added special tokens and Decode's byte tokens are not.
- Regular expressions of the pre-tokenizer: where they match is an oracle, by byte offsets, of matches in order.
  Invalid UTF-8, which the source replaces before matching, and ids of special tokens added at the ends.
- float32 rounding, NaN and infinities: capacities, scores, logits and probabilities are reals, and the backoff is
  exact tenths. With rounding the backoff ends one step earlier, and the search above factor 16 may stop making
  progress, which the proof over reals does not show.
- uint64 overflow of memory sizes, and runner replies whose devices list different numbers of layers, on which the
  source panics.
- llamaServer's own Load, subprocess launch, HTTP, health polling and completion streaming.
- AddImplicitStart and prefilled messages, which only put text before the first chunk; JSON tool arguments are not
  modelled. The words of a header are taken apart by a space predicate that is a parameter.
- Byte-order marks and UTF-16 input of ParseFile; CreateRequest, file digests and path expansion.
- Scheduler liveness, reference counts, timers, VRAM recovery and shutdown: an expired event for any runner may
  arrive at any time, which covers every order of requests, timers and evictions for the properties proved.
- The order in which findRunnerToUnload prefers runners.
- Sampling.TopK: works on a list; the in-place sort of the whole slice is a sorted copy. Grammars in
  Sampler.Sample, whose rejected tokens get an infinite logit, are not modelled.
- convert, openai, middleware, discover, create, pull, push, the command line and its configuration: field mapping,
  file and network work or user interface.
