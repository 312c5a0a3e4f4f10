# Verified models of the Mux runtime

This project models the parts of the Mux language runtime whose correctness is
hardest to see from the code, and proves what they are for. Each module follows
one component. Code that updates state in place is modelled by classes and
methods with loops, proved against functions on plain values; code that only
computes is modelled by functions. The main results are then lemmas about those
functions, for every input, every run or every interleaving.

`dafny verify dfyconfig.toml` checks the whole project.

## What is modelled

**Ordered maps** (`OrderedMap.dfy`, `Pairs.dfy`). One slab of slots carries a
doubly linked insertion order, a free list through the holes and a hash table of
slot numbers. `Valid()` says that the three represent one duplicate-free
sequence of pairs. Every operation is proved to act on that sequence as the
plain operation does. Over whole runs a lookup answers with the last write that
stands, iteration follows creation order, and the slab is as long as the most
entries held since the last clear.

**Values** (`Values.dfy`, `Orderings.dfy`, `Canonical.dfy`, `ValueContract.dfy`,
`ValueOrder.dfy`, `BuiltValues.dfy`, `ObjectKeys.dfy`). Maps and sets nest inside
values and are themselves keys. Equality looks keys up by hash, the hash is a wrapping sum, and the order sorts
entries before comparing them. All three are shown to factor through one
canonical form, by induction over nested values, so equality is an equivalence,
the order is total and ties exactly the equal values, and equal values hash
alike. Which of two values comes first is stated once more in terms of their
parts alone. The laws need maps without two equal keys; whatever run of the map's
operations builds a map by the runtime's own equality, it is such a map. Objects
with class callbacks are modelled beside them. For a class that defines an
equality and no order the tie law is false; the exact condition under which it
holds is proved.

**JSON** (`Json*.dfy`, `MergePatch*.dfy`). Pointers (RFC 6901), patches (RFC
6902) and merge patches (RFC 7396) over document trees; the printer and the byte
scanners that recover number spellings, against a grammar of texts after RFC
8259; and the parse that keeps only token numbers and converts them afterwards,
against a relation that says what a document stands for. The grammar is shown to
be unambiguous, so a text has one document and printing is one to one. Pointer laws are stated over resolved steps,
because an index token may carry a leading `+`; which tokens name which position
is proved exactly. The operations of section 4 of RFC 6902 are stated a second
time as relations that know nothing of the code, with the standard's locations,
its equality of numbers and the removal of the root, and each operation of the
code is proved to meet them exactly outside a condition on its input. Numbers
that the parser keeps as they were spelled are among them: they compare by
address. The same is carried up to operation objects, member by member, and to
whole patches as chains of documents. What a failed move leaves, and when the
token test for moving below the source is right, are each proved exactly. Merge
patch differs from the standard when a
patch object placed under an absent name has a null inside it; agreement and
idempotence are each proved to hold exactly when there is none.

**Process pool** (`ProcessPool*.dfy`). A state machine over all interleavings of
submitters, workers and closers, where the closed flag is not under the queue
lock: who holds a task, in which order tasks are served, when one is accepted or
refused, and what a close has done when it returns. Only the first close to find
the workers' handles waits for the workers; a second one can return before they
are gone, and a run shows it.

**Streams** (`StreamRegistry.dfy`, `StreamIo.dfy`). The reference registry of
readers, writers, erased streams and tees over sequential runs, and in-memory
reading, teeing, copying and seeking. A tee refers to a writer by handle, so a
copy may target the writer its own reader is teed to, and a reader still writes
to its tee after that writer was closed.

**Closures** (`Closures.dfy`). Closures, capture arrays, shared cells and the
values in them. Touching a freed object is recorded as a fault; no run faults.

**Response files** (`ResponseTokens.dfy`, `ResponseExpansion.dfy`). The quoting
tokenizer, for words of bare, quoted and escaped parts, and the include expander
with its depth, size and budget limits against the tree of includes.

**Arithmetic** (`Arithmetic.dfy`, `IntPow.dfy`, `Combinations.dfy`,
`SplitMix.dfy`, `RandomRange.dfy`, `Varint.dfy`). Wrapping powers, exact
binomials, a generator whose outputs run through every 64-bit word, rejection
sampling, a shuffle whose choices correspond one to one to the orders of
distinct items, and varints, with machine widths written out.

Where the code and its documentation disagree, the model follows the code: the
merge patch entry point (src/json.rs:2443) is described as RFC 7396 but keeps
nulls in objects it places under new names, and the patch entry point
(src/json.rs:2462) is described as RFC 6902 but deviates from it on the inputs
that `JsonPatchStandard.Deviates` lists: the root removed, an array element named
with a plus sign, and a test of a number against an equal one that is not the
same value, be it an integer against a float or two numbers kept as spelled.

## Model

| member | source | states |
|---|---|---|
| `OrderedMaps.OrderedMap.constructor` | src/ordered.rs:55-68 | a new map is valid and empty |
| `OrderedMaps.OrderedMap.IndexOf` | src/ordered.rs:116-135 | finds the slot of a key exactly when the sequence of pairs has it, whatever else shares its hash |
| `OrderedMaps.OrderedMap.Get` | src/ordered.rs:137-144 | answers as a lookup in the sequence of pairs |
| `OrderedMaps.OrderedMap.Update` | src/ordered.rs:146-156 | replaces the value in place and moves nothing |
| `OrderedMaps.OrderedMap.AllocSlot` | src/ordered.rs:166-195 | reuses a hole when there is one, keeps the free list whole, and changes no other slot |
| `OrderedMaps.OrderedMap.Insert` | src/ordered.rs:197-242 | an existing key keeps its position and key, a new one goes last; the old value comes back; the slab grows only past its peak |
| `OrderedMaps.OrderedMap.Remove` | src/ordered.rs:244-304 | deletes the entry, moves no other, returns its value, and keeps links, holes and table in step |
| `OrderedMaps.OrderedMap.Clear` | src/ordered.rs:306-313 | leaves an empty map with an empty slab |
| `OrderedMaps.OrderedMap.Iterate` | src/ordered.rs:315-370 | following the links yields exactly the sequence of pairs |
| `OrderedMaps.OrderedMap.Drain` | src/ordered.rs:601-659 | consuming iteration yields exactly the sequence of pairs |
| `OrderedMaps.Run` | src/ordered.rs:137-313 | any run of operations on the slab ends in the pairs of the same run on a plain sequence, with the slab as long as the peak since the last clear |
| `OrderedMaps.ReplayDistinct` | src/ordered.rs:197-242 | no run ever holds two equal keys |
| `OrderedMaps.LastWriteWins` | src/ordered.rs:137-304 | after any run a lookup gives the last insert or update of the key not followed by its removal or a clear |
| `OrderedMaps.InsertionOrder` | src/ordered.rs:197-370 | after any run the entries stand in the order in which their keys last entered the map |
| `ValueContract.CombineEntries` | src/ordered.rs:551-569 | the hash loop of a map is the wrapping sum of its entries' hashes |
| `ValueContract.CmpCanon` | src/lib.rs:475-516 | the order of two values, which sorts entries before it compares them, is that of their canonical forms, compared as they stand |
| `ValueOrder.OrderIs` | src/lib.rs:475-516 | a value comes first exactly when its variant does, or false does before true, the smaller number, with infinities and NaN in their places, the first differing character, byte or element or a proper prefix, the first differing part, or, for maps and sets, the first difference of their entries in ascending order of keys |
| `ValueOrder.SortEnumerates` | src/ordered.rs:529-579 | the sort before the comparison enumerates exactly the entries in ascending order of their keys |
| `ValueOrder.EnumerationUnique` | src/ordered.rs:529-579 | and there is one such enumeration |
| `ValueContract.FeedCanon` | src/lib.rs:408-436 | a value and its canonical form feed the hasher the same words |
| `ValueContract.EqCanon` | src/lib.rs:378-404 | two values are equal exactly when their canonical forms are the same |
| `ValueContract.EqualityIsEquivalence` | src/lib.rs:378-404 | equality of values of any nesting, numbers kept as spelled among them, is reflexive, symmetric and transitive, though maps are compared by hash lookup |
| `ValueContract.OrderIsTotal` | src/lib.rs:475-516 | the order is antisymmetric, transitive and total, and ties exactly the equal values |
| `ValueContract.EqualValuesHashEqually` | src/lib.rs:408-436 | equal values feed the same words to any hasher, even when nested maps and sets were built in different orders |
| `ValueContract.LeavesFeedApart` | src/lib.rs:408-436 | different values without parts feed the hasher different words |
| `ValueContract.ValuesAreLawfulKeys` | src/ordered.rs:529-591 | values, maps and sets included, meet what an ordered map asks of its keys |
| `ValueContract.LookupAgrees` | src/ordered.rs:391-400 | the lookup that map equality makes in the other map is the ordered map's own lookup |
| `BuiltValues.OwnRun` | src/ordered.rs:116-242 | over well-formed keys and values, a run of a map by the runtime's own equality is the run by equality of canonical forms |
| `BuiltValues.RunsBuildWellFormed` | src/ordered.rs:116-242 | every run of the map's operations over well-formed keys and values leaves a well-formed map |
| `BuiltValues.RunsBuildWellFormedSets` | src/ordered.rs:412-476 | and every run of a set a well-formed set |
| `ObjectKeys.ObjectEqualityIsEquivalence` | src/lib.rs:116-173 | object equality over callbacks or identity is an equivalence, given that each class's own callbacks are |
| `ObjectKeys.ObjectEqualityIs` | src/lib.rs:151-163 | objects are equal exactly when they have one type and its equality, or else its comparison, says so, and without either, or without a copy, when they are the same object |
| `ObjectKeys.ObjectOrderIs` | src/lib.rs:490-510 | an object comes first exactly by type, then by the sign of the class's comparison, or else by its hash, or by address if it is keyed by identity |
| `ObjectKeys.ObjectOrderIsTotal` | src/lib.rs:490-510 | equal objects hash alike and tie; the order is a total preorder across all classes |
| `ObjectKeys.OrderAgreesExactlyWhen` | src/lib.rs:490-510 | ties are equality on a class exactly when it has a comparison or is keyed by identity, or has a hash that separates unequal instances, or has neither and all its instances are equal |
| `ObjectKeys.EqualityWithoutOrderTies` | src/lib.rs:490-510 | a class with an equality and no order has unequal instances that tie |
| `JsonPointer.GetResolves` | src/json.rs:2163-2180 | a get returns what is at the place its tokens resolve to |
| `JsonPointer.SetResolves` | src/json.rs:2182-2215 | a set is the assignment at the resolved place, and an error leaves the document unchanged |
| `JsonPointer.AddResolves` | src/json.rs:2217-2263 | an add is the insertion at the resolved place, and an error leaves the document unchanged |
| `JsonPointer.RemoveResolves` | src/json.rs:2317-2346 | a remove takes out and returns what is at the resolved place, and an error leaves the document unchanged |
| `JsonPointerLaws.GetAfterSet` | src/json.rs:2182-2215 | a get after a successful set returns the new value |
| `JsonPointerLaws.GetAfterAdd` | src/json.rs:2217-2263 | a get after a successful add returns the new value |
| `JsonPointerLaws.SetFrame` | src/json.rs:2182-2215 | a set keeps every location that is neither above nor below it |
| `JsonPointerLaws.AddFrame` | src/json.rs:2217-2263 | after an add every other location is found, with its value, where array positions have shifted it to |
| `JsonPointerLaws.RemoveFrame` | src/json.rs:2317-2346 | after a remove every remaining location holds what it held before the shift |
| `JsonPointerLaws.RemoveWhereGet` | src/json.rs:2317-2346 | a remove succeeds exactly where a get does, except at the root |
| `JsonPointerLaws.AddThenRemove` | src/json.rs:2217-2263 | add then remove restores the document, order included, exactly when the place was an array position or an absent member |
| `JsonPointerLaws.RemoveThenAdd` | src/json.rs:2317-2346 | in an array, adding back what was removed restores the document |
| `JsonPointerIndex.CanonicalIsNumeral` | src/json.rs:2147-2161 | a digit string that passes the canonical check is the decimal numeral of its value, so no position has two |
| `JsonPointerIndex.IndexTokens` | src/json.rs:2147-2161 | a token names an array position exactly when it is its numeral or a plus sign and any digits worth it |
| `JsonPointerIndex.InsertTokens` | src/json.rs:2230-2244 | the same for the position an addition inserts at, up to the length, which `-` names too |
| `JsonPointerIndex.AliasExample` | src/json.rs:2151-2156 | `+01` is taken for position 1 although `01` is refused |
| `JsonPointerText.UnescapeToken` | src/json.rs:2104-2135 | the inner decoding loop computes the unescaped token or finds a bad escape |
| `JsonPointerText.DecodePointerText` | src/json.rs:2104-2135 | the decoding loop computes the tokens of a pointer text within its limits |
| `JsonPointerText.Utf8LengthIs` | src/json.rs:2104-2107 | the length that the limits are about is that of the text in UTF-8 |
| `JsonPointerText.DecodeEncode` | src/json.rs:2104-2135 | every token list within the limits is what its own text decodes to |
| `JsonPointerText.EncodeDecode` | src/json.rs:2104-2135 | every accepted text is the text of its tokens, so decoding is one to one |
| `JsonPatch.Document.Apply` | src/json.rs:2461-2491 | a patch applies every operation or leaves the document unchanged |
| `JsonPatchObjects.OperationMeetsStandard` | src/json.rs:2265-2315 | an operation object with distinct names has the outcome that the standard describes for its `op`, `path`, `from` and `value` members, exactly unless those deviate |
| `JsonPatchObjects.MalformedFails` | src/json.rs:2265-2281 | an operation that is no object, or whose `op` is no string or whose `path` is no pointer text, fails and changes nothing |
| `JsonPatchObjects.PatchMeetsStandard` | src/json.rs:2461-2491 | when no operation deviates on the documents it comes to, a patch succeeds exactly when there is a chain of documents from the target, each step as the standard describes it, and leaves the last; otherwise it leaves the target |
| `JsonPatchObjects.NotAPatchFails` | src/json.rs:2474-2482 | a patch that is no list, or holds anything that does not convert to JSON, is refused whole |
| `JsonPatch.ConcatenationIsSequence` | src/json.rs:2461-2491 | applying a concatenation is applying the parts in turn, or nothing if either fails |
| `JsonPatch.RemoveReturnsWhatGetReturned` | src/json.rs:2317-2346 | for raw tokens, a remove returns what a get returns, and fails at the root |
| `JsonPatch.MoveIsRemoveThenAdd` | src/json.rs:2265-2315 | a move is a remove followed by adding what was removed, and is refused below its own source |
| `JsonPatchMeaning.OperationMeans` | src/json.rs:2265-2315 | the operations applied token by token leave what the same operations leave at the resolved locations, and fail exactly where those do |
| `JsonPatchStandard.LocatesIff` | src/json.rs:2163-2180 | section 4 of RFC 6901 locates a value at a place exactly when the code finds it there and no plus sign names an array element on the way |
| `JsonPatchStandard.TargetsIff` | src/json.rs:2217-2263 | the same for the place an addition names |
| `JsonPatchStandard.MeetsStandardExactly` | src/json.rs:2265-2315 | an operation has the outcome that section 4 of RFC 6902 describes, or an error where it describes none, exactly unless it removes the root, names an array element with a plus sign where all else is in order, or tests a place that equals the expected value but for a number facing an equal one that is not the same value: an integer a float, or a number kept as spelled any other |
| `JsonPatchStandard.TestOfFacingNumbersFails` | src/json.rs:2307-2312 | for all such pairs of numbers the test succeeds by the standard and fails in the code |
| `JsonPatchStandard.TestOfEqualNumbersFails` | src/json.rs:2307-2312 | so testing the first element of `[1]` against `1.0` fails |
| `JsonPatchStandard.TestOfSpelledNumbersFails` | src/json.rs:595-615 | and so does testing a number kept as spelled, such as `1e2`, against the same spelling in another object |
| `JsonPatchStandard.RootRemovalRefused` | src/json.rs:2317-2346 | the standard removes the whole document and moves it onto itself, and the code refuses both on every document |
| `JsonPatchStandard.SignedRemovalAccepted` | src/json.rs:2147-2161 | the standard gives `/+0` no meaning in an array, and the code removes the first element |
| `JsonEquality.EqIffSame` | src/lib.rs:378-403 | for a JSON value on either side, the runtime's equality is that of section 4.6 of RFC 6902 without the cases where a number meets a numerically equal one that is not the same value, numbers kept as spelled included |
| `JsonEquality.EqualitiesDiffer` | src/lib.rs:378-403 | the two equalities disagree exactly on values equal by the standard in which a number faces an equal one that is not the same value |
| `JsonEquality.TestSucceedsExactlyWhen` | src/json.rs:2307-2312 | on well-formed values a test leaves the document and succeeds exactly when the place exists and its canonical form is that of the expected value; for a JSON value, exactly when the two are equal by section 4.6 and no number faces an equal one that is not the same value |
| `JsonPatchMeaning.GuardExactlyWhen` | src/json.rs:2296-2302 | for all tokens that resolve, the token test says whether the target is below the source exactly when the target's first tokens are not other names for the source's |
| `JsonPatchMeaning.GuardIsExact` | src/json.rs:2296-2302 | as a corollary, without signs the token test refuses exactly the moves whose target resolves below their source |
| `JsonPatchMeaning.SignedMoveIsNotRefused` | src/json.rs:2296-2302 | with a plus sign a move below its own source passes the test |
| `JsonPatch.ReplaceKeepsSizes` | src/json.rs:2265-2315 | a replace succeeds exactly where a get does and changes the size of no container outside the replaced value, also for the append token |
| `JsonPatchMeaning.FailedMoveLeaves` | src/json.rs:2295-2306 | a move that fails has changed the document exactly when it passed the token test and its source could be removed, and then leaves the document without the source |
| `JsonPatch.FailedMoveIsNotAtomic` | src/json.rs:2295-2306 | such moves exist, so patch atomicity rests on the candidate copy |
| `JsonPatch.OtherOperationsAreAtomic` | src/json.rs:2265-2315 | every other operation that fails changes nothing |
| `MergePatch.ApplyMergePatch` | src/json.rs:2348-2371 | the in-place recursive loop computes the merge of the target and the patch |
| `MergePatchLaws.MergeClosed` | src/json.rs:2348-2371 | a merge keeps the target's members in their order, merged or deleted, followed by the new ones in the patch's order |
| `MergePatchLaws.TwiceIsRfc` | src/json.rs:2348-2371 | merging a patch twice always gives what section 2 of RFC 7396 gives once |
| `MergePatchLaws.NullsCompare` | src/json.rs:2348-2371 | a merge leaves at least the nulls the standard leaves, and no more exactly when the patch is clean for the target |
| `MergePatchLaws.AgreesExactlyWhenClean` | src/json.rs:2348-2371 | up to member order a merge equals section 2 of RFC 7396 exactly when every patch object placed under an absent name is null-free |
| `MergePatchLaws.IdempotentExactlyWhenClean` | src/json.rs:2348-2371 | applying a patch twice equals applying it once exactly under that condition |
| `MergePatchLaws.UncleanExample` | src/json.rs:2348-2371 | the smallest document and patch on which the code and the standard differ |
| `JsonLexer.ScanJsonNumber` | src/json.rs:478-482 | the scanner stops where the spelling that starts at a position ends, which the next row shows to be the longest |
| `JsonNumbers.TakesTheLongest` | src/json.rs:478-540 | when a number of section 6 of RFC 8259 starts the text, what the scanner takes is one and none that starts it is longer; there is one exactly when a digit starts the text or follows a minus |
| `JsonLexer.SkipJsonString` | src/json.rs:466-476 | skipping a string lands just past its closing quote, escapes respected |
| `JsonLexer.ScanJsonNumbers` | src/json.rs:446-464 | the scanning loop collects the spellings of all numbers outside strings, in order |
| `JsonLexer.EnforceTokenLimit` | src/json.rs:547-593 | the limit check accepts exactly the texts with at most the allowed number of tokens |
| `JsonDocuments.PrintToIsPrint` | src/json.rs:233-293 | printing in front of a following text is printing and then the text |
| `JsonGrammar.PrintDenotes` | src/json.rs:233-293 | in every style, what is printed denotes the document by the grammar of sections 2 to 7 of RFC 8259 |
| `JsonUnambiguous.DenotesOne` | src/json.rs:233-293 | all documents that a text denotes by that grammar have the same structure, literals, number spellings and string bodies |
| `JsonUnambiguous.PrintIsOneToOne` | src/json.rs:233-293 | documents that print to one text, in whatever styles, are the same |
| `JsonLayout.CompactHasNoSpace` | src/json.rs:247-291 | compact printing has no white space outside strings |
| `JsonLayout.IndentedIsLaidOut` | src/json.rs:247-291 | indented printing puts every element, member and closing bracket on a line of its own, with exactly the width of blanks for every bracket open there, and one blank after every colon, and has no other white space |
| `JsonScanning.ScannerFindsTheNumbers` | src/json.rs:446-540 | on any text that denotes a document, with any white space and with duplicate keys, the scanner returns exactly the number tokens of the syntax, in order |
| `JsonScanning.StringifyStyles` | src/json.rs:233-293 | the compact and every indented printing are among those styles |
| `JsonScanning.LimitCountsTheTokens` | src/json.rs:547-593 | on any text that denotes a document the token counter counts the tokens of the syntax |
| `JsonParse.VisitMeans` | src/json.rs:397-444 | visiting a document from any token number uses exactly its number tokens, discarded duplicates included, and what it keeps converts to the document's meaning |
| `JsonParse.ParsingGivesTheMeaning` | src/json.rs:181-203 | parsing a text gives the meaning of the document it denotes under the duplicate policy, each retained number with its own spelling |
| `JsonParseStands.MeaningStands` | src/json.rs:397-444 | that meaning is what the document stands for: literals, strings and numbers as spelled, arrays element by element, and objects with their names in order of first occurrence, each with its first or last duplicate |
| `JsonParseStands.StandsForOne` | src/json.rs:397-444 | and a document stands for one result only |
| `JsonParseStands.ParsedStands` | src/json.rs:181-203 | so a parse that succeeds returns exactly the result that the document of the text stands for |
| `JsonParse.PolicyChooses` | src/json.rs:411-436 | under First and Last an object's member is the first or last of its duplicates, and there are no others |
| `JsonParse.ParsesExactlyWhen` | src/json.rs:411-436 | a document has a meaning exactly when its numbers are accepted and, under Reject, no object in it repeats a key |
| `ProcessPool.StepKeeps` | src/process.rs:1268-1444 | every step of any submitter, worker or closer keeps the pool invariant |
| `ProcessPool.PoolIsSafe` | src/process.rs:437-458 | in every interleaving the queue is within capacity, each accepted task is in the queue, or held by exactly one worker, or by exactly one closer, or by no one with its channel closed and a result in it exactly if it finished; every channel is closed at most once and never used afterwards |
| `ProcessPool.QueueStaysEmpty` | src/process.rs:1268-1300 | once any worker has exited the pool is closed and its queue stays empty for ever |
| `ProcessPool.NoTaskIsStranded` | src/process.rs:1268-1300 | when all workers have exited and no cancellation is under way, every accepted task was finished or cancelled and its channel closed once |
| `ProcessPoolOrder.FirstInFirstOut` | src/process.rs:1268-1375 | in every interleaving the tasks accepted so far are those that have left the queue, in order, followed by the queue |
| `ProcessPoolOrder.NeverOvertaken` | src/process.rs:1268-1300 | when a worker starts a task, every task accepted before it has left the queue |
| `ProcessPoolClosing.AcceptedOnlyWhenOpen` | src/process.rs:1350-1403 | a task is accepted only at the end of a queue with room, by a submission that saw the pool open since it got the lock |
| `ProcessPoolClosing.RefusedOnlyWhen` | src/process.rs:1350-1403 | a task is refused only for a bad timeout, by a closed pool or by a full queue |
| `ProcessPoolClosing.CloseReturns` | src/process.rs:437-458 | when a close returns, the pool is closed and the workers' handles are taken, and if this close took them every worker is gone; when a cancellation returns, every task accepted before its call has left the queue; a plain close never takes a task |
| `ProcessPoolClosing.OneWaits` | src/process.rs:452-457 | at most one close ever takes the handles |
| `ProcessPoolClosing.SecondCloseReturnsEarly` | src/process.rs:452-457 | a second close can return while a worker is still there |
| `ProcessPool.ExitReached` | src/process.rs:1268-1300 | some run accepts and finishes a task, closes the pool and ends with every worker gone, so the rows on workers that exit are about real runs |
| `StreamRegistry.Registry.constructor` | src/stream.rs:79-85 | the empty registries satisfy the counting invariant |
| `StreamRegistry.Registry.CopyHandle` | src/stream.rs:220-247 | a copy of a registered handle is one more counted name; a copy of any other names nothing |
| `StreamRegistry.Registry.ReleaseHandle` | src/stream.rs:322-365 | a release drops one reference; the last one unregisters the entry, and a reader's passes on to its tee |
| `StreamRegistry.Registry.DropHandle` | src/stream.rs:640-650 | dropping a value keeps every count equal to its holders |
| `StreamRegistry.Registry.CloseHandle` | src/stream.rs:367-397 | an explicit close unregisters at once, releases the tee lease, and keeps every other count |
| `StreamRegistry.Registry.RetainHandle` | src/stream.rs:412-424 | a retain succeeds exactly on registered handles and adds one reference |
| `StreamRegistry.Registry.EraseHandle` | src/stream.rs:717-744 | an erased stream holds one counted reference to what it wraps, or none is made |
| `StreamRegistry.Registry.DropErased` | src/stream.rs:273-290 | the last name of an erased stream releases what it holds |
| `StreamRegistry.Registry.CloseErased` | src/stream.rs:292-302 | closing an erased stream releases what it holds whatever other names remain |
| `StreamRegistry.Registry.TeeReader` | src/stream.rs:1068-1108 | a tee moves the reader's lease from the old writer to the new one, the same writer included |
| `StreamRegistry.Registry.UnteeReader` | src/stream.rs:1115-1132 | untee gives the lease back |
| `StreamRegistry.OpKeeps` | src/stream.rs:220-486 | every registry operation keeps all counts equal to names, retains, erased streams and tee leases |
| `StreamRegistry.CountsAreHolders` | src/stream.rs:220-486 | in every run each count is the number of holders, and a handle that was not closed is registered exactly while something holds it |
| `StreamRegistry.NothingIsLeaked` | src/stream.rs:322-365 | when no value names a handle and no retain is outstanding, the reader, writer and stream registries are empty |
| `StreamRegistry.CloseIsFinal` | src/stream.rs:367-397 | however a run goes on, a closed reader is never registered again and releasing it changes no registry |
| `StreamRegistry.CloseWriterIsFinal` | src/stream.rs:367-397 | the same for a closed writer |
| `StreamIo.OverlayInPieces` | src/stream.rs:513-554 | writing in two pieces leaves the bytes one write would |
| `StreamIo.NextRead` | src/stream.rs:561-638 | however a reading was cut up, the next bytes extend it and the tee as if all had been one read |
| `StreamIo.Streams.CloseWriter` | src/stream.rs:367-397 | closing a writer ends calls to it and keeps its contents and every tee on it |
| `StreamIo.Streams.WriteSlot` | src/stream.rs:513-554 | a write by a held reference succeeds exactly when it fits under 16 MiB, registered or not, overlays the bytes at the cursor, and otherwise changes nothing |
| `StreamIo.Streams.Write` | src/stream.rs:556-559 | a write by handle does the same exactly when the writer has not been closed |
| `StreamIo.Streams.Read` | src/stream.rs:561-638 | a read returns the next bytes within request, limit and data, and the tee receives exactly those, also after its writer was closed; with a full tee it fails and the reader has moved on |
| `StreamIo.Streams.ReadToEnd` | src/stream.rs:1183-1204 | chunked reading returns one slice bounded by limit, remaining limit and data, and the tee gets exactly it; a full tee keeps exactly the whole chunks that fit |
| `StreamIo.Streams.CopyTo` | src/stream.rs:1213-1244 | a copy succeeds exactly when everything available fits in the tee and the writer; a writer that is not the tee then holds exactly what the reader advanced over, at the cursor, and one that is the tee holds each chunk of it twice; a copy that fails stops after exactly the whole chunks that fit, with the reader one chunk further; no other writer changes |
| `StreamIo.Streams.SeekReader` | src/stream.rs:1308-1351 | a reader's cursor moves exactly to positions within its data |
| `StreamIo.Streams.SeekWriter` | src/stream.rs:1599-1647 | a writer's cursor moves exactly to positions within its data |
| `StreamIo.Streams.Limit` | src/stream.rs:1045-1060 | a limit between zero and 16 MiB replaces the remaining one, and any other changes nothing |
| `Closures.Heap.AllocCell` | src/closure.rs:84-95 | a new cell takes over its caller's reference to the value |
| `Closures.Heap.DropCell` | src/closure.rs:123-134 | the last holder of a cell releases its value and frees it, and the counts stay right |
| `Closures.Heap.DropClosure` | src/closure.rs:164-193 | the last reference releases every captured cell once per capture, then the array and the closure, meeting no freed object on the way |
| `Closures.OpKeeps` | src/closure.rs:84-193 | every retain, release and allocation keeps all counts equal to the holders |
| `Closures.CountsAreHolders` | src/closure.rs:84-193 | in every run no freed object is touched, each cell's count is its variable holders plus its occurrences in live capture arrays, and each value's is its references plus the cells holding it |
| `Closures.FreedExactlyOnce` | src/closure.rs:123-193 | in every run whatever was allocated is live and not freed, or unheld and freed exactly once; cells and values are live exactly while held |
| `Closures.NothingIsLeaked` | src/refcount.rs:353-379 | when no variable holds a reference, every closure, array, cell and value has been freed exactly once |
| `ResponseTokens.Tokenize` | src/cli.rs:1012-1073 | the tokenizer loop computes the tokens of a text, or an error for a dangling escape or an open quote |
| `ResponseTokens.TokenizeWritten` | src/cli.rs:1012-1073 | a file of words, each of bare, quoted and escaped parts in any order and with backslashes meant as they stand, comments and any white space tokenizes to exactly its non-empty words, with or without white space or a line end last |
| `ResponseTokens.UnfinishedFails` | src/cli.rs:1012-1073 | after any such file and any part of a word, an open quote or a lone backslash at the end, in quotes or not, is an error |
| `ResponseTokens.TokenizeQuoted` | src/cli.rs:1012-1073 | quoting non-empty tokens, joining them with any white space and tokenizing returns the same tokens, whatever they contain |
| `ResponseTokens.NoEmptyTokens` | src/cli.rs:1012-1073 | no token is ever empty |
| `ResponseExpansion.ReadsArguments` | src/cli.rs:1168-1177 | a doubled sign is a literal sign, a lone one stands for itself, and any other names a file |
| `ResponseExpansion.ResponseBudget.ConsumeBytes` | src/cli.rs:1094-1102 | bytes are charged exactly when they are left |
| `ResponseExpansion.ResponseBudget.ConsumeArgument` | src/cli.rs:1104-1117 | an argument is charged exactly when one is left |
| `ResponseExpansion.ReadFile` | src/cli.rs:1128-1148 | reading one byte past the smaller limit is enough: a file is read exactly when it is valid and within both limits, and its size is charged |
| `ResponseExpansion.Expand` | src/cli.rs:1155-1185 | expansion succeeds exactly when the include tree exists and its bytes and leaves are within the budgets; it returns the leaves in order and both budgets fall by exactly what was used |
| `ResponseExpansion.BuildsTheTree` | src/cli.rs:1155-1185 | the tree is the one tree of the arguments' files, and is built exactly when it is at most eight levels deep |
| `ResponseExpansion.CyclesFail` | src/cli.rs:1155-1185 | arguments that reach a cycle of includes cannot be expanded |
| `ResponseExpansion.ExpandResponseFiles` | src/cli.rs:1150-1153 | with the full budgets the result is the flattened tree or an error, and always an error for a cyclic include |
| `IntPow.WrapIs` | src/math.rs:370-395 | wrapping picks the one 64-bit value congruent modulo 2^64 |
| `IntPow.Power` | src/math.rs:370-395 | squaring gives the power modulo 2^64 as a signed number, the true power whenever that fits, and for negative exponents the reciprocal rounded toward zero |
| `Combinations.Symmetric` | src/math.rs:541-554 | choosing k is choosing n - k, which lets the loop run over the smaller |
| `Combinations.LoopStep` | src/math.rs:541-554 | each division is exact and gives the next coefficient, and the product leaves 128 bits only when the answer does not fit in 64 |
| `Combinations.Combinations` | src/math.rs:526-554 | the result is the coefficient of Pascal's triangle exactly when the arguments are valid and it fits in 64 bits, and an error otherwise |
| `SplitMix.DrawsCount` | src/random.rs:56-62 | each draw is one closer to the zero state |
| `SplitMix.OutputInjective` | src/random.rs:56-62 | no two states have the same output: every shift, exclusive or and odd multiplication can be undone |
| `RandomRange.EveryWordIsDrawn` | src/random.rs:56-62 | every 64-bit word is the output of exactly one state |
| `RandomRange.Unbiased` | src/random.rs:196-216 | every residue has exactly limit/span accepted candidates |
| `RandomRange.UnbiasedDraws` | src/random.rs:196-216 | of the 2^64 states of the generator exactly 2^64/span, rounded down, draw each value of the range |
| `RandomRange.Random.Accept` | src/random.rs:178-216 | rejection ends within one cycle, with the first draw below the limit |
| `RandomRange.Random.NextRange` | src/random.rs:196-216 | the result is in the range and is the first accepted draw reduced modulo the span |
| `RandomRange.Module.Range` | src/random.rs:287-312 | scaling by the generator's 31 bits stays within the range |
| `RandomRange.EveryValueDrawn` | src/random.rs:287-312 | every value of a range is drawn by some output exactly when the range is at most 2^31 wide |
| `RandomRange.Module.Shuffle` | src/random.rs:483-493 | the list is shuffled by the choices the generator makes from its state, and the list afterwards is a permutation of the list before |
| `RandomRange.ShuffledPermutes` | src/random.rs:483-493 | whatever is chosen, nothing is lost or repeated |
| `RandomRange.ShuffleIsOneToOne` | src/random.rs:483-493 | for distinct items each order is reached by exactly one sequence of choices |
| `Varint.OrAdds` | src/bytes.rs:774-793 | no bit of any payload is lost: the shifted bitwise or adds it to the exact value |
| `Varint.ReadVarint` | src/bytes.rs:761-795 | reading succeeds exactly when the bytes from the offset end within ten and their exact base-128 value is below 2^63, and returns it |
| `Varint.WriteVarint` | src/bytes.rs:798-836 | writes the encoding at the offset exactly when number and offset are not negative and it fits, and changes no other byte |
| `Varint.RoundTrip` | src/bytes.rs:761-836 | what was written reads back from the same offset, and every other byte is as before |

## Left out

- Boxed enums, and objects other than JSON numbers kept as spelled, nested inside `Value` trees: such objects are modelled on their own in `ObjectKeys.dfy`, with their callbacks as functions.
- Ordered sets: thin wrappers over ordered maps with a unit value.
- Floating point: a float is an abstract totally ordered number; its bits and the float paths of `src/random.rs`, `src/math.rs` and `src/bytes.rs` are not modelled.
- The hash table and hash function libraries: the table is a set of hash and slot pairs, and a hasher is an arbitrary function of what it is fed.
- The JSON grammar library: the parse model is given the document that a text denotes; texts that denote none, the library's nesting limit, how a string's escapes decode, and which spellings it accepts as numbers are parameters or absent.
- Whether a parsed number becomes an integer, a float or a number kept as spelled: a parsed number here is its spelling.
- Sharing inside document trees: documents are values, so an in-place edit is a new tree.
- `scan_json_tokens`, streaming JSON readers, and the reference counts of the JSON number registry: a number kept as spelled has an address, and which number stands there is a parameter.
- Pool liveness: no claim that a blocked submitter, worker or closer is ever woken; condition variables may wake at any time in the model.
- Running the child process of a pool task, and its output.
- Concurrent use of streams and their registry: runs are sequential, so a tee racing a close is not covered.
- File, socket and standard streams; line reading, exact reads and flushing.
- Handle numbers that wrap around: handles are fresh.
- Failed allocations, and null or mistyped arguments at the foreign function boundary.
- What dropping a value's contents releases in turn: a value in `Closures.dfy` is a counted leaf.
- Power: arithmetic overflow is taken as wrapping, so negating the least exponent wraps instead of stopping a checked build.
- The command line parser apart from response files; UTF-8 decoding of a response file is given with the file.
- `read_uint`, `write_uint` and cursors of `src/bytes.rs`, integer square root, `gcd`, `lcm`, factorials and permutations: easy beside what is modelled.
- Sampling without replacement, weighted choice, and seeding from the system.
- Error messages: a failure is only a failure.
- Everything that is input and output only or a thin wrapper: dates, regular expressions, polling, cryptography, paths, logging, boxing.
