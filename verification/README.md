# A verified model of the Z-machine engine

This project models a headless interpreter for Version 3 of the Z-machine: a story file is
loaded, a machine is created for it, and each call runs the story until it asks for a line of
input, ends, or fails. Between calls the machine can be thrown away: the call returns a saved
state, and a fresh machine restored from it carries on.

The model has two layers. Functions from state to state say what each operation does, and carry
the machine invariant in their contracts; classes (`Machine`, `Memory`, `OutputStreams`,
`Decoder`, `FrotzSource`) do the same work in place with loops and fields, and every method is
proved to reach exactly the state, and the result or error, that its function gives, errors
half-way through an instruction included. The theorems are about the functions, so they hold of
the objects. Beside them stand laws that say what every instruction, and each format in memory,
comes to in terms of bytes, bits and the fields of the machine alone.

| file | what it holds |
|---|---|
| Words.dfy, Memory.dfy, Story.dfy | bytes and words, the two-part memory, loading a story |
| Text.dfy, Dictionary.dfy, Input.dfy | Z-strings, word encoding and lookup, line input |
| Objects.dfy, Forest.dfy, Properties.dfy | the object tree in raw bytes, the forest it stands for, property lists |
| Opcodes.dfy, Decoder.dfy, Encoder.dfy | instructions, their decoder, and its inverse |
| Output.dfy, Capture.dfy | windows and output streams, nested stream 3 captures |
| Random.dfy | the Frotz generator, and the default one through its laws |
| States.dfy, Variables.dfy, Routines.dfy, Instructions.dfy, Execution.dfy | the machine state, its invariant, and the step relation |
| Isolation.dfy | what a run leaves alone, within a call and across calls |
| Saved.dfy, Snapshots.dfy, Failures.dfy | the saved state, the order of a restore, and its failures |
| Equivalence.dfy, Sessions.dfy, Stories.dfy | restoring every turn against keeping one machine, and two story files that tell them apart |
| Lines.dfy, Spelling.dfy, Strings.dfy, Lists.dfy, Tables.dfy, Records.dfy | laws of the formats: the typed line, dictionary words, Z-strings, property lists, instructions, saved records |
| Steps.dfy, Flow.dfy, Calls.dfy, Screens.dfy, Effects.dfy, Services.dfy | laws of the instructions: operands, branches, calls and returns, the screen and what a call answers, everything else |
| Machine.dfy | the machine as an object |

## Main results

1. Serving every command with a fresh machine restored from the last saved state returns exactly
   what one retained machine returns, when the interpreter sets its header bits again before each
   turn, if and only if every machine left waiting has a program counter past the header and
   return addresses inside the story (`Sessions.SessionsIndistinguishable`, for every story, option
   set and command list). While the story leaves those header bits alone, that is the retained
   machine as it is (`Sessions.StableSessions`).
2. However long a called routine runs, and over however many calls of the engine with or without
   restoring between them, its callers' frames, locals and stack entries are untouched, and the
   matching return changes only what the call asked for (`Isolation`). Nothing but a restart
   instruction leaves a routine in another way.
3. Every step of every run keeps the machine invariant, and a call never executes more than its
   limit of instructions.
4. `remove_obj` and `insert_obj` do to raw bytes what section 12.5 of the Z-Machine Standards
   Document 1.1 says they do to an ordered forest; on memory that is no forest they terminate and
   change nothing when they fail.
5. The decoder and the encoder undo each other in both directions.
6. Saving and restoring a call chain undo each other, with the exact condition in each direction.
7. What every instruction of Version 3 does, as a step of the machine: the conditions of branches,
   the values stored, the variables a call fills when it returns (`Flow.ConditionalStep`,
   `Effects.StoringStep`, `Calls.CallReturns`); and what a call answers: the text its steps printed
   (`Screens.TurnAnswers`).
8. A line is stored lower-cased and filtered, and each of its words gets the address of the
   dictionary entry that encodes it (`Lines.LineKept`, `Spelling.ReadFinds`).
9. Exactly which restores fail, what each failure leaves behind, and so exactly when a failed
   restore leaves the machine as it was (`Failures`).

## Where the code is narrower than its documentation

- `Restore` promises that a failure leaves the machine exactly as it was (state.go:149-151). That
  holds for every failure before the commit. Three kinds are found out after it: a random chunk
  that describes no generator, nothing to seed a generator with, and a foreign save whose branch
  cannot be taken. Then it holds only for a machine that already was where the save would take it
  (`Failures.FailedRestore`).
- A routine called by the last instruction of the image returns to an address equal to the story
  size, which `restoredFrames` refuses, so a machine that waits inside it cannot be restored
  (`Sessions.LastCallCannotBeRestored`). Nor can one that waits inside the header: a file that
  loads and does so is in `Stories.HeaderWaitIsLost`.
- `Restore` runs `initHeader` again, so memory comes back only up to the interpreter's own bits: a
  restored session is that of a machine whose header is set again each turn. The promise of
  README.md:95-97 holds while the story leaves those bits alone, and fails for the file in
  `Stories.HeaderChangeIsLost`, which does not.
- `insertObject` refuses only self-insertion; inserting into a descendant makes a cycle.
- The property walk visits 31 entries and never reads a terminator behind the 31st.
- `LoadStory` lets the dictionary lie in dynamic memory, where the story may overwrite it.

## Model

| member | source | states |
|---|---|---|
| `StoryFile.LoadStory` | story.go:168-290 | accepts a file if and only if it is a sound Version 3 story: whole image, every header address in the region it must lie in, and a dictionary the run-time reader can read; gives that story, and refuses everything else as an invalid story |
| `StoryFile.ValidateDictionary` | story.go:294-324 | the load-time walk over the dictionary header and entries succeeds exactly when the run-time dictionary reader does on the same image |
| `StoryFile.ComputeChecksum` | story.go:328-337 | the 16-bit sum of the bytes after the header, kept modulo 0x10000 as it goes, is the full sum modulo 0x10000 |
| `StoryFile.StaticDictionaryIsSafe` | story.go:294-324 | the dictionary reads the same on every later memory of the story if and only if it does not start in dynamic memory, which loading does not demand |
| `StoryFile.ReadsAlike` | story.go:294-324 | the dictionary checked in the file is the one read from the initial memory |
| `Words.SignExtend14` | value.go:25-30 | shifting up and arithmetically down reads the low 14 bits as a two's complement number and ignores bits 14 and 15 |
| `Memory.Memory.WriteByte` | memory.go:113-119 | in place: one byte of dynamic memory changes, or an error and no change |
| `Memory.Memory.WriteWord` | memory.go:123-130 | in place: two bytes, high one first, or an error and no change |
| `Memory.Memory.constructor` | memory.go:23-35 | a new view holds a private copy of dynamic memory and the shared rest of the image |
| `Memory.OffsetsAdd` | memory.go:172-179 | going by an offset and back is the identity, and going twice is going by the sum, errors included: no address wraps round |
| `Text.ReadZChars` | text.go:106-125 | the loop over words of memory gives the Z-characters up to the first word with its end bit set and the address behind it; which error depends on whether any word could be read |
| `Text.UnpackZChars` | text.go:133-145 | the loop over a run of bytes gives the Z-characters up to the first word with its end bit set and how many bytes it took; without one it fails |
| `Text.ReadersAgree` | text.go:106-145 | bytes copied out of memory unpack to exactly the string in memory at that address, and fail to exactly when that string does not end within them |
| `Text.DecodeZText` | text.go:166-249 | the one-pass loop with its construction state and one-character shift refines the recursive reading, one construction at a time |
| `Text.DecodeAbbreviation` | text.go:253-276 | an abbreviation is the text of its table entry, itself read with abbreviations refused |
| `Text.ReadConcat` | text.go:166-249 | decoding a concatenation is the concatenation of the decodings whenever the first part ends outside any construction |
| `Text.IncompleteTailPrintsNothing` | text.go:166-249 | the text of any string is that of its longest prefix that ends outside a construction: truncated shifts, escapes and abbreviations print nothing |
| `Text.AbbreviationsDoNotNest` | text.go:253-276 | expansion is one level deep: an abbreviation whose own text reaches an abbreviation is refused |
| `Text.DecodeStringAt` | text.go:78-97 | the text of the string at an address, as print_addr and print_paddr print it |
| `Objects.Removed` | object.go:233-252 | on any memory, cyclic or inconsistent trees included, remove_obj terminates and an error leaves every byte unchanged |
| `Objects.Inserted` | object.go:294-328 | on any memory insert_obj terminates and an error leaves every byte unchanged: once it has written, nothing can fail |
| `Objects.RemoveObject` | object.go:233-252 | remove_obj in place leaves the memory, and the result or error, of the function the forest theorems are about |
| `Objects.UnlinkFromParent` | object.go:257-288 | the walk along the sibling chain in place, with its limit |
| `Objects.InsertObject` | object.go:294-328 | insert_obj in place leaves the memory, and the result or error, of the function the forest theorems are about |
| `Objects.SetObjectAttribute` | object.go:147-162 | set_attr and clear_attr in place leave the memory, and the result or error, of the function AttributeSetAlone is about |
| `Objects.SetObjectRelative` | object.go:180-193 | writing one link of an object in place |
| `Forest.RemoveFromForest` | object.go:233-288 | on objects 1 to n whose links form an ordered forest (section 12.5 of the Z-Machine Standards Document 1.1), whatever lies behind them, remove_obj succeeds and deletes exactly that object from its parent's ordered list; every other list, every other parent and every byte outside the links is unchanged |
| `Forest.InsertIntoForest` | object.go:294-328 | on the same, insert_obj succeeds and moves the object with its whole subtree to the front of the destination's list; every other list, every other parent and every byte outside the links is unchanged |
| `Forest.WalkFinds` | object.go:257-288 | on an ordered forest the walk finds the predecessor; the chain-limit error is unreachable |
| `Forest.ChainFits` | object.go:257-288 | a sibling chain names no object twice, so it is no longer than the number of objects |
| `Forest.InsertKeepsWellFounded` | object.go:294-328 | after insert_obj the tree is well-founded if and only if the destination is not in the moved subtree |
| `Forest.InsertIntoOwnChild` | object.go:294-328 | inserting an object into its own child is accepted and leaves a tree that is not well-founded: only self-insertion is refused |
| `Forest.RemoveKeepsLevels` | object.go:233-252 | remove_obj keeps well-foundedness, with the same levels |
| `Forest.AttributeSetAlone` | object.go:119-162 | setting or clearing an attribute changes that attribute of that object and no other attribute of any object |
| `Properties.FindProperty` | property.go:121-162 | the bounded walk in a loop: the entry, or absent, or a fault |
| `Properties.NextPropertyNumber` | property.go:248-276 | the bounded walk of get_next_prop in a loop |
| `Properties.PropertyValue` | property.go:183-202 | get_prop, with the defaults table |
| `Properties.PropertyAddress` | property.go:206-221 | get_prop_addr: the address of the data of the property found, or 0 when it is absent |
| `Properties.PutProperty` | property.go:282-303 | put_prop in place leaves the memory, and the result or error, of the function PutThenGet is about |
| `Properties.FindInList` | property.go:121-162 | on a descending list every property is found; one that is missing is reported absent if and only if the list has at most 30 entries, and with all 31 present the query faults |
| `Properties.IterationEnumerates` | property.go:248-276 | iterating get_next_prop from 0 enumerates exactly the list in order and then gives 0, or faults on the last step when all 31 are present |
| `Properties.LengthOfAddress` | property.go:206-243 | get_prop_len of get_prop_addr is the stored length |
| `Properties.PutThenGet` | property.go:183-303 | put_prop then get_prop gives the value back, modulo 256 for one byte; the list keeps its structure and every other property its value, when the data does not overlap the object's entry |
| `Properties.PutSucceeds` | property.go:282-303 | put_prop succeeds exactly on properties of one or two bytes in dynamic memory |
| `Properties.ObjectShortName` | object.go:333-375 | copies the name out byte by byte and decodes it, bounded by its length byte |
| `Properties.ShortNameIsString` | object.go:333-375 | the short name is the string at that address, exactly when that string ends within the declared length |
| `Decoder.Decoder.OperandTypes` | decode.go:379-408 | the operand types byte: the kinds up to the first omitted one, refused if a later one is present |
| `Decoder.Decoder.NextOperands` | decode.go:412-428 | reads operands in order, advancing past exactly what they take |
| `Decoder.Decoder.BranchData` | decode.go:431-459 | polarity, and a 6-bit or a signed 14-bit offset |
| `Decoder.DecodeInstruction` | decode.go:228-340 | the decoder object, advancing byte by byte, refines the parser |
| `Encoder.DecodePrinted` | decode.go:228-340 | every well-formed Version 3 instruction decodes back from its encoding, at any address and whatever surrounds it |
| `Encoder.PrintDecoded` | decode.go:228-340 | every accepted byte string re-encodes to exactly the bytes addr to next - 1, in the form and branch length it used, with addr < next <= story size |
| `Encoder.PrintIsPrefixFree` | decode.go:228-340 | no encoding is a proper prefix of another, and equal encodings are of the same instruction |
| `Encoder.LongBytes` | decode.go:431-459 | a 14-bit branch offset in -8192..8191 survives its two bytes, sign included |
| `Encoder.KindsInverse` | decode.go:379-408 | an accepted operand types byte is given back by printing the kinds read from it |
| `Dictionary.ReadDictionary` | dictionary.go:58-107 | reads the dictionary header; success means every entry lies inside the story |
| `Dictionary.IsSeparator` | dictionary.go:111-118 | linear search: membership among the separators |
| `Dictionary.EncodeDictionaryWord` | dictionary.go:127-153 | the loop that stops early encodes as padding and truncating the whole word would |
| `Dictionary.SixCharsRead` | dictionary.go:127-183 | decoding the six Z-characters of any word never fails and gives the longest prefix of the lower-cased word that fits in six |
| `Dictionary.EncodeDecode` | dictionary.go:127-183 | the same through the four bytes: decode(encode(word)) is that prefix |
| `Dictionary.FittingFits` | dictionary.go:127-153 | the prefix that is kept is the longest that fits in six Z-characters |
| `Dictionary.SixCharsSay` | dictionary.go:127-153 | the six Z-characters of a word determine the lower-cased codes of that prefix, those that print nothing included |
| `Dictionary.EqualEncodings` | dictionary.go:127-183 | words with equal encodings have the same fitting prefixes, code for code but for case |
| `Dictionary.LookupDictionaryWord` | dictionary.go:192-220 | the binary search loop, with every probe in range and a shrinking interval |
| `Dictionary.SearchAgrees` | dictionary.go:192-234 | on a strictly ascending dictionary the binary search returns an entry's address exactly when linear search finds it, and 0 exactly when no entry matches |
| `Dictionary.OrderIsLexicographic` | dictionary.go:127-234 | the 32-bit order of encoded words is the lexicographic order of their six Z-characters |
| `Input.SplitInputWords` | input.go:220-250 | the loop with its pending word refines the recursive tokeniser |
| `Input.TokensAreWords` | input.go:220-250 | words are in order and disjoint, each is its slice of the text, separators appear only alone, and every other word is maximal |
| `Input.TokensCover` | input.go:220-250 | together the words cover exactly the positions that are not spaces |
| `Input.StoreInputLine` | input.go:94-147 | stores the lower-cased, filtered, truncated line and its zero terminator in place |
| `Input.TokeniseInput` | input.go:152-213 | writes the parse blocks and their count in place |
| `Input.ReadExactly` | input.go:94-213 | after a successful sread memory is exactly the old memory with the line and terminator in the text buffer and min(words, maximum) correct blocks and their count in the parse buffer; no length or position is truncated (what is written of the buffers, and the dictionary, do not overlap; a parse buffer may promise more room than it has) |
| `Random.FrotzSource.Draw` | internal/prng/frotz.go:121-136 | one draw in place, in 1..n |
| `Random.FrotzSource.SeedWith` | internal/prng/frotz.go:67-85 | the three meanings of a seed, in place; a failed read of entropy falls back to 1 |
| `Random.FrotzSource.Reseed` | internal/prng/frotz.go:88-97 | in place; a failed read of entropy changes nothing |
| `Random.FrotzSource.UnmarshalState` | internal/prng/frotz.go:109-118 | in place; a state of the wrong size changes nothing |
| `Random.Drawn` | internal/prng/frotz.go:121-136 | every draw is in 1..n and leaves a state that marshals |
| `Random.MarshalInverse` | internal/prng/frotz.go:100-118 | marshalling and reading back is the identity, so the whole future sequence is kept |
| `Random.FrotzStateIsUnbounded` | internal/prng/frotz.go:121-136 | for any seed of at least 1000 and any draws, the 31-bit state is the unbounded-integer recurrence reduced to 31 bits |
| `Random.FrotzDrawIsUnbounded` | internal/prng/frotz.go:121-136 | so every draw is the one the unbounded recurrence gives |
| `Random.RegisterWidthDoesNotMatter` | internal/prng/frotz.go:17-26 | bits 16 to 30 are the same in a register of any width of at least 31 bits |
| `Random.CountingMode` | internal/prng/frotz.go:67-136 | with a seed s below 1000 the k-th draw is (k mod s) mod n + 1 |
| `Output.OutputStreams.PrintText` | output.go:115-146 | text goes to the innermost table if one is selected, else to the selected window while stream 1 is on |
| `Output.OutputStreams.PrintZscii` | output.go:151-176 | the same for one ZSCII code; codes that print nothing reach no stream |
| `Output.OutputStreams.WriteMemoryStream` | output.go:232-244 | one byte behind those already in the innermost table |
| `Output.OutputStreams.SelectMemoryStream` | output.go:187-206 | nests to sixteen, on tables in dynamic memory |
| `Output.OutputStreams.DeselectMemoryStream` | output.go:211-224 | writes the count word and resumes the outer table |
| `Capture.CaptureRuns` | output.go:115-244 | any properly nested stream 3 capture of text and single codes (print_char, new_line) on disjoint tables, at most 16 deep and under 65536 characters each, succeeds; every closed table holds its count and exactly what was printed while it was innermost, codes that print nothing left out; outer tables resume where they stopped, and the screen and every other byte are unchanged |
| `Capture.HoldsReads` | output.go:211-244 | what the story then reads of a closed table: its count word, and each character behind it |
| `States.Push` | stack.go:24-31 | refused at the limit; keeps the invariant and everything beneath the current routine |
| `States.Pop` | stack.go:34-44 | never takes an entry below the watermark; keeps the invariant and everything beneath |
| `States.TopReplaced` | stack.go:58-65 | never changes an entry below the watermark; keeps the invariant and everything beneath |
| `States.VariableRead` | variable.go:30-39 | keeps the invariant and everything beneath the current routine |
| `States.VariableWritten` | variable.go:43-52 | keeps the invariant and everything beneath the current routine, callers' locals included |
| `States.IndirectWritten` | variable.go:67-72 | keeps the invariant and everything beneath the current routine |
| `States.GlobalsExist` | variable.go:104-126 | every global variable number addresses a word of dynamic memory: reading or writing one never fails |
| `Variables.EveryReachableMachine` | routine.go:13-44 | what the invariant says: frame 0 is permanent with base 0, watermarks are nondecreasing and at most the stack height, stack and depth are within their limits, at most 15 locals, unused slots zero |
| `Variables.WriteThenRead` | variable.go:30-52 | reading a variable just written gives the value back, and from the stack restores the machine |
| `Variables.WriteElsewhere` | variable.go:30-52 | writing one variable leaves what every other local or global reads unchanged |
| `Variables.IndirectStack` | variable.go:57-72 | an indirect write to the stack pointer replaces the top in place, and an indirect read leaves it there |
| `Variables.PullIntoStack` | opcode_var.go:88-121 | pull into the stack pointer overwrites the item below the one pulled |
| `Variables.AdjustInverse` | opcode_1op.go:189-204 | dec undoes inc and inc undoes dec on every variable, across the 16-bit wrap-around: the whole machine is as it was |
| `Variables.CalledFrame` | routine.go:54-129 | a call gives local i its argument or else the word in the routine header, counts spare arguments but drops them, leaves stack, memory and callers alone and goes on behind the header |
| `Routines.Called` | routine.go:54-129 | a call keeps the invariant and either stays in the routine (packed address 0) or enters one over the untouched stack |
| `Routines.Returned` | routine.go:138-164 | a return keeps the invariant and leaves the caller's frames and stack exactly as they were but for the value delivered |
| `Instructions.Branched` | execute.go:229-263 | a branch keeps the invariant, and stays in the routine or returns from it; it never suspends, calls or restarts |
| `Instructions.StatusUpdated` | machine.go:446-492 | keeps the invariant and everything beneath the current routine |
| `Instructions.Randomised` | opcode_var.go:196-221 | keeps the invariant, the generator's included |
| `Instructions.Restarted` | machine.go:405-442 | a restart that succeeds leaves frame 0 alone and an empty stack, with the invariant |
| `Instructions.RestartEffect` | machine.go:405-442 | restart succeeds if and only if the generator can be seeded; it leaves the initial environment, program counter and screen, and the story's own dynamic memory with the interpreter's header bits set and the fixed-pitch bit of Flags 2 kept; the transcription bit, carried over, is then cleared by initHeader |
| `Instructions.Created` | machine.go:230-278 | a new machine satisfies the invariant |
| `Instructions.CreatedExactly` | machine.go:230-278 | New succeeds if and only if the host gave a seed or its random source has something to give |
| `Instructions.HeaderWritable` | machine.go:288-316 | setting the interpreter's header bits never fails |
| `Instructions.Executed0` | opcode_0op.go:8-126 | restart, if it succeeds, begins the story again; every other instruction without operands stays in the routine or returns from it; none suspends or calls, and all keep the invariant |
| `Instructions.Executed1` | opcode_1op.go:6-182 | every one-operand instruction keeps the invariant, and stays in the routine or returns from it |
| `Instructions.Executed2` | opcode_2op.go:14-255 | every two-operand instruction keeps the invariant, and stays in the routine or, by a branch, returns from it |
| `Instructions.ExecutedVar` | opcode_var.go:15-188 | every variable-operand instruction keeps the invariant, and stays in the routine or enters one; none returns or restarts |
| `Instructions.QuotientAndRemainder` | opcode_2op.go:135-153 | division truncates towards zero and the remainder takes the sign of the dividend; together they give the dividend back |
| `Execution.OperandValues` | execute.go:181-194 | evaluating operands in order keeps the invariant and everything beneath, though each may pop the stack |
| `Execution.Stepped` | execute.go:73-128 | one turn of the loop keeps the invariant and stays in the routine, enters one, returns to the caller, or begins again |
| `Execution.StepProceeds` | execute.go:73-222 | a step that succeeds begins the story again if its instruction is restart, and otherwise stays in the routine, enters one, or returns to the caller |
| `Execution.LoopIsBounded` | execute.go:73-128 | every call executes at most the instruction limit: its states form a run of that many steps, and it ends because an instruction halts, suspends or fails, or the limit is reached |
| `Execution.SuspendsAtRead` | execute.go:157-175 | a suspended machine stands on an sread without a line, nothing of it has changed but the status line, and updating that again would give the same |
| `Execution.StatusDependsOnMemory` | machine.go:446-492 | updating the status line never fails, changes nothing else and depends on memory alone |
| `Execution.ReadEffect` | input.go:58-90 | an sread that is given a line changes only memory (as the input lemmas say), the status line, and the line, which is consumed |
| `Isolation.StepGuards` | routine.go:54-164 | no step changes a frame or a stack entry of a routine waiting before and after it |
| `Isolation.RunIsHistory` | execute.go:73-128 | a run within one call is a part of a history, which may go on over any number of calls |
| `Isolation.RestoringIsBoundary` | state.go:158-238 | suspending, restoring the snapshot on any machine of the same story and options, and giving it a line is one step of such a history |
| `Isolation.RunGuards` | routine.go:54-164 | over any history, through input boundaries with and without restoring, in which the chain stays deeper than its first n frames, those frames (locals included) and every stack entry below the next watermark are unchanged |
| `Isolation.ReturnRestoresCaller` | routine.go:138-164 | at the matching return, however many turns after the call, the caller's frames and stack are exactly what they were at the call, plus the returned value when the result variable is $00 (or in the local it names), and control is where the call asked; the one way out that is no return is a restart instruction |
| `Saved.SaveFrames` | state.go:272-328 | the loop over frames with their neighbours' watermarks |
| `Saved.CheckFrames` | state.go:338-371 | the checks with their running total accept exactly the chains within depth, stack, local and address limits that begin with the dummy frame |
| `Saved.RestoreFrames` | state.go:338-400 | checks, then rebuilds frames and stack with a running watermark |
| `Saved.SaveThenRestore` | state.go:272-400 | for every valid machine: the chain can be saved if and only if every call had at most seven arguments, and then restoring it is the identity on frames and stack if and only if every return address lies inside the story |
| `Saved.RestoredIsValid` | state.go:338-400 | every saved chain that is accepted gives a valid chain within the depth and stack limits |
| `Saved.RestoreThenSave` | state.go:272-400 | saving an accepted chain again gives the same chain back if and only if every argument mask is a contiguous run of the low seven bits |
| `Snapshots.RandomRoundTrip` | state.go:427-473 | the random chunk restores the generator, its kind and the predictable flag exactly |
| `Snapshots.ScreenRoundTrip` | state.go:486-556 | the screen chunk is the identity on window, height, stream 1 and all selected tables |
| `Snapshots.ScreenAlwaysOk` | state.go:513-556 | on arbitrary chunks the restored screen is well formed: at most 16 tables, all writable |
| `Snapshots.EncodeTables` | state.go:486-500 | the loop that lists the selected tables |
| `Snapshots.DecodeTables` | state.go:532-549 | the loop that reads them back, giving up at the first table that cannot be written to |
| `Snapshots.Restored` | state.go:158-238 | restoring anything at all leaves a valid machine, whether it succeeds or fails |
| `Snapshots.RefusalChangesNothing` | state.go:158-198 | an error raised before the commit leaves any machine unchanged |
| `Snapshots.ForeignResumed` | state.go:623-661 | resuming another interpreter's save keeps the invariant |
| `Failures.RestoreFailsExactly` | state.go:158-238 | a restore fails if and only if the save is refused before the commit, its random chunk describes no generator, there is nothing to seed one with, or it is foreign and its branch cannot be read, leaves the address space, or returns where no value can be returned; and with which error |
| `Failures.LateFailureLeaves` | state.go:200-238 | the machine a failure after the commit leaves behind, in each of those cases |
| `Failures.FailedRestore` | state.go:149-151 | a failed restore leaves the machine, any machine, exactly as it was if and only if the save was refused before the commit or the machine already was where the save would take it and the new generator, if one was seeded, is the old one; never the latter on a machine that has not run (what the host's random source has still to return is not part of the machine) |
| `Failures.RestoreIsNotAtomic` | state.go:200-213 | a save whose random chunk names no generator fails after the commit and has changed the machine |
| `Equivalence.RestoreSnapshot` | state.go:92-238 | restoring a machine's own snapshot on any machine of the same story and options succeeds if and only if its program counter is past the header and inside the story and every return address is inside the story; it then gives back everything but captured text, status line and interpreter header bits |
| `Equivalence.DecodesRefreshed` | machine.go:288-316 | setting the interpreter's header bits changes no instruction behind the header that has no inline text, an sread among them |
| `Equivalence.SameTurn` | execute.go:60-128 | a restored machine runs a turn to the same state as the retained one whose header is set again, or to the same error; the status line it lost is rewritten by the resumed sread before it can be seen |
| `Equivalence.SameRequest` | README.md:95-97 | one request (New, Restore, Run) returns what one turn of the retained machine, its header set again, returns, if and only if the program counter is past the header and every return address is inside the story |
| `Equivalence.RequestRefused` | state.go:158-198 | otherwise the request is refused with an error that no turn of a retained machine ever ends in |
| `Equivalence.Indistinguishable` | README.md:95-97 | for every list of commands, restoring a fresh machine each turn returns, turn by turn up to the first error or halt, the same output, upper window, status line, status and state as one retained machine whose header is set again before each turn, if and only if every machine left waiting for a command has a program counter past the header and return addresses inside the story |
| `Equivalence.StableRetained` | machine.go:288-316 | setting the header again makes no difference to a session that leaves the interpreter's header bits as the interpreter sets them |
| `Sessions.SessionsIndistinguishable` | README.md:95-97 | the same if and only if for whole sessions from New and Start on, for every story, option set and command list; the host must be able to seed the machines |
| `Sessions.StableSessions` | README.md:95-97 | and with the retained machine just as it is, when the waiting machines have the interpreter's header bits as the interpreter sets them |
| `Sessions.TurnIsReported` | execute.go:137-154 | a turn of a machine that has made no call with more than seven arguments always has a resumable state to report when it suspends, and leaves such a machine |
| `Sessions.SessionIsReported` | execute.go:137-154 | in every session from New and Start on, every call that suspends has a resumable state to report: taking a snapshot never fails |
| `Sessions.HeaderStableExactly` | machine.go:288-316 | re-running initHeader changes nothing if and only if bits 4 and 6 of Flags 1 are clear, bit 5 is set and bit 0 of Flags 2 is clear |
| `Sessions.HeaderSetIsStable` | machine.go:288-316 | a machine just created, restarted or restored is in that condition |
| `Sessions.RestoreKeepsMemory` | state.go:224-231 | a restored machine has the saved memory exactly when the header is in that condition |
| `Sessions.LastCallCannotBeRestored` | state.go:366-369 | whenever the routine called by the last instruction of the image waits for input, however many turns after the call and whatever it has called itself, a snapshot of the machine can be taken and every restore of it is refused |
| `Sessions.LastCallIsLost` | README.md:95-97 | so no request for such a machine gives what a turn of it gives |
| `Stories.FilesLoad` | story.go:168-290 | two concrete files that LoadStory accepts |
| `Stories.HeaderWaitIsLost` | state.go:404-408 | the first jumps to an sread in its serial number and waits there, inside the header: for every option set that allows two instructions a call, and every nonempty command list, its sessions with and without restoring differ |
| `Stories.HeaderChangeIsLost` | state.go:224-231 | the second clears Flags 1 before it waits, inside the story: for every option set that allows two instructions a call, and every nonempty command list, its sessions with and without restoring differ |
| `StoryFile.HeaderFields` | story.go:168-290 | where in the file each field of the story is read, byte by byte |
| `StoryFile.SoundStory` | story.go:168-290 | the bounds a loaded story keeps, in numbers |
| `Lines.LineKept` | input.go:94-147 | the text buffer afterwards holds, behind its untouched first byte, the codes of the lower-case forms of characters at increasing positions of the line, and a zero; a character is passed over only if it has no code that can be shown, or there is no room left; nothing else changes |
| `Lines.LineRefused` | input.go:94-110 | storing a line is refused exactly when the buffer has no room for a character or does not lie in dynamic memory, with the error for each |
| `Spelling.WordIsSpelled` | dictionary.go:127-153 | letters of either case, spaces, the third alphabet and ten-bit escapes, each as the numbers section 3 gives |
| `Spelling.WordIsEncoded` | dictionary.go:127-153 | the four bytes of a word: its first six Z-characters in five-bit fields, padded with fives, and the top bit set in the second word alone |
| `Spelling.EncodingIsUnique` | dictionary.go:127-153 | no other four bytes encode it so |
| `Spelling.DictionaryLies` | dictionary.go:58-107 | where the separators, the entry length, the number of entries and the entries of a dictionary are |
| `Spelling.LookupFinds` | dictionary.go:192-234 | on a dictionary whose entries ascend, looking a word up gives the address of the entry that encodes it, and 0 if there is none |
| `Spelling.ReadFinds` | input.go:152-213 | after a read the parse buffer says how many words were recorded and, of each, the address of the entry that encodes it or 0, its length, and where in the text buffer it starts |
| `Spelling.WordIsFound` | input.go:152-213 | a line that is one word gets one block, with the address of the entry that encodes that word, or 0 |
| `Spelling.ParseRefused` | input.go:152-180 | a line is analysed only into a parse buffer in dynamic memory with room for a word |
| `StoryFile.ChecksumIs` | story.go:328-337 | the checksum sums the bytes from address 64 on, modulo 65536 |
| `Steps.WriteAssigns` | variable.go:43-52 | writing variable 0 pushes, 1 to 15 sets a local variable, and any other the two bytes of a word of the globals table, high byte first; and when it fails |
| `Steps.ReadGives` | variable.go:30-39 | what reading each variable gives and takes, and when it fails |
| `Steps.ReferenceGives` | variable.go:57-62 | read through a reference, the top of the stack stays |
| `Steps.ReferenceSets` | variable.go:67-72 | set through a reference, the top of the stack is replaced |
| `Steps.OperandsTaken` | execute.go:181-194 | operand i is its constant, or what its variable holds once the operands before it have come off the stack; exactly when all of them can be taken |
| `Steps.StepDispatches` | execute.go:94-222 | a step on an instruction whose operands can be taken is its execution on those values |
| `Steps.StepsExecute` | execute.go:94-222 | every step that goes on or halts is one |
| `Flow.ReturnDeparts` | routine.go:138-164 | a return drops the frame and its part of the stack and assigns the value to the variable the call named; exactly when there is a routine to return from and the variable can be assigned |
| `Flow.BranchLands` | execute.go:229-263 | a branch is taken when the outcome is the one it asks for: offsets 0 and 1 return that from the routine, and any other counts from two bytes before the next instruction |
| `Flow.TestIsSubset` | opcode_2op.go:68-73 | test holds exactly when every bit of the second operand is set in the first |
| `Flow.ConditionalStep` | execute.go:229-263 | jz, je, jl, jg, jin, test, test_attr, inc_chk, dec_chk, get_sibling, get_child, verify, save and restore, on every machine: each tests the condition written out for it, branches exactly when the outcome is the one asked for, and can be carried out exactly when what it names is there |
| `Calls.CallStep` | opcode_var.go:17-29 | a call instruction enters the routine at twice operand 0 with the operands behind it as arguments over the words of its header, to return behind the call and assign its result to the variable its store byte names; routine 0 assigns 0 at once; and exactly when each succeeds |
| `Calls.ReturnStep` | opcode_1op.go:6-182 | rtrue, rfalse, ret and ret_popped return 1, 0, their operand and the top of the stack |
| `Calls.CallDelivers` | routine.go:54-164 | from a call to the step that leaves its routine with a value, over any number of turns: the caller has its frames and stack back, control is behind the call, and the variable it named, local, global or the stack, holds that value |
| `Calls.CallReturns` | routine.go:54-164 | so the variable a call names holds what the routine's rtrue, rfalse, ret or ret_popped returned |
| `Calls.CallBranchesOut` | routine.go:54-164 | and 0 or 1 when the routine ended in a branch with that offset |
| `Screens.StepShows` | output.go:115-244 | what each instruction makes of the screen: the text it sends reaches the selected window if stream 1 is on and no table is open; restart, split_window, set_window and output_stream as section 7 says; any other leaves it alone |
| `Screens.CallShows` | execute.go:73-128 | over the states of a call, the lower window holds the texts its steps sent while it was selected, stream 1 on and no table open, in order, since the story last began; the upper window likewise, since it was last split |
| `Screens.TurnAnswers` | execute.go:137-154 | Run answers with exactly that output and upper window and the machine's status line, and waits exactly when the call ended at an input boundary |
| `Screens.StartAnswers` | execute.go:137-154 | and so does Start |
| `Screens.StatusIsSaid` | machine.go:446-492 | the status line: the name of the object in the first global variable, and a score and turns, or hours and minutes when bit 1 of Flags 1 is set, from the next two; a waiting machine shows the one its memory calls for |
| `Effects.ComputedIs` | opcode_2op.go:74-153 | or and and bit by bit; sum, difference and product modulo 65536; quotient rounded towards zero and remainder with the sign of the dividend |
| `Effects.StoringStep` | opcode_2op.go:14-255 | or, and, add, sub, mul, div, mod, not, loadw, loadb, load, get_parent, get_prop, get_prop_addr, get_next_prop, get_prop_len: each assigns the value written out for it to its result variable and changes nothing else, exactly when there is such a value |
| `Effects.SimpleStep` | opcode_var.go:15-188 | nop, pop, inc, dec, jump, store, storew, storeb, push, pull, put_prop, set_attr, clear_attr, insert_obj, remove_obj: each makes the one change written out for it, exactly when it can |
| `Effects.LinksAre` | object.go:167-211 | the links of the forest theorems are bytes 4, 5 and 6 of the entries |
| `Effects.InsertStep` | object.go:294-328 | insert_obj as executed on an ordered forest: its first operand goes to the front of the children of its second |
| `Effects.RemoveStep` | object.go:233-252 | remove_obj as executed on an ordered forest |
| `Effects.AttributeStep` | object.go:119-162 | set_attr and clear_attr as executed: one bit of one object, counted from the top, and no other |
| `Services.PrintStep` | output.go:115-176 | an instruction that prints and goes on changes nothing but the screen and an open table |
| `Services.PrintReturnStep` | opcode_0op.go:8-126 | print_ret prints its text and a new-line and returns 1 |
| `Services.ReadStep` | input.go:58-90 | sread reads into the buffers its two operands name, in that order, uses the line up and shows the status line |
| `Services.RandomStep` | opcode_var.go:196-221 | random stores a number from 1 to a positive range, and reseeds and stores 0 otherwise |
| `Services.StatusStep` | opcode_0op.go:8-126 | show_status and quit |
| `Services.WindowStep` | opcode_var.go:230-310 | split_window, set_window and output_stream change the screen, and of memory only the transcription bit and the count of a closed table |
| `Services.RestartStep` | machine.go:405-442 | restart as executed |
| `Services.DigitsAre` | opcode_var.go:72-81 | print_num prints decimal digits that stand for the number, without needless zeros |
| `Services.HeaderSets` | machine.go:288-316 | setting the header turns on bit 5 of Flags 1, turns off bits 4 and 6 and bit 0 of Flags 2, and changes nothing else |
| `Services.CallsRefused` | execute.go:38-70 | a machine starts once; a halted one neither starts nor goes on |
| `Services.StreamRefused` | output.go:187-244 | exactly when selecting a table or writing to one is refused: at sixteen tables, at 65535 characters, or outside dynamic memory |
| `Services.NewMachine` | machine.go:230-278 | a new machine, field by field |
| `Tables.TableIs` | opcode.go:173-310 | which opcode numbers Version 3 has, and which of them store, branch or have text |
| `Tables.FirstByteSays` | decode.go:228-340 | form, opcode and operand kinds from the first byte |
| `Tables.TypesAre` | decode.go:379-408 | the operand types byte, field by field |
| `Tables.BranchSays` | decode.go:431-459 | branch data, bit by bit |
| `Tables.InstructionLies` | decode.go:228-340 | an accepted instruction byte by byte: opcode, types, operands, result variable and branch, in that order, each present exactly when the table says |
| `Tables.EveryInstruction` | opcode.go:173-310 | every instruction of Version 3 is one whose step is described |
| `Strings.StringReads` | text.go:106-125 | a string is three five-bit Z-characters to each word from its top, up to the word with its top bit set |
| `Strings.TextReads` | text.go:166-249 | any text of printable ASCII and new-lines, spelled by the alphabets, shifts and escapes of section 3, decodes to itself |
| `Strings.AbbreviationReads` | text.go:253-276 | Z-characters 1 to 3 stand for the string at twice the word in entry 32(z-1)+x of the abbreviations table |
| `Strings.ZsciiShows` | zscii.go:70-121 | a character with a ZSCII code that can be shown is shown as itself |
| `Strings.CodeOfCharacter` | zscii.go:101-121 | the ZSCII code of every character |
| `Strings.TableCharacter` | output.go:115-146 | a character without one goes to a table as a question mark |
| `Lists.WalkExactly` | object.go:257-288 | on any memory, the walk that unlinks an object ends, and succeeds exactly when it meets the object among the first 255 siblings |
| `Lists.ListBegins` | property.go:60-88 | where an object's property list begins: behind its name, in the table its entry points to |
| `Lists.EntrySays` | property.go:91-118 | a property by its size byte: number, length, data and next |
| `Lists.PropertyHeld` | property.go:183-221 | get_prop and get_prop_addr of a property that the list has |
| `Lists.PropertyMissing` | property.go:166-221 | and of one it has not: the word of the defaults table, and 0 |
| `Lists.PropertyPut` | property.go:282-303 | put_prop sets its one byte or its two and nothing else |
| `Lists.NameIs` | object.go:333-375 | where the short name of an object is |
| `Records.RefusedExactly` | state.go:158-198 | every save that is refused before the commit, in numbers: another story, a wrong size, a program counter in the header or outside the story, a chain beyond the limits |
| `Records.SnapshotRecords` | state.go:92-137 | what a snapshot records, field by field |
| `Records.FrameRecorded` | state.go:272-328 | one frame of it, with its own part of the stack |
| `Records.TableRecorded` | state.go:486-500 | one selected table in the screen's chunk |
| `Records.ForeignGoesOn` | state.go:623-661 | another interpreter's save goes on by the branch of its save instruction, if that is to be taken on success |
| `Random.FrotzDraws` | internal/prng/frotz.go:121-136 | one draw in plain arithmetic: bits 16 to 30 of 22695477 a + 1, or the counter |
| `Random.FrotzSeeds` | internal/prng/frotz.go:67-85 | seeding in plain arithmetic |
| `Machines.Machine.constructor` | machine.go:230-264 | a new machine, before its generator is seeded, in place |
| `Machines.New` | machine.go:230-278 | New: seeded and with its header set, or the error of the random source |
| `Machines.Machine.Push` | stack.go:24-31 | the fields after it are those of the state function, and nothing else changes |
| `Machines.Machine.Pop` | stack.go:34-44 | the same |
| `Machines.Machine.Peek` | stack.go:48-54 | reads the top of the current routine's part of the stack |
| `Machines.Machine.ReplaceTop` | stack.go:58-65 | the fields after it are those of the state function |
| `Machines.Machine.WriteLocal` | variable.go:85-92 | updates one local of the last frame in place |
| `Machines.Machine.WriteGlobal` | variable.go:121-126 | updates one word of dynamic memory in place |
| `Machines.Machine.ReadVariable` | variable.go:30-39 | pops, or reads a local or a global |
| `Machines.Machine.WriteVariable` | variable.go:43-52 | pushes, or writes a local or a global |
| `Machines.Machine.ReadVariableIndirect` | variable.go:57-62 | reads the top in place for the stack pointer |
| `Machines.Machine.WriteVariableIndirect` | variable.go:67-72 | replaces the top in place for the stack pointer |
| `Machines.Machine.CallRoutine` | routine.go:54-129 | checks, fills the locals in loops, pushes the frame and moves the program counter |
| `Machines.ReadLocals` | routine.go:95-114 | the two loops that fill the local variables |
| `Machines.Machine.ReturnFromRoutine` | routine.go:138-164 | drops the frame and its stack entries, then delivers the value |
| `Machines.Machine.Branch` | execute.go:229-263 | jumps, returns or falls through |
| `Machines.Machine.Store` | execute.go:267-275 | stores a result |
| `Machines.Machine.UpdateStatusLine` | machine.go:446-492 | the status line from three globals and a short name |
| `Machines.SetHeader` | machine.go:288-316 | initHeader in place |
| `Machines.Machine.SetRandomSeed` | machine.go:331-343 | seeds in place |
| `Machines.Machine.ReseedRandom` | machine.go:352-363 | replaces the generator, or fails and keeps it |
| `Machines.Machine.SeedRandom` | machine.go:321-327 | as the machine was configured |
| `Machines.Machine.Restart` | machine.go:405-442 | a new memory, an empty stack and call chain, and two surviving bits of Flags 2 |
| `Machines.Machine.AdjustVariable` | opcode_1op.go:189-204 | inc, dec, inc_chk and dec_chk |
| `Machines.Machine.Execute0` | opcode_0op.go:8-126 | every instruction without operands, in place |
| `Machines.Machine.Execute1` | opcode_1op.go:6-182 | every one-operand instruction, in place |
| `Machines.Machine.ExecuteJe` | opcode_2op.go:15-33 | the comparison loop of je |
| `Machines.Machine.Execute2` | opcode_2op.go:14-255 | every two-operand instruction, in place |
| `Machines.Machine.ExecuteRandom` | opcode_var.go:196-221 | random, in place |
| `Machines.Machine.ExecuteOutputStream` | opcode_var.go:230-291 | output_stream, in place |
| `Machines.Machine.ExecuteSRead` | input.go:58-90 | sread, in place |
| `Machines.Machine.ExecuteVar` | opcode_var.go:15-188 | every variable-operand instruction, in place |
| `Machines.Machine.EvaluateOperands` | execute.go:181-194 | the operand loop |
| `Machines.Machine.Execute` | execute.go:157-222 | one instruction, suspending before the operands of an unsatisfied sread |
| `Machines.Machine.Step` | execute.go:94-126 | decode, advance, execute, and halt or stand still |
| `Machines.Machine.Loop` | execute.go:73-128 | the execution loop with its limit |
| `Machines.Machine.TakeSnapshot` | state.go:92-137 | the saved game of the machine as it stands |
| `Machines.Machine.Report` | execute.go:137-154 | what a call returns |
| `Machines.Machine.Start` | execute.go:38-51 | Start |
| `Machines.Machine.Run` | execute.go:60-70 | Run |
| `Machines.Machine.RestoreRandom` | state.go:455-473 | the generator from its chunk, or seeded anew |
| `Machines.Machine.RestoreScreen` | state.go:513-556 | the screen from its chunk, or the initial one |
| `Machines.Machine.ResumeForeignSave` | state.go:623-661 | takes the branch of the save instruction |
| `Machines.Machine.Commit` | state.go:200-209 | the machine becomes the saved one |
| `Machines.Machine.Restore` | state.go:158-238 | Restore, in the order of its checks and effects |
| `Machines.ServeRequest` | README.md:95-97 | New, Restore and Run for one request, on real objects, return what the equivalence theorems speak of |

## Left out

- The Quetzal byte format: a saved game is a record, and reading or writing one is the identity plus the check of story identity, limits and memory size; an unreadable file is the absence of a record.
- The default random generator: its library is a parameter with three laws (states read back, fit the chunk, and draws are in range).
- Entropy: what the host's random source returns during a call is an input of that call, failures included.
- `Machines.Machine`: the generator is a field holding a value that the methods replace, not an object of class `FrotzSource`; the slices of frames and stack are sequences, so sharing of their storage is not modelled.
- Contexts and cancellation, loggers, tracers, option plumbing and error messages: errors keep only their class.
- UTF-8: text is a sequence of code points, and lower-casing a character is a parameter.
- The instruction counter is a variable of the loop and not a field, since nothing reads it between calls.
- The stack and depth limits are parameters of the configuration; the engine fixes them at 32768 and 1024.
- `Sessions.SessionsIndistinguishable`: assumes that the host can seed every machine it creates; when its random source fails and no seed is configured, New itself fails and the request is refused.
- `Sessions.StableSessions`: says nothing of a session that leaves the header bits otherwise; `Stories.HeaderChangeIsLost` is one that differs, and whether another does depends on what the story does with those bits.
- `Input.ReadExactly`: the text buffer, the parse buffer and the dictionary must not overlap; where what is written does overlap, it is written in the order the code writes it but not described further.
- Version strings, accessors and the opcode name table: they have no effect on a run.
