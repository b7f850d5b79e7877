# Verified models of the Lemon parser generator and of Ficl

This project models, in Dafny, two programs of the repository and proves what they are for.

**The Lemon LALR(1) generator and the parser it generates** (`buildtools/lemon.c`,
`buildtools/lempar.c`).  The chain runs from the grammar to the running parser: nullable
symbols and FIRST sets by fixpoint; the LR(0) automaton by recursion, with a hash table of
states that doubles; lookaheads propagated along links; conflicts resolved by precedence;
frequent reduces folded into defaults; all action rows packed into one overlapping table; and
the stack machine that runs that table.  Every link of the chain is a method proved against its
own meaning, and the ends meet in two theorems about the language: the generated parser accepts
nothing that the start symbol does not derive (`Language.GeneratedIsSound`), is never stuck in a
reduce (`Driver.ReduceKeeps`), and, when no precedences are declared and no conflict is reported,
accepts every derivation whose stack fits its depth, and overflows on every other
(`Language.GeneratedIsComplete`).  The lookaheads are exactly those of LALR(1), by a definition on
the grammar alone (`Lalr.LookaheadsExactly`), and where they allow several actions the tables take
the one that the declared precedences choose (`Generator.Generate`).  The generator's list sort is
modelled on heap nodes, with the exact length from which it loses elements.

**The Ficl Forth compiler, its interpreter and its libraries** (`ficl/`).

- The control words (IF, ELSE, THEN, BEGIN, UNTIL, AGAIN, WHILE, REPEAT, DO, ?DO, LOOP, +LOOP,
  LEAVE, CASE, OF, ENDOF, FALLTHROUGH, ENDCASE) emit branches and patch them through control
  entries on the data stack.  A well-nested text compiles to the code of its program, leaves the
  control entries as it found them, and that code returns, faults or runs on exactly when a direct
  evaluation of the source does.  What loops and choices come to is stated without that evaluation
  (`ForthEndToEnd.CountingText`, `SteppingText`, `CaseTextLeaves`), and so is which texts are refused
  (`ForthNesting.MismatchedText`).
- The inner loop rewrites branches as it first runs them.  For every well-formed code, with cycles
  of branches, the rewriting interpreter ends exactly as one that does not rewrite,
  and every branch it has looked at goes where it settles, if it does (`ForthDirect.SelfAfterDirect`).
  `ForthEndToEnd.CompiledTextRuns` joins both results.
- The LZ77 codec, down to the bit, with both byte orders: compressing and uncompressing give the
  input back exactly when the token bits fit the compressor's allocation and neither header value
  is 252 or 65536.
- Double-cell arithmetic with carries by hand; shift-and-add multiplication; shift-and-subtract
  division; floored and symmetric division.
- Printing and reading numbers in bases 2 to 36, with the laws of signs, points and digits.
- The hashed dictionary, with FORGET over every run of definitions.  `History` tells the same runs
  without chains, buckets or headers: a name means its last definition that has not been forgotten
  (`History.LookupIsLastDefinition`), whatever the sizes of the hash tables.

## How the model is built

Code that changes things step by step is imperative Dafny: `ActionTable.Acttab`, `Lr0.Lemon`,
`Driver.Parser`, `ForthCompiler.Compiler`, `ForthVm.Interpreter` and `Forgetting.Dictionary` are
classes; the sort relinks heap nodes; the codec, the number printer and the interpreter's code
work on arrays in place.  Each such method states its whole new state, by a function of the old
one, and the theorems are about those functions.  A C `int`, `long` or cell has 32 bits with
two's-complement wrap wherever its width matters.

Assumptions, each forced by the code: a rule has at most 255 symbols on its right-hand side
(`Generator.ShortRules`; the driver keeps the length in one byte), the start symbol is on no
right-hand side (`StartIsolated`; the generator reports an error otherwise), end of input is no
symbol that a rule can name (`EndNotNamed`), and a comparison passed to the sort is a total preorder.

## Where the code and what is said about it differ

- `ficl2IntegerDecrement` borrows when the low cell is the least integer rather than zero
  (`ficl/double.c:156-163`).  So the high cell of a floored quotient can be wrong, already for minus
  one divided by two (`DoubleDivide.FlooredHighCellIsWrong`); `DoubleDivide.DivideFloored` states
  exactly when.  FM/MOD pushes the low cell alone and is right whenever the quotient fits.
- The two sides of the LZ header disagree on two values: 252 is written as a plain byte but read as
  the mark of a four-byte field, and 65536 is written as two zero bytes.  `LzFormat.RoundTripExactly` is an
  if-and-only-if, and there is a lemma for each value in each header field.
- The compressor's allocation of five quarters of the input and ten bytes (`ficl/lzcompress.c:119`) is enough for
  every input only while five times the length does not wrap in a 32-bit `size_t`
  (`LzFormat.AllocationSuffices`, an if-and-only-if).  From 858993460 bytes on it wraps: up to
  930000000 bytes, and again from 1717986919 to 1860000000, no input at all fits and the bits are
  written behind the allocation (`LzFormat.AllocationOverrun`).  There `LzCompress.Compress` gives no file.
- `msort` overwrites its last bin from 2^30 nodes on; `MergeSort.Msort` says that it returns
  all nodes exactly below that.
- FORGET is documented to search the compilation word list (`ficl/tools.c:706-708`); the code looks
  the name up in the whole search order but unlinks words from the compilation list alone.  The
  dictionary is restored exactly when no other list has a word from the forgotten one on
  (`Forgetting.ForgetRestoresExactly`), and only then, and when no definition is open, is it sound
  afterwards (`Forgetting.ForgottenSoundExactly`, `Forgetting.Dictionary.Forget`).  A run of two
  definitions that ends otherwise is `Forgetting.ForgetAcrossLists`.
- Names are kept up to 31 characters, but the hash code is that of the whole name.  So what a longer
  name finds depends on the number of buckets: `History.AnswersLong` says exactly which definitions
  answer, and `History.LongNameFound` is a run in which a word is found under a name that is not its own.

## Model

| member | source | states |
|---|---|---|
| ActionTable.Acttab.constructor | buildtools/lemon.c:433-441 | A new table is empty and valid, with no rounds and no row. |
| ActionTable.Acttab.Action | buildtools/lemon.c:445-468 | Appends one entry to the row under construction, keeping its least lookahead and its action, growing the row when full; the table and all earlier rounds are untouched. |
| ActionTable.Acttab.FindOffset | buildtools/lemon.c:509-541 | The scan stops at the first slot it accepts; the offset it gives is free for the whole row with no lookup hitting anything there, or already holds exactly this row; every index is inside the allocation. |
| ActionTable.Acttab.CountHits | buildtools/lemon.c:532-536 | Counts exactly the slots that lookups at this offset would hit. |
| ActionTable.Acttab.Place | buildtools/lemon.c:478-552 | Grow, scan and write: the row is placed at the first acceptable offset, or found already there with nothing written. |
| ActionTable.Acttab.Insert | buildtools/lemon.c:478-553 | Records the round with its offset, only fills unused slots, and keeps the invariant (in Valid) that every round ever placed with distinct lookaheads still reads back: slot offset+X is in range and tagged X exactly when X was in that round, with its action. |
| ActionTable.PlacedReadsBack | buildtools/lemon.c:542-552 | After placing, a lookup at the returned offset hits exactly the row's lookaheads and finds their actions. |
| ActionTable.PlacedKeepsOthers | buildtools/lemon.c:542-552 | Placing a row neither disturbs an earlier round nor creates a hit for it. |
| ActionTable.HistoryReadsBack | buildtools/lemon.c:393-553 | Every round of the whole history reads back after one more round. |
| Grammars.DerivesIffRewrites | buildtools/lemon.c:604-608 | Derivation by trees and by rewriting of sentential forms are the same; the meaning of "derives" for all later results. |
| FirstSets.FindLambda | buildtools/lemon.c:611-631 | The first loop stops, and marks exactly the nonterminals that derive the empty string. |
| FirstSets.FindFirstSets | buildtools/lemon.c:604-654 | Both loops stop; lambda(X) iff X derives the empty string; t is in firstset(X) iff X derives some sentential form that begins with the terminal t. |
| FirstSets.FirstPass | buildtools/lemon.c:633-652 | A pass either adds something, or changes nothing and every rule has given its set all it has to give. |
| MergeSort.Merge | buildtools/lemon.c:1515-1551 | Relinks two lists into one that holds exactly their nodes; ties take the second list's node first. |
| MergeSort.MergeOfSorted | buildtools/lemon.c:1515-1551 | Merging the sorted newer part into the sorted older part is the stable sort of the whole. |
| MergeSort.Capacity | buildtools/lemon.c:1577-1589 | Bins i and up hold at most 2^30 - 2^i elements, and that many exactly when all of them are full. |
| MergeSort.AddNode | buildtools/lemon.c:1579-1586 | One more node is carried through the bins, which keep their binary-counter invariant and, unless all are full, everything they held. |
| MergeSort.MergeAll | buildtools/lemon.c:1588-1590 | Merging all bins gives the stable sort of everything they hold. |
| MergeSort.Msort | buildtools/lemon.c:1567-1591 | For any total preorder: below 2^30 nodes the result is the stable sort of the list, on its own nodes; the list keeps its length if and only if it has fewer than 2^30 nodes. |
| MergeSort.StableSortSorted | buildtools/lemon.c:1567-1591 | The stable sort is sorted. |
| MergeSort.StableSortPermutes | buildtools/lemon.c:1567-1591 | The stable sort is a permutation. |
| MergeSort.StableSortIsStable | buildtools/lemon.c:1567-1591 | Elements that compare equal keep their order. |
| Items.ClosureIsLeast | buildtools/lemon.c:1142-1179 | The closure is contained in every closed set around the basis. |
| Items.ClosureOrigin | buildtools/lemon.c:1142-1179 | An item of the closure is in the basis or is asked for by an item of the closure. |
| Configlists.FeedConfig | buildtools/lemon.c:1163-1174 | The inner walk adds to a follow set exactly the terminals that can begin what follows the next symbol, and tells whether all of that can vanish. |
| Configlists.CloseConfigs | buildtools/lemon.c:1142-1179 | The list becomes exactly the closure of what it held, with exact follow sets and propagation links, whatever order items are found in. |
| StateTables.StateCmp | buildtools/lemon.c:4274-4288 | The sign of the comparison: zero exactly for equal bases, negative exactly when the first comes before the second in the order by items, positive exactly when the second comes first. |
| StateTables.KeysCompare | buildtools/lemon.c:4274-4288 | That order is total: exactly one of before, equal and behind. |
| StateTables.KeyBeforeTransitive | buildtools/lemon.c:4274-4288 | It is transitive, so a sign of the comparison can be relied on. |
| StateTables.StateFind | buildtools/lemon.c:4417-4431 | Finds the state with this basis, or there is none. |
| StateTables.Rehash | buildtools/lemon.c:4377-4402 | All states are on their chains again in a table of another size. |
| StateTables.StateInsert | buildtools/lemon.c:4357-4412 | The new state is found under its basis with all the old ones; a full table doubles first. |
| Lr0.GatherBasis | buildtools/lemon.c:787-798 | From the first unused configuration with symbol x behind its dot, the basis gathered is exactly all items advanced over x, each once, and exactly these are marked. |
| Lr0.MakeState | buildtools/lemon.c:746-753 | A new state holds the closure of its sorted basis. |
| Lr0.Lemon.GetState | buildtools/lemon.c:720-760 | Returns the one state with this basis; older states are as they were and all new ones are finished; the recursion ends because every new state uses up a basis not seen before. |
| Lr0.Lemon.NewState | buildtools/lemon.c:745-758 | The branch for a basis not in the table: a state is made, entered and finished. |
| Lr0.Lemon.BuildShifts | buildtools/lemon.c:765-808 | Every symbol that can be read gets one shift, to the state whose basis is all items advanced over it, and every item advanced gets its link back. |
| Lr0.Lemon.FindStates | buildtools/lemon.c:661-710 | Builds the LR(0) automaton: each state the closure of its basis, no basis twice, every state reached by some string of symbols, all shifts and links there, end of input as the first state's lookahead. |
| States.LeadsToBasis | buildtools/lemon.c:720-808 | Reading a string of symbols arrives at the state with exactly the items that string leads to. |
| States.EveryBasisHasState | buildtools/lemon.c:720-808 | Every string of symbols that some item can read has its state, and only one. |
| FollowSets.PassOn | buildtools/lemon.c:867-877 | Unioning a configuration's set into its links loses nothing and adds nothing beyond any bound that respects the links; it makes progress exactly when something was new. |
| FollowSets.FindFollowSets | buildtools/lemon.c:849-880 | The worklist stops, and then t is in a set if and only if some configuration that held t at the start reaches it through forward links. |
| Lookaheads.FindLinks | buildtools/lemon.c:813-843 | Turns the backward links into forward links, exactly. |
| Lookaheads.ComputeLookaheads | buildtools/lemon.c:813-880 | A lookahead is in a configuration's set exactly if it is carried there from a configuration that was given it; only terminals are. |
| Lookaheads.LookaheadsFlow | buildtools/lemon.c:849-880 | A configuration has at least what its own state gave it and passes on all it has. |
| Lookaheads.StartRuleLookaheads | buildtools/lemon.c:700-707 | A rule of the start symbol is reduced at the end of input only. |
| Actions.ActionsCompare | buildtools/lemon.c:350-364 | The order of actions is a total preorder, as the sort needs. |
| Actions.ResolveConflict | buildtools/lemon.c:970-1024 | Of a shift and a reduce, or two reduces, on one symbol the one with higher precedence stays, associativity decides a tie, and otherwise the second is marked as a conflict and counted; any other pair is left alone. |
| Actions.ResolveConflicts | buildtools/lemon.c:926-940 | Of a sorted list: exactly one live action stays on every symbol that had a shift or reduce, nothing new appears, the count is the number of actions marked CONFLICT, and the list is that of one scan that lets each action meet the one still live before it on its symbol, under the declared precedences. |
| Actions.CollectActions | buildtools/lemon.c:895-924 | A state gets exactly its shifts, the reduces of its completed rules on their lookaheads, and the accept of the first state, each once. |
| Actions.SortedGrouped | buildtools/lemon.c:931-932 | After sorting, the actions on one symbol stand together: at most one shift, first, then reduces; an accept alone. |
| Actions.FindStateActions | buildtools/lemon.c:886-940 | What becomes of every action of a state, one live action per symbol that had any, and the conflicts counted; with no precedence and no conflict every action is live. |
| Contention.ContendersAre | buildtools/lemon.c:895-932 | The contenders of a symbol in a state, listed shift first and then reduces by the order of rules, are exactly the actions on it. |
| Contention.SortedAreContenders | buildtools/lemon.c:926-940 | The row of a state is the scan of all its contenders, symbol by symbol, under the declared precedences. |
| Contention.WinnerHolds | buildtools/lemon.c:936-940 | On one symbol the action left live is the winner: each contender in turn takes the place of the one before that it beats; and a conflict is marked for every contender that neither beats nor is beaten. |
| Contention.WinnersAreLive | buildtools/lemon.c:926-940 | In the row of a whole state the winner of every symbol is live. |
| Contention.ConflictsAreUndecided | buildtools/lemon.c:926-940 | The conflicts marked in a row are those of its symbols, added up. |
| Contention.ShiftAgainstReduce | buildtools/lemon.c:978-1006 | Of a shift and a reduce whose rule has a precedence symbol: the higher precedence wins; on a tie a left-associative token reduces and a right-associative one shifts; in every other case, an undeclared precedence included, the shift stays and one conflict is counted. |
| Contention.ReduceAgainstReduce | buildtools/lemon.c:1007-1020 | Of two reduces the one of higher precedence wins; where one has none or both are equal the earlier rule stays and one conflict is counted. |
| Lalr.BeginsIsFirst | buildtools/lemon.c:1163-1174 | The set computed behind a dot is exactly the terminals that something derived from there begins with. |
| Lalr.CarriedIsLookahead | buildtools/lemon.c:813-880 | Whatever is carried along the links can follow the rule after some string that leads to the state: no lookahead is spurious. |
| Lalr.LookaheadIsHeld | buildtools/lemon.c:813-880 | Whatever can follow it after such a string is carried there: none is missing. |
| Lalr.LookaheadsExactly | buildtools/lemon.c:813-880 | A lookahead is in a configuration's set if and only if after some string of symbols that leads to the state the rule can be followed by it. |
| Compression.MostFrequent | buildtools/lemon.c:3805-3823 | No rule has more reduces in the row than the one found, and none that has as many comes before it. |
| Compression.CompressRow | buildtools/lemon.c:3803-3840 | If any rule has at least two reduces, the first of the most frequent becomes the default and its reduces go; otherwise nothing is changed. |
| Compression.FoldingPreserves | buildtools/lemon.c:3794-3841 | Every live action before folding is taken after it, explicitly or by default; and what is taken after was there before or is the default on a symbol that had no action. |
| Tables.PlaceRow | buildtools/lemon.c:3493-3516 | One row becomes one round of the action table. |
| Tables.PackRows | buildtools/lemon.c:3485-3518 | For any order that lists larger rows first: every row of every state reads back at its offset, and only rows without actions have none. |
| Tables.LookIsHit | buildtools/lemon.c:3520-3556 | The columns as written, with fillers for unused slots, answer a lookup exactly as the table itself. |
| Tables.ReportTables | buildtools/lemon.c:3453-3610 | Both lookups of the driver, on the tables as written, give what each row asks for on every terminal and nonterminal: its live action, else its default, else the error action. |
| Tables.LooksUp | buildtools/lempar.c:322-386 | The lookup by offset, offset sentinel and lookahead check finds a row's live action on x, or the row's default if it has none. |
| Generator.FindActions | buildtools/lemon.c:886-940 | All states get rows that say exactly what the automaton and its lookaheads ask for: what each action has become, one live action on every symbol that had any, each row the scan of its contenders under the declared precedences, and as many conflicts reported as are left undecided in all rows together. |
| Generator.CompressTables | buildtools/lemon.c:3794-3841 | Every row is compressed, which keeps what it does, and no default reduces by a start rule. |
| Generator.TablesDrive | buildtools/lemon.c:3453-3610 | A shift lookup gives a transition of the automaton, a reduce by a rule the state has completed (by a start rule only at the end of input), or an error; a goto lookup gives the transition, and accept for the start symbol in the first state. |
| Generator.TablesTakeAll | buildtools/lemon.c:3453-3610 | Where nothing had to be resolved the tables take every shift and every reduce that the lookaheads allow. |
| Generator.TablesTakeWinners | buildtools/lemon.c:3453-3610 | On every terminal with an action in a state the tables take the winner of its contenders. |
| Generator.TablesTakeDefaults | buildtools/lemon.c:3794-3841 | On a terminal without actions in a state the tables take the reduce that was folded there, or the error action when no rule has two reduces left live. |
| Generator.WinnersByPrecedence | buildtools/lemon.c:970-1024 | Told by precedences alone: a single action is taken whatever they are; of a shift and a reduce, or two reduces, the one they choose; without a choice the shift or the earlier rule. |
| Generator.ConflictsByPrecedence | buildtools/lemon.c:936-940 | Such a pair adds one to the conflicts reported exactly when the precedences do not choose. |
| Generator.Generate | buildtools/lemon.c:1420-1452 | The passes one after the other: exact lambda and FIRST, the automaton, exactly the LALR(1) lookaheads, and tables that drive it, take the winner among several actions as the declared precedences choose it and the folded default where there is none, and report as many conflicts as are left undecided; without precedences and conflicts they take every action. |
| Walks.GeneratedWalk | buildtools/lemon.c:720-808 | The automaton as the driver needs it: items advance along transitions, an item at the start of its rule was asked for, nothing leads back to the first state; and the tables fit it. |
| Driver.PopsHandle | buildtools/lempar.c:488-496 | The symbols an item has read are on top of the stack, and below them is a state where its rule began. |
| Driver.ShiftKeeps | buildtools/lempar.c:391-431 | After a shift the stack spells the tokens read and the new one. |
| Driver.ReduceKeeps | buildtools/lempar.c:446-512 | A reduce by a rule the top state has completed is never stuck: the popped entries spell its right-hand side, the bottom stays, the goto lookup gives a state or accept; afterwards the stack spells the same tokens, and accept means that the start symbol derives them. |
| Driver.TurnKeeps | buildtools/lempar.c:618-627 | Every turn of the loop keeps this, for every lookahead. |
| Driver.RunKeeps | buildtools/lempar.c:585-627 | So does a whole call of Parse; accept comes only with end of input as the lookahead. |
| Driver.OverflowMeansFull | buildtools/lempar.c:399-412 | A turn overflows only a stack that is as deep as it may be. |
| Driver.Parser.YyShift | buildtools/lempar.c:391-431 | Pushes an entry, or empties the stack when it is full. |
| Driver.Parser.YyReduce | buildtools/lempar.c:446-512 | Pops the right-hand side, looks up the goto, and pushes or accepts. |
| Driver.Parser.ParseTurn | buildtools/lempar.c:618-627 | One turn of the loop: look the action up, shift, reduce, accept or report an error; overflow only when the stack was full. |
| Driver.Parser.Parse | buildtools/lempar.c:585-627 | Runs the tables on the stack; in every error-free run the symbols on it derive exactly the tokens read since initialisation, and acceptance means that the start symbol derives them all. |
| Language.AcceptedIsDerived | buildtools/lempar.c:585-713 | Whatever a sequence of calls accepts is derived by the start symbol. |
| Language.NeedAllIsMax | buildtools/lempar.c:391-431 | The stack that a row of trees needs: for each tree what it needs itself on top of one entry for each tree before it, and the most of these. |
| Language.TreeGoes | buildtools/lempar.c:585-627 | From a state that asks for the root of a derivation tree the parser reads the tree's tokens and pushes the root, growing the stack by exactly what the tree needs, or overflows when that is more than its depth. |
| Language.DerivedIsAccepted | buildtools/lempar.c:585-627 | With tables that take every action, given turns enough, a derivation that fits on the stack is accepted and any other overflows it. |
| Language.GeneratedIsSound | buildtools/lemon.c:1420-1452 | The generated parser accepts nothing but sentences of the grammar. |
| Language.GeneratedIsComplete | buildtools/lemon.c:1420-1452 | When the generator takes every action, for every derivation tree and every depth, given turns enough, the generated parser accepts when the tree fits on its stack and overflows when it does not. |
| Language.SentenceNeedsDepth | buildtools/lempar.c:391-431 | For every sentence there is one least depth: from it on the parser accepts, and below it overflows. |
| Bits.BitGet | ficl/bit.c:3-10 | Bit `index` of a byte string, the highest bit of a byte first. |
| Bits.BitSet | ficl/bit.c:14-25 | Changes that bit and no other. |
| Bits.BitGetString | ficl/bit.c:27-32 | Copies count bits to the end of the first destAlignment bits and changes nothing else. |
| Bits.NetworkIsBigEndian | ficl/bit.c:39-49 | On either byte order the memory image of a converted number is its big-endian image. |
| Bits.NetworkReads | ficl/bit.c:39-49 | Four bytes loaded and converted give their big-endian value. |
| LzTokens.BestMatchIsLongest | ficl/lzcompress.c:10-61 | The match chosen is at least as long as every other useful one, and the first of its length. |
| LzTokens.TokenIsLongest | ficl/lzcompress.c:129-156 | No bytes of the window that come again at the position, and leave a byte for the literal, are longer than the phrase taken, or as long and earlier; towards the end of the input only as much of the window counts as input remains. |
| LzTokens.TokenDescribes | ficl/lzcompress.c:129-156 | A phrase's match lies in the window and ends before the position, so it never runs past what both sides have, and the literal byte follows it. |
| LzTokens.TokensSpell | ficl/lzcompress.c:129-183 | The tokens, one after the other, spell out the whole input. |
| LzTokens.StreamSize | ficl/lzcompress.c:129-183 | Never more than nine bits for an input byte, and at least 26 bits for every 34 bytes. |
| LzTokens.ReadsBack | ficl/lzuncompress.c:61-85 | Reading a token from the stream undoes writing it, whatever bits follow: no field loses bits. |
| LzTokens.EmitExtends | ficl/lzuncompress.c:75-87 | Emitting a token that describes the input extends a correct prefix of the output. |
| LzTokens.UnpackEmits | ficl/lzuncompress.c:58-88 | The reading loop emits exactly the tokens of the stream, whatever bits come after. |
| LzTokens.EmitAllInverts | ficl/lzuncompress.c:58-88 | Emitting tokens that spell the rest of the input completes it. |
| LzFormat.FieldReads | ficl/lzcompress.c:65-100 | A header field reads back as written for every value below 2^31 other than 252 and 65536. |
| LzFormat.RoundTrip | ficl/lzuncompress.c:31-94 | Uncompressing the compressor's output returns the input when both header values are plain. |
| LzFormat.RoundTripExactly | ficl/lzuncompress.c:31-94 | For every input below 2^31 bytes: it is compressed and comes back if and only if its token bits fit the allocation and an int, and neither its length nor its bit count is 252 or 65536. |
| LzFormat.AllocationSuffices | ficl/lzcompress.c:119-121 | Below 2^31 bytes: the allocation holds nine bits a byte if and only if five times the length does not wrap. |
| LzFormat.AllocationOverrun | ficl/lzcompress.c:119-163 | From 858993460 to 930000000 bytes, and from 1717986919 to 1860000000, the token bits of every input run past the allocation. |
| LzFormat.ShortFits | ficl/lzcompress.c:119-163 | Up to 238609294 bytes every input fits. |
| LzFormat.CountOf252Fails | ficl/lzuncompress.c:8-27 | A stream of 252 bits does not uncompress. |
| LzFormat.SizeOf252Fails | ficl/lzuncompress.c:8-27 | An input of 252 bytes does not uncompress. |
| LzFormat.SizeOf65536Fails | ficl/lzcompress.c:65-100 | An input of 65536 bytes does not come back. |
| LzFormat.CountOf65536Fails | ficl/lzcompress.c:65-100 | A stream of 65536 bits does not come back. |
| LzCompress.CompareWindow | ficl/lzcompress.c:10-61 | The longest useful match of the buffer in the window, the first of that length, and the byte behind it. |
| LzCompress.EncodeHeaderField | ficl/lzcompress.c:65-100 | Writes the field's bytes, advances by their number and changes nothing else. |
| LzCompress.ChooseToken | ficl/lzcompress.c:131-156 | The first half of the loop body chooses the token of the position. |
| LzCompress.SlideWindow | ficl/lzcompress.c:166-182 | Keeps the window at the last 4096 bytes before the position, or all of them. |
| LzCompress.CompressTokens | ficl/lzcompress.c:119-183 | The token stream goes into the buffer, with zeros behind it, if and only if its length is within the limit; no bit is written beyond that. |
| LzCompress.Compress | ficl/lzcompress.c:104-201 | The file is header, header and packed stream, byte for byte; there is none exactly when the token bits do not fit the allocation or an int. |
| LzUncompress.DecodeHeaderField | ficl/lzuncompress.c:8-27 | Value and position as the byte counts say; nothing when it would read past the data. |
| LzUncompress.TakeToken | ficl/lzuncompress.c:61-80 | Reads a token up to its literal. |
| LzUncompress.Expand | ficl/lzuncompress.c:75-87 | Moves the phrase and the literal into the output buffer, as emitting the token says, or reports that they do not fit. |
| LzUncompress.Uncompress | ficl/lzuncompress.c:31-94 | The whole file: the output, or nothing when it would read or write out of bounds. |
| ForthCompiler.Compiler.MarkBranch | ficl/primitives.c:73-78 | Pushes the dictionary position and a tag. |
| ForthCompiler.Compiler.MatchControlTag | ficl/primitives.c:86-103 | Succeeds exactly on the wanted tag, and pops it. |
| ForthCompiler.Compiler.ResolveBackBranch | ficl/primitives.c:109-123 | Compiles the offset back to the marked position, or throws. |
| ForthCompiler.Compiler.ResolveForwardBranch | ficl/primitives.c:131-144 | Patches the marked cell with the offset to here, or throws. |
| ForthCompiler.Compiler.ResolveAbsBranch | ficl/primitives.c:152-174 | Patches the marked cell with the address here; an unmatched tag is tolerated. |
| ForthCompiler.Compiler.Roll | ficl/stack.c:348-381 | For a positive n the n-th entry goes to the top and those above it move down, for a negative one the top goes to the n-th place and those in between move up, cell by cell. |
| ForthCompile.RollUndone | ficl/stack.c:348-381 | The two directions undo each other. |
| ForthCompiler.Compiler.If | ficl/primitives.c:598-606 | Compiles a branch on zero with a placeholder and marks it. |
| ForthCompiler.Compiler.ElseWord | ficl/primitives.c:623-639 | Compiles a branch over the other part, patches the open IF past it, and marks the new branch. |
| ForthCompiler.Compiler.OfWord | ficl/primitives.c:733-758 | Opens an arm, and patches a branch that fell through to get past the OF. |
| ForthCompiler.Compiler.EndofWord | ficl/primitives.c:769-798 | Closes an arm with one more branch out of the CASE and patches its OF. |
| ForthCompiler.Compiler.FallthroughWord | ficl/primitives.c:808-838 | Closes an arm with a branch that waits for the next OF or ENDCASE. |
| ForthCompiler.Compiler.EndcaseWord | ficl/primitives.c:684-724 | Drops the selector and patches every branch out of the CASE, one that fell through last included. |
| ForthCompiler.Compiler.DoLoop | ficl/primitives.c:1083-1117 | Compiles the loop start with room for the leave address and marks both. |
| ForthCompiler.Compiler.Loop | ficl/primitives.c:1123-1142 | Compiles the branch back and fills in the leave address. |
| ForthCompiler.Compiler.While | ficl/primitives.c:1921-1935 | Compiles a branch on zero and puts its mark below that of BEGIN. |
| ForthCompiler.Compiler.RepeatWord | ficl/primitives.c:1938-1948 | Compiles the branch back to BEGIN and patches the WHILE past it. |
| ForthCompiler.Compiler.CompileLiteral | ficl/primitives.c:989-1041 | One cell from -16 to 16, otherwise an instruction and a number. |
| ForthCompiler.Compiler.CompileText | ficl/primitives.c:598-839 | Word after word, until the end or the first that throws. |
| ForthCompiler.Compiler.CompileProgram | ficl/primitives.c:73-174 | A well-nested text succeeds, appends exactly the code of its program with every placeholder patched, and leaves the control entries as it found them. |
| ForthCompiler.CompiledStatement | ficl/primitives.c:598-839 | The same for one statement of any shape, nested to any depth. |
| ForthStructure.EndcaseState | ficl/primitives.c:684-724 | ENDCASE patches exactly the branches that lead out of the CASE. |
| ForthStructure.PatchedArms | ficl/primitives.c:684-839 | Patching them turns the pending code of all arms into their final code. |
| ForthStructure.WhileStack | ficl/primitives.c:1921-1935 | Rolling twice swaps the two marks. |
| ForthNesting.RefusesOthers | ficl/primitives.c:73-174 | Every word that needs an open structure throws unless the tag on top of the stack is one of its own. |
| ForthNesting.MismatchedText | ficl/primitives.c:598-839 | A structure opened by one word, with any well-nested text inside, and closed by the word of another is refused. |
| ForthNesting.NothingOpen | ficl/primitives.c:598-839 | So is a closing word with nothing open before it. |
| ForthLoops.LoopTurns | ficl/vm.c:1389-1422 | Below its limit a DO loop runs its body once for every index up to the limit, without it. |
| ForthLoops.LoopPastLimit | ficl/vm.c:1389-1422 | At or past the limit it runs once. |
| Words.WrapCellCongruent | ficl/vm.c:1397-1407 | What the index of a loop keeps of a sum differs from it by a multiple of 2^32. |
| ForthLoops.LoopWraps | ficl/vm.c:1389-1422 | Behind the greatest index it goes on from the least. |
| ForthLoops.UpTurns | ficl/vm.c:1389-1422 | +LOOP upwards ends at the first index that is not below the limit, after exactly the turns before it. |
| ForthLoops.DownTurns | ficl/vm.c:1389-1422 | +LOOP downwards ends at the first index below the limit. |
| ForthLoops.IndexSteps | ficl/vm.c:1389-1422 | With a constant step the indices are the first and its successors a step apart, as many as are short of the limit, or at or above it for a step down. |
| ForthLoops.UntilTurns | ficl/vm.c:1297-1319 | UNTIL runs its body up to the first flag that is not zero. |
| ForthLoops.ArmsTake | ficl/vm.c:1321-1344 | Among arms with constant keys a CASE takes the first with the selector, or none. |
| ForthCorrect.RunsStmt | ficl/vm.c:1266-1464 | The code of a statement takes the machine where the evaluation of its source says: past it with the same stacks, out of the loop around it by LEAVE, into a fault, or on for as many turns as asked. |
| ForthCorrect.RunsLoop | ficl/vm.c:1389-1422 | A DO loop with the exit test as coded, wrap-around of the index included. |
| ForthCorrect.RunsArms | ficl/vm.c:1321-1344 | A CASE takes the first arm whose test equals the selector, or comes to the default. |
| ForthCorrect.RunsBodies | ficl/vm.c:1315-1344 | An arm that falls through runs into the body of the next. |
| ForthTheorem.DefinitionDoes | ficl/vm.c:1266-1464 | A compiled definition returns, faults or goes on as its source does, for every amount of fuel. |
| ForthTheorem.ReturnsExactly | ficl/vm.c:1266-1464 | It returns with a data stack if and only if the source ends with it, and the return stack is the caller's. |
| ForthTheorem.FaultsExactly | ficl/vm.c:1266-1464 | It faults if and only if the source does. |
| ForthTheorem.DivergesExactly | ficl/vm.c:1266-1464 | It runs for ever if and only if no fuel is enough for the source. |
| ForthPeephole.Optimized | ficl/vm.c:146-174 | The recursion ends because each visit looks at one branch less; what it leaves is well-formed, changes only branches, and leaves those already looked at alone. |
| ForthPeephole.OptimizedEquivalent | ficl/vm.c:146-174 | Every program point and every branch taken leads to the same first cell that is no unconditional branch, or still to none, cycles included. |
| ForthDirect.OptimizedDirect | ficl/vm.c:146-174 | If every branch already looked at goes where it settles, or settles nowhere, so it is afterwards, for the branch it is called for and all it visits too. |
| ForthDirect.SelfAfterDirect | ficl/vm.c:1274-1291 | And all along a run. |
| ForthSelfMod.SelfAfterEquivalent | ficl/vm.c:1274-1291 | All along a run the code stays equivalent to the one it started from. |
| ForthSelfMod.RewritingIsInvisible | ficl/vm.c:1274-1319 | The interpreter that rewrites branches returns, with the same stacks, or faults, if and only if the one that does not rewrite does. |
| ForthWellFormed.DefinitionOk | ficl/primitives.c:598-839 | Compiled code is well-formed: every branch goes to an instruction. |
| ForthEndToEnd.CompiledTextRuns | ficl/vm.c:1266-1464 | Text compiled behind any well-formed dictionary and run by the rewriting interpreter: same outcome as the source. |
| ForthEndToEnd.CountingText | ficl/vm.c:1346-1422 | limit first DO I LOOP, compiled and run by the rewriting interpreter, leaves the numbers from the first up to the limit, without it. |
| ForthEndToEnd.SteppingText | ficl/vm.c:1346-1422 | limit first DO I step +LOOP leaves the numbers from the first on, a step apart, up to the limit; a step down still takes the limit itself. |
| ForthEndToEnd.EmptyRangeText | ficl/vm.c:1346-1422 | From the limit itself DO runs once and ?DO not at all. |
| ForthEndToEnd.IfText | ficl/vm.c:1297-1319 | A flag other than zero takes the text before ELSE, zero the text behind it. |
| ForthEndToEnd.CaseTextLeaves | ficl/vm.c:1321-1344 | A CASE with constant keys leaves the value of the first arm with the selector, or nothing, and drops the selector. |
| ForthVm.Interpreter.OptimizeJumpToJump | ficl/vm.c:146-174 | Rewrites the code array in place, recursion included. |
| ForthVm.Interpreter.BranchIfZero | ficl/vm.c:1297-1319 | Pops the flag and branches when it is zero. |
| ForthVm.Interpreter.OfBranch | ficl/vm.c:1321-1344 | Drops the selector on a match, keeps it otherwise. |
| ForthVm.Interpreter.StartLoop | ficl/vm.c:1346-1387 | Loop parameters to the return stack; ?DO leaves when they are equal. |
| ForthVm.Interpreter.EndLoop | ficl/vm.c:1389-1422 | The index steps with wrap-around; the loop ends when it has crossed the limit, as ForthLoops tells without the exit test. |
| ForthVm.Interpreter.LeaveLoop | ficl/vm.c:1430-1436 | Drops the parameters and goes to the leave address. |
| ForthVm.Interpreter.Turn | ficl/vm.c:1266-1464 | One turn: optimise a branch run for the first time, then run the instruction. |
| ForthVm.Interpreter.InnerLoop | ficl/vm.c:296-340 | So many turns, or until the word returns or throws. |
| DoubleCells.Add | ficl/double.c:166-185 | The sum modulo 2^64, with the carry found from the high bits. |
| DoubleCells.Subtract | ficl/double.c:217-230 | The difference modulo 2^64. |
| DoubleCells.Negate | ficl/double.c:91-100 | The negative modulo 2^64. |
| DoubleCells.ShiftLeft | ficl/double.c:237-250 | Twice the value modulo 2^64. |
| DoubleCells.ShiftRight | ficl/double.c:257-269 | Half the value. |
| DoubleCells.Compare | ficl/double.c:291-306 | Negative, zero or positive as the values compare. |
| DoubleCells.OrBit | ficl/double.c:276-284 | Or of a bit below those of the quotient adds it. |
| DoubleCells.Multiply | ficl/double.c:191-209 | The full product of two unsigned cells, always. |
| DoubleCells.MultiplyAccumulate | ficl/double.c:110-123 | The accumulator times the base plus the digit, modulo 2^64. |
| DoubleCells.MultiplySigned | ficl/double.c:130-152 | The signed product of two cells, always. |
| DoubleCells.Divide | ficl/double.c:316-353 | For y other than zero: dividend = quotient * y + remainder with remainder < y. |
| DoubleDivide.TruncIs | ficl/double.c:374-398 | What rounding towards zero means: the remainder has the sign of the dividend. |
| DoubleDivide.FloorIs | ficl/double.c:374-398 | What rounding down means: the remainder has the sign of the divisor. |
| DoubleDivide.AbsoluteValue | ficl/double.c:363-368 | The bits of the absolute value, the least number included. |
| DoubleDivide.DecrementExactly | ficl/double.c:156-163 | The low cell is always one less; the whole is exactly when the low cell is neither zero nor the least integer. |
| DoubleDivide.FlooredHighCellIsWrong | ficl/double.c:156-163 | Minus one divided by two fails the condition of DivideFloored: the quotient towards zero has a low cell of zero, and its decrement comes out with a high cell of zero. |
| DoubleDivide.DivideSymmetric | ficl/double.c:446-476 | Quotient rounded towards zero (modulo 2^64) and its remainder, for every dividend and every divisor but zero. |
| DoubleDivide.DivideFloored | ficl/double.c:399-435 | Remainder and low cell of the quotient rounded down are right; the whole quotient is if and only if no decrement meets a low cell of zero or of the least integer. |
| DoubleDivide.SmSlashRem | ficl/primitives.c:2867-2882 | Remainder and truncated quotient; the quotient is right if and only if it fits one cell. |
| DoubleDivide.FmSlashMod | ficl/primitives.c:2843-2858 | Remainder and floored quotient; the quotient is right if and only if it fits one cell. |
| DoubleDivide.StarSlashMod | ficl/vm.c:1649-1683 | x * y / z with an exact double-cell product. |
| NumberText.IsPowerOfTwo | ficl/utility.c:63-75 | The exponent, or zero when the number is no power of two above one. |
| NumberText.StringReverse | ficl/utility.c:24-43 | Reverses the text up to its NUL in place. |
| NumberText.WriteDigits | ficl/utility.c:101-120 | Digits from the least significant on, by mask and shift for a power of two and by double-cell division otherwise; at most 32. |
| NumberText.WrittenIsNumeral | ficl/utility.c:101-128 | Read backwards they are the positional numeral of the value. |
| NumberText.Ltoa | ficl/utility.c:82-128 | The buffer holds the numeral with a sign only for negative numbers in base ten. |
| NumberText.Ultoa | ficl/utility.c:135-161 | The buffer holds the unsigned numeral. |
| NumberText.ParseNumber | ficl/vm.c:2867-2933 | Sign, trailing point, digits in the base modulo the cell, and the cells pushed; the length is kept in one byte. |
| NumberLaws.PlusSign | ficl/vm.c:2880-2899 | A plus sign in front changes nothing. |
| NumberLaws.MinusSign | ficl/vm.c:2880-2899 | A minus sign in front pushes the negative, modulo the cell. |
| NumberLaws.TrailingPoint | ficl/vm.c:2897-2923 | A point behind pushes a zero first. |
| NumberLaws.CaseOfDigits | ficl/vm.c:2906-2920 | Texts that differ in the case of letters alone are the same number. |
| NumberLaws.NotANumberExactly | ficl/vm.c:2903-2918 | A text without sign and point is no number if and only if it is empty or has a character before any NUL that is no digit of the base. |
| NumberLaws.LengthByte | ficl/vm.c:2874 | Of a text of 256 characters or more only as many are seen as a byte holds of its length. |
| NumberLaws.OneDigitText | ficl/vm.c:2906-2920 | A single digit is its place in the order 0 to 9 and A to Z. |
| NumberLaws.DigitBehind | ficl/vm.c:2906-2920 | One digit more multiplies by the base and adds its value, modulo the cell. |
| NumberLaws.NumeralUpper | ficl/utility.c:46-55 | Letters are printed in upper case. |
| NumberLaws.SignExactly | ficl/utility.c:82-128 | A sign is printed exactly for negative numbers in base ten, in front. |
| NumberText.NumeralRead | ficl/vm.c:2906-2920 | Reading a numeral in its base gives its value modulo the cell. |
| NumberText.RoundTrip | ficl/utility.c:82-128 | For every cell and base 2 to 36 the text printed reads back as the cell, the least number included. |
| NumberText.UnsignedRoundTrip | ficl/utility.c:135-161 | So does unsigned printing in every base. |
| Dictionaries.HashTurn | ficl/hash.c:56-66 | After every character the four bits that came out at the top are folded back below: the code stays below 2^12. |
| Dictionaries.HashFolded | ficl/hash.c:46-70 | Names that differ in case alone have the same code. |
| Dictionaries.FoldedExactly | ficl/utility.c:188-201 | Two texts of one length fold to the same exactly when, up to a NUL, they agree at every place or have there the upper and the lower case of one ASCII letter. |
| Dictionaries.Strincmp | ficl/utility.c:188-201 | Zero exactly when the texts agree in that way. |
| Dictionaries.FindNewest | ficl/hash.c:126-134 | The search of a chain finds its newest match, or there is none. |
| Dictionaries.BucketIsEnough | ficl/hash.c:110-138 | With names of at most 31 characters the bucket search finds the newest match of the whole list. |
| Dictionaries.BucketsDoNotMatter | ficl/hash.c:110-138 | Two tables of any sizes with the same words give the same answer. |
| Dictionaries.CutChain | ficl/hash.c:22-35 | Unlinking keeps of a chain exactly the words below the address. |
| Forgetting.EndedLinks | ficl/dictionary.c:824-838 | Ending a definition adds exactly it, to exactly the current list; a word without a name joins none. |
| Forgetting.ForgottenLinks | ficl/hash.c:14-35 | Forgetting keeps of the current list exactly the words below the address. |
| Forgetting.ForgetBringsBack | ficl/tools.c:710-722 | FORGET of the word begun at the end of an old dictionary brings back that end and every bucket of the current list. |
| Forgetting.ForgetRestoresExactly | ficl/tools.c:710-722 | All buckets are back if and only if no other list has a word from there on. |
| Forgetting.ForgottenSoundExactly | ficl/tools.c:710-722 | What is left is a sound dictionary if and only if no other list has a word from there on and no word from there on is open. |
| Forgetting.ForgetAfterRun | ficl/tools.c:710-722 | The same over every run of definitions, allotments, changes of list, changes of search order and other FORGETs since. |
| Forgetting.ForgetAcrossLists | ficl/tools.c:710-722 | A word in one list, then one in another: FORGET of the first finds it, but the other list keeps a word beyond the end of the dictionary. |
| Forgetting.RunPlain | ficl/dictionary.c:323-357 | Over every run whose names have at most 31 characters, every linked word keeps the code and the length of its whole name. |
| History.RunRefines | ficl/dictionary.c:323-357 | Over every run the dictionary is told by its history: the linked words of each list are exactly the definitions that ended into it and were not forgotten, each with the header of its name. |
| History.LookupIsLastDefinition | ficl/dictionary.c:605-624 | Over every run from an empty dictionary, with tables of any sizes: looking up a name of at most 31 characters gives its last definition that has not been forgotten, in the topmost list of the search order that has one, and nothing when none has. |
| History.CaseDoesNotMatter | ficl/dictionary.c:605-624 | Names that differ in the case of ASCII letters alone find the same word, over every run. |
| History.LookupAsCoded | ficl/dictionary.c:605-624 | The same for names of every length, with the comparison as coded. |
| History.SizesDoNotMatter | ficl/hash.c:110-138 | Runs that come to one history find the same words, whatever the sizes of their tables. |
| History.AnswersShort | ficl/hash.c:110-138 | To a name of at most 31 characters exactly the definitions of that name answer, regardless of case. |
| History.AnswersLong | ficl/hash.c:110-138 | To a longer name, exactly those of its length with the same first 31 characters and in the same bucket. |
| History.LongNameFound | ficl/hash.c:110-138 | So a word is found under another name of its length. |
| Forgetting.Dictionary.constructor | ficl/dictionary.c:472-484 | Lists of the given sizes, all empty. |
| Forgetting.Dictionary.AppendString | ficl/dictionary.c:194-203 | At most 31 characters are copied, and the end of the dictionary goes to the first aligned address behind them and their NUL. |
| Forgetting.Dictionary.AppendWord | ficl/dictionary.c:323-357 | A header behind the copied name, open, or linked at once. |
| Forgetting.Dictionary.Unsmudge | ficl/dictionary.c:824-838 | Links the open word in front of its bucket and closes it. |
| Forgetting.Dictionary.SetOrder | ficl/search.c:190-217 | Sets the search order, or throws when it has more than 16 lists. |
| Forgetting.Dictionary.HashLookup | ficl/hash.c:110-138 | The first match of the bucket of the name's code. |
| Forgetting.Dictionary.LookupName | ficl/dictionary.c:605-624 | The search order from the top. |
| Forgetting.Dictionary.HashForget | ficl/hash.c:14-35 | Every bucket of the current list is cut at the address. |
| Forgetting.Dictionary.Forget | ficl/tools.c:710-722 | Throws when the name is not found; otherwise the current list is cut and the end set back to where the word's name begins, and the result is sound if and only if no definition is open and no other list has a word from there on. |

## Left out

- Driver.Parser.Parse: bounded by a number of turns, because a table can reduce for ever by empty rules; the theorems hold for every bound.
- Lr0.Lemon.FindStates: configurations and links are sequences and sets rather than linked lists taken from a pool, so the order of links is not captured; the hash table of configurations is membership in a set, and the array of states is in the order of insertion.
- The order that `qsort` leaves among rows of equal size is left open in the packing results; the generator as a whole picks a stable one.
- LzCompress.Compress: asks for an input below 2^31 bytes, which its counters hold as an `int`; where the original writes behind its allocation, or counts the bits beyond an `int`, the model stops without a file.
- Forgetting.Dictionary.Allot: a negative allotment, which takes words back like FORGET but leaves them linked, is not part of this model.
- Forgetting.Dictionary.SetOrder: a negative count, which resets the search order, is not part of this model.
- The passes of the generator sort with the stable sort that `msort` is proved to compute; that it does so below 2^30 nodes only is stated for `msort` alone.
- ForthVm.Interpreter.InnerLoop: bounded by a number of turns; data stack and return stack have no upper limit.
- ForthCompiler.Compiler.CompileProgram: one WHILE to a BEGIN, as in a well-nested text; other mixtures that ANS Forth allows are compiled by the same words but not claimed.
- Primitives of the interpreter are functions of the data stack alone: return-stack words, EXIT, UNLOOP, locals, DOES>, floats, strings, memory access and calls of other definitions are not part of this model.
- Lemon: error recovery and destructors, %fallback, the wildcard for "no lookahead", the grammar scanner, rule precedence lookup (precedences are parameters), reports and printing of C code.
- Ficl: word list inheritance through `hash->link`, MARKER, aborted definitions, compatibility functions, file access, the debugger, object words.
- The native double-integer path and 64-bit cells.
- Failure of memory allocation; addresses are indices or numbers.
- Characters are ASCII; locale-dependent case folding is not part of this model.
