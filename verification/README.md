# A verified model of the IFJ17 compiler's hard parts

The repository compiles a small BASIC-like language, IFJ17, to IFJcode17, and vendors the containers
and the line editor it uses. This Dafny project models four of its parts and proves what they are
for. Imperative code is modelled as classes and methods over mutable fields and arrays; each method
is proved against a specification function, and the properties are lemmas about those functions.

**The open-addressing hash table** (`deps/khash.h`) and its two clients. `Probing` holds the number
theory of the double-hashing walk, `Words` and `Masks` tie its remainders to the 32-bit masks of the
code, `BucketFlags` holds the packed two-bit states, `Sizing` the 32-bit size arithmetic, `Layout` what
one step of an operation or of the in-place rehash does to a bucket array, `TableView` the table
invariant as a value, `KHash` the table as a class, `ObjectHash` and `Strings` the object hash and the
string intern table. Main results: `Table.Resize`, `Table.Del` and `Table.Get` refine a finite map for
every table and every request, `Table.Put` for every table but one whose 2^31 buckets are all live;
`ObjectHash.Run` and `Strings.InternAll` say the same of whole runs.

**The recursive-descent parser** (`src/parser.c`) over a token sequence. `Ast`, `ParserSpec` (the
parser as functions), `Parser` (the parser as a class with a current token, equal to those
functions), `Productions` (the grammar's own list of operators, level by level), `Grammar` (derivations
of the precedence grammar), `ExprComplete`, `ExprSound`,
`Printer`, `Fewest`, `StmtRoundTrip`, `Swallowing`, `Collapse` (a repeated keyword argument
overwrites the earlier one), and `Holes` (what the parser accepts beyond the grammar). The functions of
`ParserSpec` take a flag `keep`: without it they are the parser, with it the tree lists every keyword
argument read. Main results: `ExprIff` and `Unambiguous` (tokens are read to a tree without holes
exactly when the grammar derives that tree from them), `NotCollapses`, `RoundTrip` with
`FewestParens`, and `ProgramRoundTripIff`. `StmtGrammar` gives the statements a grammar of their own,
`StmtComplete` and `StmtSound` prove the parser reads exactly it (`ProgramIff`), and `StmtCollapse` ties
this to the statements the parser builds.

**The code generator** (`src/codegen.c`). `Ifjcode` is the target: instructions, their text, and a
machine. `CodegenSpec` says which instructions a supported program gets; `Codegen` is the visitor
with its global counters, proved to print exactly the text of those instructions. `Labels` and
`LabelSound` treat the labels, `Meaning` gives the source its own semantics, and `Simulation`,
`CompilerCorrect` and `WholeProgram` prove the emitted code correct against it. `Spelling` renders the
output to characters and reads it back as an interpreter of the target language would, `PrintedText`
says exactly when the two undo each other, and `PrintedProgram` joins this to the compiler theorem:
`PrintedCorrect` is about running what was printed. The reader parses each line by patterns of its own
and the machine fails on a temporary that was not declared, so a missing line shows. `PrintedLines` spells
out the characters of every instruction and the whole output of one acceptance test.

**The line editor** (`deps/linenoise`). `Utf8` codes and decodes characters, `LineEdit` is the byte
buffer edited by character position, `LineKeys` the keys and whole editing sessions, `History` the
bounded list of lines and its file format, `HistoryFile` what comes back from a saved history. What a
key does is stated twice: as a function that sessions are told in, and key by key about the line's own
fields (`LineKeys.Handle`); likewise the file format, byte by byte (`History.SavedStands`,
`History.UnescapeReads`).

Properties found not to hold everywhere are stated with the exact condition under which they do:

- Labels are unique exactly when no `if` is nested (`LabelSound.UniqueIffFlat`), and loops close
  themselves exactly when none has two loops directly in its body (`LabelSound.BracketedIffSlim`).
- An `elseif` without `else` falls into the first arm when no test holds
  (`WholeProgram.FallsIntoFirstArm`, `WholeProgram.SkippedIff`).
- A prefix operator without operand and a comma after the last argument are accepted and leave a hole
  in the tree (`Holes.MissingOperand`, `Holes.TrailingComma`). Accepted tokens are a phrase of the
  grammar exactly when the tree that lists everything read has no hole (`ExprSound.ExprIff`). In the
  parser's own tree a repeated keyword can cover a hole up (`Holes.HiddenHole`); without repeats the two
  trees are one (`Holes.SoundUnlessRepeated`), and in general the own tree is what is left of a derived
  one exactly when what was read has no hole (`Holes.ParserIff`).
- An expression that fails half-way ends a `print` without an error (`StmtCollapse.ErrorForgotten`); a
  program is one of the statement grammar exactly when what was read has no such failure and no other
  hole (`StmtSound.ProgramIff`, `StmtCollapse.ParserProgramIff`).
- A program reads back exactly when nowhere in it, at any depth, a `print` with values stands right
  before an expression statement (`Swallowing.ProgramRoundTripIff`).
- The printed program is the generated one exactly when no name or string literal contains a blank, a
  control character, `#` or a backslash, no number carries a sign of its own, and the printed form of
  each float reads back (`PrintedProgram.PrintedIff`); a string with a line end in it can print as two
  instructions (`PrintedProgram.LiteralSplits`).
- In the UTF-8 build an insertion leaves the buffer terminated exactly when the byte at its new end
  was already zero (`LineEdit.Line.InsertChar`, `LineKeys.LeavesByteBehind`), and a removal leaves zeros
  behind exactly when the character had one byte (`LineEdit.ZerosKeptIff`). The comment that the buffer
  is always null terminated (`deps/linenoise/linenoise.c:163`) therefore holds for the one-byte build
  the compiler uses, and in the other for sessions that take out one-byte characters only
  (`LineKeys.Session`).
- Transposing on a line of one character, or on a full line, loses a character
  (`LineKeys.TransposeChars`).
- A history without repeats comes back from its file exactly when each line, escaped, is shorter than
  the 4095 bytes one read takes, or is exactly as long, ends in neither newline nor carriage return, and
  has an empty line after it (`HistoryFile.HistoryIff`).
- Yanking what was just cut restores line and cursor exactly when the line was not full, for cuts to the
  left of the cursor (`LineKeys.YankUndoesKillLeftIff`); after a cut to its right the cursor ends up
  behind the text (`LineKeys.YankUndoesKillRightIff`).
- `kroundup32` wraps to 0 above 2^31 (`Sizing.RoundUpLeast`), so a table never has more buckets. Setting
  a key is a map update exactly when the key is there or fewer than 2^31 are; in a full table it
  overwrites the value of another key (`ObjectHash.Set`, `KHash.Table.PutValue`).

## Model

| member | source | states |
|---|---|---|
| `Probing.OddInverse` | deps/khash.h:148 | every odd stride has an inverse modulo every power of two |
| `Probing.SpreadBits` | deps/khash.h:148 | bit by bit, the word `__ac_inc` computes before it is masked: the lowest bit is set, every other one says whether the bits three places above and below it differ |
| `Probing.ProbeStep` | deps/khash.h:206 | one step of the walk is the next term of the probe sequence, for the stride of `__ac_inc`; that the mask takes this remainder is `Masks.StepIsMask` |
| `Probing.ProbeCovers` | deps/khash.h:148 | for every hash and every bucket of a power-of-two table, some step before the `n`th lands on that bucket |
| `Probing.ProbeInjective` | deps/khash.h:203-208 | two different steps below `n` land on different buckets |
| `Probing.ProbeCoverage` | deps/khash.h:203-208 | the first `n` steps visit every bucket exactly once and step `n` is back at `last` |
| `Masks.StartIsMask` | deps/khash.h:203 | on 32-bit words, `k & mask` is the start of the probe sequence, for every hash and every power of two up to 2^31 |
| `Masks.StrideIsMask` | deps/khash.h:148 | the word that `__ac_inc` computes and masks is the stride of the probe sequence |
| `Masks.StepIsMask` | deps/khash.h:206 | `(i + inc) & mask` does not wrap and is `(i + inc) % n_buckets` |
| `BucketFlags.SlotAtShift` | deps/khash.h:137-139 | the bit pair that the shift macros read at a bucket is the pair found by counting pairs off the low end of the word |
| `BucketFlags.SetDelPair` | deps/khash.h:143 | setting a tombstone bit changes the addressed pair of the 32-bit word and leaves the other fifteen pairs alone |
| `BucketFlags.ClearEmptyPair` | deps/khash.h:141 | clearing the empty bit changes only the addressed pair |
| `BucketFlags.ClearBothPair` | deps/khash.h:142 | clearing both bits makes the addressed bucket live and changes no other pair |
| `BucketFlags.AllEmptyPair` | deps/khash.h:195 | the fill pattern `0xaa` bytes reads as "empty" at every position |
| `BucketFlags.Flags.AllEmpty` | deps/khash.h:151 | `__ac_fsize` words are allocated, and every bucket and every padding position reads empty |
| `BucketFlags.Flags.Reset` | deps/khash.h:195 | every bucket and every padding position reads empty again |
| `BucketFlags.Flags.IsEmpty` | deps/khash.h:137 | the packed bit is the bucket's empty state |
| `BucketFlags.Flags.IsDel` | deps/khash.h:138 | the packed bit is the bucket's tombstone state |
| `BucketFlags.Flags.IsEither` | deps/khash.h:139 | zero exactly for a live bucket |
| `BucketFlags.Flags.SetDelTrue` | deps/khash.h:143 | the abstract state changes at bucket `i` only |
| `BucketFlags.Flags.SetEmptyFalse` | deps/khash.h:141 | the abstract state changes at bucket `i` only |
| `BucketFlags.Flags.SetBothFalse` | deps/khash.h:142 | the abstract state changes at bucket `i` only |
| `BucketFlags.EmptyBucket` | deps/khash.h:220 | by counting: with fewer used buckets than buckets, one bucket is empty |
| `Layout.PlaceKey` | deps/khash.h:290-301 | writing a new key into a free bucket its probe reaches keeps every key indexed and findable |
| `Layout.RemoveKeyFindable` | deps/khash.h:306-311 | a tombstone keeps all other keys findable: it is not empty |
| `Layout.ProbeMisses` | deps/khash.h:199-212 | a walk that met an empty bucket or every bucket without the key proves the key absent |
| `Layout.ReusedIff` | deps/khash.h:277-293 | for a bucket chosen by `kh_put`: a tombstone is reused if and only if the probe meets one before the first empty bucket, or before it is back at its start |
| `Layout.OwnTombstone` | deps/khash.h:277-293 | the tombstone a key itself left is met by its probe before any empty bucket, so a tombstone is reused for it |
| `Layout.TakeKeepsInv` | deps/khash.h:230-238 | lifting an old element out keeps the two-layouts-in-one-array invariant and lowers the number of old live buckets by one |
| `Layout.SettleKeepsInv` | deps/khash.h:245-253 | writing the held element into a free new bucket keeps the invariant: nothing lost, nothing doubled, all placed keys findable under the new mask |
| `Layout.RoomLeft` | deps/khash.h:244 | during the rehash the new layout always has an empty bucket left |
| `KHash.KickKeepsInv` | deps/khash.h:246-249 | a kick keeps the invariant and strictly lowers the number of old live buckets, which is the kick-out loop's measure |
| `KHash.RehashBegins` | deps/khash.h:222-229 | a valid table and fresh flags start the rehash in the invariant |
| `KHash.RehashEnds` | deps/khash.h:258-266 | with nothing pending and nothing held the new layout is a valid table with the same key-to-value map |
| `Sizing.RoundUpLeast` | deps/khash.h:154 | up to 2^31 the macro gives the least power of two not below its argument; 0 and larger arguments wrap to 0 |
| `Sizing.NewBucketsPow2` | deps/khash.h:218-219 | whatever is requested, the new size is a power of two from 4 to 2^31 |
| `Sizing.RequestMeets` | deps/khash.h:272-275 | below 2^31 buckets the two requests `kh_put` makes keep the size, double it, or open an empty table with 4 buckets; with 2^31 buckets only a table less than half full is rehashed and any other request is refused, the 32-bit `size << 1` included |
| `Sizing.BoundIsFloor` | deps/khash.h:266 | the load bound is 77 percent of the buckets, rounded to the nearest number, over the reals |
| `TableView.ClearOk` | deps/khash.h:192-198 | clearing keeps the table invariant, counters included, and empties the map |
| `TableView.InsertOk` | deps/khash.h:290-301 | taking an empty or deleted bucket keeps the table invariant, counters included |
| `TableView.InsertMap` | deps/khash.h:290-301 | the map gains exactly the new key |
| `TableView.DeleteOk` | deps/khash.h:306-311 | deleting keeps the table invariant, counters included |
| `TableView.DeleteMap` | deps/khash.h:306-311 | the map loses exactly the deleted key |
| `TableView.StoreMap` | src/hash.c:13-17 | storing a value changes the map at that key only |
| `TableView.BoundBelowSize` | deps/khash.h:266 | the load bound stays below the number of buckets |
| `KHash.RoomToGrow` | deps/khash.h:271-275 | every size `kh_put` asks for below 2^32 exceeds what the table holds |
| `KHash.WalkCircles` | deps/khash.h:277-293 | a walk of `kh_put` that comes back to its start without having met a tombstone has seen live buckets only, none with the key, and there is no other bucket |
| `KHash.NoTombstone` | deps/khash.h:265 | when as many buckets are used as are live, no tombstone is left |
| `KHash.SizeOfContents` | deps/khash.h:293 | `size` is the number of keys in the map, and never more than 2^31 |
| `KHash.Table.constructor` | deps/khash.h:181-183 | a new table stands for the empty map |
| `KHash.Table.Clear` | deps/khash.h:192-198 | the map becomes empty, the bucket count stays |
| `KHash.Table.Get` | deps/khash.h:199-212 | the bucket whose key is this one, for a key in the map, and the end index for any other |
| `KHash.Table.GetWalk` | deps/khash.h:201-210 | the probe loop stops at the key, at an empty bucket or back at its start, having looked at every bucket before |
| `KHash.Table.Exists` | deps/khash.h:447 | true exactly for a live bucket, false for the padding flags behind the last one |
| `KHash.Table.Del` | deps/khash.h:306-311 | a live bucket becomes a tombstone, `size` falls by one, all other buckets and counters stay and its key leaves the map; any other index, the end index included, changes nothing |
| `KHash.Table.Resize` | deps/khash.h:213-268 | for every request: a size too small changes nothing; otherwise the map is kept, the size is the one `kroundup32` yields, and no tombstone remains |
| `KHash.Table.RehashInto` | deps/khash.h:231-257 | the loop over the old buckets ends with every element placed in the new layout |
| `KHash.Table.KickOut` | deps/khash.h:239-255 | the kick-out loop terminates, re-establishes the invariant with nothing in hand, and revives no old bucket |
| `KHash.Table.FreeBucket` | deps/khash.h:241-244 | the inner probe terminates at an empty new bucket that the key's probe reaches |
| `KHash.Table.MakeRoom` | deps/khash.h:271-275 | the map is kept; afterwards `size == nOccupied < upperBound` and the size is 4, the old one or twice the old one, except that a table of 2^31 buckets at least half of them live stays as it is |
| `KHash.Table.PutWalk` | deps/khash.h:277-293 | the key's own bucket if it is there; for an absent key and a table not all live, the last tombstone its probe meets before the first empty bucket, and if it meets none, that empty bucket; if all buckets are live, the bucket of another key |
| `KHash.Table.Claim` | deps/khash.h:276-304 | result 0 for a key that is there; for an absent one, 2 exactly when the probe meets a tombstone before the first empty bucket, and then in the last one, else 1 in that empty bucket; the map gains the key, unless it is absent and all 2^31 buckets are live |
| `KHash.Table.Put` | deps/khash.h:269-305 | for every table and key: refines map insertion; which of the results 0, 1 and 2 is given and which bucket is taken follows from the probe sequence and the old flags as in `Claim`, and after a rehash, which leaves no tombstone, only 0 or 1; with all 2^31 buckets live an absent key is reported present in the bucket of another one |
| `KHash.PutAgain` | deps/khash.h:269-311 | a key deleted and put again without a rehash gets result 2, with `n_occupied` and `size` as they were |
| `KHash.Table.PutValue` | src/hash.c:13-17 | put followed by the store of the value is `map[key := val]`, or overwrites the value of another key when all 2^31 buckets are live and the key is absent |
| `ObjectHash.Set` | src/hash.c:13-17 | is the map update if and only if the key is there or the map has fewer than 2^31 keys; otherwise another key's value is overwritten |
| `ObjectHash.Get` | src/hash.c:23-26 | the value in the map, or null |
| `ObjectHash.Has` | src/hash.c:32-35 | membership in the map, the end index meaning absent |
| `ObjectHash.Remove` | src/hash.c:41-44 | refines map removal, absent keys included |
| `ObjectHash.Each` | src/hash.h:49-61 | visits every pair of the map exactly once, in the order of the buckets, and nothing else |
| `ObjectHash.EndIndexReadable` | src/hash.c:34 | the flag array reaches the end index exactly for 4 and 8 buckets, where that padding reads empty |
| `ObjectHash.Run` | src/hash.c:13-44 | any sequence of set, get, has and remove, however long, answers step for step as a finite map does, as long as no new key is set while the map has 2^31 keys |
| `Strings.Intern` | src/string.c:17-39 | the object already filed for equal contents, or a new one; the table stays faithful if and only if the string is filed or there are fewer than 2^31 |
| `Strings.InternAll` | src/string.c:17-39 | over any run of calls with at most 2^31 distinct strings, which is all a table can hold, results are the same object exactly when the contents are equal, and the table size is the number of distinct strings |
| `Grammar.TakesExtends` | src/parser.c:306-605 | a token that a phrase would go on with is an operator of its level or looser, or the comma after an open declaration list; levels and operators are those of `Productions` |
| `Productions.JoinsOnce` | src/parser.c:370-605 | the grammar's own list of which operators join phrases at which level gives each operator one level at most, its `Rank` |
| `ParserSpec.BinaryLevel` | src/parser.c:370-605 | the loop of the parser that takes an operator is the one of its level in the grammar's list |
| `ExprComplete.Complete` | src/parser.c:272-605 | every derivation of the precedence grammar, followed by a token it does not go on with, is parsed to its tree at its level, for all fifteen levels |
| `ExprComplete.CompleteBefore` | src/parser.c:822-892 | the same before any token that extends no expression of that level |
| `ExprComplete.CallChain` | src/parser.c:737-775 | chains of calls are read to the left |
| `ExprComplete.BinChain` | src/parser.c:370-605 | chains of a binary level reach the level's loop with the chain's tree in hand: left association |
| `ExprComplete.WhoTakes` | src/parser.c:370-605 | `x p y q z`, for any two binary operators: the second takes `y` exactly when its level is the tighter one |
| `ExprComplete.SumOfProducts` | src/parser.c:370-410 | `x + y * z` is a sum whose second operand is a product, `x * y + z` one whose first is, and `x - y + z` is read from the left; likewise for `/` and `%` |
| `ExprComplete.ItemsComplete` | src/parser.c:781-809 | declaration lists with types and initialisers are read back |
| `ExprSound.SoundNot` | src/parser.c:866-892 | if reading succeeds with no null child in the tree that lists everything read, the consumed tokens derive exactly that tree, keyword arguments included, and the phrase could not go on |
| `ExprSound.SoundAssign` | src/parser.c:822-859 | assignment is right-associative, with a left side one level tighter |
| `ExprSound.SoundLoop` | src/parser.c:370-605 | each binary loop builds a left-associative derivation |
| `ExprSound.SoundPow` | src/parser.c:306-323 | `**` takes a call on either side and does not chain |
| `ExprSound.SoundCall` | src/parser.c:737-775 | call chains derive, with positional and keyword arguments in any order |
| `ExprSound.SoundItems` | src/parser.c:781-809 | declaration lists derive |
| `ExprSound.ExprIff` | src/parser.c:883-892 | for all tokens: they are read to a tree without a hole if and only if some derivation spells them, means that tree and stops there; the tree lists every keyword argument read |
| `ExprSound.DerivedWhole` | src/parser.c:883-892 | what the grammar derives has no null child |
| `Collapse.NotCollapses` | src/parser.c:700-730 | for all tokens the parser's own tree is the tree that lists everything read, where of the keyword arguments of one name only the last value is kept |
| `Collapse.NothingCollapses` | src/parser.c:700-730 | without a repeated keyword the two trees are the same |
| `Collapse.SetInPlace` | src/parser.c:700-730 | a keyword given again keeps its place and takes the new value, a new one is added, and all others stay |
| `Collapse.LastValueWins` | src/parser.c:700-730 | what is left of the keyword arguments has the last value of every name, and no name twice |
| `Holes.SoundUnlessRepeated` | src/parser.c:700-730 | for the parser's own tree: unless a keyword is repeated, its tokens derive it if and only if it has no hole |
| `Holes.ParserIff` | src/parser.c:700-730 | repeated keywords included: the parser's own tree is what is left of a tree that the tokens derive if and only if what was read has no hole |
| `ExprSound.Unambiguous` | src/parser.c:883-892 | two derivations that spell the same tokens and stop there mean the same tree |
| `Printer.RoundTrip` | src/parser.c:272-605 | printing any expression tree, keyword arguments included, with parentheses only where levels need them and parsing returns that tree and stops at the next token |
| `Printer.ErasePrintable` | src/parser.c:883-892 | every tree the grammar derives has a printed form |
| `Printer.ReadPrintRead` | src/parser.c:883-892 | what was parsed without holes, printed and parsed again is the same tree |
| `Printer.CollapsedPrintable` | src/parser.c:700-730 | what the parser keeps of a printable tree is printable and has no repeated keyword, so it reads back |
| `Fewest.FewestParens` | src/parser.c:92-109 | no phrase with the same meaning at that level has fewer parentheses than the printed one |
| `StmtRoundTrip.StmtReads` | src/parser.c:1288-1329 | every printed statement in which no `print` swallows its successor reads back as itself, `else` and `elseif` going to the right `if` at every depth |
| `StmtRoundTrip.BodyReads` | src/parser.c:1335-1365 | a printed body reads back statement by statement up to its closing word |
| `StmtRoundTrip.IfReads` | src/parser.c:1088-1152 | a printed `if` with any branches reads back |
| `StmtRoundTrip.WhileReads` | src/parser.c:1158-1195 | a printed loop reads back |
| `StmtRoundTrip.FunctionReads` | src/parser.c:1024-1080 | a printed function reads back |
| `StmtRoundTrip.ProgramReads` | src/parser.c:1371-1387 | a printed program reads back |
| `Swallowing.PrintSwallows` | src/parser.c:1227-1251 | an expression statement right after a `print` with values becomes one more printed value |
| `Swallowing.StmtDiffers` | src/parser.c:1288-1329 | a statement with such a `print` anywhere inside, in a branch, loop, scope or function, does not read back as itself |
| `Swallowing.BodyDiffers` | src/parser.c:1335-1365 | nor does a body with one in it, at any depth |
| `Swallowing.ProgramRoundTripIff` | src/parser.c:1371-1387 | a program of printable statements reads back as itself if and only if nowhere in it, at any depth, a `print` with values is directly followed by an expression statement |
| `StmtComplete.StmtReadsBack` | src/parser.c:1288-1329 | every derivation of the statement grammar, with its optional `;`, its greedy `print` and any closing word, is read to the statement it means and up to where it ends |
| `StmtComplete.ProgramComplete` | src/parser.c:1371-1387 | every derivation of a program is read to the statements it means |
| `StmtSound.SoundStmt` | src/parser.c:1288-1329 | whatever is read as a statement without holes is derived by the statement grammar: its tokens, its tree and where it ends |
| `StmtSound.SoundIfRest` | src/parser.c:1117-1149 | the `elseif`s and the `else` read after the branches of an `if` derive as parts of that `if` |
| `StmtSound.StmtIff` | src/parser.c:1288-1329 | for all tokens: reading a statement without holes and deriving it are the same thing |
| `StmtSound.ProgramIff` | src/parser.c:1371-1387 | for all tokens: they are read as a program without holes if and only if some derivation spells them up to the end of the input and means that program |
| `StmtSound.ProgramUnambiguous` | src/parser.c:1371-1387 | two derivations of the same tokens mean the same program |
| `StmtCollapse.StmtCollapses` | src/parser.c:1227-1251 | for all tokens the parser's own statement is the one that lists everything read, without repeated keywords and without what `print` had begun when an expression failed |
| `StmtCollapse.ParserProgramIff` | src/parser.c:1371-1387 | the parser's own program is what is left of one that the tokens derive if and only if what was read has no hole |
| `StmtCollapse.ErrorForgotten` | src/parser.c:1227-1251 | `print (1` is accepted as a program that prints nothing, yet no derivation spells it |
| `Parser.Parser.Next` | src/parser.c:44 | moves to the next token, and is only ever called while the current token is not the end of input |
| `Parser.Parser.Accept` | src/parser.c:36 | consumes the token exactly when it is the wanted one |
| `Parser.Parser.ParenExpr` | src/parser.c:92-109 | tree, failure and remaining tokens are those of the functional specification, whose result never has more tokens than its input |
| `Parser.Parser.ArgList` | src/parser.c:116-135 | tree, failure and remaining tokens are those of the functional specification, whose result never has more tokens than its input |
| `Parser.Parser.ArrayExpr` | src/parser.c:141-153 | tree, failure and remaining tokens are those of the functional specification, whose result never has more tokens than its input |
| `Parser.Parser.HashPairs` | src/parser.c:160-187 | tree, failure and remaining tokens are those of the functional specification, whose result never has more tokens than its input |
| `Parser.Parser.HashExpr` | src/parser.c:193-205 | tree, failure and remaining tokens are those of the functional specification, whose result never has more tokens than its input |
| `Parser.Parser.PrimaryExpr` | src/parser.c:272-299 | tree, failure and remaining tokens are those of the functional specification, whose result never has more tokens than its input |
| `Parser.Parser.CallArgs` | src/parser.c:700-730 | tree, failure and remaining tokens are those of the functional specification, whose result never has more tokens than its input |
| `Parser.Parser.CallExpr` | src/parser.c:737-775 | call chains; a trailing comma gives a call without argument list |
| `Parser.Parser.PowExpr` | src/parser.c:306-323 | tree, failure and remaining tokens are those of the functional specification, whose result never has more tokens than its input |
| `Parser.Parser.PostfixExpr` | src/parser.c:331-342 | tree, failure and remaining tokens are those of the functional specification, whose result never has more tokens than its input |
| `Parser.Parser.UnaryExpr` | src/parser.c:354-364 | prefix operators; the operand may be missing, which leaves a hole in the tree |
| `Parser.Parser.BinaryExpr` | src/parser.c:370-605 | the ten loops of the ladder, from `||` to `*`, one per level: tree and remaining tokens are those of the specification |
| `Parser.Parser.AssignExpr` | src/parser.c:822-859 | tree, failure and remaining tokens are those of the functional specification, whose result never has more tokens than its input |
| `Parser.Parser.NotExpr` | src/parser.c:866-877 | tree, failure and remaining tokens are those of the functional specification, whose result never has more tokens than its input |
| `Parser.Parser.DeclExpr` | src/parser.c:227-260 | tree, failure and remaining tokens are those of the functional specification, whose result never has more tokens than its input |
| `Parser.Parser.DimExpr` | src/parser.c:781-809 | tree, failure and remaining tokens are those of the functional specification, whose result never has more tokens than its input |
| `Parser.Parser.FunctionParams` | src/parser.c:611-647 | tree, failure and remaining tokens are those of the functional specification, whose result never has more tokens than its input |
| `Parser.Parser.IfStmt` | src/parser.c:1088-1152 | tree, failure and remaining tokens are those of the functional specification, whose result never has more tokens than its input |
| `Parser.Parser.WhileStmt` | src/parser.c:1158-1195 | tree, failure and remaining tokens are those of the functional specification, whose result never has more tokens than its input |
| `Parser.Parser.Statement` | src/parser.c:1288-1329 | tree, failure and remaining tokens are those of the functional specification, whose result never has more tokens than its input |
| `Parser.Parser.Block` | src/parser.c:1335-1365 | tree, failure and remaining tokens are those of the functional specification, whose result never has more tokens than its input |
| `Parser.Parser.Program` | src/parser.c:1371-1387 | tree, failure and remaining tokens are those of the functional specification, whose result never has more tokens than its input |
| `Holes.MissingOperand` | src/parser.c:354-364 | before any token that neither begins nor continues an expression, a prefix operator is accepted without operand and leaves a hole |
| `Holes.TrailingComma` | src/parser.c:700-775 | a call at any callee with any derivable arguments, keyword arguments included, whose last argument is followed by a comma is accepted and loses all its arguments |
| `Holes.HiddenHole` | src/parser.c:700-730 | `f(k as -, k as n)`: a keyword given twice covers up a missing value; the tree has no hole, yet no derivation spells these tokens |
| `ParserSpec.NotExpr` | src/parser.c:866-892 | a successful expression consumes at least one token, and no outcome adds tokens |
| `ParserSpec.Statement` | src/parser.c:1288-1329 | a successful statement consumes at least one token, so the block and program loops end |
| `Ifjcode.TextDecodes` | src/codegen.c:68-175 | a reader with its own operand patterns for every opcode, which splits at line ends and knows nothing of the printer, reads the printed words back as the instructions they were printed from |
| `Ifjcode.ParseLine` | src/codegen.c:68-175 | every printed line ends in one line end and is parsed as its instruction |
| `Ifjcode.ParsedLine` | src/codegen.c:68-175 | conversely, whatever parses as an instruction is the line printed for it |
| `Codegen.Generator.VisitAtom` | src/codegen.c:233-295 | prints the operand, behind a minus sign and with `from_minus` used up when that counter is 1 |
| `Codegen.Generator.EmitOp` | src/codegen.c:68-204 | prints the opcode for the mode at hand, after the type check where there is one, and uses up `from_if` or `from_loop` for a comparison |
| `Codegen.Generator.EmitTypeCheck` | src/codegen.c:70-77 | prints the two TYPE lines and the jump out on different types |
| `Codegen.Generator.VisitUnaryOp` | src/codegen.c:337-364 | first visit prints the opcode, second visit the operand, after which `not` and `from_minus` are 0 |
| `Codegen.Generator.VisitBinaryOp` | src/codegen.c:370-499 | for every supported assignment and test the text is that of its instructions and all mode counters are back at 0 |
| `Codegen.Generator.VisitCalcAssign` | src/codegen.c:491-498 | the right side is visited with `bin_op` 1 and 2 around the target: type check, opcode, target, operands |
| `Codegen.Generator.VisitDecl` | src/codegen.c:301-323 | one DEFVAR line per name |
| `Codegen.Generator.VisitDim` | src/codegen.c:616-636 | declarations without initialisers print their DEFVAR lines and nothing else |
| `Codegen.Generator.VisitIf` | src/codegen.c:691-740 | the text of any covered `if`, nested ones included, is that of its instructions under the counters at hand |
| `Codegen.Generator.VisitWhile` | src/codegen.c:663-671 | the text of any covered loop is that of its instructions, with the shared loop counter as it stands after the body |
| `Codegen.Generator.VisitBlock` | src/codegen.c:225-227 | statements print one after the other, mode counters 0 in between |
| `Codegen.Generator.VisitScope` | src/codegen.c:601-610 | scope label, CREATEFRAME, the declarations of both temporaries, body and the label END_IF_0, each an instruction of its own |
| `Codegen.Generator.Gen` | src/codegen.c:752-790 | a program of one scope prints the header and the words of its instructions, and leaves every mode counter 0; `PrintedProgram` takes the words to characters |
| `Labels.BodyMarks` | src/codegen.c:663-740 | without nested ifs, a body prints each label between the old and the new counters exactly once and no other label |
| `LabelSound.UniqueIffFlat` | src/codegen.c:691-740 | the labels of an emitted program are unique if and only if no `if` stands inside another |
| `LabelSound.JumpsLand` | src/codegen.c:140-159 | without nested ifs every jump goes to a label that is printed exactly once |
| `LabelSound.LoopCounter` | src/codegen.c:663-671 | where the shared loop counter stands after a body: exactly back for one direct loop, too high for several |
| `LabelSound.BracketedIffSlim` | src/codegen.c:663-671 | every closing jump goes to the label of its own loop if and only if no loop has two loops directly in its body |
| `Simulation.TypeCheckSim` | src/codegen.c:70-77 | the three check instructions go on, leave or fail as the operand kinds say |
| `Simulation.AssignSim` | src/codegen.c:370-499 | the code of an assignment leaves the machine in the store the source assignment gives |
| `Simulation.TestSim` | src/codegen.c:140-172 | the code of a test branches as the source test decides, for `==`, `<>` and `=` |
| `Simulation.TestsSim` | src/codegen.c:702-712 | the tests of an `if` jump to the label of the first branch that holds |
| `Simulation.DimSim` | src/codegen.c:616-636 | the code of declarations declares the same names in the same order and fails at the same name |
| `CompilerCorrect.IfSim` | src/codegen.c:691-740 | the code of an `if` does what the chosen branch means and comes out at its end |
| `CompilerCorrect.LoopSim` | src/codegen.c:663-671 | the code of a loop repeats body and test, and takes at least one step per round |
| `CompilerCorrect.BodySim` | src/codegen.c:225-227 | the code of a body, anywhere in a program with unique labels, does what the body means |
| `WholeProgram.Correct` | src/codegen.c:752-790 | running the generated instructions ends in the store the source ends in, stops early or fails where the source does, and is still running when the source has used up its rounds |
| `WholeProgram.StopsAsMeant` | src/codegen.c:752-790 | whatever the machine stops with is the source's result |
| `WholeProgram.StopsIffEnds` | src/codegen.c:752-790 | the machine stops if and only if the source ends |
| `WholeProgram.SameMeaning` | src/codegen.c:710-717 | when every `if` with `elseif` has an `else`, falling into the first arm never happens |
| `WholeProgram.SkippedIff` | src/codegen.c:710-717 | exactly when a single `if` whose tests may all fail is skipped as it should be |
| `WholeProgram.CorrectWhenClosed` | src/codegen.c:752-790 | correctness against the meaning that skips an `if` when no test holds |
| `WholeProgram.FallsIntoFirstArm` | src/codegen.c:710-717 | a concrete `elseif` without `else` that runs its first arm |
| `Spelling.DigitsBack` | src/codegen.c:233-245 | a number printed with `%d` is a word that reads back as the number |
| `PrintedText.PieceBack` | src/codegen.c:233-331 | a printed word is read back as what it stands for if and only if it is plain: a name or string without blank, control, comment or escape character, a number that carries no sign of its own and whose printed form reads back |
| `PrintedText.ScanChars` | src/codegen.c:68-175 | as long as no printed word contains a separator, a reader that splits at blanks, line ends and comments takes the printed characters apart word for word |
| `PrintedText.LoadIff` | src/codegen.c:752-790 | the printed characters, header included, are read as the instructions they were printed from if and only if every operand in them is plain |
| `PrintedProgram.BodyPlain` | src/codegen.c:225-227 | the operands the generator prints for a body are plain if and only if the names and literals of its source are |
| `PrintedProgram.Compile` | src/codegen.c:752-790 | the visitor's output, rendered to characters, is the printed program that `PrintedIff` and `PrintedCorrect` speak of |
| `PrintedProgram.PrintedIff` | src/codegen.c:752-790 | the characters printed for a program are read as its generated instructions if and only if every name and literal of the source is plain |
| `PrintedProgram.PrintedCorrect` | src/codegen.c:752-790 | running what the printed characters are read as ends in the store the source ends in, stops early or fails where it does, and is still running when the source has used up its rounds |
| `PrintedProgram.PrintedStopsIffEnds` | src/codegen.c:752-790 | the machine running the printed characters stops if and only if the source ends |
| `PrintedLines.LineShown` | src/codegen.c:64-175 | the very characters of every instruction's line |
| `PrintedLines.AcceptanceTest` | test/acceptance/types_control/jump_if.out:1-22 | the program of this acceptance test is printed as its expected output, line for line, followed by the empty line of `src/codegen.c:788` |
| `PrintedProgram.LiteralSplits` | src/codegen.c:329-331 | a string with a line end in it prints the very characters of two instructions: the machine ends with 7 where the source assigns a string |
| `Utf8.DecodesBack` | deps/linenoise/utf8.c:16-30 | decoding what was encoded gives the code point and its length, whatever bytes follow, for all code points up to U+FFFF |
| `Utf8.EncodedDigits` | deps/linenoise/utf8.c:16-30 | the bytes of a code point are its digits to the base 64, each added to the mark of its place, as section 3 of RFC 3629 lays them out |
| `Utf8.EncodesBackIff` | deps/linenoise/utf8.c:82-104 | encoding what was decoded gives the bytes back if and only if they are the shortest form of section 4 of RFC 3629 (surrogates included) |
| `Utf8.FirstByteTells` | deps/linenoise/utf8.c:32-47 | the first byte tells the length, and only U+0000 has a zero byte |
| `Utf8.DecodeEncode` | deps/linenoise/utf8.c:49-71 | a string encoded and decoded is the same string, in either build |
| `Utf8.NextStops` | deps/linenoise/utf8.c:82-104 | decoding never reads past a terminator |
| `Utf8.StrLen` | deps/linenoise/utf8.c:49-62 | the number of characters before any boundary between two characters, or before the first terminator when the length is negative, for any bytes |
| `Utf8.Index` | deps/linenoise/utf8.c:64-71 | the byte offset of a character position, for any bytes |
| `Utf8.PrefixDecodes` | deps/linenoise/utf8.c:64-71 | the bytes before a boundary decode to the characters before it, whatever the bytes are |
| `Utf8.TerminatorBoundary` | deps/linenoise/utf8.c:49-62 | a terminator always stands between two characters |
| `LineEdit.RemoveUndoesInsert` | deps/linenoise/linenoise.c:890-960 | removing an inserted character restores text and cursor |
| `LineEdit.InsertUndoesRemove` | deps/linenoise/linenoise.c:890-960 | inserting a removed character restores the text, and the cursor if and only if it did not stand on that character |
| `LineEdit.InsertedText` | deps/linenoise/linenoise.c:952-954 | the moved bytes are the encoding of the text with the character inserted |
| `LineEdit.RemovedText` | deps/linenoise/linenoise.c:911-912 | the moved bytes are the encoding of the text with the character removed, terminator behind it |
| `LineEdit.ZerosKeptIff` | deps/linenoise/linenoise.c:911-912 | when the rest of the buffer was zero it still is after a removal if and only if the character had one byte |
| `LineEdit.Line.SetCurrent` | deps/linenoise/linenoise.c:873-878 | the buffer holds the string, cut to fit, and zeros; `len`, `chars` and `pos` agree with it, in the middle of a cut character too |
| `LineEdit.Line.GetChar` | deps/linenoise/linenoise.c:765-773 | the character at a position, or -1 (None) outside the text, for any bytes that `chars` agrees with |
| `LineEdit.Line.RemoveChar` | deps/linenoise/linenoise.c:890-921 | takes the bytes of one decoded character out of any buffer, moving the cursor; acts as sequence removal when the bytes encode a text, and says which bytes behind the text stay |
| `LineEdit.Line.InsertChar` | deps/linenoise/linenoise.c:929-963 | puts the bytes of a character before a decoded one of any buffer when there is room; acts as sequence insertion when the bytes encode a text; afterwards the buffer is terminated if and only if the byte at the new end was already zero |
| `LineEdit.Line.CaptureChars` | deps/linenoise/linenoise.c:970-983 | the cut buffer becomes the bytes of the wanted characters when all are there, else stays, for any bytes |
| `LineEdit.Line.RemoveChars` | deps/linenoise/linenoise.c:990-1000 | removes as many as there are and captures them when all are there |
| `LineEdit.Line.InsertChars` | deps/linenoise/linenoise.c:1006-1020 | inserts a prefix of the string, as long as there is room for |
| `LineKeys.SwappedInSteps` | deps/linenoise/linenoise.c:1293-1302 | taking a character out and putting it one place left swaps two neighbours and moves the cursor on |
| `LineKeys.TransposeChars` | deps/linenoise/linenoise.c:1293-1302 | swaps two characters if and only if there are two and the line is not full; otherwise the character is lost |
| `LineKeys.PressDid` | deps/linenoise/linenoise.c:1156-1410 | the function that a session is told in makes each key do just that |
| `LineKeys.Handle` | deps/linenoise/linenoise.c:1156-1410 | for each key, about the line's own text, cursor and cut bytes before and after: Home and End go to the ends, Left and Right one step, and change nothing else; Backspace and Delete take out the one character before or under the cursor; Ctrl-U, Ctrl-K and Ctrl-W leave the text after, before and around what they move to `capture`; typing, pasting, quoting and transposing likewise; without room Ctrl-V is ignored and what follows is a key of its own |
| `LineKeys.WordStartIff` | deps/linenoise/linenoise.c:1183-1194 | Ctrl-W cuts from the only place that has a word and the blanks behind it up to the cursor, and a blank or the start of the line before it |
| `LineKeys.TypeQuoted` | deps/linenoise/linenoise.c:1303-1322 | with room for three bytes the text gains the quoted character at the cursor and nothing else, the Ctrl-V inserted meanwhile being gone again |
| `Utf8.CStringEnds` | deps/linenoise/linenoise.c:163 | the C string in the buffer is the text if and only if a zero follows the text |
| `LineKeys.Session` | deps/linenoise/linenoise.c:1121-1410 | over any sequence of keys each one does to the line what `Handle` says of it; the C string is exactly the line in the one-byte build, and in the UTF-8 build over any session that takes out no character of more than one byte |
| `LineKeys.YankUndoesKillLeftIff` | deps/linenoise/linenoise.c:1377-1394 | yanking what Ctrl-U or Ctrl-W just cut restores line and cursor if and only if the line was not full |
| `LineKeys.YankUndoesKillRightIff` | deps/linenoise/linenoise.c:1377-1394 | yanking what Ctrl-K just cut brings the text back if and only if the line was not full; the cursor then stands at the end, so all is as before only if nothing was cut or pasted |
| `LineKeys.LeavesByteBehind` | deps/linenoise/linenoise.c:952-954 | in the UTF-8 build, erasing a two-byte character and typing a one-byte one leaves a stale byte in the C string |
| `History.KeepsNewest` | deps/linenoise/linenoise.c:1460-1488 | after any sequence of additions the history is the newest lines of the sequence without adjacent repeats |
| `History.DistinctFacts` | deps/linenoise/linenoise.c:1471-1474 | that sequence has no two equal neighbours, and is the original when the original has none |
| `History.UnescapeEscape` | deps/linenoise/linenoise.c:1535-1545 | the escape and unescape loops undo each other on every line |
| `History.PlainStands` | deps/linenoise/linenoise.c:1533-1547 | a line without newline, carriage return and backslash stands in the file as it is, and as nothing else |
| `History.SavedStands` | deps/linenoise/linenoise.c:1532-1548 | in a saved file the lines stand one after the other, newline as bytes 92 110, carriage return as 92 114, backslash as 92 92, any other byte as itself, with a newline behind each |
| `History.UnescapeReads` | deps/linenoise/linenoise.c:1568-1582 | a chunk is read as a line exactly when 92 110 stands for newline, 92 114 for carriage return, 92 and any other byte for that byte, and a byte without 92 for itself |
| `History.LoadedReads` | deps/linenoise/linenoise.c:1558-1594 | a file loads to a history exactly when adding its chunks, each read that way and without one line end, gives that history |
| `History.StandsReads` | deps/linenoise/linenoise.c:1533-1582 | what stands in the file for a line is read as the line |
| `HistoryFile.LoadAddsAll` | deps/linenoise/linenoise.c:1558-1594 | loading a saved history adds its lines one by one to what is there, when each escaped line fits the read buffer |
| `HistoryFile.LoadSaved` | deps/linenoise/linenoise.c:1525-1594 | saving and loading is the identity for every history without adjacent repeats, within the length limit, whose escaped lines fit the read buffer |
| `HistoryFile.OneLineIff` | deps/linenoise/linenoise.c:1558-1594 | a history of one line comes back if and only if its escaped form and line end fit the read buffer |
| `HistoryFile.CutEscape` | deps/linenoise/linenoise.c:1565-1588 | a cut through an escaped line falls between two characters or leaves a lone backslash |
| `HistoryFile.LoadAddsPieces` | deps/linenoise/linenoise.c:1558-1594 | when the escaped lines fit, a line whose end is left for the next chunk comes back without a newline at its own end and with an empty line after it |
| `HistoryFile.SurvivorsDistinct` | deps/linenoise/linenoise.c:1471-1474 | the empty lines so added vanish again in front of empty lines that are there |
| `HistoryFile.HistoryIff` | deps/linenoise/linenoise.c:1525-1594 | a history without repeats, within the length limit, comes back from its file if and only if each line is shorter than the read buffer when escaped, or exactly as long, without a newline or carriage return at its end and followed by an empty line |
| `History.Lines.Add` | deps/linenoise/linenoise.c:1460-1488 | bounded, de-duplicating addition that drops the oldest line; keeps the history within its limit and free of adjacent repeats |
| `History.Lines.SetMaxLen` | deps/linenoise/linenoise.c:1492-1521 | keeps the newest lines; lengths below 1 are refused |
| `History.Lines.Save` | deps/linenoise/linenoise.c:1525-1551 | the file holds the lines one after the other as `SavedStands` spells them out in bytes |
| `History.ReadLine` | deps/linenoise/linenoise.c:1565 | reads to the end of the line or to the limit |
| `History.DecodeInPlace` | deps/linenoise/linenoise.c:1568-1588 | the C string inside the buffer becomes the line it is read as, byte for byte as in `UnescapeReads`, without one line end; reports the lone trailing backslash where the program reads past the terminator |
| `History.Lines.Load` | deps/linenoise/linenoise.c:1558-1594 | adds the chunks of any file one by one, each read as `UnescapeReads` spells out in bytes, and keeps the history valid; gives no result exactly when there is no such history, for a chunk that ends in a lone backslash |

## Left out

- KHash.Table.Get: the hash function is an arbitrary function from the key to 32 bits, not the string hash itself; keys compare by content and are values, so a caller that overwrites a key's buffer is not captured.
- ObjectHash.Has: at the end index the flags are read where there are any, and beyond them the answer is taken to be "absent", the documented meaning (`deps/khash.h:429`); `ObjectHash.EndIndexReadable` says when that read stays inside the array.
- Strings.Intern: the same reading of the end index; failure of the allocation is not modelled.
- Sizing.BoundIsFloor: the load factor is the exact 0.77, not the nearest floating-point number; no power of two lies on a rounding tie.
- Failure of `malloc`, `realloc` and `calloc`; freeing; the linear-probing build.
- The lexer: the parser reads a token sequence that ends in EOS.
- Error texts, error contexts, line numbers and the `in_args` flag of the parser: they never change a tree.
- Printer.RoundTrip: positional arguments are printed before keyword arguments, since the tree keeps the two apart; trees with a null child have no printed form. Keyword arguments are a sequence in the tree, so the order in which a hash would list them is not captured.
- Anonymous functions, which nothing in the parser reaches. Slot access reads only its primary expression, whatever the comment above it promises (`src/parser.c:676-694`), and so it is in the model.
- WholeProgram.Correct: covers declarations without initialiser, assignments of atoms, negated literals, `not` and one binary `+ - * and or`, ifs that are not nested with `==`, `<>` or `=` tests, and `==` loops with at most one loop directly in each body; the label results also cover nested ifs.
- The generator's division, `<` and `>`, nested arithmetic, initialisers in declarations, `<>` loops, functions, calls and returns: their counters do not support a meaning (a counter left at 1, a label missing or printed twice, operands converted in place).
- Codegen.Generator.EmitOp: division is left out.
- Codegen.Generator.VisitUnaryOp: a minus sign on a name is left out.
- Codegen.Generator.VisitBinaryOp: `<`, `>`, division, nested operands and calls are left out.
- Codegen.Generator.VisitDecl: the modes for parameters and initialisers are left out.
- Codegen.Generator.VisitDim: declarations with an initialiser are left out.
- Codegen.Generator.Gen: programs of several scopes or with functions are left out. `printf` and `print_func` write to one output, and `visit_id` calling `emit_op` prints nothing. How `%g` rounds is not computed: `PrintedProgram.PrintedCorrect` holds for any way of printing floats as words and asks that each literal's printed form reads back.
- Spelling.Load: a reader without escape sequences: it refuses a string with a backslash, which an interpreter would read as another string than the one printed.
- Statements without a callback (`print`, `input`) print nothing in the generator; the supported programs do not contain them.
- WholeProgram.CorrectWhenClosed: a loop is written with its test first (`src/parser.c:1158-1195`), but the emitted code runs the body before the test; the meaning given to loops here follows the emitted code, not a test before the first round.
- The target machine's integers are unbounded and its floats are reals.
- Pre-allocated code buffers, the virtual machine, the disassembler, the pretty printer and the syntax-tree constructors.
- LineEdit.Line.RemoveChar: the return codes 1 and 2, which differ only in how the screen is refreshed, are one answer here.
- LineEdit.Line.RemoveChars: several characters at once are specified for buffers that encode a text; where a string was cut in the middle of a character, removing a neighbour can make other bytes join up.
- LineEdit.Line.InsertChars: likewise specified for buffers that encode a text.
- LineKeys.Handle: the keys that search or browse the history, completion and end of input are left out, and so is all terminal input and output.
- LineKeys.Session: the same keys are left out; about the C string in the UTF-8 build after wider characters were taken out nothing is promised, for it can be longer than the line (`LineKeys.LeavesByteBehind`).
- History.Lines.Add: the list is a sequence, so the reallocation of the array behind it is not captured; browsing the history, which overwrites an entry without the repeat check, is left out.
- History.Lines.Load: where a chunk ends in a lone backslash the program reads past its terminator; the model stops there and says so.
- Opening and closing files, and errors in doing so.
