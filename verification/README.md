# Memax: the context compiler, its parse-back, and two numeric and network cores

Memax keeps a project's memories on a server and compiles them into the context files that coding agents read
(CLAUDE.md, AGENTS.md and the like). This project models the parts of that system whose correctness rests on an
argument rather than on one line of code, and proves what they promise:

- **The compiler** (`packages/compiler/src`). `Select` ranks a record's lines; `Document` and `Budget` fill a byte and
  character budget greedily, with incremental accounting, and render the file; `Parse`, `Diff`, `Matching` and
  `ParseBack` read a hand-edited file back into proposals; `ManagedBlock` edits one region of someone else's file;
  `Drift` decides whether a delivered file changed.
- **Numbers**. `Bits` and `Sha256` relate the portable SHA-256, written in ECMAScript's mixed signed and unsigned
  numbers, to FIPS 180-4. `Metrics` bounds NDCG, ERR and recall over the reals.
- **The SDK** (`packages/sdk/src`). `Request` is the loop that spends three interleaved retry budgets; `Stream` is the
  reader that must not depend on how a stream is cut into chunks; `Passkey` is the header encoding the loop relies on.

Code that is a loop over changing variables is a method (or a class: `Diff.Queues`, `Diff.Tally`, `Stream.Reader`)
proved against a specification function, and the properties are lemmas about that function. Expressions are functions.

## How it hangs together

| file | models | proves in |
|---|---|---|
| `Text`, `Sorting`, `Model` | ECMAScript strings and sorts; the values passed around | the same file |
| `Select` | `select` | `Select`, `SelectLaws`, `SelectedLines`, `ProseLaws` |
| `Document` | measuring and printing | `Budget`, `PrintOrder`, `PlainStyle`; with `select` in `Compiling` |
| `Patterns`, `Parse` | the line patterns and `parseFile` | `PatternLaws`, `RoundTrip`, `Rereading` |
| `Diff` | queues, tallies, and the counted specification of `diff` | `Matching`, `DiffLaws`, `ProposalLaws`, `Survivors` |
| `ParseBack` | `parseBack` | `ParseBack`, `AddedBlock`, `Swapping`, `Rewording`, `Relisting`; examples in `Witnesses` |
| `ManagedBlock`, `Drift` | the managed block; drift checks | the same file |
| `Bits`, `Sha256` | 32-bit words; SHA-256 | the same file, `WordLaws` |
| `Metrics` | NDCG, ERR, recall | the same file |
| `Request`, `Passkey`, `Stream` | the SDK's request loop and stream reader | the same file, `RequestLaws` |

## What the proofs found

- `compose` throws "compiler bug" exactly when head and tail are empty and no entry fits by itself: then the count is
  0 and the rendered file is one line feed (`Budget.Compose`, `Budget.NothingKept`; `Budget.LoneLineThrows` is such an
  input). Every adapter has a non-empty head, so the throw is unreachable in use.
- `parseBack` can report `changed: false` and still propose a new line: when the last file had no managed block and
  the current one does, `changed` compares the whole old file with the block, but the proposals compare whole files.
  `Witnesses.AddedBlockProposes` is such a pair. `AddedBlock.SilentExactly` says exactly when it is silent: all content
  of the current file stands in the block, after what was the frontmatter. So a file with frontmatter is never silent
  (`AddedBlock.FrontmatterIsProposed`): the `---` lines are words of the block now. Fences in the frontmatter must be
  closed for that; `Witnesses.OpenFenceIsSilent` has one that is not.
- `parseBack` can report an intact block in an unchanged file and `layout_edited: true`: a header line inside the block
  is a comment once a header stands before the block (`Witnesses.HeaderBeforeBlockEditsLayout`).
  `ParseBack.UnchangedBlockLayout` and `AddedBlock.LayoutExactly` say exactly when the flag stays down.
- A passkey handler that answers with the empty string makes `request` ask forever, since the encoded answer is falsy
  and the loop takes its attempt back. `Request.EndsExactly` shows that nothing else can keep the loop from ending.
- A memory that only prose cites is counted as placed even in a file that takes no prose at all (`prose: false`), so
  it appears nowhere in that file: `SelectLaws.UntakenProseHides` is such a record, and `SelectLaws.ExactlyOnce` states
  the exact rule.

## Model

| member | source | states |
|---|---|---|
| ManagedBlock.SplitKeep | packages/compiler/src/managed-block.ts:28-37 | the loop over the line pattern yields the recursively defined lines |
| ManagedBlock.LinesLossless | packages/compiler/src/managed-block.ts:28-37 | the lines of any text, put back together, are the text, byte for byte |
| ManagedBlock.LinesCanonical | packages/compiler/src/managed-block.ts:28-37 | each line ends with one line break (LF, CRLF or CR), only the last may lack one, and no CR runs into the next line's LF |
| ManagedBlock.CanonicalUnique | packages/compiler/src/managed-block.ts:28-37 | lines of that shape are the only ones that spell their text |
| ManagedBlock.LocateLines | packages/compiler/src/managed-block.ts:40-54 | the scan finds one start line and one end line after it, no markers, or reports broken markers |
| Drift.LocateExactly | packages/compiler/src/managed-block.ts:40-54 | a block is found exactly if there is one, none exactly if no line is a marker; all other markers are broken |
| ManagedBlock.MarksOutsideIn | packages/compiler/src/managed-block.ts:40-54 | a located block starts and ends at its markers, and there are no markers before, inside or after it |
| ManagedBlock.RemoveManagedBlock | packages/compiler/src/managed-block.ts:118-128 | removing keeps all other lines, and blanks the previous line break only if the block ended the file without one |
| ManagedBlock.RemoveUndoesUpsert | packages/compiler/src/managed-block.ts:86-128 | for a file without markers, removing what was inserted gives the file back byte for byte, exactly if the inner lines hold no markers |
| ManagedBlock.RemoveForgetsUpsert | packages/compiler/src/managed-block.ts:86-128 | for a file with a block, removing after an update is removing before it |
| ManagedBlock.UpsertTwice | packages/compiler/src/managed-block.ts:86-108 | the last of two updates wins, byte for byte, with or without a block to begin with |
| ManagedBlock.ExtractAfterUpsert | packages/compiler/src/managed-block.ts:68-108 | what was written is what is extracted: the markers and the inner lines without trailing white space |
| ManagedBlock.FindAfterUpsert | packages/compiler/src/managed-block.ts:60-108 | after an update, the line numbers found are those of the two markers, and between them stand the inner lines |
| Drift.ExtractTwice | packages/compiler/src/managed-block.ts:68-76 | an extracted block is its own block |
| Drift.DriftedExactly | packages/compiler/src/parse.ts:445-466 | with an injective hash, a file drifted exactly if the compared text changed; the whole-file shortcut changes no answer |
| Drift.BlocksDrift | packages/compiler/src/parse.ts:445-466 | two files with blocks drift from each other exactly if the blocks' lines differ in more than trailing white space and line breaks |
| Drift.WholeFilesDrift | packages/compiler/src/parse.ts:445-466 | two files without blocks, or with broken markers, drift exactly if some line's text differs, or one file ends in a line break and the other does not |
| Drift.BlockAndNoneDrift | packages/compiler/src/parse.ts:445-466 | a file with a block and one without always drift from each other |
| Drift.OutsideNeverDrifts | packages/compiler/src/parse.ts:445-466 | whatever the hash, files with such alike blocks never drift from each other, whatever else they hold |
| Drift.BomNeverDrifts | packages/compiler/src/parse.ts:438-466 | a BOM never counts |
| Drift.BreaksNeverDrift | packages/compiler/src/parse.ts:438-466 | files that differ only in a BOM and in which line breaks they use never drift |
| Select.PlacedRefs | packages/compiler/src/select.ts:81-88 | the set that grows item by item holds exactly the refs that the Brief places or represents |
| Select.RankFacts | packages/compiler/src/select.ts:136-141 | assigning ranks in sorted order gives each fact its position in the fill order |
| Select.ReadSection | packages/compiler/src/select.ts:106-142 | one section's lists and counters compute its specified entries |
| Select.SelectLines | packages/compiler/src/select.ts:65-145 | the growing selection is the specified one |
| Select.OrderOfFactsIsFree | packages/compiler/src/select.ts:90-145 | listing the facts in any other order selects the same sections and entries |
| SelectLaws.ExactlyOnce | packages/compiler/src/select.ts:70-145 | a fact heads exactly one line if it compiles and is placed in a wanted section, or is placed nowhere and its own section is wanted; otherwise none |
| SelectedLines.FactsExactly | packages/compiler/src/select.ts:65-145 | the same by the record's fields: acceptance, status and staleness against the target, the sections it shows, and every way an item can mention the fact |
| SelectedLines.SectionsExactly | packages/compiler/src/select.ts:44-112 | a section is shown exactly if the target shows it and the Brief has it, or it is well known, the Brief lacks it, and a fact that no item mentions needs it |
| SelectedLines.SectionsInOrder | packages/compiler/src/select.ts:44-112 | the Brief's sections come first and keep their order; the others follow in the fixed one |
| SelectedLines.LinesExactly | packages/compiler/src/select.ts:90-142 | in a section a higher score is a lower rank; a stated fact stands at its item's place; the others follow the items by falling score and rising ref |
| ProseLaws.ProseExactly | packages/compiler/src/select.ts:70-122 | an item is a prose line, at its own place and with its words and cites, exactly if it is prose and the mode takes all prose or judges its cites well |
| SelectLaws.NothingLeftOutAppears | packages/compiler/src/select.ts:90-163 | every statement line is an accepted fact's, with its text, cites, scope and marker, in a wanted section; no open fact under kept_only, no stale one under omit |
| SelectLaws.SectionRanks | packages/compiler/src/select.ts:106-142 | ranks fill 0 to n-1, prose first, then facts by falling score and by order among equals; orders are distinct |
| SelectLaws.UntakenProseHides | packages/compiler/src/select.ts:70-145 | an input on which a compilable fact of a wanted section heads no line: prose cites it, and the file takes none |
| SelectLaws.SelectedIsOk | packages/compiler/src/select.ts:147-182 | what is selected satisfies what composing requires, and each entry's group is its own scope |
| Model.ScopedFileOk | packages/compiler/src/adapters/scoped.ts:53-65 | taking one scope's entries and clearing their group leaves what composing requires, and the first entry's globs are those of all |
| Model.ScopeKeyInjective | packages/compiler/src/select.ts:61-63 | a scope key gives back the globs it was joined from |
| Text.LexTotal | packages/compiler/src/select.ts:90-97 | comparing refs is a total order without ties |
| Text.LexExact | packages/compiler/src/select.ts:90-97 | one string is not after another exactly if it is a prefix, or smaller where they first differ |
| Document.MeasureLines | packages/compiler/src/document.ts:44-52 | the loop sums bytes and characters of lines, each with its line feed |
| Document.ContentSize | packages/compiler/src/document.ts:44-52 | the measure of lines is the size of the text they make |
| Document.CharSizeIsEncoded | packages/compiler/src/document.ts:44-52 | a character weighs the least number of UTF-8 bytes with room for it, and its UTF-16 units |
| Document.Render | packages/compiler/src/document.ts:128-155 | the nested loops print the specified lines |
| PrintOrder.PrintedInOrder | packages/compiler/src/document.ts:128-155 | further down a file stand later sections, in a section later scope keys, unscoped lines first, and in a scope later lines |
| PlainStyle.PlainIsUnmarked | packages/compiler/src/document.ts:60-70 | the plain file is, line by line, the markdown file without heading marks and without the backticks of scope headings |
| Document.GroupIdInjective | packages/compiler/src/document.ts:81-112 | the key under which an open group is kept tells section and group apart |
| Budget.SectionBlockSize | packages/compiler/src/document.ts:128-155 | a printed section weighs its heading, its lines, and one heading for each distinct scope |
| Budget.SectionSizeStep | packages/compiler/src/document.ts:81-100 | adding an entry grows its section by exactly the entry's incremental cost, and no other section |
| Budget.DocumentSizeStep | packages/compiler/src/document.ts:81-100 | the same for the whole file |
| Budget.CountExact | packages/compiler/src/document.ts:72-121 | rendered bytes and characters equal the incremental count, unless nothing at all is printed |
| Budget.Compose | packages/compiler/src/document.ts:72-121 | the fill includes exactly the greedy choice: in the order of rank, section and order, each line is taken if the file so far fits with it; the compiler-bug throw happens exactly for an empty head and tail and no entry that fits alone |
| Budget.IncludedExactly | packages/compiler/src/document.ts:86-112 | where ranks, sections and orders tell all lines apart, a line is in exactly if the file fits with it and the included lines of smaller rank, section or order |
| Budget.NoneTakenInstead | packages/compiler/src/document.ts:86-112 | where a line was taken, no dropped line of lower rank, or earlier in the fill order, would have fitted |
| Compiling.BudgetDecides | packages/compiler/src/document.ts:72-121 | both for every record that `select` is given, since its lines are told apart |
| Budget.NothingKept | packages/compiler/src/document.ts:103-112 | the fill keeps nothing exactly if no entry fits by itself |
| Budget.LoneLineThrows | packages/compiler/src/document.ts:115-121 | an input on which composing throws: the count is 0 and the rendered file has one byte |
| Budget.FillConserves | packages/compiler/src/document.ts:103-112 | included and dropped entries partition the entries |
| Budget.CostShrinks | packages/compiler/src/document.ts:81-100 | what an entry costs alone is no more than what it and another cost together: headings open once |
| Budget.FillMaximal | packages/compiler/src/document.ts:103-112 | no dropped entry fits beside the included ones, though headings have been paid for since |
| Budget.FillWithinLimit | packages/compiler/src/document.ts:72-121 | the file is within both limits exactly if head and tail are |
| Parse.ParseFile | packages/compiler/src/parse.ts:70-186 | the loop over lines, with its section, scope, fence and open item, computes the specified file |
| PatternLaws.KindsExactly | packages/compiler/src/parse.ts:106-178 | outside a fence each line's kind is decided by its own pattern: no line matches two, but for the markers and the first header, which look like comments |
| PatternLaws.ItemExactly | packages/compiler/src/parse.ts:37 | an item is white space, a bullet, white space, and the words |
| PatternLaws.HeadingExactly | packages/compiler/src/parse.ts:38 | a heading is one to six hashes, white space and a text, and its level and title are theirs |
| PatternLaws.TitleExactly | packages/compiler/src/parse.ts:38 | closing hashes behind white space are no part of a title; any other text is all title |
| PatternLaws.CitesExactly | packages/compiler/src/parse.ts:39 | cites are refs in brackets at the end, with commas and any white space round them, and the words are what stands before |
| PatternLaws.MarkerExactly | packages/compiler/src/parse.ts:40 | a marker is one of the two in parentheses with white space behind it |
| PatternLaws.ScopeExactly | packages/compiler/src/parse.ts:41 | a scope heading is `In ` and texts in backticks, a comma and a space between them |
| PatternLaws.FenceExactly | packages/compiler/src/parse.ts:42 | a fence is three backticks or three tildes behind white space |
| PatternLaws.CommentExactly | packages/compiler/src/parse.ts:149 | a comment is white space and one HTML comment up to the line's end |
| PatternLaws.HeaderExactly | packages/compiler/src/document.ts:176 | the header names where and when it was compiled |
| PatternLaws.ImportExactly | packages/compiler/src/parse.ts:166 | an import is `@` and a word |
| PatternLaws.IndentedExactly | packages/compiler/src/parse.ts:109 | a line that may continue an item is white space and then something |
| RoundTrip.CitesExact | packages/compiler/src/parse.ts:37-42 | the cite pattern reads back the refs a line was printed with, and the words before them |
| RoundTrip.TextLineExact | packages/compiler/src/parse.ts:199-220 | a printed item gives back its words, cites and marker |
| Relisting.BareReads | packages/compiler/src/parse.ts:173-220 | a printed line without its `- ` is read as words with the same text and cites exactly if it is no fence, heading or item by itself |
| Relisting.BrokenReads | packages/compiler/src/parse.ts:100-125 | an item broken over two lines, the second one indented, is read as one line with its words joined and cleaned |
| RoundTrip.ScopeExact | packages/compiler/src/parse.ts:130-140 | a printed scope heading gives back its globs |
| RoundTrip.ParseUndoesRender | packages/compiler/src/parse.ts:95-220 | parsing a rendered markdown file yields, among item lines, the printed entries with text, cites, marker, section, line number and scope (the file's own globs where the group was cleared), in print order |
| RoundTrip.SpotsExact | packages/compiler/src/document.ts:128-155 | those are exactly the included entries, each on the line it was printed on |
| Diff.Queues.Push | packages/compiler/src/parse.ts:418-432 | appends to one key's pending items and leaves the others |
| Diff.Queues.Shift | packages/compiler/src/parse.ts:418-432 | takes the first pending item of one key, if any |
| Diff.Tally.Take | packages/compiler/src/parse.ts:402-415 | takes one text out if it is there, and says whether it was |
| Matching.PairCited | packages/compiler/src/parse.ts:323-350 | the first pass pairs lines through queues as counting does, and lists edits and gone lines |
| Matching.FindAdded | packages/compiler/src/parse.ts:350-365 | the second pass lists the added lines, and says exactly whether an uncited line is missing |
| Matching.MatchGone | packages/compiler/src/parse.ts:365-386 | the third pass lets gone lines survive in the first spare line with their words, and removes the others |
| Matching.DiffLines | packages/compiler/src/parse.ts:315-400 | the queue matcher computes the counted proposals |
| DiffLaws.PartnersInverse | packages/compiler/src/parse.ts:323-350 | pairing is one to one and between lines with the same cites |
| DiffLaws.PartnerIsFirstUnused | packages/compiler/src/parse.ts:323-350 | a line's partner is the first line with the same cites that no earlier line took |
| Survivors.SurvivorIsFirstUnused | packages/compiler/src/parse.ts:359-380 | a gone line survives in the first added uncited line with its words that no earlier gone line took |
| Survivors.SurvivorsExact | packages/compiler/src/parse.ts:359-386 | a gone line is removed exactly if no such line is left for it, and the lines that are not reported as new are the ones taken |
| DiffLaws.KeyIsCites | packages/compiler/src/parse.ts:323-330 | lines share a key exactly if they share their cites |
| DiffLaws.SilentExactly | packages/compiler/src/parse.ts:315-400 | nothing is proposed and nothing uncited is missing exactly if, for all cites and all words, the lines are kept |
| DiffLaws.MovesAreSilent | packages/compiler/src/parse.ts:315-400 | lines that only moved, keeping the order among equal cites, propose nothing |
| DiffLaws.RewordingIsOneEdit | packages/compiler/src/parse.ts:315-400 | rewording a line whose cites are unique is exactly one edit, with both texts and both line numbers |
| DiffLaws.DeletingIsOneRemove | packages/compiler/src/parse.ts:315-400 | deleting such a line is exactly one remove, with its cites, text and line number |
| DiffLaws.AddingIsOneNew | packages/compiler/src/parse.ts:315-400 | adding such a line is exactly one new line, with its text, line number, section, scope and cites |
| ProposalLaws.ProposalsAre | packages/compiler/src/parse.ts:315-400 | the proposals are one edit for each pair that differs, one new line and one removal for each line that is new or removed, with all fields, and nothing else |
| ProposalLaws.ProposalsInLineOrder | packages/compiler/src/parse.ts:388-398 | edits and new lines come first, by their lines in the new file; then removals, by theirs in the old one |
| DiffLaws.LinesConserved | packages/compiler/src/parse.ts:315-400 | paired, surviving, removed and new lines account for every line once |
| DiffLaws.SilentKeepsTexts | packages/compiler/src/parse.ts:315-400 | an empty change list without a layout change means the same texts, as often |
| Rereading.SameRegion | packages/compiler/src/parse.ts:95-186 | regions that compare as equal read as the same words and cites, from any section and scope |
| Rereading.CutFile | packages/compiler/src/parse.ts:118-186 | a managed block is read from a fresh state, and its lines are one stretch of the file's |
| Rereading.LayoutRaised | packages/compiler/src/parse.ts:228-232 | one more line changes the layout exactly if it is a heading, an import, a comment or a fence |
| Rereading.LayoutIsText | packages/compiler/src/parse.ts:118-171 | a heading is compared by its clean title, and any other layout line by all its text |
| ParseBack.LayoutDiffers | packages/compiler/src/parse.ts:289-294 | the tally says exactly whether the layout texts differ as multisets |
| ParseBack.ParseBack | packages/compiler/src/parse.ts:250-313 | the change set: proposals, and each drift flag, from both parsed files |
| ParseBack.UnchangedIsSilent | packages/compiler/src/parse.ts:235-313 | without managed blocks, an unchanged file proposes nothing, and no layout, header or frontmatter edit |
| ParseBack.UnchangedBlockIsSilent | packages/compiler/src/parse.ts:235-313 | with a managed block in both files, an unchanged block proposes nothing and no uncited line counts as missing, whatever happened around it |
| ParseBack.UnchangedBlockLayout | packages/compiler/src/parse.ts:235-313 | and its layout counts as unedited exactly if the header stands inside both blocks or inside neither |
| Witnesses.HeaderBeforeBlockEditsLayout | packages/compiler/src/parse.ts:118-128 | two files with the same block and the same header, unchanged, whose layout counts as edited |
| AddedBlock.SilentExactly | packages/compiler/src/parse.ts:250-313 | a block added around an unchanged file, with or without frontmatter, is silent exactly if all content stands in the block after the frontmatter |
| AddedBlock.FrontmatterIsProposed | packages/compiler/src/parse.ts:250-313 | with frontmatter it is never silent |
| AddedBlock.LayoutExactly | packages/compiler/src/parse.ts:289-313 | the layout counts as unedited exactly if no layout stands outside the body, and the header, if there was one, is still read as one there |
| Witnesses.AddedBlockProposes | packages/compiler/src/parse.ts:250-313 | a file whose block holds the last file, and one more line outside, is unchanged and still proposes a line |
| Witnesses.OpenFenceIsSilent | packages/compiler/src/parse.ts:78-186 | a file whose frontmatter opens a fence: put into a block it is unchanged and silent, though a line of the frontmatter is content now |
| Rewording.RewordingIsProposed | packages/compiler/src/parse.ts:70-400 | from file text to change set, with a block or without: rewording one printed item whose cites are unique among the compared lines proposes exactly that edit, with its line; the file is changed, and no layout, header or frontmatter counts as edited |
| Rewording.RewordingOutsideIsSilent | packages/compiler/src/parse.ts:250-313 | rewording an item outside the block proposes nothing and counts as no edit |
| Relisting.RelistingIsSilent | packages/compiler/src/parse.ts:70-400 | from file text to change set: giving one printed item another list marker, or none, or hidden characters that cleaning takes out, proposes nothing and counts as no edit of layout, header or frontmatter |
| Bits.RotrRotates | packages/compiler/src/hash.ts:76 | a rotation moves every bit, and loses none |
| Bits.Unsigned | packages/compiler/src/hash.ts:98-118 | reading a signed number as a word undoes the two's complement |
| Bits.NotExact | packages/compiler/src/hash.ts:106 | the signed complement stands for the bitwise one |
| Sha256.RotatedExact | packages/compiler/src/hash.ts:76 | the signed rotation stands for ROTR of FIPS 180-4 |
| Sha256.GapSmallest | packages/compiler/src/hash.ts:80-87 | the padding reaches 448 modulo 512 bits with as few zeros as possible |
| Sha256.PadMessage | packages/compiler/src/hash.ts:80-87 | the padded buffer is the one of section 5.1.1, for messages under 2^50 bytes |
| Sha256.Expand | packages/compiler/src/hash.ts:96-101 | the overwritten buffer holds the message schedule |
| Sha256.RoundExact | packages/compiler/src/hash.ts:104-119 | one round in mixed signed and unsigned numbers is exact, and is the round of section 6.2.2 |
| Sha256.Mix | packages/compiler/src/hash.ts:103-128 | 64 rounds in place, added to the hash value |
| Sha256.Sha256Portable | packages/compiler/src/hash.ts:79-132 | the result is the hash of FIPS 180-4 in lower-case hex |
| Sha256.HexSpells | packages/compiler/src/hash.ts:131 | the hex reads back as the eight words, eight digits each |
| WordLaws.ChChooses | packages/compiler/src/hash.ts:104-119 | each bit of the first word chooses between the other two |
| WordLaws.MajVotes | packages/compiler/src/hash.ts:104-119 | each bit is that of two words at least |
| WordLaws.BigSigmasAreParities | packages/compiler/src/hash.ts:104-119 | each bit is the parity of three bits of the word, at the standard's distances |
| WordLaws.SmallSigmasAreParities | packages/compiler/src/hash.ts:96-101 | the same for the schedule, the third bit shifted out at the top |
| WordLaws.BigEndianReads | packages/compiler/src/hash.ts:94-101 | a word's bytes read back, the first one highest |
| Sha256.ConstantsAreCubeRoots | packages/compiler/src/hash.ts:62-74 | each constant holds the first 32 bits of the fraction of a prime's cube root |
| Sha256.InitialAreSquareRoots | packages/compiler/src/hash.ts:89-92 | the initial hash value holds those of square roots |
| Metrics.IdealAny | packages/server/eval/metrics.go:341-356 | the ideal value doesn't depend on the order in which the map gives its judgments |
| Metrics.IdealDcg | packages/server/eval/metrics.go:341-356 | the loops compute the ideal value |
| Metrics.Ndcg | packages/server/eval/metrics.go:103-124 | the loop computes NDCG, 0 where it is defined as 0 |
| Metrics.SmallerPrefixes | packages/server/eval/metrics.go:103-124 | summation by parts: smaller prefix sums stay smaller under growing discounts |
| Metrics.BestTotal | packages/server/eval/metrics.go:341-356 | distinct results gain no more than as many of the best judged items |
| Metrics.GainExactly | packages/server/eval/metrics.go:103-124 | only a positive judgment gains anything: one less than its power of two |
| Metrics.GainDoubles | packages/server/eval/metrics.go:103-124 | each grade gains one more than twice what the grade below gains |
| Metrics.NdcgWithinOne | packages/server/eval/metrics.go:103-124 | 0 <= NDCG <= 1 for distinct results, any judgments and any k |
| Metrics.DescendingRankingIsIdeal | packages/server/eval/metrics.go:103-124 | a ranking of the judged items from best to worst reaches 1 |
| Metrics.ErrAtK | packages/server/eval/metrics.go:197-213 | the loop computes the cascade's expected reciprocal rank, in [0, 1) when grades are at most maxRel |
| Metrics.ErrBelow | packages/server/eval/metrics.go:197-213 | ERR is at most the probability that the reader stopped at all, which is below 1 |
| Metrics.RecallAtK | packages/server/eval/metrics.go:149-174 | the loops count relevant judgments and relevant results |
| Metrics.FoundExactly | packages/server/eval/metrics.go:149-174 | what is found is the number of places whose result has the grade, an unjudged one counting as 0 |
| Metrics.RecallWithinOne | packages/server/eval/metrics.go:149-174 | recall is at most 1 for distinct results and minRel of at least 1 |
| Passkey.EncodedReads | packages/sdk/src/transport.ts:267-270 | an ASCII answer's base64url without padding reads back as the answer |
| Passkey.EncodedEmpty | packages/sdk/src/transport.ts:267-270 | only an empty answer encodes to nothing |
| Request.Request | packages/sdk/src/transport.ts:327-515 | the loop ends against every run of answers, with the specified outcome and log; its final throw is unreachable |
| Request.PassSpends | packages/sdk/src/transport.ts:341-512 | a pass that goes round again spends exactly one of the budgets |
| RequestLaws.SendsCarry | packages/sdk/src/transport.ts:350-370 | each pass sends once; each header is what the first of these gives: time zone, the encoded answer of a person asked before, hub, the call, credentials, configuration, content type |
| RequestLaws.RepeatsExactly | packages/sdk/src/transport.ts:307-507 | exactly when a send is followed by waiting out a rate limit, and for how long, by waiting for what is not ready, or by asking the person, from what the run used up before |
| RequestLaws.SafeExactly | packages/sdk/src/transport.ts:202-215 | safe to repeat is a GET, a HEAD or an idempotency key, in any case |
| RequestLaws.EndsWithLastAnswer | packages/sdk/src/transport.ts:337-512 | the run ends with what its last turn says: data, nothing, unauthorized, no JSON, the server's code with its status and advice, no network, or the caller's abort |
| Request.RequestBounds | packages/sdk/src/transport.ts:307-515 | at most maxRetries + rateLimitRetries + 2 sends and 60 seconds of rate-limit waiting; each wait lasts 1 to 30 seconds and follows a request that is safe to repeat |
| Request.EndsExactly | packages/sdk/src/transport.ts:492-507 | the loop ends against every server exactly if there is no passkey handler, or no answer it may give is empty |
| Stream.Reader.Feed | packages/sdk/src/transport.ts:836-866 | after any chunk, events and buffer are those of the whole text so far, split once |
| Stream.ReadChunks | packages/sdk/src/transport.ts:830-866 | reading any chunks gives the events and the leftover of the whole text |
| Stream.SplitOn | packages/sdk/src/transport.ts:840-842 | splitting a longer text goes on from what was left of the shorter one |
| Stream.EventsExactly | packages/sdk/src/transport.ts:844-866 | every data line is one event, in order, with what stands behind the prefix, under the last name given since a blank line, or `message`; no other line is one |
| Stream.NamedOnce | packages/sdk/src/transport.ts:844-866 | and no data line has two names |
| Stream.ChunkIndependent | packages/sdk/src/transport.ts:830-866 | the events and the leftover of any chunking are those of the whole text |
| Stream.ChunkingIsFree | packages/sdk/src/transport.ts:830-866 | two chunkings of one text can't be told apart |

## Left out

- Strings are sequences of Unicode code points: lone surrogates, and comparing by code unit where it differs from
  comparing by code point, are not modelled.
- `cleanLine` and `frontmatterPaths` are parameters of the parser (`Parse.Env`); NFC and the Unicode classes of
  `sanitize.ts` are not part of this model. The empty line is assumed to clean to the empty line.
- RoundTrip.ParseUndoesRender: for markdown files, clean words that don't begin with a marker, titles that read back,
  and heads and tails that hold no items; plain files are not parsed.
- Adapters are parameters: a head, a tail, a style, which facts are accepted, and which prose is taken. How a scoped
  adapter names and orders its files is left out.
- Budget.Compose: the limits are byte and character counts; warnings and the `dropped` report's wording are left out.
- The state that `parseFile` keeps in separate variables is one record that each line updates.
- AddedBlock.SilentExactly: for frontmatter with closed fences (an even number of fence lines). After an open one the
  block reads the whole body the other way round; `Witnesses.OpenFenceIsSilent` shows that the rule fails there, and
  which bodies are silent then is not characterised. AddedBlock.LayoutExactly needs the same.
- Rewording.RewordingIsProposed: for an item that no indented line continues; the file's other lines are arbitrary.
  Relisting.RelistingIsSilent likewise.
- `validate.ts`, `compile.ts` and `errors.ts` beyond the well-formedness they give: field checks and messages.
- The `crypto` path of `sha256Hex` and UTF-8 encoding by the platform; the portable hash takes bytes.
- Metrics: reals instead of floating point; the discount is any positive function that doesn't fall, with `log2` one of
  them; precision, MRR, harmful counts and averages would only add easy members.
- Request: `getAuth`, `fetch`, timers, abort signals, `parseRetryAfter` and the passkey handler are what one turn of the
  outside world gives; building the URL, the exact wording of errors, and a rejected `getAuth` or body read are left out.
  Header names and methods are compared by ASCII case.
- Request.Request: with a passkey handler, requires answers that encode to something; Request.EndsExactly covers the
  others.
- Stream: events carry the data's text; parsing it as JSON, with the text itself as fallback, is a function of it.
- HTTP handlers, CLI commands, receipts, the agent registry, web UI and server wiring.
