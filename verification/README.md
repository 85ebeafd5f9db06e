# Verification of the l2h query compiler and of the gtest algorithms

This project models two parts of the repository in Dafny and proves what they do.

**The query compiler, `src/l2h`.**
A query such as `from file x in '/a' select x.md5;` becomes a binary syntax tree (`Frontend`,
`Queries`), which is drawn as ASCII art (`Layout`, `Rendering`, `AsciiTree`, `Labels`,
`QueryDrawing`, `AttributeDrawing`) and folded in postorder (`TreeTraversal`) into triples by a
generator that takes back some of the triples it has pushed (`Backend`, `CodeGeneration`). The
triples are listed and run against a second array of sources (`Processor`); `QueryMeaning` puts all
of it together and states what a query calculates. Tree, labels, code and listing are each read back:
the tree as the text of the query (`SourceText`), a label as its node (`ReadLabels`), the code as the
postfix form of the text, whose conditions compute their truth (`Postfix`), a line of the listing as
its triple (`ReadListing`). `Strings` holds the trimming of literals, `Numbers` decimal digits.

**The algorithms of `src/_tst/gtest-all.cc`.**
The edit script, the unified diff and its text (`EditScript`, `UnifiedDiff`, `DiffText`), the simple
regular expressions (`SimpleRegex`), the lazily initialised mutex (`LazyMutex`), wide strings to UTF-8
and the UTF-8 check (`Unicode`), XML escaping and CDATA sections (`Xml`), test filters (`Glob`), the
order of test suites and its shuffling (`SuiteOrder`, `Shuffling`), the choice of tests and their
shards (`Sharding`) and the flags on the command line (`CommandLine`).

Code that changes things in place is a class or an array with `modifies` clauses, proved against
functions on values; the properties are lemmas about those functions. The scratch arrays of
`treeutil.c` are arrays of a `TreePrinter`; the linked nodes are objects whose shape a ghost tree
records (`Shape`, `Draws`, `Denotes`). The mutex is a state machine with one step for each atomic
action of one thread.

## Where the code does not do what it promises

Each of these is a theorem with its exact condition; the code is modelled as it is.

- The picture of a syntax tree is its drawing exactly when on no row the stroke of an only child runs
  into the sibling subtree (`AsciiTree.PictureExactIff`, for queries `QueryDrawing.QueryPictureIff`):
  profiles leave those strokes out on one side. For a query without clauses that selects one attribute
  the condition is one on the lengths of its texts (`AttributeDrawing.AttributeDrawnIff`): it is drawn
  wrong exactly when the edge below `from` is 3 longer than the edge above the attribute's two labels
  and the selected identifier has more than 8 characters. So
  `from string xxxxxxxxx in 'vvvvvvvv' select xxxxxxxxx.p;` is drawn wrong
  (`AttributeDrawing.DrawnWrong`) and `from file x in 'dfg' select x.md5;` right
  (`AttributeDrawing.DrawnRight`). Any query is drawn right whenever the boxes around sibling subtrees
  lie beside each other (`QueryDrawing.ApartIsDrawnRight`). A tree whose inner nodes all have two
  children is always drawn exactly (`AsciiTree.PictureIsExact`), but no query has such a tree
  (`QueryDrawing.NeverCovered`).
- A label is printed into an array of 80 characters (`src/l2h/treeutil.c:122`, `src/l2h/treeutil.h:36`).
  Every label fits exactly when no identifier has more than 75 characters, no string literal, with its
  quotes, more than 74, no property more than 73 and no method more than 71 (`Labels.LabelsFitIff`).
  Any query that declares a longer identifier writes past the array (`QueryDrawing.LongNameOverruns`);
  a name of 76 characters is enough (`QueryDrawing.LongNameBreaks`). The drawing theorems are about the
  trees that fit, labels and the 1000 rows of the profiles (`AsciiTree.Drawable`).
- Siblings are to be `tree_gap` + 1 columns apart, with a comment that allows less for two leaves. Their
  profiles are that far apart on every common row exactly unless one of the two children has height 1
  and the spread is odd and greater than 4 (`Rendering.WideGapIff`): rounding hides the shortening of an
  even spread, and one leaf is enough. The two labels of a selected attribute are so far apart exactly
  when half the length of the identifier and half that of the attribute, rounded down, have an odd sum
  (`AttributeDrawing.AttributeGap`); for `x.crc32` they are only `tree_gap` apart
  (`AttributeDrawing.GapLost`).
- `CalculateOptimalEdits` is documented to return the optimal edits, all of which cost the same. Its
  script has the fewest edits exactly when no edit on its own walk through the table goes to a neighbour
  that needs more edits than another neighbour does (`EditScript.FewestEditsIff`). Two alternating lines
  fail this, with three edits where two do (`EditScript.FewerEditsDo`, `EditScript.FewestEditsFails`); it
  never fails when one input is a subsequence of the other (`EditScript.SubsequenceHasFewest`).
- The code charges a replacement 1.00001. By that cost the returned script is the cheapest exactly when
  no step of its walk takes a branch that the three-way minimum would not take
  (`EditScript.ReturnedScriptIsOptimalIff`); every entry of the table is so exactly when the tie rule
  overprices none (`EditScript.OptimalIffNoneOverpriced`), which the returned script does not need
  (`EditScript.OverpricedOffTheWalk`). For inputs below 100000 lines the cheapest script has the fewest
  edits (`EditScript.OptimalHasFewest`), but not the other way round: a swap of two lines has the fewest
  and is not the cheapest (`EditScript.FewestNeedNotBeOptimal`, `EditScript.SwapIsOverpriced`).
- A query that restores a hash runs without error exactly when it names some registered hash as a
  property, of whatever identifier: otherwise the select reads an entry of an empty table
  (`QueryMeaning.CompiledMeaning`). The query of this kind in `src/_tst/FrontendTest.cpp:111` is one
  that fails (`QueryMeaning.RestoringFails`).
- `CreateUnifiedDiff` with context 0 prints nothing, so it is a patch exactly when the context is at
  least 1 or there is nothing to change (`UnifiedDiff.CreateUnifiedDiff`). A line is printed as a C
  string and on one line, so the text is read back as its hunks exactly when no printed line has a NUL
  or a line feed (`DiffText.DiffReads`); a line with a line feed can be read as two (`DiffText.Misread`).
- `RE::FullMatch` matches the whole string except for a regex that ends in an escaped dollar
  (`SimpleRegex.FullMatchIff`).
- A numeric literal is 64 bits wide and printed with `%d`: picture and listing show the number itself
  exactly when it fits 32 bits (`Labels.DecimalReads`); 4294967296 is shown as 0
  (`Labels.NumberMisprinted`).
- A line of the listing divides its operands by a comma and a blank: it can be read back exactly when
  the first operand's text has none (`ReadListing.LineReads`).
- A user type in a declaration takes back a triple that is not its own unless the declaration comes
  first (`CodeGeneration.DeclarationAppendsIff`). A second from clause therefore keeps the first source's
  from triple exactly when its own type is no user type (`CodeGeneration.FirstFromKeptIff`):
  `from string a in 'p' from md5 b in 'q' select b.string;` loses it (`CodeGeneration.FirstFromLost`).
- The syntax tree keeps no braces: `{ e }` has the tree of `e` (`SourceText.BracesAreLost`). Everything
  else of the text is in it (`SourceText.QueryText`).
- `AssertHeld` passes exactly for a thread that has begun no `Unlock` since its last `Lock` returned:
  a thread that locks twice and unlocks once still holds the mutex and fails the check
  (`LazyMutex.HeldIffClean`, `LazyMutex.NestedUnlockLosesOwner`). From every state of every run the
  call of every thread can still return, unless another thread that holds the section fails this check
  (`LazyMutex.CallsCanReturn`).
- `CodePointToUtf8` documents its message for every value beyond U+10FFFF and writes it beyond
  U+1FFFFF (`Unicode.MessageAsDocumented`).
- Where `char` is signed, `RemoveInvalidXmlCharacters` and `EscapeXml` drop every byte from 0x80 on
  (`Xml.NothingLostIff`).
- Registering a death test suite while the suites are shuffled lets every death suite run before the
  others exactly when the first place after them still holds its own suite
  (`SuiteOrder.RegisterRunsDeathFirstIff`, `SuiteOrder.RegisterWhileShuffled`). The
  read-only accessor of the i-th suite looks up the shuffled index and does not use it
  (`SuiteOrder.UnitTestImpl.AccessorsAgreeIff`).

## Model

| member | source | states |
|---|---|---|
| Layout.Spread | src/l2h/treeutil.c:193-196 | the spread is at least 4, and on every row it counts it separates the right profile of the left tree from the left profile of the right tree by the gap |
| Layout.LayOutIsLaidOut | src/l2h/treeutil.c:164-217 | one bottom-up pass leaves every node with the edge length and height that its laid-out subtrees ask for, and keeps labels non-empty |
| Layout.NoRowsOutside | src/l2h/treeutil.c:132-160 | a subtree has profile entries on no row outside 0 to its height, so resetting that many rows is enough |
| Layout.LabelCentred | src/l2h/treeutil.c:237-242 | a label is as wide as its text and centred on its node, an even one leaning towards the parent |
| Layout.LastRowHasInk | src/l2h/treeutil.c:207-217 | the last row that the height counts is not empty |
| Layout.InkInHeight | src/l2h/treeutil.c:207-217 | nothing of the drawing is outside the rows that the height counts |
| Rendering.MarksAreInk | src/l2h/treeutil.c:231-268 | the labels and strokes printed for a row are exactly the characters the drawing has on it |
| Rendering.FitsIffApart | src/l2h/treeutil.c:236-259 | the cursor never passes the next glyph's column exactly when no two glyphs of the row overlap |
| Rendering.InPlaceIffFits | src/l2h/treeutil.c:236-259 | every glyph comes out in its own column exactly when the cursor stays behind |
| Rendering.RenderExact | src/l2h/treeutil.c:231-268 | a row whose glyphs fit is printed as those glyphs at their columns, blanks between, nothing after |
| Rendering.PushedMark | src/l2h/treeutil.c:236-259 | when the cursor passes a glyph, ink comes out where no glyph of the row belongs |
| Rendering.ProfilesBound | src/l2h/treeutil.c:132-160 | every label and covered stroke of a row lies between the two profiles |
| Rendering.LProfAttained | src/l2h/treeutil.c:132-145 | the left profile is the column of a glyph: no tighter bound exists |
| Rendering.RProfAttained | src/l2h/treeutil.c:147-160 | the same for the right profile |
| Rendering.EdgeSeparates | src/l2h/treeutil.c:193-205 | with the chosen edge length the profiles of siblings stay `tree_gap` columns apart on every shared row, rounding and shortening included |
| Rendering.SiblingsApart | src/l2h/treeutil.c:164-217 | glyphs of two sibling subtrees on one row are a gap apart unless one is the stroke of an only child |
| Rendering.WideGapIff | src/l2h/treeutil.c:193-205 | the profiles of two siblings are `tree_gap` + 1 columns apart on every common row exactly unless a child has height 1 and the spread is odd and greater than 4 |
| Rendering.EdgeIsLeast | src/l2h/treeutil.c:193-205 | the edge below a node with children is the shortest of length at least 1 that keeps them `tree_gap` + 1 columns apart on every row they share, or `tree_gap` if one has height 1; a leaf has none |
| Rendering.LabelsApart | src/l2h/treeutil.c:164-217 | for every tree, a label of the right subtree starts at least `tree_gap` columns after every label of the left subtree on the same row, and at least one more unless the spread was shortened and odd |
| AttributeDrawing.AttributeGap | src/l2h/treeutil.c:193-205 | when the two labels of a selected attribute are only `tree_gap` apart, by the lengths of identifier and attribute |
| AttributeDrawing.GapLost | src/l2h/treeutil.c:198-203 | the labels of `x.crc32` are only `tree_gap` apart |
| Rendering.ShiftSuffices | src/l2h/treeutil.c:283-289 | the shift by the least column makes every column of every row non-negative |
| Rendering.ShiftIsLeast | src/l2h/treeutil.c:283-289 | some mark of the picture is in the first column |
| Rendering.RowExactIff | src/l2h/treeutil.c:271-295 | a row is printed with every glyph in its column exactly when no only-child stroke runs into the sibling subtree, and exactly then, if no label ends in a blank, it is the drawing's row |
| Rendering.CoveredTreesRenderExactly | src/l2h/treeutil.c:271-295 | every row of a tree whose strokes are covered is printed exactly |
| Rendering.FullIsCovered | src/l2h/treeutil.c:138-155 | trees whose inner nodes all have two children are covered |
| AttributeDrawing.DrawnWrong | src/l2h/treeutil.c:138-155 | a query on whose row 20 the stroke below its data source meets a label, so that its picture is not its drawing |
| AsciiTree.TreePrinter.ComputeTreeLProfile | src/l2h/treeutil.c:132-145 | writes only rows y to y + height - 1 of the scratch array, each becoming its minimum with the left profile |
| AsciiTree.TreePrinter.ComputeTreeRProfile | src/l2h/treeutil.c:147-160 | the same for maxima and the right profile |
| AsciiTree.TreePrinter.ChooseEdgeLength | src/l2h/treeutil.c:171-206 | the edge length read off the shared scratch arrays is the one defined on values, the least that separates the siblings (`Rendering.EdgeIsLeast`), whatever the arrays held before |
| AsciiTree.TreePrinter.ComputeEdgeLengths | src/l2h/treeutil.c:164-217 | assigns to the linked nodes the edge lengths and heights of the laid-out drawing, each edge the least and each height the last row with ink, although nested calls reuse the arrays |
| AsciiTree.TreePrinter.PrintText | src/l2h/treeutil.c:237-258 | pads to the column unless the cursor has passed it, and moves the cursor to the end of the text |
| AsciiTree.TreePrinter.PrintLevel | src/l2h/treeutil.c:231-268 | adds to the line the glyphs of one row of a subtree, with the cursor at the line's end |
| AsciiTree.TreePrinter.LeftEdge | src/l2h/treeutil.c:283-286 | the least entry of the filled profile, or 0 |
| AsciiTree.TreePrinter.TreePrintAsciiTree | src/l2h/treeutil.c:271-295 | prints the picture of a drawable syntax tree: its rows, and the note for a tree of height 1000 |
| AsciiTree.BuildAsciiTreeRecursive | src/l2h/treeutil.c:105-126 | the copy has the labels, which fit their arrays, the sides and the shape of the syntax tree |
| AsciiTree.RenderBelow | src/l2h/treeutil.c:260-267 | below a node's edge its row is the left subtree's part, then the right subtree's, printed by one cursor |
| AsciiTree.PictureIsExact | src/l2h/treeutil.c:271-295 | every row printed for a covered, drawable syntax tree shows exactly the drawing's row |
| AsciiTree.PictureExactIff | src/l2h/treeutil.c:271-295 | the whole picture of a drawable syntax tree is its drawing exactly when on no row an only-child stroke runs into the sibling subtree |
| Labels.LabelsFitIff | src/l2h/treeutil.c:120-123 | every label of a tree fits its array of 80 characters exactly when no text is longer than its kind allows |
| QueryDrawing.LongNameOverruns | src/l2h/treeutil.c:120-123 | no query that declares an identifier of more than 75 characters fits |
| QueryDrawing.LongNameBreaks | src/l2h/treeutil.h:36 | a query with an identifier of 76 characters writes past the array |
| QueryDrawing.QueryPictureIff | src/l2h/l2h.c:86-97 | the same as PictureExactIff for every drawable query the modelled grammar can build |
| Rendering.BoxesApartIsClear | src/l2h/treeutil.c:164-217 | where the boxes around sibling subtrees lie beside each other no stroke runs into a sibling |
| QueryDrawing.ApartIsDrawnRight | src/l2h/l2h.c:86-97 | a drawable query laid out that way is printed as its drawing |
| QueryDrawing.AttributeDrawn | src/l2h/treeutil.c:164-217 | the layout of every query without clauses that selects one attribute, from the layouts of its from clause and its body |
| AttributeDrawing.AttributeDrawnIff | src/l2h/treeutil.c:164-295 | such a query, with texts that fit their labels, is drawable, and its picture is its drawing exactly when not both the edge below `from` is 3 longer than the edge above the two last labels and the selected identifier has more than 8 characters |
| AttributeDrawing.DrawnRight | src/_tst/FrontendTest.cpp:79 | this query of the tests is printed as its drawing |
| QueryDrawing.NeverCovered | src/l2h/frontend.c:109-113 | no query's tree is full or covered: its declared identifier has an only child and a sibling |
| Labels.LabelOf | src/l2h/backend.c:106-187 | every node of the grammar gets a label that is not empty and does not end in a blank |
| ReadLabels.LabelReads | src/l2h/backend.c:106-187 | a label is read back as its node's kind and the text it shows |
| Labels.DecimalReads | src/l2h/backend.c:138 | a number is printed as its lowest 32 bits with their sign, so as itself exactly when it fits them |
| Labels.NumberMisprinted | src/l2h/backend.c:138 | the literal 4294967296 is printed as 0 |
| Labels.OperatorReads | src/l2h/l2h.lex:117-125 | the printed operator of a relation is the one the lexer reads |
| Labels.TypeReads | src/l2h/l2h.lex:96-98 | the printed name of a type is the keyword the lexer reads for it |
| TreeTraversal.TreePostorder | src/l2h/treeutil.c:57-83 | on a tree of distinct nodes the loop ends and visits exactly left subtree, right subtree, node |
| TreeTraversal.NotYetEntered | src/l2h/treeutil.c:68-70 | the node visited last is a child of no node that has still to be entered |
| TreeTraversal.FinishedIffEntered | src/l2h/treeutil.c:66-70 | comparing the child pointers with the node visited last finds exactly the nodes already entered |
| TreeTraversal.TreePreorder | src/l2h/treeutil.c:85-103 | the loop visits exactly node, left subtree, right subtree |
| TreeTraversal.TreeInorder | src/l2h/treeutil.c:36-55 | the loop visits exactly left subtree, node, right subtree |
| Strings.TrimRuns | src/srclib/lib.c:359-403 | trimming removes exactly the separators at both ends |
| Backend.CodeGenerator.CreateInternalTypeTriple | src/l2h/backend.c:231-250 | a type becomes one triple; a user type takes back two and keeps the first one's name |
| Backend.CodeGenerator.CreateIdentifierTriple | src/l2h/backend.c:269-306 | what an identifier becomes in an empty list, after a type, after select and elsewhere |
| Backend.CodeGenerator.CreatePropertyTriple | src/l2h/backend.c:308-317 | a property takes back the triple before it and uses its name |
| Backend.CodeGenerator.CreateMethodCallTriple | src/l2h/backend.c:331-349 | a call without arguments takes back the triple before it, any other has an empty target |
| Backend.CodeGenerator.Emit | src/l2h/backend.c:93-104 | the generator's whole step: what each node kind takes back and pushes |
| Queries.ExpressionTagged | src/l2h/l2h.y:232-280 | the grammar's actions build only nodes whose value fits their kind |
| Queries.QueryTagged | src/l2h/l2h.y:142-193 | so does every query's whole tree |
| SourceText.QueryText | src/l2h/l2h.y:124-290 | the tree of every query, read from left to right, gives back its keywords, operators, directions, names and literals in order |
| SourceText.TreeDecidesText | src/l2h/l2h.y:124-290 | queries with the same tree have the same text, braces and superfluous parentheses aside |
| SourceText.BracesAreLost | src/l2h/l2h.y:249-256 | an anonymous type with one member has the tree of that member |
| CodeGeneration.AboveKeeps | src/l2h/backend.c:93-104 | a fold that never goes below a length leaves the list below it as it was |
| CodeGeneration.Compositional | src/l2h/backend.c:93-349 | from any list that ends in neither a type nor a select, the postorder of an expression appends exactly its own code, keeps every earlier triple and never pops below the start |
| CodeGeneration.DeclarationCode | src/l2h/backend.c:231-306 | what a declaration with any declared type makes of the list |
| CodeGeneration.DeclarationAppendsIff | src/l2h/backend.c:238-244 | a declaration appends one definition and keeps the rest exactly when its type is no user type or it comes first |
| CodeGeneration.HeaderCode | src/l2h/backend.c:189-306 | the first from clause becomes exactly definition, data source and a from whose operands are 0 and 1 |
| CodeGeneration.FromCode | src/l2h/backend.c:189-306 | what a from clause makes of any list: the declaration, the data source, and a from whose operands are the places of these two |
| CodeGeneration.FirstFromKeptIff | src/l2h/backend.c:238-244 | after a second from clause the first source's from triple is still in the code exactly when the second type is no user type; else the only from triple is the second source's |
| CodeGeneration.FirstFromLost | src/l2h/backend.c:238-244 | a query with two sources that loses the first source's from triple |
| CodeGeneration.QueryCode | src/l2h/backend.c:93-104 | the code of a whole query is header, clauses, selection and one select; what clauses and selection are is `Postfix.QueryIsPostfix` |
| Postfix.QueryIsPostfix | src/l2h/backend.c:93-349 | clauses and selection are generated as the postfix form of their text |
| Postfix.ConditionIsPostfix | src/l2h/l2h.y:208-231 | so is a condition: and, or and not after what they connect |
| Postfix.ConditionComputes | src/l2h/l2h.y:208-231 | run on a stack of truth values, whatever relations hold between whatever operands, the postfix form of a condition leaves exactly its truth and keeps what is below |
| Postfix.GeneratedConditionComputes | src/l2h/backend.c:199-229 | so do the triples generated for the condition's tree, from any list that ends in neither a type nor a select |
| CodeGeneration.ClausesPlain | src/l2h/l2h.y:142-193 | every clause the modelled grammar can build satisfies what the compositional theorem asks |
| Processor.QueryProcessor.OnDef | src/l2h/processor.c:268-301 | the declaration each type pushes; none for a dynamic type |
| Processor.QueryProcessor.OnString | src/l2h/processor.c:303-311 | pushes the data source |
| Processor.QueryProcessor.OnFrom | src/l2h/processor.c:313-335 | moves the data source's value to the declaration its operand names, or turns it into the hash to restore |
| Processor.QueryProcessor.OnProperty | src/l2h/processor.c:337-347 | pushes the property call |
| Processor.QueryProcessor.OnSelect | src/l2h/processor.c:349-429 | when a registered hash is called after every hash to restore, the backward scan logs exactly the calculations that each source's first registered property gives, and the restorations |
| Processor.FirstHashIs | src/l2h/processor.c:355-361 | a calculation uses the first registered hash called on the name, and there is none exactly when no registered hash is called on it |
| Processor.QueryProcessor.OnSource | src/l2h/processor.c:356-428 | one turn of the scan keeps the table of the first registered hash called on each name; at a hash to restore it reads some entry of the table |
| Processor.QueryProcessor.RunTriples | src/l2h/processor.c:194-266 | every triple is listed and run: the lines are the listing of the code, and the loop's effect on sources and log is the fold of its steps |
| ReadListing.LineReads | src/l2h/processor.c:219-231 | a line of the listing is read back as place, code name and operands in their places exactly when the first operand's text has no comma with a blank behind it |
| ReadListing.NamesDiffer | src/l2h/processor.c:62-79 | different codes have different names |
| QueryMeaning.OperandLinkage | src/l2h/processor.c:313-335 | for every declared type the from operands index the matching declaration and data source in the processor's own array |
| QueryMeaning.BodyAdds | src/l2h/backend.c:308-317 | clauses and selection only add the property calls of the query, in order |
| QueryMeaning.SelectMeaning | src/l2h/processor.c:349-429 | the select scan over a linked query can run exactly when the query is restorable, and gives its meaning |
| QueryMeaning.CompiledMeaning | src/l2h/processor.c:194-207 | the triples of a query with a declared source type run without error exactly when the type is no user type or the query names a registered hash; they then log exactly one calculation, the restoration or the one by the first property of its name that is a registered hash, or none |
| QueryMeaning.RestoringFails | src/l2h/processor.c:402-413 | the triples of `from md5 x in '202CB962AC59075B964B07152D234B70' select x.string;` meet the empty table if `string` is no registered hash |
| QueryMeaning.QueryListed | src/l2h/processor.c:219-266 | for every query with a declarable type, each triple has the operands that its line in the listing reads |
| QueryMeaning.OnEachQuery | src/l2h/l2h.c:86-97 | prints the picture of the linked tree, the rule below it and the listing of its code, then visiting, emitting and running log what the fold on values logs |
| QueryMeaning.AnswerQuery | src/l2h/l2h.c:86-97 | a linked query that is drawable and restorable is drawn, listed as header, clauses, selection and select, and answered with its meaning |
| EditScript.CalculateOptimalEdits | src/_tst/gtest-all.cc:2516-2571 | the two tables and the walk back give the script of the recursive cost and move functions, which is the cheapest exactly when the walk is tight and has the fewest edits exactly when it is short |
| EditScript.FewestIsAttained | src/_tst/gtest.h:6511-6513 | the three-way minimum that counts all edits the same is the number of edits of some script |
| EditScript.FewestEditsIff | src/_tst/gtest.h:6511-6513 | the returned script has the fewest edits of all scripts exactly when no edit on its walk goes to a neighbour that needs more edits than another |
| EditScript.SubsequenceHasFewest | src/_tst/gtest.h:6511-6513 | so it has when one input is a subsequence of the other |
| EditScript.OptimalHasFewest | src/_tst/gtest-all.cc:2554-2556 | a script that is the cheapest with a replacement at 1.00001 has the fewest edits, for inputs below 100000 elements |
| EditScript.FewestNeedNotBeOptimal | src/_tst/gtest-all.cc:2543-2557 | the script returned for a swap has the fewest edits and is not the cheapest |
| EditScript.PathReplays | src/_tst/gtest-all.cc:2561-2570 | the script consumes all of both inputs, matches only equal elements, and its cost is the table's last entry |
| EditScript.CostZeroIffEqual | src/_tst/gtest-all.cc:2534-2559 | the cost is 0 exactly for equal inputs |
| EditScript.OptimalIffNoneOverpriced | src/_tst/gtest-all.cc:2543-2557 | every entry of the table is the cheapest for its prefixes exactly when the tie rule overprices none |
| EditScript.LeastIsAttained | src/_tst/gtest-all.cc:2534-2559 | the three-way minimum is the cost of some script |
| EditScript.CheapestIffLeast | src/_tst/gtest-all.cc:2534-2559 | no script is cheaper than a table entry exactly when the entry is the three-way minimum, which it never falls below |
| EditScript.CheapestIffWalkTight | src/_tst/gtest-all.cc:2543-2570 | an entry is the cheapest exactly when no step of the walk back from it takes a branch that the three-way minimum would not take |
| EditScript.ReturnedScriptIsOptimalIff | src/_tst/gtest-all.cc:2543-2570 | the same for the returned script against all scripts, a replacement costing 1.00001; no overpriced entry is enough for it |
| EditScript.SubsequenceIsCheapest | src/_tst/gtest-all.cc:2534-2559 | when one input is a subsequence of the other, the returned script is the cheapest |
| EditScript.OverpricedOffTheWalk | src/_tst/gtest-all.cc:2543-2557 | inputs with an overpriced entry whose returned script is the cheapest all the same |
| EditScript.SwapIsOverpriced | src/_tst/gtest-all.cc:2543-2557 | inputs whose script is not the cheapest |
| EditScript.FewerEditsDo | src/_tst/gtest.h:6511-6513 | for two alternating lines the script has three replacements where a removal and an addition do |
| EditScript.FewestEditsFails | src/_tst/gtest.h:6511-6513 | so it has not the fewest edits |
| EditScript.InternalStrings.GetId | src/_tst/gtest-all.cc:2576-2588 | equal strings get equal ids and different strings different ones |
| EditScript.SamePath | src/_tst/gtest-all.cc:2592-2606 | sequences with the same equalities have the same script |
| EditScript.CalculateStringEdits | src/_tst/gtest-all.cc:2592-2606 | interning does not change the script |
| UnifiedDiff.Hunk.PushLine | src/_tst/gtest-all.cc:2623-2639 | a line is added to the sides it belongs to; removed lines stay before added ones between two common lines |
| UnifiedDiff.Hunk.PrintTo | src/_tst/gtest-all.cc:2641-2675 | prints the header, whose counts are the numbers of lines of each side, and the lines |
| UnifiedDiff.Hunk.PrintHeader | src/_tst/gtest-all.cc:2663-2675 | each side that has edits is named, with a space between two |
| DiffText.HeaderReads | src/_tst/gtest-all.cc:2660-2675 | a printed header is read back as its numbers |
| DiffText.DiffReads | src/_tst/gtest-all.cc:2641-2648 | the text of a diff is read back as its hunks exactly when every line is free of NULs and line feeds |
| DiffText.Misread | src/_tst/gtest-all.cc:2641-2648 | a hunk whose one line has a line feed is read as a hunk with two |
| UnifiedDiff.ApplyRebuilds | src/_tst/gtest-all.cc:2691-2752 | reading hunks that are disjoint, ordered and equal in their gaps rebuilds the right file |
| UnifiedDiff.FillHunk | src/_tst/gtest-all.cc:2713-2743 | the edit loop of one hunk consumes edits until enough suffix follows or the input is over |
| UnifiedDiff.OpenHunk | src/_tst/gtest-all.cc:2699-2711 | a hunk begins with the context before the next edit |
| UnifiedDiff.CreateUnifiedDiff | src/_tst/gtest-all.cc:2691-2752 | every printed hunk holds exactly the slices of both files that its header names; hunks are disjoint and ordered, gaps equal; applying them gives right exactly when the context is at least 1 or the files are equal; its text is read back as the hunks exactly when their lines are plain, and for plain files applying what is read gives right under the same condition |
| UnifiedDiff.DiffIsPatch | src/_tst/gtest-all.cc:2691-2752 | hunks that follow the script give right when applied to left exactly when the context is at least 1 or the files are equal |
| UnifiedDiff.DiffEmptyIffEqual | src/_tst/gtest-all.cc:2698-2750 | with context the diff is empty exactly for equal files |
| SimpleRegex.MatchRepetitionAndRegexAtHead | src/_tst/gtest-all.cc:10651-10673 | the loop finds a number of repetitions after which the rest matches, if there is one |
| SimpleRegex.MatchRegexAtHead | src/_tst/gtest-all.cc:10678-10704 | true exactly when a prefix is in the language of the items; the mutual recursion ends |
| SimpleRegex.MatchRegexAnywhere | src/_tst/gtest-all.cc:10714-10726 | true exactly when some substring, anchored as the regex says, is in its language |
| SimpleRegex.ClassesContain | src/_tst/gtest-all.cc:10562-10576 | the classes of digits and word characters and their complements hold exactly the digits, letters and underscore of ASCII, or all else |
| SimpleRegex.BlanksContain | src/_tst/gtest-all.cc:10562-10576 | the class of blanks, its complement and the escapes of single control characters, by code |
| SimpleRegex.CharactersContain | src/_tst/gtest-all.cc:10576-10581 | an escaped mark is printed ASCII that is neither letter nor digit and stands for itself, a period for all but the end of a line, any other character for itself |
| SimpleRegex.ValidateRegex | src/_tst/gtest-all.cc:10591-10642 | the loop accepts what the recursive check accepts |
| SimpleRegex.ValidIffPrinted | src/_tst/gtest-all.cc:10591-10642 | exactly the printed forms of well-formed item lists are accepted |
| SimpleRegex.RE.Init | src/_tst/gtest-all.cc:10747-10778 | the full pattern gets a caret and a dollar unless it has them |
| SimpleRegex.RE.PartialMatch | src/_tst/gtest-all.cc:10742-10744 | true exactly for a valid regex with a substring in its language |
| SimpleRegex.RE.FullMatch | src/_tst/gtest-all.cc:10736-10738 | decides the language of the full pattern |
| SimpleRegex.FullMatchIff | src/_tst/gtest-all.cc:10736-10778 | the full pattern holds of exactly the strings of the regex's language, for all strings, exactly when the regex does not end in an escaped dollar |
| LazyMutex.RunsKeepInv | src/_tst/gtest-all.cc:10126-10229 | every state of every interleaving satisfies the invariant |
| LazyMutex.Safety | src/_tst/gtest-all.cc:10185-10229 | in every run of any number of threads the section is initialised once, by one thread, before anybody uses it; no check of the initialisation fails; at most one thread is inside |
| LazyMutex.UnlockReturns | src/_tst/gtest-all.cc:10132-10139 | the last action of Unlock returns with one entry less; with the last entry it frees the section, and then any idle thread can lock it alone and any waiting one gets in |
| LazyMutex.StandsStillIff | src/_tst/gtest-all.cc:10126-10229 | in every reachable state a thread's action changes nothing exactly outside a call, after a failed check, and while it waits for the section or its initialisation |
| LazyMutex.NoDeadlock | src/_tst/gtest-all.cc:10126-10229 | while some thread is in a call some thread's action changes the state, or the thread that holds the section is outside a call or has failed its check |
| LazyMutex.CallsCanReturn | src/_tst/gtest-all.cc:10126-10229 | every run can be continued so that any thread's call returns, or fails its own check, unless another thread that holds the section is in a call of AssertHeld that fails |
| LazyMutex.HeldIffClean | src/_tst/gtest-all.cc:10126-10147 | the check of AssertHeld passes exactly for a thread with no Unlock begun since its last Lock returned |
| LazyMutex.HeldIffHolding | src/_tst/gtest-all.cc:10126-10147 | without nested locks it passes exactly for the holder |
| LazyMutex.NestedUnlockLosesOwner | src/_tst/gtest-all.cc:10126-10147 | a thread that locks twice and unlocks once fails it |
| Unicode.OctetsIffEncoding | src/_tst/gtest-all.cc:11546-11579 | the octets of section 4 of RFC 3629 are exactly the encodings of strings of scalar values |
| Unicode.IsValidUTF8 | src/_tst/gtest-all.cc:11546-11579 | accepts exactly those octets, whatever the bytes |
| Unicode.Utf8Injective | src/_tst/gtest-all.cc:3242-3271 | octets encode at most one string of scalar values |
| Unicode.CodePointToUtf8 | src/_tst/gtest-all.cc:3245-3271 | chopping six bits at a time gives the encoding, nothing for U+0000, the message beyond 21 bits |
| Unicode.WideStringToUtf8 | src/_tst/gtest-all.cc:3311-3333 | stops at the length or the NUL, joins surrogate pairs, and writes the bytes of each code point |
| Unicode.StringStreamToString | src/_tst/gtest-all.cc:3478-3495 | replaces each NUL |
| Unicode.ValidIffAllShown | src/_tst/gtest-all.cc:3311-3333 | the output is UTF-8 exactly when each code point is a scalar value or so large that the message is written |
| Unicode.MessageAsDocumented | src/_tst/gtest-all.cc:3239-3248 | beyond U+10FFFF the documented message is written exactly beyond U+1FFFFF, and exactly then the output is UTF-8 |
| Unicode.HexReads | src/_tst/gtest-all.cc:3246-3248 | the number in the message is the code point, without leading zeros |
| Unicode.Utf16ToUtf8 | src/_tst/gtest-all.cc:3311-3333 | a NUL-free UTF-16 string gives UTF-8 exactly when it is well-formed by section 2 of RFC 2781, and then the output decodes to the same scalar values only |
| Xml.NothingLostIff | src/_tst/gtest-all.cc:5010-5017 | which strings lose no character |
| Xml.RemoveInvalidXmlCharacters | src/_tst/gtest-all.cc:5161-5170 | keeps the valid characters in order |
| Xml.EscapeXml | src/_tst/gtest-all.cc:5115-5156 | writes the escape of each character in turn |
| Xml.AttributeRoundTrip | src/_tst/gtest-all.cc:5115-5156 | reading the escaped attribute value by section 3.3.3 of XML 1.0 returns the string without its invalid characters |
| Xml.AttributeReadBack | src/_tst/gtest-all.cc:5115-5156 | also after the end-of-line translation of section 2.11 |
| Xml.TextRoundTrip | src/_tst/gtest-all.cc:5115-5156 | the same grammar-wise for text between tags, before ends of lines are translated; no character that a document may not hold is left |
| Xml.TextReadBack | src/_tst/gtest-all.cc:5115-5156 | with the translation the text is read back with its ends of lines translated, so unchanged exactly when its valid characters have no carriage return |
| Xml.EscapedIsSafe | src/_tst/gtest-all.cc:5115-5156 | nothing escaped opens a tag, ends a section or an attribute, or is changed to a space |
| Xml.OutputXmlCDataSection | src/_tst/gtest-all.cc:5227-5244 | writes the data split at every end marker |
| Xml.CDataRoundTrip | src/_tst/gtest-all.cc:5227-5244 | parsing the sections by sections 2.2 and 2.7 of XML 1.0, before ends of lines are translated, returns the data, overlapping end markers included, when all its characters may stand in a document, and fails otherwise |
| Xml.CDataReadBack | src/_tst/gtest-all.cc:5227-5244 | with the translation of section 2.11 legal data comes back with its ends of lines translated and other data is rejected, so the data comes back unchanged exactly when it is legal and has no carriage return |
| Xml.OutputDetail | src/_tst/gtest-all.cc:5318-5320 | removing the invalid characters first makes the sections of every detail readable, as its valid characters with their ends of lines translated |
| Xml.ControlCharacterRejected | src/_tst/gtest-all.cc:5227-5244 | the sections of data with the character 1 are rejected |
| Glob.MatcherIsExact | src/_tst/gtest-all.cc:1964-1978 | the recursive matcher holds exactly when the string can be cut into one piece for each pattern character |
| Glob.MatchesFilter | src/_tst/gtest-all.cc:1980-2000 | accepts exactly the names that belong to one of the patterns between the colons |
| Glob.FilterMatchesTest | src/_tst/gtest-all.cc:2004-2030 | a test passes by its full name: in the part before the first dash, or that part is empty, and not in the part after it |
| Shuffling.Random.Generate | src/_tst/gtest-all.cc:1814-1830 | the next state of the generator and the number drawn from it |
| Shuffling.ShuffleRange | src/_tst/gtest-all.cc:702-722 | the loop performs exactly the Fisher-Yates shuffle of the range for the generator's state, in which the drawn numbers decide the order |
| Shuffling.ShuffledIsDealt | src/_tst/gtest-all.cc:713-721 | the shuffle deals the range by the numbers drawn below each width |
| Shuffling.ShufflesAgreeIff | src/_tst/gtest-all.cc:713-721 | two shuffles of different elements agree exactly when all their drawn numbers do |
| Shuffling.EveryOrderIsDealtOnce | src/_tst/gtest-all.cc:713-721 | every order of different elements is dealt by exactly one sequence of drawn numbers |
| Shuffling.FirstSeeds | src/_tst/gtest-all.cc:1814-1830 | what the seeds 1, 2 and 3 draw, and the orders they give to three elements |
| Shuffling.ShuffledPermutes | src/_tst/gtest-all.cc:702-722 | for every seed the range is permuted and the rest untouched |
| SuiteOrder.ShuffleKeepsGrouped | src/_tst/gtest-all.cc:7140-7153 | shuffling keeps the indices a permutation and the death suites first |
| SuiteOrder.DeathFirst | src/_tst/gtest-all.cc:6817-6820 | every suite runs once, every death suite before every other suite |
| SuiteOrder.RegisterRunsDeathFirstIff | src/_tst/gtest-all.cc:6662-6694 | after registering every death suite still runs before every other suite exactly when the suite is known or no death suite, or the first place after the death suites holds its own suite |
| SuiteOrder.RegisterKeepsGroupedIff | src/_tst/gtest-all.cc:6662-6694 | registering keeps the indices a permutation with the death suites in front exactly under the same condition |
| SuiteOrder.RegisterWhileShuffled | src/_tst/gtest-all.cc:6679-6686 | two suites shuffled by seed 1, then a death suite registered: it runs after a suite that is none |
| SuiteOrder.RunsStayGrouped | src/_tst/gtest-all.cc:6662-6694 | over every run of registrations, shuffles and unshuffles that registers only while unshuffled, death suites stay first |
| SuiteOrder.RegisteredInOrder | src/_tst/gtest-all.cc:6662-6694 | the list holds the death suites in order of registration, then the others in theirs |
| SuiteOrder.UnitTestImpl.GetTestSuite | src/_tst/gtest-all.cc:6662-6694 | finds the suite of that name or registers it; the new state is the registration on values |
| SuiteOrder.UnitTestImpl.AddTestInfo | src/_tst/gtest-all.cc:1065-1084 | adds a test to the one suite of that name; while the suites are not shuffled they stay so, death suites first |
| SuiteOrder.UnitTestImpl.GetMutableSuiteCase | src/_tst/gtest-all.cc:996-999 | the i-th suite in running order, or none |
| SuiteOrder.UnitTestImpl.AccessorsAgreeIff | src/_tst/gtest-all.cc:984-999 | the read-only accessor agrees with it exactly while the suites are not shuffled |
| SuiteOrder.UnitTestImpl.ShuffleTests | src/_tst/gtest-all.cc:7140-7153 | shuffles death suites, other suites and then the tests of each suite with the one generator; suites, tests and generator end up as the shuffles on values give them |
| SuiteOrder.UnitTestImpl.UnshuffleTests | src/_tst/gtest-all.cc:7156-7163 | restores the order of suites and tests |
| SuiteOrder.RunAllTests | src/_tst/gtest-all.cc:6775-6852 | every repetition runs the suites in the order its own seed gives, whatever ran before, or nothing when there is no test to run, and leaves them as registered |
| SuiteOrder.SeedsGoRound | src/_tst/gtest-all.cc:538-544 | the seed of the k-th repetition |
| SuiteOrder.SeedsDiffer | src/_tst/gtest-all.cc:538-544 | 99999 repetitions in a row have different seeds |
| SuiteOrder.DeathIff | src/_tst/gtest-all.cc:1635-1638 | a suite is a death suite exactly when its name ends in `DeathTest` or contains `DeathTest/` |
| Sharding.OnOneShard | src/_tst/gtest-all.cc:6966-6968 | every runnable test runs on exactly one shard |
| Sharding.EqualShare | src/_tst/gtest-all.cc:6966-7022 | how many of the tests a shard runs |
| Sharding.ShardsPartition | src/_tst/gtest-all.cc:6966-7022 | the shards' counts add up to the number of runnable tests |
| Sharding.Balanced | src/_tst/gtest-all.cc:6966-7022 | two shards differ by at most one |
| Sharding.FilterTests | src/_tst/gtest-all.cc:6977-7022 | records for every test whether it is disabled, matches, belongs to another shard and runs, for every suite whether it runs, and counts those that run |
| Sharding.ShardsShareTests | src/_tst/gtest-all.cc:6977-7022 | over all shard indices FilterTests selects each runnable test once in all, evenly |
| Sharding.DisabledIff | src/_tst/gtest-all.cc:1631-1633 | a name is disabled exactly when it begins with `DISABLED_` or contains `/DISABLED_` |
| CommandLine.OneFlagOfTable | src/_tst/gtest-all.cc:7423-7451 | an argument sets at most one flag of the program's table |
| CommandLine.SetsIff | src/_tst/gtest-all.cc:7216-7300 | a flag of the program is set to a text by exactly the arguments `--gtest_NAME=TEXT`, for an integer flag if the text reads as one, and `--gtest_NAME` for a boolean flag and the empty text |
| CommandLine.FormsOf | src/_tst/gtest-all.cc:7216-7300 | what each of the two forms sets, for every flag of the program and every text |
| CommandLine.AsksForHelpIff | src/_tst/gtest-all.cc:7306-7313 | which arguments ask for help |
| CommandLine.ShiftDown | src/_tst/gtest-all.cc:7500-7507 | the loop removes one entry and moves the others, the null included, one place down |
| CommandLine.ParseGoogleTestFlagsOnly | src/_tst/gtest-all.cc:7477-7518 | argv becomes its first entry, exactly the arguments that set no flag, in order, and the null; the settings, each as `CommandLine.SetsIff` says, are made in order; the loop ends although it steps back |
| CommandLine.HelpAskedIff | src/_tst/gtest-all.cc:7494-7501 | help is shown exactly when an argument that is kept asks for it |

## Left out

- What the original does with labels or trees that are not drawable: it writes past its arrays, and the drawing methods require that it does not.
- The visitor callback of the traversals: the list of nodes visited takes its place; pool allocation is not modelled.
- The C unions of node and operand values are tagged values; reading a user type's name as a type number assumes that the pointer is none of the numbers 0 to 3.
- Sources of dynamic type, joins, continuations, nested queries, what further from clauses calculate, and string literals in clauses or selections: what they calculate depends on the file system, on slack in arrays, or on operand indices that no longer line up; the branch for sources of dynamic type reads the first entry of the select's table unchecked too. `DeclarationAppendsIff` says when a declaration is safe.
- The frontend's identifier table and the errors for undefined identifiers; hash algorithms, file and directory traversal, PCRE: calculations are logged, registered hashes are a set.
- Floating point: edit costs are real numbers.
- The unsigned wrap of the start line of a hunk that is dropped is an integer.
- Regex error messages and null pointers.
- The mutex: fairness, so that what can return does, memory ordering, destruction, and the flags against leak reports.
- What a flag file sets, help output, and how a number is read: which texts read as 32-bit integers is a parameter.
- Repeating the tests forever, listeners, environments, skipping; suites and ranges of more than 2^31 elements, on which the generator aborts.
- The encoding of a document: a byte from 0x80 on is taken as a part of some valid character.
- Counts that would pass the range of `int` or `size_t`.
- Printers, death-test processes, pipes, stack traces, environment flags and the rest of the test library, the other programs of the repository and its C#, Python and C++ tests.
