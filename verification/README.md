# A verified model of libmustache

libmustache renders Mustache templates. Everything it does turns around one template tree (`Node`): the tokenizer builds
it from source text, the printer turns it back into text, a legacy byte format and an archive store it, and one render
engine runs over the tree or directly over the archive. This project models those stages and proves what they promise
each other. It has no dependencies; `dafny verify dfyconfig.toml` checks all of it.

- `Base`, `Template`: bytes, results and errors; the tree, its type codes and flags.
- `Strings`, `SourceTree`, `TokenizerSpec`, `Tokenizer`: the byte-by-byte scan loop, proved equal to a description that
  goes tag by tag. `Tiling`, `TokenizerTheorems`, `TokenizerBudget`, `TokenizerRoom`, `TokenizerResults`,
  `StandaloneTags`, `SectionSources`: what tokenizing keeps of the source and what it guarantees about the tree.
  `DelimiterChanges`: when printing gives a template back. `TagMeanings`, `StandaloneLines`, `LimitsExact`: the same
  reading told without the tokenizer's own functions: what a tag is, which text is dropped, what the limits measure.
- `Printer`: template reconstruction. `Codec`, `Decoder`, `CodecTheorems`: the legacy byte format. `StoredFields`: both
  stored formats field by field.
- `Partials`, `ArchiveGraph`, `ArchiveLayout`, `ArchiveBuilder`, `ArchiveWriter`, `ArchiveValidator`, `ArchiveLegality`:
  flattening a tree and its partials into an index table, reading it back, and deciding whether a table is legal.
  `TwoPassWriter`: measuring and filling the output buffer.
- `RenderTrace`: the events a template intends, whatever the limits. `ValueLookup`, `RenderedValues`, `Entities`: what names
  mean, what values render, and what escaping does. `RenderLimits`, `RenderSafety`: the limits that cut
  them, and that nothing else does.
  `NodeViews`, `RenderEngine`, `RenderAgreement`: the engine over both representations. `Indentation`: line frames of
  standalone partials, as indentation of the tree. `SameMeaning`, `IndentedText`, `IndentedSource`, `IndentedParse`,
  `IndentedTemplates`, `IndentedExceptions`: the same compared with indentation of the source text.
- `CallbackScripts`, `CallbackState`, `Callbacks`: callbacks that re-enter the renderer, what a script of them does and
  who is charged for which bytes.
- `Json`, `JsonBuilder`, `JsonRoundTrip`: the JSON event machine and its budget, and values written down and read back.
- `TemplateLife`: results that span several stages.

Exceptions are values of `Error`, one for each message; the line and column numbers in messages are not modelled.
Machine integers are unbounded except where a width is part of the behaviour (the 8-, 16-, 24- and 32-bit fields of both
stored formats, `u32` indices, 64-bit JSON integers).

Four statements of the design hold only under a condition, and the model says which.

- The tokenizer's internal check "Invalid standalone parser state" is meant to be unreachable; it is, exactly when the
  closing delimiter the scan starts with does not end in a line of spaces and tabs (`StandaloneTags.NeverStuck`,
  `StandaloneTags.StandaloneStateExactly`; the default delimiters and every delimiter set by a tag are fine,
  `StandaloneTags.DefaultNeverStuck`).
- Printing a template that is tokenized from the default delimiters on gives it back exactly when none of its tags changes
  the delimiters, has triple braces or is padded (`DelimiterChanges.PrintAfterParse`).
- A renderer's byte counter is meant to be the number of bytes it has in buffers. It is not after a callback has caught the
  failure of a template that was evaluated in order to be escaped: the bytes of the evaluation stay charged
  (`Callbacks.RenderCaughtEvaluation`). The surplus is exactly what such evaluations had appended; there is none when no
  callback catches failures around an evaluation (`Careful`), and, where the limits leave room for everything, none
  exactly when the script's forecast, computed before the run, says so (`Callbacks.RenderOnce`).
- The standalone indentation of partials, which the engine puts in while it renders the tree, agrees with tokenizing the
  partial's source indented line by line, with two exceptions, and the result says what happens in them
  (`IndentedTemplates.IndentingTheSource`, for all accepted templates): a line break inside the name of a tag becomes part
  of another name (`IndentedExceptions.BrokenName`), and a last line of nothing but changes of delimiters is indented in
  the source but has nothing in the tree (`IndentedExceptions.BrokenChange`). For names without line breaks the two agree
  exactly when the last line is more than that, or rendering fails before it (`IndentedTemplates.SourceAndTree`).

## Model
| member | source | states |
|---|---|---|
| Tokenizer.Tokenizer.Tokenize | src/tokenizer.cpp:184-507 | tokenizing succeeds exactly when the tag-by-tag reading does, with its error or its tree; the input and delimiter limits are checked first |
| Tokenizer.Tokenizer.ScanTemplate | src/tokenizer.cpp:241-495 | the one-pass loop over bytes, with skipping, delayed output and changing delimiters, follows the reading of the template from tag to tag |
| Tokenizer.TrackLine | src/tokenizer.cpp:244-252 | the line state updated byte by byte equals the position of the last newline and whether only spaces and tabs follow it |
| Tokenizer.ReadTag | src/tokenizer.cpp:293-414 | what the content of a tag says: its type, its escaping as the parity of ampersand, triple braces and the default, its trimmed name |
| Tokenizer.ReadDelimiters | src/tokenizer.cpp:326-353 | a delimiter change needs its closing `=` and exactly two words within the size limit |
| Tokenizer.CloseTag | src/tokenizer.cpp:283-484 | everything the end of a tag sets off, in order, including which error wins; which lines that strips is stated by `StandaloneLines.LinesStripped` |
| Tokenizer.PlaceTag | src/tokenizer.cpp:416-460 | a tag becomes a leaf, opens a level or closes the innermost one of the same name, under the nesting and node limits |
| Tokenizer.PopSection | src/tokenizer.cpp:446-460 | a closed section keeps the source from the end of its opening tag to the start of its closing tag; the length cannot underflow |
| Tokenizer.AppendNode | src/tokenizer.cpp:70-81 | a node is appended unless the node limit is reached |
| Tokenizer.PublishBefore | src/tokenizer.cpp:366-389 | the text before a tag is published, without the indentation of a standalone tag, which follows as source-only output |
| Tokenizer.PublishAfter | src/tokenizer.cpp:463-467 | the rest of a standalone line becomes source-only output unless it is empty |
| Tokenizer.Tokenizer.SetStartSequence | src/tokenizer.cpp:106-116 | an empty opening delimiter is refused and changes nothing |
| Tokenizer.Tokenizer.SetStopSequence | src/tokenizer.cpp:132-142 | an empty closing delimiter is refused and changes nothing |
| Strings.TrimCuts | src/utils.cpp:34-49 | trimming cuts off exactly the listed characters at both ends |
| Strings.StringTok | src/utils.cpp:126-147 | the tokens are the maximal runs of other characters |
| Strings.WordsConserve | src/utils.cpp:126-147 | the tokens are non-empty, free of delimiters, and together all that is no delimiter, in order |
| Strings.StandaloneLineEnd | src/tokenizer.cpp:30-48 | the start of the next line, if only spaces and tabs and then a line ending or the end of the text follow |
| Tiling.PiecesTile | src/tokenizer.cpp:241-502 | the pieces of an accepted template cover it without gap or overlap, each tag spelled as the source has it, each section closed once, last and by its own name |
| TokenizerResults.LiteralsConserved | src/tokenizer.cpp:360-384 | the data of all output nodes in document order is the template with exactly the tag spans removed |
| TokenizerResults.SectionRangeExact | src/tokenizer.cpp:424-435 | the stored source of a section runs from the end of its opening tag, a third brace included, to the start of the matching closing tag, and everything inside lies in between |
| TokenizerResults.TokenizedTreeIsFit | tests/fuzz_tokenizer.cpp:45-52 | the tree is well shaped, every section has exactly one closing tag, its last child and of its name, and depth, nodes and name components stay within D+2, N+1, tag bytes+1 and input bytes+N |
| DelimiterChanges.PrintAfterParse | src/node.cpp:461-549 | for every template accepted from the default delimiters on, whatever delimiters its tags set: printing the tree gives the template back exactly when its tags are unpadded, without triple braces and without delimiter changes |
| TokenizerResults.UniformPrintAfterParse | src/node.cpp:461-549 | the same for any starting delimiters, if all tags are written with them |
| TokenizerResults.ChildrenAfterParse | src/node.cpp:476-483 | printing the children of a plain section gives its original section text |
| SectionSources.SectionsExact | src/tokenizer.cpp:424-460 | every section in the tree of an accepted template keeps the source between its two tags, both found there as written, and the ranges of nested sections nest |
| SectionSources.SectionsReprint | src/node.cpp:476-483 | in the tree of a plain template every section, at any depth, prints back to its original section text |
| StandaloneTags.NeverStuck | src/tokenizer.cpp:360-368 | the internal check on standalone tags cannot fail, under any limits, unless the closing delimiter ends in a non-empty line of spaces and tabs |
| StandaloneTags.StandaloneStateExactly | src/tokenizer.cpp:360-368 | for any other closing delimiter some template does fail it, if the limits admit two short tags |
| StandaloneLines.LinesStripped | src/tokenizer.cpp:30-52 | over the pieces of every accepted template, by bytes: around a tag that is no variable, not in triple braces and alone on its line with spaces and tabs, the blanks before it and the rest of the line, up to a newline, a carriage return and newline, or the end of the text, are dropped or kept as a partial's indentation; and no other text is |
| StandaloneLines.BytesStripped | src/tokenizer.cpp:360-384 | a byte of text is dropped exactly if it is on the line of such a tag |
| TagMeanings.SigilTag | src/tokenizer.cpp:293-414 | white space, a sigil and a name make a section, an inverted section, a closing tag, a comment, a partial or a variable with that name |
| TagMeanings.VariableTag | src/tokenizer.cpp:293-414 | a name without a sigil is a variable, escaped if an odd number of triple braces and the default turns it on |
| TagMeanings.ChangeTag | src/tokenizer.cpp:326-353 | two words between equals signs are the new delimiters |
| TagMeanings.OnlyChangeTag | src/tokenizer.cpp:326-353 | and nothing else is: between its first and its last equals sign a change has exactly two words, both within the limit |
| TagMeanings.TagsWritten | src/tokenizer.cpp:270-290 | every tag of an accepted template runs from an opening delimiter to the first closing one behind it, with the third brace where it has triple braces |
| LimitsExact.LimitsDecide | src/tokenizer.cpp:184-507 | a template that is accepted under some limits is accepted under others exactly if its bytes, its delimiters, the content of each tag, the number of its nodes and the nesting of its sections are within them |
| TokenizerTheorems.ItemShape | src/tokenizer.cpp:386-450 | each piece becomes at most one node, well shaped, with the marker flag exactly on indentation markers |
| TokenizerBudget.ItemsBounds | src/tokenizer.cpp:416-444 | nodes, depth and name components of a stretch of source are bounded by its length and the limits |
| TokenizerRoom.NoLimitHit | src/tokenizer.cpp:184-507 | under limits in proportion to the length of the template, no limit is the reason for refusing it |
| TokenizerRoom.LimitsKeepPieces | src/tokenizer.cpp:184-507 | the limits decide whether a template is accepted, never what its pieces are |
| Printer.ToTemplateString | src/node.cpp:712-724 | reconstruction succeeds exactly when the tree is printable and depth, nodes and bytes fit, and gives the text of the tree |
| Printer.ChildrenTemplateString | src/node.cpp:476-483 | the same for the children of a node, whose own closing tags are left out |
| Printer.TemplateStringState.AppendNode | src/node.cpp:493-549 | one node is charged and printed with its children, and nothing is appended beyond the limit |
| Codec.SerializeValue | src/node.cpp:702-710 | the writer succeeds exactly for trees the format can hold within all limits, and writes their encoding |
| Codec.SerialWriter.SerializeNode | src/node.cpp:196-270 | appending with a reserved size that is patched afterwards produces the encoding, and fails exactly when the node is not encodable or a budget is exceeded |
| Codec.SerialWriter.WriteUint32 | src/node.cpp:188-194 | patching replaces four bytes and leaves all others |
| Codec.SerialWriter.CheckSource | src/node.cpp:258-269 | a section is refused when reconstruction would not give its original text |
| Codec.SerialState.ValidateNodeData | src/node.cpp:142-152 | dotted components are charged per node and in total |
| Decoder.UnserializeOwned | src/node.cpp:414-437 | the reader over windows decodes exactly what the format describes, and nothing may follow |
| Decoder.SerialReader.ReadNode | src/node.cpp:347-412 | one node with its children is read inside its window, with every check in order |
| CodecTheorems.DecodeAfterEncode | src/node.cpp:196-437 | decoding the bytes of an accepted tree gives the tree back, with default delimiters on sections and without source texts |
| CodecTheorems.EncodeAfterDecode | tests/fuzz_node_unserialize.cpp:77-80 | whatever is decoded encodes to the very same bytes |
| CodecTheorems.AcceptedBytes | src/node.cpp:347-437 | the accepted byte strings are exactly the encodings of acceptable trees |
| CodecTheorems.PrefixFree | src/node.cpp:408-436 | no accepted byte string is a proper prefix of another |
| CodecTheorems.EncodingsAreLong | src/node.cpp:356-372 | every encoded node takes at least the 14 bytes of its header, which bounds the recursion of the reader |
| CodecTheorems.NothingLost | src/node.cpp:201-206 | what is read back of an accepted tree differs at most in delimiters that were left open and in section texts that its own children print |
| StoredFields.HeaderFields | src/node.cpp:226-256 | the header of a node byte by byte: its magic, the number of its type, its flags, and its sizes with the high byte first |
| StoredFields.RecordFields | src/archive/cista.cpp:777-834 | the archive record of a node: the number of its type, its flags, a presence bit for each of its strings and where they are in the pool |
| StoredFields.TypesByMask | src/node.hpp:86-97 | which types may have children, look their name up, have no name, or have dotted names |
| StoredFields.FlagsByType | src/node.cpp:83-95 | which flags a node of each type may have |
| Partials.EffectiveLookup | src/render_engine.hpp:361-374 | looking a name up in the effective table is the external-then-root lookup, entries without a tree falling through |
| Partials.FirstDifferenceDecides | src/archive/cista.cpp:1399-1403 | names are ordered by their first differing byte, a proper prefix before the longer name |
| Partials.AssignAscending | src/archive/cista.cpp:612-638 | the effective table stays strictly ascending by name |
| ArchiveBuilder.Builder.CountAll | src/archive/cista.cpp:590-597 | the counting pass succeeds exactly when all totals fit; the early bound on partial names rejects nothing that would fit |
| ArchiveBuilder.Builder.CountNode | src/archive/cista.cpp:701-743 | one tree is charged its depth, nodes, strings, shared source buffers once, and components |
| ArchiveBuilder.Builder.CollectEffectivePartials | src/archive/cista.cpp:612-638 | the result is the root's partials overridden by the external ones that own a tree, under the name limits |
| ArchiveBuilder.Builder.AppendNode | src/archive/cista.cpp:777-834 | a tree is laid out in pre-order with its links patched late, each shared source buffer stored once |
| ArchiveBuilder.Builder.AppendString | src/archive/cista.cpp:765-775 | a string is added at the end of the pool and its slice says where |
| ArchiveBuilder.Builder.Build | src/archive/cista.cpp:590-610 | building succeeds exactly when everything fits and is storable; the table is the laid-out root followed by the partials in name order, and its pool has the counted size |
| ArchiveLayout.LaidDenotes | src/archive/cista.cpp:777-834 | a laid-out block spells its tree through first-child and next-sibling links and uses exactly its own records |
| ArchiveLayout.LaidSnoc | src/archive/cista.cpp:816-833 | linking one more sibling from the last one extends the block |
| ArchiveWriter.FlattenReadBack | src/archive/cista.cpp:590-610 | from the root and from each partial the written table gives back the trees that went in, original section texts included, and no other storable tree can be read there |
| ArchiveWriter.WriterNeverRefused | src/archive/cista.cpp:1457-1459 | after a successful build the validator under the same limits accepts exactly when the trees are well shaped and the partial names are not empty, for the writer's own call without a payload size and for the reader's, whose payload size must be the recorded one |
| ArchiveWriter.DenotesUnique | src/archive/cista.cpp:1206-1287 | a record denotes at most one storable tree |
| ArchiveValidator.Validator.Validate | src/archive/cista.cpp:858-905 | the marking walk with its counters returns the outcome of the functional walk, first error first |
| ArchiveValidator.Validator.ValidateNode | src/archive/cista.cpp:937-1014 | visiting a record from any state of marks and counters; it ends on cyclic tables as well |
| ArchiveValidator.Validator.ValidateChildren | src/archive/cista.cpp:1032-1061 | following the sibling links from any state |
| ArchiveLegality.ValidatorDecidesLegality | src/archive/cista.cpp:858-1064 | a table is accepted exactly when it is the disjoint union of the trees of its root and partials, all records used, shapes and ranges legal, names non-empty and ascending, and every limit kept |
| TwoPassWriter.WriteArchive | src/archive/cista.cpp:1457-1468 | the filling pass fails at the call at which the measuring pass failed, or ends with the measured size, so the final size check cannot fail |
| TwoPassWriter.Measure | src/archive/cista.cpp:1075-1128 | the size counter computes the size of any sequence of aligned appends and patches |
| TwoPassWriter.Fill | src/archive/cista.cpp:1130-1200 | the bounded buffer holds the image of the writes |
| TwoPassWriter.EveryByte | src/archive/cista.cpp:1141-1163 | every byte is the last one written there, gaps are zero, unpatched bytes persist |
| TwoPassWriter.AlignUpIsLeast | src/archive/cista.cpp:1110-1124 | an append starts at the least aligned offset |
| RenderEngine.Renderer.RenderRoot | src/render_engine.hpp:401-443 | a render that may start performs the intended events under its limits and leaves the renderer idle, with stack, frames and depth cleared, on failure as well; one that may not start changes nothing |
| RenderEngine.Renderer.RenderNode | src/render_engine.hpp:445-555 | one node, of either representation, performs exactly its part of the trace and restores stack, depth and the outer line frames on every exit; cyclic partials end at the nesting ceiling |
| RenderEngine.Renderer.RenderBody | src/render_engine.hpp:489-554 | what each node type does: its part of the trace, whose text is stated by the lemmas of `RenderedValues` |
| RenderEngine.Renderer.RenderChildren | src/render_engine.hpp:596-612 | the children in order, a marker together with the partial it precedes |
| RenderEngine.Renderer.RenderWithContexts | src/render_engine.hpp:848-860 | the children once for each context, pushed and popped |
| RenderEngine.Renderer.RenderPartial | src/render_engine.hpp:892-916 | a partial runs in a line frame of its own with the right components |
| RenderEngine.Renderer.LookupValue | src/render_engine.hpp:720-762 | the lookup finds a value exactly where the name resolves to it: the innermost context that has the first component, then members of the object reached so far, with no retry further out; `.` is the current context; strict names are looked up in the current one only |
| ValueLookup.InnermostWins | src/render_engine.hpp:737-746 | by position in the stack: the innermost context that has the key gives the value, and there is none exactly when no context has it |
| ValueLookup.LookupResolves | src/render_engine.hpp:720-762 | the same for dotted names, as a chain of members, for strict names and for `.` |
| RenderedValues.EmptyExactly | src/data.cpp:260-293 | a value is empty exactly when there is nothing to it: no byte, not true, no item, no key; a number never is |
| RenderedValues.SectionRenders | src/render_engine.hpp:837-860 | a section renders its children once for each item of a list, in order and with the item innermost, once for any other value with something to it, and otherwise nothing |
| RenderedValues.InvertedSectionRenders | src/render_engine.hpp:534-539 | an inverted section renders its children exactly when there is no value or nothing to it |
| RenderedValues.VariableRenders | src/render_engine.hpp:770-834 | a variable renders the text of its value, escaped if its flag says so |
| RenderedValues.SourceRenders | src/render_engine.hpp:497-517 | text renders as it is unless it is kept for callbacks only; comments and closing tags render nothing |
| RenderEngine.Renderer.AppendEscaped | src/renderer.cpp:214-251 | the size check in a first loop and the appending in a second amount to one atomic append of the escaped text |
| Entities.EscapingIsUndone | src/renderer.cpp:18-34 | a reader of entities with a table of its own gets the text back from its escaped form |
| Entities.EscapedHasNoMarkup | src/renderer.cpp:18-34 | an escaped text has no angle bracket and no quote, and every ampersand in it starts one of the five entities |
| Entities.PlainTextStays | src/renderer.cpp:18-34 | text without the five bytes is unchanged |
| RenderEngine.Renderer.AppendTemplateOutput | src/renderer.cpp:253-277 | literal text is indented line by line |
| RenderEngine.Renderer.ConsumeTemplateSource | src/renderer.cpp:286-301 | source that is not rendered moves the line state only |
| RenderEngine.Renderer.BeginTemplateTag | src/renderer.cpp:303-314 | a tag at the start of a line is preceded by the indentation |
| NodeViews.ShownFields | src/render_engine.hpp:250-320 | both kinds of view give back the fields of the tree they stand for, delimiters and original section text included |
| NodeViews.ChildCursor.Advance | src/archive/cista.cpp:1339-1371 | the child cursor goes through the children in order in both representations |
| NodeViews.DataPartCursor.Advance | src/archive/cista.cpp:1290-1337 | the window over an archived name and the index into the stored components give the same components |
| NodeViews.Explode | src/utils.cpp:106-124 | the components are free of dots and joined by dots they are the name |
| NodeViews.SplitUnique | src/utils.cpp:106-124 | splitting is the only way to cut a name into components without dots |
| ValueLookup.PartsCharged | src/node.cpp:142-152 | the formats charge a node for as many components as its name has, if names of its type can have dots, and for none otherwise |
| NodeViews.LowerBound | src/archive/cista.cpp:1399-1403 | the binary search finds the first name that is not less |
| NodeViews.FindPartial | src/render_engine.hpp:338-374 | every source of partials answers as its lookup function does |
| NodeViews.SourcePrecedence | src/render_engine.hpp:351-371 | the resolver is asked first, then the caller's map, then the root's own; entries without a tree fall through |
| RenderAgreement.RenderBothWays | src/archive/cista.cpp:1480-1492 | once the archive can be built, rendering it gives the same output or failure as rendering the template, for all partials, data and limits |
| RenderAgreement.RenderAccepted | src/archive/cista.cpp:1480-1492 | rendering a table is possible exactly when the validator accepts it, and renders the trees it denotes |
| RenderLimits.SucceedsWhenCostsFit | src/render_engine.hpp:401-555 | a render succeeds exactly when depth, visits and bytes of its whole trace fit, and then has done all of it |
| RenderLimits.CutAtFirstRefusal | src/renderer.cpp:199-339 | the trace is cut at the first event that exceeds a limit |
| RenderLimits.LimitsAreTransparent | src/renderer.cpp:199-339 | success does not depend on the limits, and failure leaves a prefix of the intended output |
| RenderLimits.HigherLimitsStillSucceed | src/renderer.cpp:316-339 | raising limits keeps a success as it was |
| RenderLimits.InclusionFails | src/render_engine.hpp:453-455 | a template that includes itself fails under all limits |
| RenderSafety.TemplatesRender | src/render_engine.hpp:445-555 | rendering an accepted template, with well-shaped partials and any data, ends well or at one of the three limits, never at one of the engine's checks on nodes |
| RenderSafety.ShapedTreesRender | src/render_engine.hpp:445-555 | the same for every tree of the shape that the stored formats demand |
| Indentation.FramesPreserveMeaning | src/renderer.cpp:253-314 | rendering a partial under line frames gives the text and failure of rendering its indented source without frames, however often sections repeat |
| Indentation.StandalonePartial | src/render_engine.hpp:892-916 | a standalone partial tag renders the partial with its indentation before every source line |
| Indentation.NodeAlike | src/render_engine.hpp:897-905 | nested indentation components act by their concatenation alone |
| Indentation.IndentTwice | src/render_engine.hpp:897-905 | indenting twice is indenting once by both |
| Indentation.LinesMeant | src/renderer.cpp:253-277 | literal text under a frame is the text with the indentation before each line, byte by byte |
| IndentedText.LineByLine | src/renderer.cpp:253-277 | what indenting a text means: the indentation in front of each of its lines, empty ones included, and nothing behind a last line break |
| Callbacks.RenderOnce | src/renderer.cpp:167-251 | every renderer's counter is what it has written into buffers and what was lost with failed evaluations; a success of a careful script loses nothing; with room for everything, success, the bytes lost and exactness are those of the script's forecast; all contexts are inactive, no frame is open and every renderer is idle at the end |
| Callbacks.RenderCaughtEvaluation | src/render_engine.hpp:809-822 | a run that succeeds and leaves the counter too high: an evaluated template appends bytes and fails, and a callback catches it |
| CallbackScripts.CaughtEvaluationLoses | src/render_engine.hpp:809-822 | the forecast of that script: it passes, and loses what the evaluation appended |
| CallbackScripts.CarefulLosesNothing | src/render_engine.hpp:809-822 | a script in which no callback catches failures around an evaluation is forecast to lose nothing when it passes |
| Callbacks.World.RenderForLambda | src/renderer.cpp:167-197 | rendering for a callback finds the innermost engine of its renderer and restores output, stack, frames and depth on every exit |
| Callbacks.World.InvokeSectionLambda | src/renderer.cpp:395-410 | the callback's context is active exactly while its frame is open, also when the callback throws |
| Callbacks.World.RenderEscaped | src/render_engine.hpp:791-826 | if the returned template makes no calls, the renderer's own counter grows by exactly the escaped length |
| Callbacks.World.RenderEvaluated | src/render_engine.hpp:809-822 | an escaped evaluation is redirected and restored on every exit, appends the escaped text to the outer output on success, and on failure loses what was charged for it |
| Callbacks.World.FindEngine | src/render_engine.hpp:72-82 | the registry lookup gives the engine of the renderer's frame that was opened last, and none exactly when it has no frame |
| CallbackState.EngineFound | src/render_engine.hpp:42-89 | a renderer inside a callback always has an engine in the registry, its current one |
| CallbackState.ActiveContext | src/lambda.cpp:63-82 | an active context belongs to a renderer that is rendering inside a callback |
| CallbackState.MergedRan | src/renderer.cpp:214-251 | charging only the expansion of an evaluated text keeps the books of every renderer balanced and cannot underflow |
| CallbackState.BalancedInAll | src/renderer.cpp:199-251 | together the counters are the sizes of all buffers and evaluations and what was lost |
| CallbackState.FrameCloses | src/renderer.cpp:403-409 | closing a frame invalidates its context and restores everything else |
| Json.AcceptsOneDocument | src/json_parser.cpp:98-264 | an event sequence is accepted exactly when it spells one document within the limits; the value is the document's, the counters are its totals |
| JsonRoundTrip.ReadsBack | src/json_parser.cpp:98-264 | however a value is written down as events, with members in any order and integers signed or unsigned, reading gives exactly the value and charges each value, each byte of text and each entry, exactly when there is room for them |
| JsonRoundTrip.NoNumberRefused | src/json_parser.cpp:116-141 | an integer above the signed 64-bit range, or a floating-point number that is not finite or has no spelling, is refused wherever it stands |
| Json.LastKeyWins | src/json_parser.cpp:249-250 | of several members with one key the last gives the value |
| Json.ObjectOfMembers | src/json_parser.cpp:249-250 | an object has exactly the keys of its members, each with the value of the last member of that key |
| Json.DocumentExact | src/json_parser.cpp:217-264 | in any state that expects a value, a document is consumed exactly when there is room for it |
| JsonBuilder.ParseJSON | src/json_parser.cpp:268-283 | driving the handlers with the events gives that result |
| JsonBuilder.JSONDataBuilder.Handle | src/json_parser.cpp:98-193 | each handler is the step of the machine |
| JsonBuilder.ParseBudget.AddNode | src/parse_budget.hpp:26-32 | a node is charged unless it is too deep or one too many, and nothing is charged on failure |
| TemplateLife.PlainTemplateSurvives | tests/fuzz_tokenizer.cpp:45-70 | a plain template written with the default delimiters is accepted by the legacy writer under the derived limits, and printing what the reader returns gives the template back |
| TemplateLife.TemplateArchives | src/archive/cista.cpp:1457-1459 | every accepted template is storable, shares one source text and passes the validator's shape rules |
| TemplateLife.TemplateIndents | src/renderer.cpp:253-314 | for the tree of every accepted template, a standalone partial tag and the indented tree have the same meaning, and the same output wherever both renders have room |
| IndentedTemplates.IndentingTheSource | src/renderer.cpp:253-314 | tokenizing a partial's source with the indentation before each line succeeds unless a limit is hit, and its tree renders to the same text and failure as the indented tree with the names respelled, for all data and partials and at every depth, followed by the indentation of a last line that is nothing but changes of delimiters |
| IndentedTemplates.SourceAndTree | src/renderer.cpp:253-314 | for names without line breaks, indenting the source and indenting the tree give the same exactly when the last line is more than changes of delimiters, or rendering fails before it |
| IndentedTemplates.StandaloneSource | src/render_engine.hpp:892-916 | a standalone partial tag renders what comes of tokenizing the partial's source indented line by line |
| IndentedTemplates.LostLine | src/tokenizer.cpp:360-389 | the tree lacks its last line exactly when nothing but changes of delimiters follow the last line that its pieces end |
| IndentedExceptions.BrokenName | src/tokenizer.cpp:293-414 | a line break inside the name of a variable always parts the two: the indented source asks for another name |
| IndentedExceptions.BrokenChange | src/tokenizer.cpp:360-389 | so do two delimiter changes alone on the last line: the indentation is text in the indented source and nothing in the tree |

## Left out
- Lambdas inside the render engine: `RenderEngine` covers data without lambdas. `Callbacks` covers scoped state, contexts, the registry and output accounting of callbacks on finite scripts (section and interpolation callbacks both); the text passed to section callbacks, their template budget and re-tokenizing are not modelled.
- Callbacks.World.RenderNode: states the output text only for callbacks that render into buffers of their own, because a callback may otherwise write into the very buffer being rendered.
- Callbacks.RenderOnce: states the exact condition for exact counters where the limits leave room for everything; under limits that cut the run it states that the surplus is what was lost, and none for careful scripts that succeed.
- IndentedTemplates.IndentingTheSource: for starting delimiters that do not begin with a space or tab and hold no newline, as indentation would change what the others match; delimiters set by tags are always such.
- Pointers: trees, parse frames and table cursors hold nodes as values; a null owning pointer is the constructor `Null`. The node stack of the tokenizer therefore attaches a section to its parent when it closes, not when it opens; a failing parse has no result in either case.
- `Renderer::setNode`, `setData` and the other setters, move and copy of nodes, `discardSource`.
- The stored components of an owned node are computed when a cursor is made, as `setData` would have stored them.
- Partial resolvers are functions of the name; compiled templates and their resolver chains are not modelled.
- Strings that alias the output buffer, allocation failure, mutexes and worker threads.
- Cista's own serializer, hashing, type versions, the preamble and `validateSerializedVector`: the model starts from the abstract table. RecordSizes stands for the platform's record sizes.
- The archived preamble sizes and file input and output; the command line tool.
- YAML input, JSON lexing and floating-point spelling: scalars come spelled, and the JSON machine starts from events.
- Line and column numbers in tokenizer messages.
- Default values of the limit structures.
- The partial map a caller attaches to a root node: tokenizing replaces the tree and leaves that map to the caller.
- The engine's check for an empty context stack: rendering starts with the caller's data on the stack, which is a precondition of the engine's methods here.
