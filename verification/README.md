# Verified models of the docs translator, the event mapper and two plugins

This project models, in Dafny, the parts of the repository whose correctness rests on an argument rather than on a
library call, and proves what they guarantee for every input or every run. `dafny verify dfyconfig.toml` checks it.

**Running documents in parallel** (`DocQueue`). The feeder, the workers and the collector of `runDocParallel` are a step
relation over channel, buffer, cancel flag and counters. Every interleaving keeps the invariant, is finite with an
explicit bound, and ends in a result that agrees with the sequential runner. Which calls can block for ever is proved
exactly, call by call (`BlocksIff`): some translator fails to start, and either there are no documents or the failed
starts and the documents that can be started before every good worker has failed outnumber the result buffer and the one
result that is received. For start failures alone (`SomeCallBlocksIff`) the condition is wider than "at most one failure":
if every translator fails and there are at most one more failures than documents, the call still returns.

**Masking** (`Masking`, `MaskLayout`, `Unmasking`, `Seams`, `Translator`, `Patterns`, `SpoiltSource`,
`CancellingSource`). The three scanners, the fresh-name allocator, validation and unmasking are modelled on
characters. A working text is related to a layout of plain characters and placeholder tokens; the layout is followed
through the passes and through sequential replacement. A source is well masked when no masked part swallowed another's
placeholder and there is no seam: at the round that replaces number n, with the parts of lower numbers already put
back, the text of placeholder n starts nowhere but at its own place, neither at a plain character nor with the last
underscores of another placeholder. Every well-masked source is accepted and restored. Conversely only well-masked
sources are restored, as long as no core that the source spells belongs to a masked link target; code spans and angle
links start with a mark, so that the first seam makes source and result differ for good (`Seams`). The restriction is
needed: a source with two link targets is restored although both of its placeholders are also replaced at strays,
which cancel each other out (`CancellingSource`). A text that spells no core at all has no seam. What the scanners
find is stated on the characters alone, and nothing of it is left unmasked (`Patterns`).

**Tagged documents and front matter** (`TaggedDocument`, `TaggedAnswers`, `FrontMarkers`, `MarkerRoundTrip`,
`FrontTranslations`, `FrontMatter`, `ProcessFileDoc`). Formatting, parsing, the marker template and the fenced block
are round trips exactly under conditions on the inputs. `ProcessFileDoc.EchoedDocument` composes them: a translator
that echoes its input gives a file with trimmed values and the same body, except that front matter with nothing to
translate is reported as removed. Every document without such a block is all body, and from every other nothing of the
body is lost. `ProcessFileDoc.TranslatedDocument` says the same of every translation that keeps the markers.

**Segments and the cache** (`Segments`, `Splicing`, `TranslationMemory`, `CachedSegments`, `ProcessFile`). Merging,
splicing, the memory file, and the cached loop. `ProcessFile.EchoedSegmentsIff` composes them: with an empty memory an
echoing translator gives every segment its own text back exactly when no two segments differ only in white space,
because the cache key is that of the normalised text. Which text nodes get into segments is stated by counting the
skipped nodes that are open.

**Event mapper** (`LocationMaps`, `BudgetedWalk`, `ToolLocations`, `ToolFacts`, `Utf16`, `PromptText`). The budgeted
walk of a value graph, cycles included, visits exactly the affordable prefix of the pre-order; the map it fills
depends only on the set of facts; the byte budget on prompt text is exact. `ToolFacts` says on the fields and lines of
a value which locations it tells of. `Utf16` gives surrogate-safe slicing a code-point specification.

**Plugins** (`Notify`, `NotifyRuns`, `PhoneControl`, `PhoneUndo`, `SortedNames`). Both are persistent state machines.
The theorems are about whole runs of ticks and commands: who is notified when, that one-shot subscriptions are spent in
one tick, that ending a grant restores the lists from before it.

**Small parsers and batchers** (`ShellSplit`, `Batches`).

`Text` holds the string operations of the Go and JavaScript standard libraries that the others use.

Where the repository changes state, the model does: counters, maps and lists are fields of classes or loop variables, and
each method is proved against a function or relation on values about which the lemmas then speak.

## Findings

Claims one would expect and that do not hold, each with the exact condition under which they do:

- `runDocParallel` can block for ever: `DocQueue.BlocksIff` says for which calls, `DocQueue.SomeCallBlocksIff` for which
  start failures. Two translators that fail to start suffice unless all fail, one suffices for an empty list.
- Masking can return a changed text as accepted: a half placeholder before a code span is enough
  (`SpoiltSource.CoresMatter`). It does so for no well-masked source (`Translator.WellMaskedIsRestored`), and a source is
  restored exactly if it is well masked where no core of a link target is spelled (`Translator.MaskingIsFailSafe`).
- A frontmatter value can be read from another value that contains its markers (`MarkerRoundTrip.MarkerFindsItsOwnIff`,
  `FrontTranslations.SpoiltTitle`).
- Front matter without summary, title or read_when list always fails in doc mode, even with a faithful translator
  (`ProcessFileDoc.EchoedDocument`).
- The cache returns the text of the first white-space variant for all of them (`ProcessFile.EchoedSegmentsIff`).
- An account id with surrounding blanks makes one chat subscribe twice under one key (`NotifyRuns.EnablingTwiceIff`).
- A second arming makes the original command lists unrecoverable by disarming, unless the first changed nothing
  (`PhoneUndo.SecondArmOverwritesIff`).
- Backslashes of a resource title are not escaped: the closing parenthesis looks escaped when the title ends in an odd
  number of them, and a bracket that the title escapes itself looks bare (`PromptText.TitleCloses`).

## Model

| member | source | states |
|---|---|---|
| DocQueue.RunDocSequential | scripts/docs-i18n/main.go:137-157 | the sequential counts, and the index of the document it stops at |
| DocQueue.SequentialMeaning | scripts/docs-i18n/main.go:137-157 | it fails at the first failed document, if any; its counts are tallies of the outcomes up to there |
| DocQueue.InvReachable | scripts/docs-i18n/main.go:159-223 | in every interleaving: no job is lost or held twice, cancellation has a failed document as its cause, the counters are tallies |
| DocQueue.InvStep | scripts/docs-i18n/main.go:164-222 | every single step of feeder, worker or collector keeps that invariant |
| DocQueue.StepDecreases | scripts/docs-i18n/main.go:164-222 | every step shrinks a measure |
| DocQueue.RunsAreFinite | scripts/docs-i18n/main.go:159-223 | no run has more than five steps a document, five a worker, and three |
| DocQueue.CollectingNeverStuck | scripts/docs-i18n/main.go:203-208 | the system never comes to rest while the collector still waits for a result |
| DocQueue.SafeNeverStuck | scripts/docs-i18n/main.go:159-223 | under the condition, a system at rest has returned |
| DocQueue.BlocksIff | scripts/docs-i18n/main.go:159-223 | some interleaving of the call blocks for ever exactly when reports of failed starts and startable documents overflow the buffer and the one result that is received, or the list is empty |
| DocQueue.SomeCallBlocksIff | scripts/docs-i18n/main.go:159-223 | some outcomes and interleaving block for ever exactly when the start failures and the number of documents are not safe |
| DocQueue.StartableIff | scripts/docs-i18n/main.go:175-193 | a document can be started exactly while fewer documents before it have failed than there are good workers |
| DocQueue.TakenIsStartable | scripts/docs-i18n/main.go:175-193 | an uncancelled worker takes only documents that can be started |
| DocQueue.InterruptIsReported | scripts/docs-i18n/main.go:180-188 | a document that the cancelled context cuts short is reported with an error |
| DocQueue.SendNeverBlocks | scripts/docs-i18n/main.go:161-187 | without start failures a result can always be sent at once |
| DocQueue.NilReturn | scripts/docs-i18n/main.go:203-222 | a return without error has run every document exactly once and has the counts of the sequential runner |
| DocQueue.ErrorIsGenuine | scripts/docs-i18n/main.go:205-208 | a returned error is a failed start or a failed document, never a mere cancellation |
| DocQueue.FailsLikeSequential | scripts/docs-i18n/main.go:203-222 | with every translator started, an error is returned exactly when the sequential runner returns one |
| DocQueue.SafeCallReturns | scripts/docs-i18n/main.go:159-223 | under the condition every reachable state can be run to a return |
| Masking.PlaceholderState.Next | scripts/docs-i18n/placeholders.go:20-30 | the first unused number from the counter on, and the state after it |
| Masking.FreshFrom | scripts/docs-i18n/placeholders.go:20-30 | the skipping loop ends, and stops at the least number whose name is unused |
| Masking.PlaceholderInjective | scripts/docs-i18n/placeholders.go:22 | different numbers have different names |
| Masking.MatchAt | scripts/docs-i18n/masking.go:10-12 | what a match masks is in range, not empty, and bounded by characters that no placeholder has |
| Masking.FindAll | scripts/docs-i18n/masking.go:24 | the matches are well placed, in order and apart |
| Masking.Masks.MaskMatches | scripts/docs-i18n/masking.go:23-44 | text, placeholder list, mapping and allocator after one pass |
| Masking.Masks.MaskMarkdown | scripts/docs-i18n/masking.go:16-21 | the same after the three passes |
| Masking.UnmaskMarkdown | scripts/docs-i18n/masking.go:73-80 | the loop is the sequential replacement |
| Masking.ValidatePlaceholders | scripts/docs-i18n/masking.go:82-89 | the first missing placeholder, or none if all are there |
| Patterns.MatchIff | scripts/docs-i18n/masking.go:9-14 | a match at i is exactly the code span, the web address in angle brackets or the link that begins there, with its target, stated on the characters alone |
| Patterns.NoWordMissed | scripts/docs-i18n/masking.go:24 | where such a span or link begins, there is one that was found |
| Patterns.OnlyWordsFound | scripts/docs-i18n/masking.go:24 | and only such are found |
| Patterns.PassMasksAll | scripts/docs-i18n/masking.go:23-71 | a pass masks every one that was found by its own placeholder, in order |
| Patterns.EveryWordIsMasked | scripts/docs-i18n/masking.go:16-71 | after the three passes no code span of the source is open, no address in angle brackets where there is no code span, and no link target where there is neither |
| Patterns.PlaceholderIff | scripts/docs-i18n/masking.go:13 | a recognised placeholder is the stem, one or more digits and two underscores |
| Patterns.NoPlaceholderMissed | scripts/docs-i18n/placeholders.go:12-18 | where one begins in a text, there is one that the allocator records |
| Patterns.OnlyPlaceholdersRecorded | scripts/docs-i18n/placeholders.go:12-18 | and only such are recorded |
| MaskLayout.MaskStep | scripts/docs-i18n/masking.go:30-41 | masking one more part keeps every allocated placeholder in exactly one place and the full expansion equal to the source |
| MaskLayout.MaskTextLays | scripts/docs-i18n/masking.go:16-71 | after the three passes of any text the working text is laid out that way |
| MaskLayout.CutRender | scripts/docs-i18n/masking.go:10-12 | a match never cuts a placeholder of an earlier pass in two |
| Unmasking.OccursIffToken | scripts/docs-i18n/masking.go:82-89 | where placeholder n has no stray, its text occurs exactly if the placeholder is there |
| Unmasking.ReplaceIsSubst | scripts/docs-i18n/masking.go:77 | and replacing its text replaces exactly its occurrences |
| Unmasking.UnmaskRestores | scripts/docs-i18n/masking.go:73-80 | whatever a translator does around the placeholders, in a seamless text each comes back as the part it masked |
| Unmasking.ValidationIff | scripts/docs-i18n/masking.go:82-89 | without cores in the source, validation accepts the untouched text exactly when no part swallowed a placeholder |
| Unmasking.StrayIsSpelled | scripts/docs-i18n/masking.go:73-80 | a stray placeholder has its core spelled in plain characters |
| Seams.Turn | scripts/docs-i18n/masking.go:74-78 | one round of unmasking replaces the tokens, or parts the texts exactly if there is a stray |
| Seams.PartedStays | scripts/docs-i18n/masking.go:74-78 | texts that have parted stay apart in every later round |
| Seams.RestoredIff | scripts/docs-i18n/masking.go:73-80 | unmasking the untouched text restores the source exactly when it is seamless and no part swallowed a placeholder |
| Translator.MaskingIsFailSafe | scripts/docs-i18n/masking.go:16-89 | where no core of a link target is spelled, an echoed text is accepted and restored exactly when the source is well masked |
| Translator.WellMaskedIsRestored | scripts/docs-i18n/masking.go:16-89 | every well-masked source is accepted and restored, whatever it spells |
| Translator.CorelessMasking | scripts/docs-i18n/masking.go:16-89 | without cores in the source, acceptance, restoration, and no mapping value holding another placeholder are equivalent |
| Translator.AcceptedReplyKeepsParts | scripts/docs-i18n/translator.go:82-99 | every accepted reply without cores of its own comes back with every masked part in it, and otherwise as it was |
| Translator.EchoSucceeds | scripts/docs-i18n/translator.go:82-99 | a well-masked core comes back from an echoed prompt that is trimmed |
| Translator.PlaceholdersAreFresh | scripts/docs-i18n/placeholders.go:12-30 | no placeholder is allocated twice, and none that the source has |
| Translator.PlainTextIsSafe | scripts/docs-i18n/placeholders.go:22 | a text without the stem `OC_I18N_` spells no core |
| Translator.RecordedPlaceholdersAreSafe | scripts/docs-i18n/placeholders.go:12-18 | nor does a text whose stems all belong to recorded placeholders of up to six digits |
| Translator.TranslateMasked | scripts/docs-i18n/translator.go:82-99 | the result of one attempt, for every reply |
| Translator.SplitWhitespace | scripts/docs-i18n/util.go:89-111 | the parts make up the text, and the core neither starts nor ends with outer white space |
| Translator.OuterSpacesAre | scripts/docs-i18n/util.go:89-111 | which characters are kept around the core |
| Translator.TranslateWithRetry | scripts/docs-i18n/translator.go:61-80 | one to three attempts, all but the last retryable failures that were slept off |
| Translator.TranslatedIff | scripts/docs-i18n/translator.go:61-128 | without cancelled sleeps the core is translated exactly when one of three replies is usable and all before it were refused in passing, blank, or without some placeholder |
| Translator.Translate | scripts/docs-i18n/translator.go:44-59 | outer white space is kept, and a text that is all white space is not sent |
| Translator.EchoIff | scripts/docs-i18n/translator.go:82-99 | an echoed prompt without cores gives the core back exactly when the prompt is trimmed and nothing is hidden |
| Translator.EchoTranslates | scripts/docs-i18n/translator.go:44-99 | the same for the whole of translate, retries and outer white space included |
| CancellingSource.TwiceIsNotWellMasked | scripts/docs-i18n/masking.go:73-80 | a source whose masked text shows its first placeholder twice is not well masked |
| CancellingSource.StraysCancel | scripts/docs-i18n/masking.go:73-89 | a source that spells cores of masked link targets is accepted and restored without being well masked |
| SpoiltSource.CoresMatter | scripts/docs-i18n/masking.go:73-89 | a source with a seam is accepted when echoed and comes back changed |
| TaggedDocument.EchoedDocumentIff | scripts/docs-i18n/doc_mode.go:82-124 | parsing a formatted document returns both parts exactly when neither contains the tag that closes it |
| TaggedDocument.FormatSpelled | scripts/docs-i18n/doc_mode.go:82-84 | the text that is sent, tag by tag |
| TaggedDocument.TextAroundRejected | scripts/docs-i18n/doc_mode.go:86-118 | a formatted document with clean parts is accepted between white space, and rejected with any other text around it |
| TaggedAnswers.PartsParsed | scripts/docs-i18n/doc_mode.go:86-118 | any answer is parsed into what stands between the first opening tags and the first closing tags behind them, whatever stands between the sections |
| TaggedAnswers.TrimmedSection | scripts/docs-i18n/doc_mode.go:120-124 | of a section one line break is dropped at either end, and nothing else |
| TaggedAnswers.FrontStartMissing | scripts/docs-i18n/doc_mode.go:87-90 | without an opening front-matter tag the answer is rejected for it |
| TaggedAnswers.FrontEndMissing | scripts/docs-i18n/doc_mode.go:92-95 | likewise without the closing tag behind it |
| TaggedAnswers.BodyStartMissing | scripts/docs-i18n/doc_mode.go:98-101 | without the opening body tag behind that |
| TaggedAnswers.BodyEndMissing | scripts/docs-i18n/doc_mode.go:103-106 | and without the closing one |
| FrontMarkers.BuildFrontmatterTemplate | scripts/docs-i18n/doc_mode.go:133-167 | the loop builds the marked lines and the list of their markers |
| FrontMarkers.MarkersDiffer | scripts/docs-i18n/doc_mode.go:169-171 | marker texts determine field, index and end |
| MarkerRoundTrip.TokenInMarked | scripts/docs-i18n/doc_mode.go:140-163 | a marker occurs in a line only in its own place or within the value |
| MarkerRoundTrip.TemplateIsLaid | scripts/docs-i18n/doc_mode.go:166 | where the lines lie in the template, values with line breaks included |
| MarkerRoundTrip.MarkerFindsItsOwnIff | scripts/docs-i18n/doc_mode.go:195-207 | extraction stops at a marker's own places exactly when no earlier value holds its start and its value not its end |
| MarkerRoundTrip.UnspoiltIsExtracted | scripts/docs-i18n/doc_mode.go:195-207 | and then returns the value |
| FrontTranslations.SetReadWhenValue | scripts/docs-i18n/doc_mode.go:209-219 | the list is padded up to the index and set there |
| FrontTranslations.FrontData.ApplyFrontmatterTranslations | scripts/docs-i18n/doc_mode.go:173-193 | the front matter after the markers, or after those before the first missing one |
| FrontTranslations.EchoedTemplateTrims | scripts/docs-i18n/doc_mode.go:133-219 | applying the unchanged template trims every text value in its place and keeps everything else |
| FrontTranslations.TranslationApplies | scripts/docs-i18n/doc_mode.go:173-219 | whatever else a translated template says, the front matter gets the values between its markers, trimmed, and keeps everything else |
| FrontTranslations.ValueBetween | scripts/docs-i18n/doc_mode.go:195-207 | the value is what stands between the first start marker and the first end marker behind it |
| FrontTranslations.StartLost | scripts/docs-i18n/doc_mode.go:196-199 | a start marker that is nowhere is reported |
| FrontTranslations.EndLost | scripts/docs-i18n/doc_mode.go:201-204 | an end marker that does not follow is reported |
| FrontTranslations.FirstLostMarker | scripts/docs-i18n/doc_mode.go:177-181 | the first marker that is not found stops the processing |
| FrontTranslations.PlainValuesAreUnspoilt | scripts/docs-i18n/doc_mode.go:133-207 | values without the marker prefix meet the condition |
| FrontTranslations.TemplateIsWellMarked | scripts/docs-i18n/doc_mode.go:133-171 | the markers of a template are distinct tokens |
| FrontTranslations.SpoiltTitle | scripts/docs-i18n/doc_mode.go:195-207 | a summary holding a pair of title markers determines what is read as the title |
| FrontMatter.SplitFrontMatter | scripts/docs-i18n/process.go:91-115 | the scan finds the first closing fence |
| FrontMatter.PartsAreSplit | scripts/docs-i18n/process.go:91-115 | a document of first line, front matter, fence and rest is split into just these, nothing of the body lost but one leading line break |
| FrontMatter.WholeOtherwise | scripts/docs-i18n/process.go:91-115 | every other document is all body |
| FrontMatter.WrittenReadsBackIff | scripts/docs-i18n/process.go:91-134 | a written block and body read back exactly when no line of the block trims to the fence |
| ProcessFileDoc.EchoedDocument | scripts/docs-i18n/doc_mode.go:43-79 | an echoing translator writes trimmed values and the same body, unless there is front matter with nothing to translate |
| ProcessFileDoc.TranslatedDocument | scripts/docs-i18n/doc_mode.go:43-79 | any translation with all markers is written with its values, trimmed, and its body, unless its front matter is blank and the source had some |
| ProcessFileDoc.LostMarker | scripts/docs-i18n/doc_mode.go:66-68 | an answer without some marker fails for it |
| ProcessFileDoc.EchoedDocumentReadsBack | scripts/docs-i18n/doc_mode.go:43-79 | and the written file splits into the encoded front matter and the source body |
| Segments.ExtractSegments | scripts/docs-i18n/markdown_segments.go:21-66 | the walk, with its skip depth and last block, merges the translatable nodes |
| Segments.NodesAreChosen | scripts/docs-i18n/markdown_segments.go:26-46 | exactly the text nodes in a translatable block, outside skipped nodes and not blank, become nodes, each once and in order |
| Segments.OnlyChosenHeld | scripts/docs-i18n/markdown_segments.go:26-66 | no segment holds text of any other text node, of code in particular |
| Segments.SegmentsAreRight | scripts/docs-i18n/markdown_segments.go:48-66 | segments are sorted and disjoint, hold every node, are white space besides the nodes, and cannot be merged further |
| Segments.OneSegmentEach | scripts/docs-i18n/markdown_segments.go:48-66 | a node lies in one segment only |
| Splicing.ApplyTranslations | scripts/docs-i18n/markdown_segments.go:115-131 | the loop copies, replaces, and skips what reaches back |
| Splicing.SplicingSourceIsIdentity | scripts/docs-i18n/markdown_segments.go:115-131 | splicing in the source texts changes nothing, in any order and with overlaps |
| Splicing.KeptMeaning | scripts/docs-i18n/markdown_segments.go:121-124 | skipped replacements have no effect; none is skipped exactly when they are sorted and disjoint |
| Splicing.SpliceIsReversible | scripts/docs-i18n/markdown_segments.go:115-131 | putting the source texts back restores the source, so nothing outside is lost |
| Splicing.SegmentsAreAllKept | scripts/docs-i18n/markdown_segments.go:115-131 | of extracted segments none is skipped |
| Splicing.ApplyHTMLReplacements | scripts/docs-i18n/html_translate.go:73-96 | sorting, then the same splice |
| Splicing.BlocksAreAllReplaced | scripts/docs-i18n/html_translate.go:73-96 | disjoint blocks are all replaced, and every sorting gives the same text |
| TranslationMemory.Memory.Load | scripts/docs-i18n/tm.go:34-68 | fails exactly when a non-blank line does not decode; keeps entries under their own key |
| TranslationMemory.Memory.Get | scripts/docs-i18n/tm.go:70-79 | an entry with a blank translation is as good as none |
| TranslationMemory.Memory.Put | scripts/docs-i18n/tm.go:81-86 | stores under the entry's key unless it is empty |
| TranslationMemory.Memory.Save | scripts/docs-i18n/tm.go:101-123 | writes the entries line by line in the order of the keys |
| TranslationMemory.LoadOfSave | scripts/docs-i18n/tm.go:34-132 | loading a saved file yields exactly the entries with a translation |
| TranslationMemory.LookupSurvives | scripts/docs-i18n/tm.go:34-132 | every key is answered alike before saving and after loading |
| TranslationMemory.ResaveIff | scripts/docs-i18n/tm.go:88-132 | saving again gives the same lines exactly when no translation was blank |
| SortedNames.SortedIsUnique | scripts/docs-i18n/tm.go:101-105 | a set of keys is sorted in one way only |
| CachedSegments.NormalFormIsWords | scripts/docs-i18n/util.go:50-52 | the normal form stands for the words, and is its own normal form |
| CachedSegments.KeyMeansNormalForm | scripts/docs-i18n/util.go:33-43 | two known texts, among which the hashes do not collide, share a cache key exactly when they have the same normal form |
| CachedSegments.RawKeysDiffer | scripts/docs-i18n/util.go:33-87 | what a key is made of is the same exactly for the same languages, file and text hash |
| CachedSegments.KeysExist | scripts/docs-i18n/util.go:33-43 | keys without collisions exist, whatever texts are known |
| CachedSegments.TranslateSegments | scripts/docs-i18n/process.go:48-74 | results, memory and the segments sent to the translator, up to the first failure |
| CachedSegments.AskedExactlyWhenUnknown | scripts/docs-i18n/process.go:51-73 | a segment is sent exactly when memory and earlier segments have no translation for its key that is not blank |
| CachedSegments.TaughtAtMostOnce | scripts/docs-i18n/process.go:51-73 | a normal form with such a translation is not sent again, and gets that translation |
| CachedSegments.ResultsAgree | scripts/docs-i18n/process.go:48-74 | if usable entries under keys of this file are translations of known texts, every result is the translation of a known text with the same normal form |
| CachedSegments.OtherEntriesAreFine | scripts/docs-i18n/process.go:48-54 | entries of other files and of front matter do not matter |
| ProcessFile.EchoedSegmentsIff | scripts/docs-i18n/process.go:47-76 | an echoing translator gives each segment its own text exactly when no two differ only in white space |
| ProcessFile.EchoedBodyIsUnchanged | scripts/docs-i18n/process.go:42-76 | and then the spliced body is the source body |
| LocationMaps.KeyInjective | src/acp/event-mapper.ts:166 | map keys determine path and line |
| LocationMaps.LocationMap.Add | src/acp/event-mapper.ts:147-172 | the in-place scan, with its deletions and early return, inserts one fact |
| LocationMaps.InsertLearns | src/acp/event-mapper.ts:147-172 | the entries then hold the set with the fact learnt |
| LocationMaps.InsertAllIsCanonical | src/acp/event-mapper.ts:147-172 | after any facts each path has exactly its known lines, or one bare entry |
| LocationMaps.OrderDoesNotMatter | src/acp/event-mapper.ts:147-172 | the same facts in any order and number give the same locations |
| LocationMaps.PathKept | src/acp/event-mapper.ts:147-172 | no path is lost |
| BudgetedWalk.PreorderReaches | src/acp/event-mapper.ts:186-242 | the depth-limited pre-order holds exactly the values reachable within the depth |
| BudgetedWalk.BudgetedIsSound | src/acp/event-mapper.ts:186-242 | at most a hundred values are visited, and every fact is that of a visited value within the depth |
| BudgetedWalk.BudgetedIsComplete | src/acp/event-mapper.ts:186-242 | with at most a hundred values nothing is missed |
| ToolLocations.AddToolLocation | src/acp/event-mapper.ts:147-172 | a raw path is normalised or dropped, and added |
| ToolLocations.CollectToolLocations | src/acp/event-mapper.ts:186-242 | exactly the affordable prefix of the pre-order is visited and its facts added, on cyclic graphs too |
| ToolLocations.ExtractToolCallLocations | src/acp/event-mapper.ts:404-410 | the distinct locations of the budgeted facts of all arguments, or nothing if there are none |
| ToolFacts.AcceptedIff | src/acp/event-mapper.ts:104-127 | a raw path is accepted exactly if between white space it is a text of 1 to 4096 units without NUL and line break that is no web address, or a file address that stands for a path |
| ToolFacts.LineIsRight | src/acp/event-mapper.ts:129-145 | the line of a record is that of the first line key with a positive floor |
| ToolFacts.FieldIff | src/acp/event-mapper.ts:217 | what a key holds, when no key is there twice |
| ToolFacts.KeysOfPaths | src/acp/event-mapper.ts:15-35 | the nineteen path keys, in both spellings |
| ToolFacts.KeysOfLines | src/acp/event-mapper.ts:37-43 | the five line keys in their order |
| ToolFacts.MarkersIff | src/acp/event-mapper.ts:44-184 | the markers of a text are those of its lines that begin with FILE: or MEDIA: and do not end there |
| ToolFacts.LineEndsAre | src/acp/event-mapper.ts:44 | where lines end |
| ToolFacts.RecordFactsIff | src/acp/event-mapper.ts:214-231 | a record tells of the accepted paths under path keys with its line, and of those marked in its text blocks without one |
| ToolFacts.FactsIff | src/acp/event-mapper.ts:197-231 | a visited text tells of its markers, a record of its paths, and nothing else of any |
| ToolFacts.ChildrenIff | src/acp/event-mapper.ts:206-241 | the walk goes down into the items of arrays and the fields of records but for the content |
| ToolFacts.FieldValuesInOrder | src/acp/event-mapper.ts:233-241 | the fields in their order |
| ToolFacts.ReportedIff | src/acp/event-mapper.ts:186-242 | a location is reported exactly if a visited value tells of it and, without a line, none tells of the path with one |
| Utf16.SliceUtf16Safe | src/utils.ts:237-264 | for any bounds, exactly the code points wholly inside the clamped range |
| Utf16.PlainBounds | src/utils.ts:237-247 | bounds in order and in the text mean themselves, and their order does not matter |
| Utf16.NegativeBounds | src/utils.ts:239-241 | a negative bound counts from the end |
| Utf16.BoundsBeyond | src/utils.ts:239-241 | bounds beyond the text mean its ends, and a missing one its end |
| Utf16.SliceKeepsWithin | src/utils.ts:248-261 | moving the bounds off the pairs they split keeps exactly those code points |
| Utf16.TruncateUtf16Safe | src/utils.ts:266-272 | a well-formed prefix within the limit, at most one unit short |
| Utf16.TruncateTwice | src/utils.ts:266-272 | truncating twice is truncating to the smaller limit |
| PromptText.ByteLengthConcat | src/acp/event-mapper.ts:264-265 | byte lengths add up but for two lone surrogates that meet |
| PromptText.FewestBytes | src/acp/event-mapper.ts:265 | every code point is counted with the fewest bytes of UTF-8 that can carry it |
| PromptText.JoinedLength | src/acp/event-mapper.ts:264-265 | a joined part costs its bytes and the newline, which keeps surrogates apart |
| PromptText.ExtractTextFromPrompt | src/acp/event-mapper.ts:244-275 | throws exactly when there is text and its bytes exceed the limit; otherwise returns the joined text |
| PromptText.PartsInOrder | src/acp/event-mapper.ts:248-272 | texts and links always have a part, resources if their text is not empty, nothing else has, in the order of the blocks |
| PromptText.JoinedInFront | src/acp/event-mapper.ts:274 | the parts are joined in their order by one line break each |
| PromptText.EscapeInlineControlChars | src/acp/event-mapper.ts:59-91 | the loop over code points escapes unit by unit |
| PromptText.EscapedMeaning | src/acp/event-mapper.ts:59-91 | the result has no control character, and changes exactly the texts with one |
| PromptText.EscapedByParts | src/acp/event-mapper.ts:59-91 | every part of a text is escaped by itself, and only control characters are |
| PromptText.TitleByParts | src/acp/event-mapper.ts:93-96 | so is every part of a title, with a backslash before a bracket |
| PromptText.ControlsAre | src/acp/event-mapper.ts:68-72 | which code units are control characters |
| PromptText.EscapesReadBack | src/acp/event-mapper.ts:48-90 | every escape stands for the character that it replaces |
| PromptText.PairsAreCodePoints | src/acp/event-mapper.ts:62 | the surrogate pairs are one to one with the code points beyond the basic plane |
| PromptText.TitleCloses | src/acp/event-mapper.ts:93-96 | a bracket of an escaped title can be taken for the closing one exactly when the title escapes it by an unpaired backslash; the closing one is bare exactly when the backslashes before it pair up |
| PromptText.LinkIsOneLine | src/acp/event-mapper.ts:255-259 | the text of a resource link has no control character and ends in its address |
| PromptText.LinkShowsTitle | src/acp/event-mapper.ts:255-259 | a title that escapes nothing itself is what a reader finds up to the first closing bracket |
| Notify.NotifyState.Upsert | extensions/device-pair/notify.ts:157-179 | appended, replaced on another mode, or unchanged |
| Notify.KeyIff | extensions/device-pair/notify.ts:127-133 | targets without bars share a key exactly when recipient, account id and thread are the same |
| Notify.ResolvedTarget | extensions/device-pair/notify.ts:139-155 | the recipient is the first of the three fields that is not blank, trimmed; there is none if all are |
| Notify.ReadInOrder | extensions/device-pair/notify.ts:65-95 | exactly the subscriptions with a recipient that is not blank are read back, in order, with mode, time and thread as they are |
| Notify.UpsertedMeaning | extensions/device-pair/notify.ts:157-179 | subscribing changes only the first subscription under the key, if that has another mode, or appends one |
| Notify.SettledIff | extensions/device-pair/notify.ts:70-79 | a target reads back as it is exactly when recipient and account id are trimmed and not empty |
| Notify.RemovedMeaning | extensions/device-pair/notify.ts:385-394 | `off` removes the first subscription under the key and keeps the others in order |
| Notify.NotifyState.NotifyPending | extensions/device-pair/notify.ts:258-306 | which sends are tried, in which order, and the state after one tick |
| Notify.Notifier.Tick | extensions/device-pair/notify.ts:250-311 | the same on the state file, written only if changed |
| Notify.Notifier.Enable | extensions/device-pair/notify.ts:374-383 | the file after `on` |
| Notify.Notifier.Disable | extensions/device-pair/notify.ts:385-394 | the file after `off` |
| Notify.Notifier.Arm | extensions/device-pair/notify.ts:313-345 | the file after `once` |
| Notify.NormalIsFixed | extensions/device-pair/notify.ts:56-108 | reading back what was written from a read file changes nothing |
| NotifyRuns.TriedExactlyWhenDue | extensions/device-pair/notify.ts:250-296 | over every run, whatever the first file records, a request is tried for a subscriber exactly when it is persistent or the request has a positive time not before it was added, and the request was not delivered within 24 hours while pending ever since |
| NotifyRuns.BlankIdIsAlwaysTried | extensions/device-pair/notify.ts:97-100 | a blank request id is forgotten between ticks, and is tried at every one for whoever is to be told |
| NotifyRuns.RecordMatchesHistory | extensions/device-pair/notify.ts:261-296 | the stored times agree with the history of the run |
| NotifyRuns.RecordedArePending | extensions/device-pair/notify.ts:261-266 | after a tick only pending requests are recorded |
| NotifyRuns.OneShotSpentInOneTick | extensions/device-pair/notify.ts:287-305 | a one-shot subscription is served in one tick only, until a command subscribes its key again |
| NotifyRuns.OneShotHearsOnlyNew | extensions/device-pair/notify.ts:206-219 | it hears only of requests created since it was armed, in the run or before |
| NotifyRuns.OneShotWasArmed | extensions/device-pair/notify.ts:313-345 | every one-shot subscription was in the first file or was armed in the run at the time it carries |
| NotifyRuns.ExactlyServedOneShotsGo | extensions/device-pair/notify.ts:297-305 | with unique keys a tick removes exactly the one-shots it served |
| NotifyRuns.UpsertKeepsUniqueIff | extensions/device-pair/notify.ts:157-179 | subscribing keeps keys unique exactly when it changes nothing or the key read back is free |
| NotifyRuns.KeysStayUnique | extensions/device-pair/notify.ts:250-394 | keys unique at the start stay unique in every run of settled targets |
| NotifyRuns.EnablingTwiceIff | extensions/device-pair/notify.ts:139-179 | from an empty file, `on` twice keeps one subscription exactly when the target reads back unchanged |
| NotifyRuns.DisabledIsSilent | extensions/device-pair/notify.ts:385-394 | after `off` nothing is sent to the key until a command adds it |
| SortedNames.UniqSorted | extensions/phone-control/index.ts:35-37 | the sorted list of the trimmed, non-blank names |
| SortedNames.UniqSortedIsCanonical | extensions/phone-control/index.ts:35-37 | equal exactly for lists with the same names, and idempotent |
| PhoneControl.PhoneControl.Arm | extensions/phone-control/index.ts:377-407 | the new lists and the record of what was added and removed |
| PhoneControl.PhoneControl.DisarmNow | extensions/phone-control/index.ts:183-235 | the lists after the undo, rewritten only if changed, and what it reports |
| PhoneControl.PhoneControl.Tick | extensions/phone-control/index.ts:293-307 | disarms exactly when expired |
| PhoneControl.GroupCommands | extensions/phone-control/index.ts:29-44 | the commands of a group are trimmed names without repetition |
| PhoneControl.CommandsOfGroups | extensions/phone-control/index.ts:29-44 | the commands of each group, and that all are the others together |
| PhoneUndo.DisarmedMeaning | extensions/phone-control/index.ts:200-227 | disarming removes the recorded grants and restores the recorded denials, in both record versions |
| PhoneUndo.DisarmUndoesArm | extensions/phone-control/index.ts:183-235 | disarming after arming returns to the normalised lists from before |
| PhoneUndo.DisarmTwice | extensions/phone-control/index.ts:183-235 | disarming again with the same record changes nothing |
| PhoneUndo.OutsideEditsSurvive | extensions/phone-control/index.ts:207-218 | edits to unrecorded commands in between survive |
| PhoneUndo.SecondArmOverwritesIff | extensions/phone-control/index.ts:377-407 | after two armings disarming restores the original exactly when the first changed nothing |
| PhoneUndo.GrantHolds | extensions/phone-control/index.ts:286-416 | while a grant is in force its commands are allowed and not denied |
| PhoneUndo.EndOfGrantRestores | extensions/phone-control/index.ts:286-416 | over every run, a grant's end restores the lists from before the last arming |
| PhoneUndo.GrantEndsOnTime | extensions/phone-control/index.ts:293-307 | a poll ends a grant exactly at its time of expiry or later, and otherwise changes nothing |
| ShellSplit.ShellSplit | extensions/tlon/index.ts:61-97 | the loop is the quote and escape automaton |
| ShellSplit.NoEmptyArgument | extensions/tlon/index.ts:86-96 | no argument is ever empty |
| ShellSplit.SplitsApart | extensions/tlon/index.ts:61-97 | a text that ends plain is split independently of what follows a space |
| ShellSplit.TrailingSpaceIff | extensions/tlon/index.ts:61-97 | a trailing space is dropped exactly when the text ends plain |
| ShellSplit.PiecesAreArgument | extensions/tlon/index.ts:61-97 | bare, escaped and quoted pieces one behind the other are one argument, without their quotes and backslashes |
| ShellSplit.OpenQuoteReachesEnd | extensions/tlon/index.ts:61-97 | a quote that is not closed reaches to the end |
| ShellSplit.QuotingRoundTripsIff | extensions/tlon/index.ts:61-97 | quoting every character is undone exactly when no argument is empty |
| Batches.FetchBatches | scripts/label-open-issues.ts:426-486 | the batches hold the first items up to the limit in order, five hundred but for the last, numbered and counted, each with the total announced up to the page that completed it, from no more pages than needed |
| Batches.AnnouncedMeaning | scripts/label-open-issues.ts:444 | the total is the last one announced, zero if none was |
| Batches.ItemMeaning | scripts/label-open-issues.ts:417-424 | an item is its node, with an empty body and no labels where these are missing |

## Left out

- Provider plugins, onboarding, OAuth, gateway and agent clients, persistent bindings: their behaviour rests on libraries
  and services that are not part of this model.
- The language model and its client process: a translator is any sequence of replies; request and response are not
  correlated. Which prompt errors are retryable by their message is a parameter of the reply.
- goldmark, the HTML tokenizer, YAML, JSON and SHA-256: ordered text nodes, replacement spans, an encoder, a faithful
  one-line codec and hashes without collisions among the known texts stand for them. Texts are sequences of characters, not of UTF-8 bytes.
- The order of Go's map iteration and the algorithm of `sort.Slice` and `sort.Strings`: any sorted arrangement is allowed,
  and proved to be unique where it matters.
- Wall clock, files and overlapping writes: time is an input, and every command or tick is one atomic step. A malformed
  state file (JSON of another shape) is not modelled.
- `file://` decoding in tool-location paths: a parameter. Line numbers of 1e21 and more, which JavaScript prints in
  exponent form, and thread ids of that size are printed in full here.
- Object keys inherited from a prototype (a request id like `constructor`) are treated as absent.
- `toSorted` orders by UTF-16 units, the model by characters; they differ only beyond the basic plane.
- Fractional limits of `truncateUtf16Safe`: the limit is the integer after flooring.
- Message texts for users, logging, status output, duration parsing, polling intervals.
- Translator.MaskingIsFailSafe: the "only if" half is for sources that spell no core of a masked link target. With such a
  core it is false (`CancellingSource.StraysCancel`): in
  `__OC_I18N_7__OC_I18N_900000___OC_I18N_9000__OC_I18N_900001__[](_)[](00___OC_I18N_9000__OC_I18N_900001__)` two stray
  replacements cancel each other out. Which of the sources outside the condition are restored by such accidents is open.
- Translator.EchoIff: replies that are echoes of an untrimmed prompt are decided only for cores that spell no placeholder
  core.
- Translator.TranslateMasked: prompt failures carry only whether they are retryable, because the error texts come from the
  client process.
- ProcessFile.EchoedBodyIsUnchanged: one direction only; two variants can compensate each other in the spliced text, so the
  exact statement is the one on segments (ProcessFile.EchoedSegmentsIff).
