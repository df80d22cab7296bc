# Docs translation, paper trading, relay and notifier: verified models

A Dafny model of four parts of the repository and proofs about it.

* **The docs translation engine** (`scripts/docs-i18n`). `WorkerPool` is the parallel run as a step relation:
  producer, workers, collector, an unbuffered job channel, a bounded result channel and a cancellation;
  `PoolSchedules`, `PoolCancellation` and `PoolAnswers` are about all its schedules. `Placeholders` and `Masking` model
  the masking of code and links by fresh names and their restoring. `Patterns` says by characters what is masked, and
  that it is, with `CutLinks` for where it is not; `Tokens` is the independent reading of a masked text as plain
  characters and whole placeholders, and `Replies` is about what becomes of a reply. `Translation` is one translation
  with its retries, and `RepeatedAttempts` what they come to. `TranslationMemory` and `Segments` are the cache, its
  file, the segment loop and the splicing; `MemoryFile` and `SegmentRuns` say what a file holds and what a run leaves,
  and `EntryCodec` is an encoding of the file's lines. `TaggedDocument`, `FrontMatterBlock` and `FrontMatter` are the
  document format: tags, fences and the numbered markers of the front matter; `FrontMatterReplies` is what any reply
  makes of it, and `Fences` what a fence is. `Text` holds the string functions they share, `Trimming` what is trimmed.
* **The paper-trading arithmetic** (`paper-loop`). `Liquidation` is the margin path with its early exit, `Costs` the
  spot leg and the counters on the same path, `TrendLoop` the trailing-stop machine and its ledger, `FundingHistory` the
  paged fetch of funding records, `CarrySimulation` the gated carry run. `MarginMoney`, `CostFigures`, `TrendSignals`,
  `FundingRows` and `CarryFigures` say what their figures are in money, prices, candles, records and rates. `Drawdown`
  and `Extremes` give the worst fall and the extremes their meaning by comparison.
* **Stateful registries.** `Relay` is the browser extension's tab and session tables through every handler and worker
  restart; `RelayTabs` and `RelayChildren` are about its tabs and child sessions over whole runs. `Notifier` is the
  polled pairing notifier, and `Subscribers` what polls, commands and readings of its file do.
* **UTF-16 slicing** (`Utf16`), against well-formedness and the encoding (`Utf16Encoding`) as section 3.9 of The Unicode
  Standard defines them.

Code that changes state step by step is modelled by methods and classes whose loops carry invariants; each method is
proved to compute a specification, and the lemmas say what the specification means. `Counting` and `Wrappers` hold
helpers.

## Where the code and what is said of it differ

* `NeverInSourceExactlyWhen`, `OverlapIsMissed`: the scan for used placeholders does not see overlapping ones.
* `AcceptedReplyMayReopen`: placeholders are restored one after the other, so a restored span can complete another name.
  `MaskedReplyExactlyWhen` says exactly when a placeholder is replaced elsewhere than where it stands. For the resulting
  text alone that condition is only sufficient: `RightByChance` is a reply that comes out right all the same.
* `CodeMayCutLink`: a code span that begins inside an angle link can take its end away, so that the link is not masked;
  `AngleIsHidden` and `TargetIsHidden` say when links are.
* `SharedNormalFormIsAnsweredAlike`: the memory answers a text with the translation of another that differs in white
  space; `OwnTranslationsExactlyWhen` and `FreshRunIsOwnExactlyWhen` say exactly when it does not matter.
* `NoBreakSpaceIsLost`: white space is set aside by four ASCII characters but trimmed by the Unicode definition.
* `EchoedDocumentExactlyWhen`: front matter without a summary, a title or a list makes every translation fail with
  "translation removed frontmatter".
* `SplitOfWrittenExactlyWhen`: a line of the front matter that is `---` when trimmed ends it.
* `HangsExactlyWhen`: failed translator starts can block the worker pool for good, and exactly when.
* `RequiredMarginMayNotLast`: `requiredMarginRatio` is documented as what would have been needed to never liquidate; it
  describes only the points up to the first breach.
* `MaxSafeIsLiquidated`: `maxSafeLeverage` is documented as a leverage that would have survived; it is liquidated.
* `AlwaysOnShare`: the always-on run is reported in the market for one hour less than all.
* `OverlapLosesSession`, `SessionMayOutliveTab`, `NumberGivenOutTwice`: three ways the relay's tables part; when they do
  not is `RunLeadsBackExactlyWhen`, `RunStaysPresentExactlyWhen` and `NumbersDifferExactlyWhen`.
* `ChildrenStayPresentExactlyWhen`: a failed attach or probe leaves the tab's child sessions behind, and they lead to a
  tab that is gone.
* `BarsMayCollide`, `BlankAccountDuplicates`, `BlankIdIsDeliveredTwice`, `OneShotHearsTwice`: where the notifier's promises
  end; exactly where is `RunKeepsKeysUniqueExactlyWhen`, `DeliveredAgainWithinADayExactlyWhen` and `HearsTwiceExactlyWhen`.

## Model

| member | source | states |
|---|---|---|
| WorkerPool.StepInv | scripts/docs-i18n/main.go:159-223 | Each step of producer, worker or collector, a failed translator start among them, keeps the invariant |
| PoolSchedules.RunKeepsInv | scripts/docs-i18n/main.go:159-223 | At every point of every schedule of producer, workers and collector: each file is held, waiting or reported at most once, every echo of a cancellation comes after a real failure in the result channel, and what the workers still owe plus what was sent fits the files and the starts |
| PoolSchedules.EveryScheduleReturns | scripts/docs-i18n/main.go:159-223 | No schedule is longer than a bound linear in files and workers, and none stops before the call returns, unless there can be more messages than room: the failed starts and the files that can be reported on are at least the files and two more, or a start fails and there is no file; so with all starts successful every schedule returns |
| PoolSchedules.HandledByExactly | scripts/docs-i18n/main.go:168-192 | The files that can be reported on are all of them, unless as many fail as there are started workers: then they are those up to the one that stops the last worker |
| PoolSchedules.BlockedForEver | scripts/docs-i18n/main.go:161-162 | Once a worker faces a full result channel that the collector no longer reads, nothing that follows ever ends the call |
| PoolSchedules.HangsExactlyWhen | scripts/docs-i18n/main.go:159-223 | For every run, with whatever files and starts fail: a schedule from which the call never returns exists if and only if there can be more messages than room |
| PoolAnswers.EveryAnswerIsRight | scripts/docs-i18n/main.go:182-222 | Any schedule's answer: an error is an original failure of a file or of a translator start and never the echo of a cancellation, though echoes there are; without one every file succeeded and processed and skipped count them exactly; with all starts successful there is an error if and only if a file fails |
| PoolAnswers.FullAnswer | scripts/docs-i18n/main.go:205-222 | A call that reports no error has one result for every file |
| PoolCancellation.CancelledExactlyWhen | scripts/docs-i18n/main.go:168-203 | The context is cancelled after a schedule if and only if one of its actions is a worker's call of `cancel` |
| PoolCancellation.CheckExactlyWhen | scripts/docs-i18n/main.go:174-181 | Over every schedule, a worker that looks at the context before its file has left if and only if an earlier action was a `cancel`, and otherwise is at work on that file |
| PoolCancellation.NoFileIsStarted | scripts/docs-i18n/main.go:174-181 | So after a cancellation a worker is at work only on a file that it was at work on then |
| PoolCancellation.EchoExactlyWhen | scripts/docs-i18n/main.go:182-192 | A file may report the echo of a cancellation if and only if its worker is at work after a `cancel` |
| PoolCancellation.EchoIsPossible | scripts/docs-i18n/main.go:182-192 | For a failing file and any other, a schedule of two workers in which the other file's message is such an echo |
| PoolCancellation.FailureCancels | scripts/docs-i18n/main.go:185-192 | A worker that has reported an error of a file is not gone until it has called `cancel` |
| PoolAnswers.RunDocSequential | scripts/docs-i18n/main.go:137-157 | The sequential run stops at the first failing file and counts exactly the files before it; without a failure it counts all, as the parallel run does |
| Placeholders.PlaceholderState.Next | scripts/docs-i18n/placeholders.go:20-30 | The loop ends, with the least unused number at or after the counter as its measure, returns the name of that number and marks it used |
| Placeholders.FreshFromIsLeast | scripts/docs-i18n/placeholders.go:20-30 | The number handed out is the least one from the counter on whose name is unused |
| Placeholders.FreshDistinct | scripts/docs-i18n/placeholders.go:20-30 | Over a whole run no name is handed out twice, and none that was used before |
| Placeholders.FindNamesExactlyWhen | scripts/docs-i18n/placeholders.go:12-18 | The scan finds a placeholder if and only if it occurs somewhere but inside a placeholder that the scan found before it |
| Placeholders.NeverInSourceExactlyWhen | scripts/docs-i18n/placeholders.go:12-30 | No name ever handed out occurs in the source if and only if every placeholder numbered 900000 or more that occurs in it occurs somewhere but inside a placeholder found before it |
| Placeholders.OverlapIsMissed | scripts/docs-i18n/placeholders.go:12-18 | A source with two placeholders that share their underscores, where the very first name handed out occurs in the source |
| Placeholders.StemFreeHasNoNames | scripts/docs-i18n/masking.go:13 | A source without `OC_I18N_` has no placeholder |
| Masking.FindAllIsLeftmost | scripts/docs-i18n/masking.go:9-14 | What a pattern finds are matches in order and apart from each other, and every place where a match could begin lies inside one of them |
| Patterns.MatchesExactlyWhen | scripts/docs-i18n/masking.go:9-14 | A pattern matches at a place, by characters, exactly: two backticks with something and no backtick between them; `<http://` or `<https://`, something, and the next `>`; brackets and right after them parentheses with something in them, which alone is masked |
| Patterns.FoundAreStretches | scripts/docs-i18n/masking.go:9-14 | All that is found is such a stretch, and every such stretch begins inside something found |
| Patterns.PassHides | scripts/docs-i18n/masking.go:23-71 | One pass: a placeholder of its own for each stretch found, in order, which stands for it, and the text around them as it was |
| Patterns.MaskHidesAll | scripts/docs-i18n/masking.go:16-71 | After the three passes all that each of them found in its text is behind a placeholder |
| Patterns.CodeIsHidden | scripts/docs-i18n/masking.go:16-21 | Every code span of a source begins inside a code span of it that is behind a placeholder, all of it |
| Patterns.AngleIsHidden | scripts/docs-i18n/masking.go:16-21 | Every angle link of a source without a backtick in it is behind a placeholder, all of it, alone or with what is around it |
| Patterns.TargetIsHidden | scripts/docs-i18n/masking.go:16-21 | The target of every link without backticks and angle brackets in it and without a `)` in its brackets is behind a placeholder, all of it, alone or with what is around it |
| CutLinks.CodeMayCutLink | scripts/docs-i18n/masking.go:16-21 | Without that condition it need not be: in ``<http://a`>` `` a code span takes the end of the angle link away, and the link is behind no placeholder and begins in sight |
| Masking.MaskMatches | scripts/docs-i18n/masking.go:23-71 | One pass leaves the text outside the matches alone, replaces each match by the next free name and records what it stands for, in order |
| Masking.MaskMarkdown | scripts/docs-i18n/masking.go:16-21 | The three passes, one after the other on the same state, list and map |
| Masking.UnmaskMarkdown | scripts/docs-i18n/masking.go:73-80 | Every placeholder is replaced everywhere, in the order of issue |
| Masking.ValidatePlaceholders | scripts/docs-i18n/masking.go:82-89 | Accepts if and only if every placeholder occurs, and otherwise names one that does not |
| Masking.MaskRoundTripExactlyWhen | scripts/docs-i18n/masking.go:16-89 | For every source without the stem: unmasking the masked text gives the source back if and only if validation accepts the masked text, that is if no placeholder was swallowed by a later pass |
| Replies.HitsAreTagsExactlyWhen | scripts/docs-i18n/masking.go:73-80 | Replacing a placeholder in a text of plain characters and whole placeholders takes place exactly where it stands as a whole, if and only if it starts nowhere else |
| Replies.MaskedReplyExactlyWhen | scripts/docs-i18n/masking.go:16-80 | For every source and every reply of plain characters and whole placeholders, in any order and number: unmasking replaces the placeholders and nothing else if and only if each, with those before it filled in, starts nowhere but where it stands; and then the reply comes back with each placeholder replaced by its own span |
| Replies.ReplyIsFilledIn | scripts/docs-i18n/masking.go:73-89 | It is enough that nothing was swallowed and the filled-in reply does not spell the stem; then validation accepts the reply if and only if each placeholder is in it |
| Replies.TwoLinksMasked | scripts/docs-i18n/masking.go:46-71 | What masking makes of two links: their targets become the first two placeholders, in order |
| Replies.AcceptedReplyMayReopen | scripts/docs-i18n/masking.go:73-89 | The source `[a](8N_900001__) [b](c)` and a reply with both of its placeholders, which validation accepts and which unmasks to something else than the filled-in reply: the first target completes the name of the second placeholder |
| Replies.RightByChance | scripts/docs-i18n/masking.go:73-89 | The source `[a](__)` and an accepted reply whose text comes out right although what is replaced is not its placeholder, so for the text alone the condition is only sufficient |
| Masking.TranslateMasked | scripts/docs-i18n/translator.go:89-106 | Each outcome of a masked attempt: prompt failure, empty reply, a missing placeholder that is really missing, or the unmasked reply |
| Masking.EchoExactlyWhen | scripts/docs-i18n/translator.go:89-106 | A model that repeats its prompt gives the source back if and only if validation accepts |
| Translation.SplitWhitespace | scripts/docs-i18n/util.go:51-73 | The text is white space, a core without outer white space, and white space; a blank text is all prefix |
| Translation.SplitIsUnique | scripts/docs-i18n/util.go:51-73 | No other split has these properties |
| Translation.TranslateWithRetry | scripts/docs-i18n/translator.go:68-87 | At most three attempts; the answer is the one of the attempts in order |
| Translation.RetriedSucceedsExactlyWhen | scripts/docs-i18n/translator.go:68-87 | A text comes of the attempts if and only if one of them gives it and each before it failed with an error worth repeating and was not cancelled while waiting |
| RepeatedAttempts.ResultExactlyWhen | scripts/docs-i18n/translator.go:68-140 | The result is what one attempt decides, all before it having failed with an empty reply, a lost placeholder or a rate limit and not been cancelled in their waits: its text, its error if that is another one or it is the last, or the cancellation of its wait |
| RepeatedAttempts.ThirdIsLast | scripts/docs-i18n/translator.go:68-87 | And no attempt after the third decides |
| RepeatedAttempts.RawAttempt | scripts/docs-i18n/translator.go:108-118 | A raw attempt fails for an empty translation if and only if a reply came and is all white space, for the prompt if and only if none came, and otherwise gives what stands in the reply between white space |
| Translation.Translate | scripts/docs-i18n/translator.go:51-66 | The outer white space is put back around the translation, and a blank text is returned without an attempt |
| Translation.RawEchoExactlyWhen | scripts/docs-i18n/translator.go:51-118 | A model that repeats a raw prompt gives the text back if and only if trimming leaves its core alone |
| Translation.NoBreakSpaceIsLost | scripts/docs-i18n/translator.go:113 | A no-break space at the edge of a text is not set aside and is lost |
| Translation.SetAsideExactlyWhen | scripts/docs-i18n/util.go:51-73 | What is set aside is the white space of seven-bit characters, but for the vertical tab and the form feed |
| TranslationMemory.SameNormalFormExactlyWhen | scripts/docs-i18n/util.go:39-41 | Two texts have the same normal form if and only if they have the same words |
| TranslationMemory.SameKeyExactlyWhen | scripts/docs-i18n/util.go:22-49 | With no collision among what a run hashes, two uses of the memory have one cache key if and only if they are of one segment and their texts have one normal form |
| TranslationMemory.HashForTwo | scripts/docs-i18n/util.go:22-31 | That there is no such collision can be met, for any two uses and any translator |
| TranslationMemory.Memory.Get | scripts/docs-i18n/tm.go:70-79 | An entry is returned unless it is absent or its translation is blank |
| TranslationMemory.Memory.Put | scripts/docs-i18n/tm.go:81-86 | The entry is stored under its own key, and not at all under an empty one |
| TranslationMemory.Memory.Save | scripts/docs-i18n/tm.go:88-132 | One line an entry, in the order of the keys |
| TranslationMemory.Load | scripts/docs-i18n/tm.go:34-68 | Blank lines and unusable entries are passed over, a line that cannot be read fails the load, and the last entry of a key wins |
| MemoryFile.LoadsExactlyWhen | scripts/docs-i18n/tm.go:34-68 | A file fails to load if and only if some line that is not blank cannot be decoded; otherwise the memory holds under each key the entry of the last line with that key whose translation is not blank, and nothing else |
| TranslationMemory.ReloadedAnswersAlike | scripts/docs-i18n/tm.go:34-132 | Saving and loading changes no lookup, in whatever order the keys are written: exactly the entries that could be returned survive |
| EntryCodec.LawfulCodec | scripts/docs-i18n/tm.go:111-121 | An encoding of entries as that asks for, one line each that can be read back, there is |
| Segments.TranslateSnippet | scripts/docs-i18n/process.go:173-202 | A front matter value: a blank one is returned, and another gets the memory's answer or else the translator's, which alone is remembered; so it gets the translation of a text of its own segment with its normal form, and the memory stays faithful |
| Segments.TranslateSegment | scripts/docs-i18n/process.go:48-74 | One segment: its key, the memory's answer or else the translator's, and what the memory then holds; on an error nothing is remembered |
| Segments.ProcessSegments | scripts/docs-i18n/process.go:47-74 | The loop leaves memory, segments and error as the segments one after the other make them |
| Segments.EverySegmentIsServed | scripts/docs-i18n/process.go:47-76 | From a faithful memory, fresh or reloaded, every segment gets the translation of a text of its own segment with its own normal form, afterwards the memory answers for it what it got, entries are never lost or changed, the memory stays faithful, and an error is the translator's |
| SegmentRuns.EntriesAreOfSegments | scripts/docs-i18n/process.go:48-74 | Whatever a run leaves in the memory was there before or is the record of one of its segments: document, segment, text, hash and the translator's answer |
| Segments.OwnTranslationsExactlyWhen | scripts/docs-i18n/process.go:47-76 | From any memory, every segment gets the translation of its own text if and only if each text translates, what the memory holds for a segment already is its own translation, and segments under one key translate as the first of them does, unless that came out blank |
| Segments.FreshRunIsOwnExactlyWhen | scripts/docs-i18n/process.go:47-76 | From an empty memory that is if and only if each text translates, and texts of one segment and one normal form translate alike, unless the earlier one came out blank |
| Segments.DistinctFormsAreOwn | scripts/docs-i18n/process.go:47-76 | From any faithful memory it is so when no two texts of a segment share a normal form |
| Segments.SharedNormalFormIsAnsweredAlike | scripts/docs-i18n/util.go:28-41 | Of two segments with one id and one normal form the loop leaves the translation of the first in both, whatever the translator says of the second |
| Segments.TranslateBody | scripts/docs-i18n/process.go:42-76 | The segment loop and the splicing in one: the translated body, or the error |
| Segments.CachedBodyIsUncached | scripts/docs-i18n/process.go:47-76 | Under the condition for own translations the body is spliced as it would be without a memory |
| Segments.RunOfTwo | scripts/docs-i18n/process.go:47-76 | Runs with such a hash, from an empty memory, there are over any two segments and texts and with any translator |
| Segments.ReloadedFaithful | scripts/docs-i18n/tm.go:34-132 | A memory saved and reloaded is as faithful, and answers the same, as the one that was saved |
| Segments.ApplyTranslations | scripts/docs-i18n/markdown_segments.go:115-131 | The loop computes the splice, passing over a segment that begins before the end of the last one |
| Segments.OnlySegmentsChange | scripts/docs-i18n/markdown_segments.go:115-131 | For segments in order and apart: body and output are the same stretches of text, with the originals between them in one and the translations in the other |
| SegmentRuns.SplicedInPlace | scripts/docs-i18n/markdown_segments.go:115-131 | Of segments in any order, overlapping or not, exactly those take part that begin at or after the end of the last one that did; the rest of the body is as it was |
| TaggedDocument.ParseFormatExactlyWhen | scripts/docs-i18n/doc_mode.go:82-124 | Parsing a printed document gives front matter and body back if and only if neither contains its own end tag |
| TaggedDocument.ParsesExactlyWhen | scripts/docs-i18n/doc_mode.go:86-118 | For every text: parsing gives a front matter and a body if and only if the text is a blank prefix, the front matter tags with the one, a gap, the body tags with the other and a blank suffix, each tag the first after the tag before it, less one line break at each end |
| TaggedDocument.RefusedExactlyWhen | scripts/docs-i18n/doc_mode.go:86-113 | And it fails with an error if and only if that error names the first tag that is missing, or both sections are there and something can be seen around them |
| TaggedDocument.BreaksTrimmed | scripts/docs-i18n/doc_mode.go:120-124 | One line break is taken away at each end of a section, if it has one |
| FrontMatterBlock.SplitFrontMatter | scripts/docs-i18n/process.go:91-115 | The scan for the second fence, and the parts before and after it |
| Fences.FenceExactlyWhen | scripts/docs-i18n/process.go:99-106 | A line is a fence if and only if it is three dashes with nothing but white space around them |
| Fences.SplitExactlyWhen | scripts/docs-i18n/process.go:91-115 | A text has a front matter if and only if it begins with three dashes and a later line is a fence; it ends at the first such line |
| FrontMatterBlock.JoinOfSplit | scripts/docs-i18n/process.go:95-110 | Joining the lines of a text gives the text |
| FrontMatterBlock.SplitOfWrittenExactlyWhen | scripts/docs-i18n/process.go:91-134 | Reading a written document gives its front matter and its body if and only if no line of the front matter is itself a fence when trimmed |
| FrontMatter.BuildFrontmatterTemplate | scripts/docs-i18n/doc_mode.go:139-172 | The template is the rows of the front matter, values between their markers, and the markers are those of the rows in order |
| FrontMatterReplies.TemplateIsSentLines | scripts/docs-i18n/doc_mode.go:133-171 | The template, line by line, spelled out |
| FrontMatter.RowExtracted | scripts/docs-i18n/doc_mode.go:200-212 | Where nothing printed contains `[[[FM_`, every value between its markers is found again, although markers of one field and of `_1` and `_10` share beginnings |
| FrontMatter.SetReadWhenValue | scripts/docs-i18n/doc_mode.go:214-224 | The list grows with empty items up to the index, and only the item at the index is set |
| FrontMatterReplies.SentDocument | scripts/docs-i18n/doc_mode.go:43-84 | What is sent, character by character: those lines and the body, each between its tags |
| FrontMatter.ApplyFrontmatterTranslations | scripts/docs-i18n/doc_mode.go:178-198 | Marker by marker, the trimmed values are written back or the first missing marker is the error |
| FrontMatterReplies.ExtractsExactlyWhen | scripts/docs-i18n/doc_mode.go:195-207 | A value is extracted if and only if it stands between the first start tag and the first end tag after it |
| FrontMatterReplies.MissingIsNamed | scripts/docs-i18n/doc_mode.go:195-207 | Otherwise the error names the tag that is missing |
| FrontMatterReplies.AppliedExactlyWhen | scripts/docs-i18n/doc_mode.go:173-219 | Whatever the reply: the front matter comes of it if and only if every translatable string has its value there, and then each is that value, trimmed, and everything else is as it was |
| FrontMatter.TemplateWrittenBack | scripts/docs-i18n/doc_mode.go:139-224 | Applying the markers of an unchanged template gives every translatable string back trimmed and everything else as it was, for any number of list items, when nothing printed contains `[[[FM_` |
| FrontMatter.TranslateDocument | scripts/docs-i18n/doc_mode.go:43-67 | The pipeline of one document, with each of its errors |
| FrontMatter.BadTagsAreRefused | scripts/docs-i18n/doc_mode.go:43-67 | A reply with a missing tag, or with something to be seen around its sections, is refused for that |
| FrontMatterReplies.DocumentExactlyWhen | scripts/docs-i18n/doc_mode.go:43-67 | For every reply: a document comes of it if and only if it has both sections, a front matter if the source had one, and every value; the body is that of the reply and each string its value, trimmed |
| FrontMatter.TemplateBlankExactlyWhen | scripts/docs-i18n/doc_mode.go:58-60 | The template is blank if and only if there is no string summary, no string title and no list |
| FrontMatter.EchoedDocumentExactlyWhen | scripts/docs-i18n/doc_mode.go:43-67 | A model that repeats its prompt gives the document back, strings trimmed, if and only if the source has no front matter or one with something to translate; otherwise the document is refused for a removed front matter |
| Liquidation.AssessLiquidation | paper-loop/liquidation.ts:57-127 | The figures are the least and greatest ones over exactly the points up to and including the first negative buffer, or over all points if there is none |
| MarginMoney.BufferInMoney | paper-loop/liquidation.ts:82-97 | The buffer in money: what a notional in one short and one long position has left above maintenance, with the funding received, the gain of the long position if it may be moved across, and the loss of the short one |
| MarginMoney.FirstLiquidationIs | paper-loop/liquidation.ts:99-126 | It is liquidated if and only if the buffer is negative at some point, and the time reported is that of the first |
| MarginMoney.WorstMovesAre | paper-loop/liquidation.ts:99-116 | The worst adverse move and the worst basis move are the largest rises of the perpetual and of the basis over the points examined, or none |
| Liquidation.RequiredIsMarginAndShortfall | paper-loop/liquidation.ts:82-126 | The required margin is the larger of the margin and the margin less the smallest buffer; liquidated, a negative smallest buffer and a required margin above the margin are equivalent |
| Liquidation.RerunSurvivesExactlyWhen | paper-loop/liquidation.ts:97-116 | A rerun of the points examined, with any margin not smaller, survives if and only if that margin is at least the required one |
| Liquidation.RequiredMarginLastsExactlyWhen | paper-loop/liquidation.ts:42-43 | Over the whole path the required margin of a liquidated run survives if and only if no later point demands more than the first breach did |
| Liquidation.RequiredMarginMayNotLast | paper-loop/liquidation.ts:42-43 | A path on which a later point does, so the margin reported as enough to never liquidate is not |
| Liquidation.MoreMarginNeverEarlier | paper-loop/liquidation.ts:82-116 | Raising the margin never brings the first liquidation forward |
| Liquidation.IsolatedNeverLater | paper-loop/liquidation.ts:88-94 | Where a cross-margin book is liquidated, an isolated one is liquidated at that point or before |
| Liquidation.BasisIdentity | paper-loop/liquidation.ts:78-89 | The perpetual's move less the spot gain is the spot ratio times the change of the basis over one plus the first basis |
| Liquidation.CrossSurvivesExactlyWhen | paper-loop/liquidation.ts:9-15 | A cross-margin book survives if and only if at every point the cost of the basis, less any fall of the spot price, is covered by the margin above maintenance and the funding so far |
| Liquidation.CrossSurvivesBasis | paper-loop/liquidation.ts:9-15 | In particular when the rise of the basis, scaled by any rise of the spot price, is covered |
| Costs.AssessSpotLeg | paper-loop/costs.ts:51-91 | The worst fall from the running peak is the worst fall from any price to any later one, over the positive prices; with fewer than two of them nothing is measured |
| Costs.SpotLiquidatedExactlyWhen | paper-loop/costs.ts:58-90 | The leg is liquidated if and only if some later price is below some earlier one by the liquidation drop |
| CostFigures.LiquidatedOnCloses | paper-loop/costs.ts:51-91 | On the closes as they are given: the leg is liquidated if and only if some positive close falls to some later one by the liquidation drop |
| Costs.MaxSafeIsLiquidated | paper-loop/costs.ts:34-35 | With a maintenance margin of zero or more, the leverage reported as the highest that would have survived is itself liquidated: below a total need of one it is the least leverage that is |
| CostFigures.SafeLeverageIs | paper-loop/costs.ts:79-82 | That leverage times what is needed is exactly one, and it is one when more is needed |
| Costs.CountTransfers | paper-loop/costs.ts:152-176 | The counter counts the points that fall below the threshold while no earlier top-up still stands |
| CostFigures.TransferExactlyWhen | paper-loop/costs.ts:166-175 | A transfer is made at a point if and only if it is below the threshold and since each earlier such point the buffer has been at or above the threshold and above one and a half times it |
| CostFigures.CountedBuffersAreCross | paper-loop/costs.ts:158-164 | The buffers counted are those of a book whose spot gains count as margin |
| Costs.TransfersAreSeparated | paper-loop/costs.ts:166-175 | Between two transfers the buffer has been above one and a half times the threshold |
| Costs.TransfersAtMostEverySecondPoint | paper-loop/costs.ts:166-175 | Twice the transfers is at most the points, and one more while waiting |
| Costs.NoTransfersExactlyWhen | paper-loop/costs.ts:166-175 | There is no transfer if and only if no buffer is below the threshold |
| Costs.TransfersAgainstLiquidation | paper-loop/costs.ts:152-176 | On the same path there is no transfer if and only if the liquidation model's smallest buffer is at or above a threshold of zero or more, and there is one whenever it liquidates |
| Costs.CountRebalances | paper-loop/costs.ts:178-188 | The counter counts the points whose drift is a band away from the drift last hedged |
| Costs.RebalancesWithinVariation | paper-loop/costs.ts:178-188 | Rebalances times the band is at most the initial drift and the total variation after it |
| Costs.HedgeStaysInBand | paper-loop/costs.ts:183-188 | After every point the book is within the band of what it was last hedged at |
| Costs.NoRebalancesExactlyWhen | paper-loop/costs.ts:180-188 | There is no rebalance if and only if every drift is inside the band |
| CostFigures.DriftIsGap | paper-loop/costs.ts:183 | The drift times the spot price is the gap between the two prices |
| CostFigures.NeverHedgedExactlyWhen | paper-loop/costs.ts:180-188 | So there is no rebalance if and only if at every point that gap is smaller than the band's share of the spot price |
| Costs.AssessCarryCosts | paper-loop/costs.ts:132-203 | Counters, costs and drag together, and nothing at all for fewer than two points |
| CostFigures.CostsAre | paper-loop/costs.ts:148-202 | Each transfer and each rebalance costs its basis points, and the drag times the days of the window, at least one, is the cost times the days of a year |
| Costs.CountsAreBounded | paper-loop/costs.ts:152-188 | Both counters, for any window, against its length and the variation of its drift |
| Costs.CostsAreBounded | paper-loop/costs.ts:190-202 | So, for costs that are not negative and a positive band, the annualised drag times the years is at most what that length and that variation can cost |
| Drawdown.DrawdownIsWorstFall | paper-loop/loop.ts:303-304 | The running maximum drawdown is the worst fall from a peak of the path to a value at or after it, the starting value included |
| Drawdown.WorstFallBetweenAnyTwo | paper-loop/loop.ts:303-304 | While the path is never negative it is the worst fall from any value to any later one |
| TrendLoop.SmaAt | paper-loop/loop.ts:166-175 | The average of the last closes, or nothing before there are enough |
| TrendLoop.AtrAt | paper-loop/loop.ts:178-189 | The average of the last true ranges, or nothing before there are enough |
| TrendSignals.SmaIsMean | paper-loop/loop.ts:166-175 | It is the mean of the last closes |
| TrendSignals.AtrIsMean | paper-loop/loop.ts:178-189 | And this of the last true ranges |
| TrendSignals.TrueRangeIsSpan | paper-loop/loop.ts:183-186 | The true range of a bar is what its high, its low and the close before it span |
| TrendLoop.HoldOrExit | paper-loop/loop.ts:255-281 | One bar with a position: the stop moves first, then a stop or a broken trend closes it |
| TrendSignals.ClosesExactlyWhen | paper-loop/loop.ts:255-281 | A position is closed on a bar if and only if the low reaches the stop, which is first moved up to a multiple of the mean range below the close, or the mean of the fast closes is below that of the slow ones; otherwise it goes on with that stop |
| TrendSignals.ClosedFigures | paper-loop/loop.ts:265-281 | The trade it leaves: on a reached stop at the lower of stop and open, otherwise at the close, with its reason, its fee and its profit |
| TrendLoop.EnterOrWait | paper-loop/loop.ts:282-299 | One bar without a position |
| TrendSignals.OpensExactlyWhen | paper-loop/loop.ts:282-299 | A position is opened on a bar if and only if there is none, the mean of the fast closes is above that of the slow ones and was not on the bar before, the mean range is positive, and the signs of equity and caps allow a size; otherwise nothing changes |
| TrendSignals.OpenedFigures | paper-loop/loop.ts:286-297 | It is bought at the close and the slippage with the stop a multiple of the mean range below, of as much as both caps allow and no less, and the fee is paid |
| TrendLoop.RunSymbol | paper-loop/loop.ts:229-329 | The result is that of the bars in order, with peak, drawdown and exposure of their marks |
| TrendLoop.LedgerBalances | paper-loop/loop.ts:265-316 | Final equity is the starting equity and the profit of every trade, less every entry fee, and the open position's mark |
| TrendSignals.PathIs | paper-loop/loop.ts:301-304 | The equity path begins with the starting equity and then is the account and what the open position has gained at the close |
| TrendSignals.ExposureIs | paper-loop/loop.ts:306-308 | The exposure of a bar times the account is what the position is worth at the close |
| TrendSignals.AverageExposure | paper-loop/loop.ts:306-328 | The mean exposure of the bars but the first is reported |
| TrendSignals.PriceReturn | paper-loop/loop.ts:327 | And what the price alone has made |
| TrendSignals.PeakIsReported | paper-loop/loop.ts:303 | The peak reported is the highest point of the equity path |
| TrendSignals.AveragesReported | paper-loop/loop.ts:325-326 | The averages reported are those of the last bar |
| TrendLoop.DrawdownIsReported | paper-loop/loop.ts:301-304 | The reported drawdown is the worst fall of the marked equity from a peak |
| TrendLoop.StopNeverFalls | paper-loop/loop.ts:256-260 | Within a holding the stop never falls and nothing else of the position changes |
| TrendLoop.TradeIsHolding | paper-loop/loop.ts:255-299 | The k-th trade is exactly the k-th holding: opened on one bar, kept on each between, closed on a later one at the price and for the profit the bar gives |
| TrendLoop.HoldingsInOrder | paper-loop/loop.ts:255-299 | Holdings end before the next begins: at most one position is open |
| TrendLoop.TradesDoNotOverlap | paper-loop/loop.ts:270-295 | On candles in order of time no trade starts before the one before it has ended |
| TrendLoop.EntryWithinCaps | paper-loop/loop.ts:286-295 | An entry buys at most the gross exposure cap; for a stop multiple of zero or more, which is when its stop is not above it, it risks at most its share of the equity at its stop |
| TrendLoop.LossIsBounded | paper-loop/loop.ts:255-281 | A trade whose last bar closed no lower than its low and opened at or above the carried stop loses at most the risk budget fixed at entry and the exit fee, on a stop and on a broken trend, for a stop multiple of zero or more; otherwise the loss is measured from that open |
| TrendLoop.EveryTradeIsBounded | paper-loop/loop.ts:229-329 | For a stop multiple of zero or more every trade of a run keeps both caps and that bound |
| FundingHistory.FetchFunding | paper-loop/carry.ts:183-220 | The pages in order, records outside the window left out, hours floored, sorted and deduplicated, for any server |
| FundingRows.HourIsWhole | paper-loop/carry.ts:80-82 | The hour of a time is the whole hour it falls in |
| FundingRows.PagesFollowCursors | paper-loop/carry.ts:191-218 | Whatever the server answers: the rows are those of the answers in order, each request asks from a later time on than the one before it, all before the end of the window, and there are no more than the limit |
| FundingRows.HyperliquidCursors | paper-loop/carry.ts:182-218 | For Hyperliquid there are at most 400 requests, and every one but the last is answered by 500 records or more |
| FundingRows.FetchedExactlyWhen | paper-loop/carry.ts:149-220 | Against a server in order of time the rows are exactly those of the first record of each hour among the records seen inside the window, with its rate and premium |
| FundingHistory.DedupeKeepsFirst | paper-loop/carry.ts:149-152 | Hours strictly increase, and for every hour the row kept is the first that was given: no hour is lost |
| FundingHistory.PagesAreReach | paper-loop/carry.ts:191-218 | Against a server in order of time the pages bring every record up to some point exactly once, in order |
| FundingHistory.SeesAllExactlyWhen | paper-loop/carry.ts:191-218 | Every record of the window is seen if and only if there are at most as many as the pages hold |
| FundingHistory.HyperliquidSeesAllExactlyWhen | paper-loop/carry.ts:182-218 | Which is 200,000 records for 400 pages of 500 |
| FundingHistory.EveryHourIsCovered | paper-loop/carry.ts:80-220 | Then hours strictly increase and every record of the window has its hour in the result |
| FundingHistory.EveryRowIsFromWindow | paper-loop/carry.ts:205-209 | And every row comes from a record inside the window |
| CarrySimulation.TrailingRates | paper-loop/carry.ts:399-405 | The trailing rate of every point, over all rates so far for a lookback of zero |
| CarryFigures.TrailingRatesAre | paper-loop/carry.ts:399-405 | It is the mean of the last rates up to the point, times the hours of a year; the first point has none |
| CarrySimulation.GateIsHysteresis | paper-loop/carry.ts:414-428 | For an exit rate not above the entry rate, the book is in if and only if the rate has been above the entry rate and not below the exit rate since |
| CarrySimulation.Account | paper-loop/carry.ts:390-445 | The account of a run, point by point |
| CarrySimulation.Simulate | paper-loop/carry.ts:384-446 | The whole run: its amounts and its ratios |
| CarryFigures.AmountsAre | paper-loop/carry.ts:384-412 | A point pays its rate on the notional, a leg costs the fees of both markets, and the capital is the notional and its margin |
| CarryFigures.ReturnPerYear | paper-loop/carry.ts:433-437 | The annual return times the hours of the run is its return times the hours of a year |
| CarrySimulation.EquityAddsUp | paper-loop/carry.ts:401-434 | At every point the running equity is the capital, plus the funding collected so far, less the costs so far |
| CarrySimulation.EquityIsAccountedFor | paper-loop/carry.ts:401-434 | So it is at the end, and the net return times the capital is the funding less the costs |
| CarrySimulation.CostsAreLegs | paper-loop/carry.ts:417-428 | Costs are one fee an entry and one an exit |
| CarrySimulation.GatedAgainstAlwaysOn | paper-loop/carry.ts:407-434 | For two or more points, the gated return less the always-on return, times the capital, is minus the funding of the hours out, from the third point on, minus a fee for every leg but one |
| CarrySimulation.DrawdownIsReported | paper-loop/carry.ts:430-431 | The reported drawdown is the worst fall of the equity path from a peak, the capital included |
| CarrySimulation.AlwaysOnShare | paper-loop/carry.ts:435-443 | The always-on run is reported in the market for all hours but the first, never for all |
| Relay.RunKeepsInv | assets/chrome-extension/background.js:74-880 | In every state a run of handlers and restarts can reach, whatever overlaps: no two connected tabs have one session, every session number is below the next, and the stored snapshot names each tab and each session once |
| Relay.NoSharedSession | assets/chrome-extension/background.js:22-27 | So over every run two tabs have one session if and only if they are one tab, and session numbers stay below the next |
| Relay.StepLeadsBackExactlyWhen | assets/chrome-extension/background.js:262-880 | When the session of each tab leads back to it, it still does after a step if and only if the step is not the failed probe of a tab whose probed session another connected tab has |
| Relay.RunLeadsBackExactlyWhen | assets/chrome-extension/background.js:74-880 | Over every run, the session of each tab leads back to it at every point if and only if no failed probe drops a session that another connected tab has |
| Relay.NoOverlapDropsNothing | assets/chrome-extension/background.js:262-880 | No run does in which no tab is replaced while a probe of it is outstanding |
| Relay.CommandsReachTheirTab | assets/chrome-extension/background.js:462-468 | In such runs a command sent to a connected tab's session, by its name, is routed to that tab, whatever the child sessions are called |
| RelayChildren.CommandsReachTheirChild | assets/chrome-extension/background.js:462-468 | A command sent to a session that is no tab's own is routed to a tab if and only if the child session belongs to it, and to none if it belongs to none |
| RelayChildren.ChildLeadsExactlyWhen | assets/chrome-extension/background.js:524-876 | Over any run, a child session leads to a tab if and only if it was last attached under that tab, followed through replacements, and neither has the tab been detached, navigated or closed, nor the child session detached, nor the worker restarted since |
| RelayChildren.GoWithTheirTab | assets/chrome-extension/background.js:520-848 | A tab that is detached, navigates or is closed takes its child sessions along and no others |
| RelayChildren.MoveWithTheirTab | assets/chrome-extension/background.js:865-877 | The child sessions of a replaced tab lead to the tab in its place, and the others where they led |
| RelayChildren.StepKeepsChildrenPresentExactlyWhen | assets/chrome-extension/background.js:258-613 | A step keeps every child session leading to a tab that is there if and only if it is no failed attach or probe of a tab that has one |
| RelayChildren.ChildrenStayPresentExactlyWhen | assets/chrome-extension/background.js:258-877 | Over any run, at every point, if and only if there was no such step |
| RelayTabs.ConnectsExactlyWhen | assets/chrome-extension/background.js:574-628 | Over any run, a tab is connecting if and only if it began to, or took the place of one that did, and nothing since has ended that |
| RelayTabs.WaitsExactlyWhen | assets/chrome-extension/background.js:755-842 | Over any run, a tab waits to be attached again if and only if it navigated and since then the attempts have not ended, the tab was not closed, the connection not lost and the worker not restarted |
| RelayTabs.SessionsWereGiven | assets/chrome-extension/background.js:74-128 | Over any run, restarts included, every connected tab has a session that some attach gave, and the target of that attach |
| RelayTabs.ProbedExactlyWhen | assets/chrome-extension/background.js:258-329 | Over any run, a tab is waited on with a session if and only if that began while it had the session and the debugger has neither answered nor failed, nor the worker been restarted since |
| RelayTabs.RunInAttachOrder | assets/chrome-extension/background.js:491-497 | Over any run, restarts included, tabs are in order of attachment as their sessions are numbered |
| Relay.RestartRestores | assets/chrome-extension/background.js:74-128 | A restart from a snapshot just stored brings back exactly the connected tabs that are alive, as they were, and the next session number |
| Relay.DropLeadsBackExactlyWhen | assets/chrome-extension/background.js:262-277 | Dropping a tab after a failed probe keeps sessions leading back if and only if no other tab has that session |
| Relay.OverlapLosesSession | assets/chrome-extension/background.js:262-277 | A replacement during the probe leaves a connected tab whose session leads nowhere |
| Relay.StepStaysPresentExactlyWhen | assets/chrome-extension/background.js:262-880 | When every session leads to a tab that is there, it still does after a step if and only if the step does not drop a tab to which a session leads that it does not take along |
| Relay.RunStaysPresentExactlyWhen | assets/chrome-extension/background.js:74-880 | Over every run, whatever overlaps, sessions lead to tabs that are there at every point if and only if no event leaves one behind |
| Relay.OrderlyRunStaysPresentExactlyWhen | assets/chrome-extension/background.js:74-880 | In runs that drop no other tab's session, and in which an attached tab is not attached again, does not take another's place and is not dropped by an earlier session's probe, that is if and only if no attach fails after its commit |
| Relay.SessionMayOutliveTab | assets/chrome-extension/background.js:493-515 | From every state an attach can fail after its commit, and then a session leads to a tab that is not there |
| Relay.NumbersDifferExactlyWhen | assets/chrome-extension/background.js:74-128 | Over any run, no session number is given out twice, however the run goes on from any of its points, if and only if every restart reads a snapshot whose next number is the current one, that is stored after the last attach, or comes before the first attach |
| Relay.NumberGivenOutTwice | assets/chrome-extension/background.js:489-515 | A restart between an attach and the next snapshot, whether the snapshot can be read or not, is one that does not |
| Relay.SessionNamesDiffer | assets/chrome-extension/background.js:490 | Different numbers name different sessions |
| Relay.Tables.PersistState | assets/chrome-extension/background.js:74-89 | The snapshot lists the connected tabs, each once, and the next number |
| Relay.Tables.RehydrateState | assets/chrome-extension/background.js:93-128 | A new worker has the tabs of the snapshot less the dead ones |
| Relay.Tables.AttachTab | assets/chrome-extension/background.js:477-518 | Each outcome of an attach, and the tables it leaves |
| Relay.Tables.DetachTab | assets/chrome-extension/background.js:520-572 | The tab, its session and its child sessions go, and the rest is stored |
| Relay.Tables.OnNavigation | assets/chrome-extension/background.js:759-785 | The tab is forgotten until it is attached again, unless it already is |
| Relay.Tables.OnRemoved | assets/chrome-extension/background.js:840-863 | A closed tab is forgotten and the rest is stored; an unknown one changes only the reattach set |
| Relay.Tables.OnReplaced | assets/chrome-extension/background.js:865-880 | The tab's state, session and child sessions move to the new tab, and that is stored, whether or not a probe of it is outstanding |
| Notifier.TargetIsResolved | extensions/device-pair/notify.ts:222-238 | A resolved target has a trimmed, nonblank recipient; only an empty account is left out |
| Subscribers.RecipientIsFirstGiven | extensions/device-pair/notify.ts:229-232 | The recipient is the first of sender, origin and destination that is not blank, and without one there is no target |
| Subscribers.SameKeyExactlyWhen | extensions/device-pair/notify.ts:208-214 | Without bars in them, two targets have one key if and only if they are of one recipient, one account and one thread |
| Subscribers.BarsMayCollide | extensions/device-pair/notify.ts:208-214 | With bars, two different targets may share one |
| Notifier.NormalizeNotifyState | extensions/device-pair/notify.ts:107-159 | What any file reads as: records without a recipient, blank ids and times that are not positive are dropped, numbers lose their fractions, a missing time of arming is the time of reading, and the rest is trimmed |
| Subscribers.TruncIsTowardsZero | extensions/device-pair/notify.ts:131-155 | A fraction is dropped towards zero |
| Subscribers.FileReadsExactlyWhen | extensions/device-pair/notify.ts:107-159 | Any file: the subscribers are exactly what its records with a recipient read as, field by field, and the remembered requests exactly those with an id that is not blank and a positive time |
| Notifier.WrittenReadsAs | extensions/device-pair/notify.ts:107-202 | A file that the notifier wrote reads as the normal form of what was written, whenever it is read |
| Notifier.NormalizeIsNormal | extensions/device-pair/notify.ts:107-159 | What was read reads as itself |
| Notifier.UpsertNotifySubscriber | extensions/device-pair/notify.ts:240-262 | The subscriber of a key is added, replaced or left alone, and whether that is a change |
| Subscribers.ArmedExactlyWhen | extensions/device-pair/notify.ts:240-262 | After arming, the subscribers are those of other keys, the one of its key if it is of that mode already, and otherwise one armed now; what is remembered stays |
| Subscribers.OffExactlyWhen | extensions/device-pair/notify.ts:468-477 | After turning off, the subscribers are those of other keys; what is remembered stays |
| Notifier.ArmKeepsKeysUniqueExactlyWhen | extensions/device-pair/notify.ts:208-262 | Arming keeps one subscriber a key if and only if it changes nothing or the target's key, as it is read back, is not another subscriber's |
| Notifier.NormalArmKeepsKeysUnique | extensions/device-pair/notify.ts:208-262 | It always does for a target that reads back as itself |
| Notifier.BlankAccountDuplicates | extensions/device-pair/notify.ts:233-237 | A blank account makes two subscribers of one key |
| Notifier.RunKeepsKeysUnique | extensions/device-pair/notify.ts:208-508 | Over any run of polls and commands on targets that read back as themselves, from any state with one subscriber a key, there stays one subscriber a key |
| Notifier.RunKeepsKeysUniqueExactlyWhen | extensions/device-pair/notify.ts:208-508 | Over any run there is one subscriber a key at every point if and only if each arm changes nothing or the key of its target, as it is read back, is not another subscriber's |
| Notifier.DeliveredAgainOnlyAfterADay | extensions/device-pair/notify.ts:333-394 | Over any run from any state, a request with a nonblank id that stays pending is delivered in two polls only if more than a day lies between them |
| Notifier.HearsExactlyWhen | extensions/device-pair/notify.ts:346-374 | In a poll over requests of distinct ids a subscriber hears about a request if and only if it is pending, nobody was told about it within a day, the subscriber is persistent or the request was made when it was armed or later, and the message gets through |
| Subscribers.RememberedExactlyWhen | extensions/device-pair/notify.ts:344-379 | After a poll a request is remembered since some time if and only if it is pending and was remembered since then, not over a day ago, or was delivered in this poll |
| Subscribers.StaysExactlyWhen | extensions/device-pair/notify.ts:370-388 | A poll leaves exactly the subscribers whose key no one-shot subscriber was told under |
| Notifier.DeliveredAgainWithinADayExactlyWhen | extensions/device-pair/notify.ts:148-151 | Within a day of its delivery, a request that stays pending, with a subscriber for it who can be reached, is delivered again if and only if its id is blank |
| Notifier.BlankIdIsDeliveredTwice | extensions/device-pair/notify.ts:148-151 | A run in which a request with a blank id is delivered in two polls a millisecond apart |
| Notifier.OneShotIsRemoved | extensions/device-pair/notify.ts:370-388 | A poll that got through to a one-shot subscriber leaves nobody with its key |
| Notifier.OneShotHearsInOnePoll | extensions/device-pair/notify.ts:333-428 | A one-shot subscriber that heard something in one poll is not tried in a later one unless it is armed again |
| Notifier.HearsTwiceExactlyWhen | extensions/device-pair/notify.ts:346-374 | In one poll over requests of distinct ids a subscriber, one-shot or not, hears more than once if and only if two pending requests that are not remembered are both for it and get through |
| Notifier.OneShotHearsTwice | extensions/device-pair/notify.ts:479-489 | So a one-shot subscriber may hear of two new requests in one poll, though the reply to the command promises the next one |
| Notifier.Service.NotifyPendingPairingRequests | extensions/device-pair/notify.ts:333-394 | A poll: what the file reads as afterwards, and every message tried, in order |
| Notifier.Service.HandleNotifyCommand | extensions/device-pair/notify.ts:430-508 | Each action: its reply, its effect on the file, and what status reports of mode, subscribers and requests |
| Utf16.SliceUtf16Safe | src/utils.ts:248-275 | The result is the part of the requested range between its first and its last safe position, for bounds of either sign and in either order |
| Utf16Encoding.ClampedIsNearest | src/utils.ts:248-256 | A bound, counted from the end if negative, becomes the nearest position inside the string |
| Utf16Encoding.RequestedIsBetween | src/utils.ts:248-258 | The range requested is between the two, whichever comes first |
| Utf16.NearestSafe | src/utils.ts:260-272 | The bounds chosen are the nearest positions inside the range that split no pair |
| Utf16.WellFormedExactlyWhenPaired | src/utils.ts:240-246 | A string is well formed if and only if every high surrogate is followed by a low one and every low one preceded by a high one |
| Utf16Encoding.WellFormedExactlyWhenEncoded | src/utils.ts:231-246 | A string is well formed if and only if it encodes some code points, and these are the ones it has |
| Utf16Encoding.EncodedIsDecoded | src/utils.ts:231-246 | Encoding code points and reading them gives them back |
| Utf16.PartIsWellFormedExactlyWhen | src/utils.ts:248-275 | A part of a well-formed string is well formed if and only if it begins and ends at safe positions |
| Utf16.SliceIsWellFormed | src/utils.ts:248-275 | A slice of a well-formed string is well formed and inside the requested range |
| Utf16.CutKeepsCodePointsExactlyWhen | src/utils.ts:260-272 | Cutting a string keeps its code points if and only if the cut is not inside a pair |
| Utf16.SliceHoldsWholeCharacters | src/utils.ts:248-275 | The code points of a slice are a stretch of the string's own, for any string |
| Utf16.TruncateUtf16Safe | src/utils.ts:277-283 | The limit is rounded down and not below zero |
| Utf16.TruncatedIsPrefix | src/utils.ts:277-283 | The result is a prefix within the limit, as long as the limit when it cuts, or one unit shorter exactly when the limit is inside a pair |

## Left out

- The model call, Markdown and HTML parsing, YAML, JSON, the digest, files, the network, clocks and timers: parameters, or functions of which only an inverse, or the absence of collisions among what one run hashes, is assumed.
- Worker pool: an outer context that is cancelled from outside, and log lines. Each file's outcome is fixed before the run, and a file handled after a cancellation may also report the cancellation.
- Translation: the length of the waits, the wording of errors; whether a prompt failure was a rate limit is a parameter.
- TranslationMemory: how a segment's id is made from its path and hash, the fields of an entry that no lookup reads, the temporary file and its renaming, and the sorting of keys, in place of which any order is allowed.
- AngleIsHidden: is for links without a backtick in them; a code span that meets a link may hide all of it, part of it or none, depending on all that comes before.
- TargetIsHidden: likewise for links without backticks and angle brackets; and a `)` in the brackets may end an earlier link there, which takes the place of this one.
- Segments: extracting segments from Markdown, HTML blocks, and the front matter loop around `TranslateSnippet`.
- FrontMatter: the YAML text itself; a value that is neither a string nor a list is `Other`, and an item that is not a string is what `%v` prints of it.
- `shouldSkipDoc`, `filterDocQueue`, `orderFiles`, glossary and prompt: simple filters around the parts above.
- White space: `Trim` uses the characters of Go's `unicode.IsSpace` everywhere; JavaScript's `trim` differs in U+0085 and U+FEFF.
- Paper trading: numbers are reals, so rounding is not modelled, and prices are positive. NaN from too few samples is an option; other NaN and infinities are left out, but for the division of a risk budget by a stop distance of zero. Slippage is above minus one, periods and lookbacks are natural numbers.
- TrendLoop: fetching candles, and the aggregation over symbols in `runTrendAnalysis`.
- FundingHistory: parsing of the rates, an answer that is not a list, and the chunked Deribit walk. The fetch takes the page size and the number of pages as parameters; `HYPERLIQUID` has the source's.
- CarrySimulation: `Account` and `TrailingRates` are two loops where the source has one; the verdict, the basis summary and the reports are left out, as are the labels.
- Relay: badges, titles, the relay socket and its handshake; operation locks, which only remove interleavings. The sending of events to the relay is a flag that says whether it fails.
- Relay: the order in which tabs are listed in a snapshot is arbitrary.
- Notifier: `HearsExactlyWhen`, `HearsTwiceExactlyWhen` and `DeliveredAgainWithinADayExactlyWhen` are about polls whose pending requests have distinct ids, as the pairing store keeps them.
- Notifier: runs are over files that the notifier wrote itself; `NormalizeNotifyState` reads any file, but a time of arming that is missing is new at each reading, which the runs do not follow. A recipient, account or time of a wrong type counts as missing.
- Notifier: concurrent writes, failed writes, the identity migration, and the texts of messages and replies. A request id that names a property every JavaScript object has is treated as any other id.
- Utf16: bounds that are not whole numbers, other than the limit of a truncation.
- Calibration scripts, venue fetches, watchdogs, plugin registration, OAuth, the gateway and the user interface.
