# Verification of Schrödinger-Sync

Schrödinger-Sync copies a user's claude.ai conversations, project documents and memory to local Markdown files, once
(`harvest`) or as a daemon that wakes when Claude Desktop was active. This project models its engine in Dafny and
proves what the engine is for: no change is lost, no item that keeps failing makes the daemon run for ever on a
consistent listing, a synced directory stays quiet, and no secret reaches the output. `dafny verify dfyconfig.toml`
checks all of it.

## What is modelled

- `Text`, `Markdown`, `Header`: strings as Unicode scalar values, files as bytes with explicit UTF-8; the renderer
  with its loops; the reader of the `- Updated:` line over a 512-byte prefix, as a line scanner that is proved to
  find the leftmost match of the regular expression `(?m)^- Updated: (.+)$`.
- `Transcript`: what an export looks like from the outside, as a relation between a conversation and a text that is
  written without the renderer, and that only the renderer's text satisfies.
- `Filenames`: names of conversation files, project documents and the memory blob.
- `Fetch`: a session with a request counter and a clock of slept seconds, against any server; retry with backoff,
  the three query variants, pagination.
- `Serving`: servers that read the request path themselves, so that what is asked for is what is answered.
- `Redactor`: the registry of secrets and the stream filter.
- `Integrity`: the output directory with its hash manifest, one writer as a class and any number of writers as
  interleaved steps with crashes.
- `Engine`: the decision for one conversation and the loop over a listing, as a function of what the environment
  does at each item; the one-shot loop.
- `Cycles`, `Stalls`: the persisted state, the watermark, many cycles in a row, and what the stall counter counts.
- `Surfaces`: project documents, memory, and when their refresh counts.
- `Daemon`: the loops, the state file and the cycle as written, on heap objects, each tied to `Engine`, `Cycles` and
  `Surfaces` by its contract.
- `World`: the daemon's steps among a changing server, a Cookie DB written at any later moment, failures, deadlines,
  crashes and a lost state file.
- `Supervise`, `Launcher`, `Tray`: the autostart loop, the VBScript launcher, and the tray goroutines.

## What is assumed

The code does not enforce these; they appear in the contracts that need them.

- A listing names no conversation twice, and no two conversations share a file name (`Engine.IsListing`; for the bound on
  cycles only `Engine.VersionsAgree` is needed, and in `World` only that no two conversations ever shared a file name).
- Two versions of one conversation differ within the first 19 characters of `updated_at`, whole seconds of a date-time
  in section 5.6 of RFC 3339; these are printable ASCII, and `created_at` starts with a digit and has no line break in
  its first 19 characters. All renderings of a version, the lighter ones included, carry its name and dates
  (`World.IsPlain`).
- In `World`, a listing read while the server does not change is what the server holds (of a server that serves one
  list `Daemon.ListedIsServed` proves it), every change on the server is
  followed by a write of the Cookie DB with a modification time never seen before, and nobody else changes conversation
  files. Nothing is assumed of the answers to fetches, nor of the state and the files that the daemon finds at first.
- Where a server reads the request path itself (`Serving`, `Daemon.FilesAreOwn`), the identifiers of conversations
  contain no `?`; the code puts them into the path as they are.
- A file write happens completely or not at all; a rename is atomic; one process per directory. Saving and loading the
  state or the manifest is an exact round trip.

## What the proofs found

- `isRateLimited` looks for a phrase anywhere in the body, so a conversation that quotes `rate_limit_error` is
  never exported (`Fetch.QuotedPhraseIsNeverFetched`). The same test applies to the pages of the list: one title with
  that phrase makes the listing fail, and nothing at all is synced (`Fetch.QuotedPhraseEndsListing`).
- `extractText` says that nothing may vanish, but the `text` field of tool calls, of tool results and of unknown
  blocks with content is dropped, and exactly those (`Markdown.TextSurvivesExactly`).
- Redaction is complete exactly for the secrets of which no part can lie inside `[REDACTED]`
  (`Redactor.RedactionIsCompleteExactly`); it is enough that a secret has no square bracket and is not the word REDACTED itself.
- A secret with a line break inside passes through the stream filter (`Redactor.StreamIsWholeExactly`). Beside other secrets one
  more trait matters: a secret that can go on after a placeholder can be completed across lines where one that ends in a
  line break took it along (`Redactor.TwoSecretsJoinLines`, `Redactor.StreamSafeExactly`).
- A listing that names a conversation at two versions, which the paging can produce, can keep the daemon retrying for
  as long as every cycle lists it so (`Cycles.AlwaysHandledExactly`, `Cycles.ListingWithTwoVersions`).
- A cycle that cannot list, meets a deadline or cannot save leaves the trigger armed, and these may go on for ever; the
  bound is on the cycles that complete (`Cycles.CompletedCyclesAreFew`).
- A fetch that is answered with an older version or with raw JSON is recorded as done; the conversation is left outdated
  until the next trigger, and that set is named exactly (`World.ExcusedExactly`).
- A creation date that contains a line break could smuggle in the header line that is read back
  (`Header.SmuggledHeaderWins`, `Header.SmuggledDate`); titles cannot, and models and messages only where a
  conversation has no version at all (`Header.BlankVersionReadsOn`).
- `sanitize` is not idempotent exactly where its cut to 80 characters falls right behind white space that the regular
  expression does not know (`Filenames.SanitizeIdempotentExactly`, `Filenames.NotAlwaysIdempotent`).
- After "Beenden" one more cycle can start, and at most one (`Tray.LateCycleExactly`, `Tray.TrayIsSafe`).
- The comment at `tray.go:68-75` says that no later critical section calls into the tray after Remove. That holds of
  SetTooltip; a notification or a second Remove can still follow, exactly if its handler was started before and the
  process has not ended (`Tray.LateCallExactly`).

## Model

| member | source | states |
|---|---|---|
| World.NoLostUpdate | daemon.go:453-483 | In every reachable world, whatever the server answers and whatever activity, failures, deadlines, crashes and state loss come between the steps: if no change is on its way to the Cookie DB and the watermark equals its modification time, every conversation on the server is on disk as a rendering of exactly the server's version, except what the cycle that advanced the watermark left open. |
| World.ExcusedExactly | daemon.go:279-290 | What is left open changes only at the end of a saved cycle, to exactly three sets: its error items, and those only if the cycle was stalled and the counter went back to zero; the items for which it wrote an answer that is no rendering of the listed version; and the items it did not ask for although their file is no rendering of any version of theirs. |
| World.FailedOnlyAfterThree | daemon.go:267-290 | Error items are left open only by the third of three saved cycles with errors and without progress, with no other saved cycle and no loss of the state between them; what a state found at first had counted already is the only exception. |
| World.CounterIsInARow | daemon.go:279-290 | In every run the counter is the number of stalled saved cycles in a row, modulo three; only a number above two, found in the state file at first, stands until the next save. |
| World.DistrustedIsAskedFor | daemon.go:253-264 | A file whose header does not match the listed version, such as a stored HTML page, is asked for again whatever the state records. |
| World.DistrustedHeals | daemon.go:253-264 | One faithful answer and one working write make such a file current. |
| World.StepKeepsInv | daemon.go:335-407 | Every step of the daemon and of its environment keeps the invariant: an undisturbed cycle has made every item done so far current, or it is an error item, misled or on a file that was trusted wrongly. |
| World.FreshFileIsCurrent | daemon.go:245-265 | A file whose header matches the listed version and that is a rendering of any version of the conversation is a rendering of the listed one, so skipping and seeding are right. |
| World.FinishIsChatCycle | daemon.go:476-480 | The step-by-step cycle leaves the state and the disk that the cycle as one function computes. |
| Cycles.AlwaysHandledExactly | daemon.go:267-290 | In cycles that complete, that is that can list, meet no deadline and save, a trigger is handled at some time from every state and disk and whatever items fail, if and only if the listing names no conversation at two versions. |
| Cycles.CompletedCyclesAreFew | daemon.go:267-290 | Without that restriction: over any number of cycles on such a listing, of which some cannot list, meet a deadline or cannot save, at most 3·stale+3 complete while the trigger is armed; after that many it is handled, and until the first of them the state is as it was. |
| Cycles.TriggerIsHandled | daemon.go:267-290 | With such a listing and in such cycles every trigger is handled within 3·stale+3 cycles; from then on no cycle runs and nothing changes. |
| Cycles.BoundIsAttained | daemon.go:267-290 | No smaller bound would do: for every listing there are a state and failures that keep the trigger armed until one cycle before it. |
| Cycles.HeldCycleDecreases | daemon.go:279-290 | A cycle that leaves the trigger armed strictly decreases 3·stale + (3 − retries). |
| Cycles.ArmedCyclesPayUp | daemon.go:459-478 | n cycles that leave the trigger armed have lowered that measure by at least n. |
| Cycles.DeadlineCycleResumes | daemon.go:361-369 | A deadline anywhere in the loop leaves the persisted state and the armed trigger as before and keeps the written files; the next cycle records an unseen conversation written as listed without asking for it. |
| Cycles.TwoVersionsStayArmed | daemon.go:335-407 | For every listing that names a conversation at two versions there are failures that keep the trigger armed, from the first run on, for as long as every cycle lists it so. |
| Stalls.CounterCounts | daemon.go:279-290 | Over cycles of any kind the stall counter is the number, modulo three, of saved cycles in a row that had errors and no progress; a clean one or one with progress starts the count anew, one that is not saved leaves it alone. Only a number above two, found at first, stands until the next save. |
| Stalls.WatermarkMovesExactly | daemon.go:279-290 | The watermark takes the modification time of a cycle exactly if that cycle was saved and was clean or the third stalled one in a row. |
| Cycles.ListingWithTwoVersions | cdp.go:424-444 | Such a listing is what listAllConversations returns when a conversation at the end of the first page changes and another is added before the second page is read. |
| Engine.LoopSpecification | daemon.go:335-407 | Without a deadline every listed conversation ends recorded at its listed version or is one of exactly errN error items with entry and file untouched; the stale ones fall by exactly newN+changedN+seedN; only fetched files change, and only to rendered conversations or bodies that open with a brace. |
| Engine.CountersCount | daemon.go:392-402 | newN counts the conversations fetched and unknown before, changedN those fetched and recorded at another version, seedN those taken over without a fetch, errN those that failed. |
| Engine.LoopIsPointwise | daemon.go:335-407 | Every item is decided on the state and disk the loop started from: no item changes the fate of another. |
| Engine.SecondRunIsQuiet | daemon.go:335-407 | After an error-free run a second one asks for nothing if and only if what the first wrote reads back as listed; then no counter, entry or file moves. |
| Engine.MatchingBodyIsFresh | daemon.go:208-265 | A body with the listed version, a header within 512 bytes and a file over 100 bytes reads back as listed. |
| Engine.TinyIsDistrusted | cdp.go:454-468 | A file of a hundred bytes or less is never trusted, whatever its header says. |
| Engine.OneFreshnessRule | cdp.go:454-468 | The one-shot rule and the daemon's agree, except for a conversation recorded at another version. |
| Engine.HarvestIsFirstCycle | cdp.go:508-546 | The one-shot loop and a first daemon cycle without state make the same requests in the same order, write the same files and count the same. |
| Engine.DaemonAfterHarvest | cdp.go:508-546 | After an error-free harvest the first daemon cycle asks for nothing and seeds every conversation, if and only if what the harvest wrote reads back as listed. |
| Engine.DeadlineIsResumable | daemon.go:361-369 | After a deadline the next run seeds an unseen conversation whose file was written as listed, however that run ends. |
| Engine.OnlyNeededAreAsked | daemon.go:335-360 | Deadline or not, only conversations that needed it at the start are asked for. |
| Engine.WrittenBeforeDeadline | daemon.go:361-380 | Every file written before a deadline is kept. |
| Engine.LoopStale | daemon.go:392-402 | Each counted item takes exactly one conversation out of the stale ones; a healing rewrite takes none and is not counted. |
| Engine.LoopFailures | daemon.go:370-385 | The error items are as many as errN, and all are listed. |
| Daemon.SyncConversations | daemon.go:335-407 | The loop on the mutable state and directory computes, in order, what the server's answers and the outcomes of the writes make of the listing: each item asked for is fetched by its own uuid with the next request. |
| Daemon.LoopIsSync | daemon.go:335-407 | That computation is the specified run, so all that is proved of the run holds of the loop. |
| Daemon.LoopCost | cdp.go:316-347 | A run makes between one and fifteen requests for every conversation asked for, and meets no rate-limited or HTML body. |
| Daemon.FilesAreOwn | daemon.go:335-407 | From a server that reads the path, after a run every file of a listed conversation is as it was or what is written for a rendering of that very conversation. |
| Daemon.OnlyTimeoutsAbort | daemon.go:361-369 | Only a deadline of the session ends a loop early. |
| Daemon.FetchingCost | cdp.go:316-347 | One conversation costs at most fifteen requests and ninety-nine seconds of waiting. |
| Daemon.FetchAndWrite | daemon.go:359-391 | One item: the file changes exactly if the server's answer to a fetch of this conversation is a body, is rendered to a non-empty text and the write works, and then to that text; the manifest records it exactly if its save works too. |
| Daemon.CdpHarvest | cdp.go:508-546 | The one-shot loop computes, in order, what the answers and writes make of the listing, and counts the manifest saves that failed. |
| Daemon.LoopIsHarvest | cdp.go:508-546 | That computation is the specified harvest. |
| Daemon.HarvestOnce | daemon.go:296-322 | Without a session or with a listing that fails nothing changes; otherwise the loop runs on what the pages brought, from the request after the last page on. |
| Daemon.ListedIsServed | cdp.go:424-444 | While the server serves one list, the cycle works on exactly that list or fails. |
| Daemon.RunCycle | daemon.go:453-509 | State file, directory and the counts of saves and writes after the cycle are those of the chat half followed by those of the surfaces half on the state that the first left in the file; a running Desktop means that nothing happens. |
| Daemon.RunChatHalf | daemon.go:458-485 | The chat half saves its result exactly if it was triggered, the listing arrived, the loop did not end in a hard error and the save works. |
| Daemon.ChatHalfIsCycle | daemon.go:458-485 | Without a listing nothing changes; with one, the result is that of a cycle of Cycles in the weather that the server, the writes and the save make. |
| Daemon.RunSurfacesHalf | daemon.go:488-507 | The surfaces half runs when due and saves the time exactly after a refresh without errors. |
| Daemon.RefreshIsDaily | daemon.go:489-496 | A refresh is due exactly 86400 seconds after the recorded one, and at once if no time is recorded or it cannot be read. |
| Daemon.SurfacesHalfIsHonest | daemon.go:488-507 | It changes no chat field and no file of a conversation, and the time moves only with every document of every project and the memory on disk. |
| Daemon.HardErrorKeepsChat | daemon.go:465-507 | A cycle that ends in a hard error keeps every chat field and every file already written, and stays triggered. |
| Daemon.StateFile.LoadState | daemon.go:70-81 | A missing or corrupt state file is a first run; the state in memory is a new object. |
| Daemon.LostStateStartsOver | daemon.go:70-81 | Then both halves of the cycle run, no conversation is skipped, and no stall is counted. |
| Daemon.StateFile.SaveState | daemon.go:89-117 | The file holds the complete new state or the complete old one. |
| Surfaces.HarvestProjects | surfaces.go:52-103 | The documents of every project, in order, are written under their names; docN counts the written ones, and docN + errN is their number plus the projects without an answer, or one error if there is no project list. |
| Surfaces.AskOutcome | cdp.go:287-314 | Lists, documents and memory are asked for up to six times, given up exactly if all six answers are rate limits, with at most 62 seconds of sleep. |
| Surfaces.DocsAreCounted | surfaces.go:86-101 | docN is the number of the writes that worked. |
| Surfaces.DocFilesTellApart | surfaces.go:79-80 | Two documents share a file name only if the safe ones of the first eight characters of both identifiers agree. |
| Surfaces.ErrorFreeExactly | surfaces.go:52-103 | No error is counted if and only if the list and every project's documents could be had and every write worked. |
| Surfaces.ErrorFreeIsComplete | surfaces.go:52-103 | After an error-free harvest every document of every project is on disk, in its own text if no other shares its name. |
| Surfaces.HarvestMemory | surfaces.go:108-139 | A blank memory is neither written nor an error; any other is written, as the one change to the directory, or an error. |
| Surfaces.RefreshSurfaces | daemon.go:594-614 | The refresh does what the two harvests do, and succeeds exactly if neither counted an error. |
| Surfaces.RefreshIsComplete | daemon.go:594-614 | After a success every document of every project and the memory is on disk; success or not, no file of a conversation changes. |
| Surfaces.DocIsInItsText | surfaces.go:84-85 | A document's file is a head that names title, project, document and date, a rule, and the content, all of it. |
| Surfaces.MemoryIsInItsText | surfaces.go:127-128 | So is the memory's. |
| Serving.RefreshedSiteIsOnDisk | surfaces.go:52-139 | After a refresh without errors of a server that reads the path, every document that it keeps of every project, and its memory, are on disk. |
| Header.HeaderRoundTrip | cdp.go:670-692 | Reading back a rendered file yields its truncated version if and only if that version is one trimmed line and the header ends within 512 bytes, whatever the title, the model and the messages contain. |
| Header.ScannerIsLeftmostMatch | daemon.go:208-231 | The scanner captures from the leftmost match of the pattern and finds nothing only if there is none. |
| Header.ReadBack | daemon.go:217-231 | In any surrounding text without an earlier header line the version comes back exactly if it is trimmed, unbroken and inside the prefix. |
| Text.TrimBytesIsTrimSpace | daemon.go:217-231 | On valid UTF-8 the bytes that are trimmed are exactly those of the white space that is trimmed from the text. |
| Header.ReadBackOrShorter | daemon.go:217-231 | A header that does not fit is read back as something shorter, never as another version. |
| Header.TitleNeverMatches | cdp.go:671-678 | No title makes an earlier line match. |
| Header.BlankVersionReadsOn | daemon.go:217-231 | Without a version, what is read back is the first header line that the model or the messages hold within the rest of the 512 bytes. |
| Header.SmuggledHeaderWins | cdp.go:670-681 | A creation date with a header line inside wins over the real one. |
| Header.SmuggledDate | cdp.go:670-681 | A line break followed by `- Updated: 2026` is such a date. |
| Markdown.ConvToMarkdown | cdp.go:650-693 | The renderer computes the specified text, or the empty one for API errors and non-JSON. |
| Markdown.ExtractText | cdp.go:623-648 | The loop over content blocks computes the specified transcript. |
| Markdown.BuildRawText | cdp.go:600-621 | The three shapes of raw content give the specified text. |
| Markdown.WrittenShape | cdp.go:650-669 | What is written is a rendered conversation or a body that opens with a brace. |
| Transcript.ExportIsTheTranscript | cdp.go:623-693 | The export is the one text that consists of the head and then, for every message in its order, of who speaks, the date, and the message's own text if it has no blocks, or else its blocks in their order, each in its own form. |
| Transcript.OwnTextIsKept | cdp.go:623-626 | The text of a message without blocks is in the export as one passage. |
| Transcript.WrittenExactly | cdp.go:650-669 | Nothing is written exactly for a body that is neither a conversation nor looks like JSON, and for one without dates and messages; otherwise the transcript, or the body as it came. |
| Markdown.EveryBlockIsKept | cdp.go:623-648 | Every content block of every message is in the file as one passage. |
| Markdown.TextSurvivesExactly | cdp.go:627-646 | The `text` of a block is dropped exactly for tool calls, tool results and unknown blocks with content. |
| Filenames.SanitizeIsClean | cdp.go:590-598 | Never empty, at most 80 characters, without forbidden characters and ASCII white space. |
| Filenames.SanitizeKeeps | cdp.go:590-598 | A name is the title's characters in their order without the forbidden ones, without white space at the ends, each run of ASCII white space as one underscore, cut to 80; "Untitled" if nothing is left. |
| Filenames.PathSafeIsFiltered | cdp.go:582-588 | Of an identifier or a date all safe characters are kept, in their order, and no others. |
| Filenames.SanitizeIdempotentExactly | cdp.go:590-598 | A second pass changes nothing, except exactly where the cut to 80 characters falls right behind white space. |
| Filenames.NotAlwaysIdempotent | cdp.go:590-598 | 79 letters, a no-break space and one more letter are such a title. |
| Filenames.SanitizeIdempotentOnAscii | cdp.go:590-598 | On ASCII titles a second pass changes nothing. |
| Filenames.ConvFilenameInjective | cdp.go:449-452 | Equal names if and only if equal safe date, safe id and sanitized title. |
| Filenames.ConvFilenameStaysInside | cdp.go:449-452 | A name is a direct child of the directory. |
| Filenames.ConvFilenameNamespace | surfaces.go:79-83 | With a digit-initial date a conversation's name is never that of a document, the memory, the state or the manifest. |
| Filenames.DocFilename | surfaces.go:79-83 | Always under `project_` and with the extension. |
| Filenames.DocFilenameTellsApart | surfaces.go:79-83 | Documents whose projects or own identifiers differ in the safe ones of their first eight characters have different names. |
| Filenames.ExtensionIsNotDoubled | surfaces.go:79-83 | A title with the extension is named like the same title without it. |
| Fetch.FetchOutcome | cdp.go:316-347 | At most 15 requests and 45·retryBase + 3·variantGap slept; request k goes to variant k/5 and every earlier answer was a rate limit; rate-limited exactly if all fifteen were; never a rate-limited or HTML body. |
| Fetch.RetryOutcome | cdp.go:292-314 | One retry loop stops at the first answer that is not a rate limit; its sleeps double. |
| Fetch.NoPageIsBrought | cdp.go:269-285 | What a fetch brings never has an angle bracket as its first character behind white space, and never contains one of the two phrases. |
| Fetch.FailureIsNamed | cdp.go:292-347 | A fetch that fails, other than by fifteen rate limits, is called a deadline exactly if its last answer is one, a broken connection likewise, and an HTML page likewise. |
| Fetch.Session.GetWithRetry | cdp.go:292-314 | The loop makes the requests and sleeps of the specified retry. |
| Fetch.Session.FetchConv | cdp.go:327-347 | The loop over variants makes the requests and sleeps of the specified fetch. |
| Serving.OwnBodyIsFetched | cdp.go:327-347 | From a server that reads organization, conversation and query off the path, whatever fails on the way, a fetch brings a rendering of this very conversation: the full one within five requests, the one without tools within ten, else the current branch. |
| Serving.StoredIsFetched | cdp.go:327-347 | If the server never fails, the first of the three renderings that does not read like a rate limit. |
| Serving.FirstRequest | cdp.go:328-330 | The first request asks, to the letter, for the full rendering. |
| Serving.ConvPathInjective | cdp.go:328 | Two conversations without a question mark in their identifiers never share a request path. |
| Fetch.QuotedPhraseIsNeverFetched | cdp.go:269-271 | A conversation whose three renderings quote the phrase is not returned, however the server answers everything else. |
| Fetch.QuotedPhraseEndsListing | cdp.go:424-444 | If the answers to the requests for one page of the list quote the phrase, the page is a rate limit in all its rounds and the listing ends there with an error; for the first page, with nothing listed. |
| Fetch.ListAllConversations | cdp.go:424-444 | Against any server on which the listing ends: the pages up to the first that is not full, in order, or an error if a page fails; never a part. |
| Fetch.DecimalReadsBack | cdp.go:428-429 | The offset in a request, read digit by digit from the front, is the offset that was meant, without leading zeros. |
| Fetch.PageOutcome | cdp.go:287-314 | A page is asked for up to seven times, given up exactly if all seven answers are rate limits, with at most 126 seconds of sleep. |
| Fetch.FixedListIsListed | cdp.go:424-444 | Against a server that reads the offset off the path and answers from a fixed list it ends, with the whole list in order from floor(n/100)+1 pages, also if n is a multiple of 100, or an error at the first failing page. |
| Fetch.ListServerIsListed | cdp.go:424-444 | If such a server never fails, the whole list comes in floor(n/100)+1 requests. |
| Fetch.ChangingListIsMixed | cdp.go:424-444 | Of a list that changes between two pages the listing brings the first page as it was and the second as it has become. |
| Redactor.RedactionIsCompleteExactly | security.go:34-80 | A secret survives in no registry, order and text if and only if no part of it can lie inside the placeholder. |
| Redactor.BracketFreeIsUntouched | security.go:71-80 | A secret without square brackets, other than the word REDACTED, is such a secret. |
| Redactor.TouchingCanSurvive | security.go:71-80 | For every other secret there are a registry and a text from which it survives. |
| Redactor.CleanTextIsKept | security.go:71-80 | A text without secrets comes out unchanged. |
| Redactor.StreamIsWhole | security.go:107-135 | Line-by-line output equals redacting the whole stream for every registry in which no secret has a line break inside and none that can go on after a placeholder comes after one that ends in a line break; newline-free registries are among them (`Redactor.NewlineFreeIsLineSafe`). |
| Redactor.NewlineFreeIsLineSafe | security.go:107-135 | A registry in which no secret has a line break is of that kind. |
| Redactor.StreamSafeExactly | security.go:107-135 | In every registry of secrets without these two traits and one more secret the two agree on all texts, if and only if that secret has neither trait. |
| Redactor.StreamNeverLeaks | security.go:107-135 | In such a registry no secret that cannot overlap the placeholder is in the output of the stream filter. |
| Redactor.StreamIsWholeExactly | security.go:107-135 | Alone in the registry a secret is served exactly if it has no line break inside. |
| Redactor.TwoSecretsJoinLines | security.go:107-135 | For two secrets that is not enough: one that ends in a line break and one that begins with a square bracket are a counterexample. |
| Redactor.Registry.RegisterSecret | security.go:34-48 | Short secrets and known ones are ignored; the registry keeps its order. |
| Redactor.Registry.Redact | security.go:71-80 | The loop computes the specified replacement in registry order. |
| Redactor.Registry.RedactStream | security.go:115-129 | For every text and every way to cut it into writes, the loop's output is that of the lines of the text. |
| Redactor.CutsDoNotMatter | security.go:115-129 | Whatever the cuts, a line-safe registry's output is the whole text redacted at once, and without secrets it is the text. |
| Integrity.NoHashIsLost | integrity.go:128-143 | With distinct names, in every interleaving, every writer that finished well has its file as written and recorded with its hash, no name recorded before is lost, and never two writers hold the lock. |
| Integrity.CrashLeavesManifestTrue | integrity.go:77-101 | A crash at any step leaves a manifest that is wrong only for files in flight or whose save failed. |
| Integrity.AllDoneIsSequential | integrity.go:128-143 | When all writers are done without failures, the directory is as if they had run one after the other. |
| Integrity.OutDir.WriteMarkdown | integrity.go:128-143 | The export fails exactly if its content was not written; a manifest failure leaves the export standing. |
| Supervise.SlidingWindow | daemon.go:534-550 | From idle, the machine is active exactly if one of the last three polls found something running, and missCount is the distance to the last that did. |
| Supervise.SuperviseLoop | daemon.go:562-589 | A cycle runs at a poll exactly if one of the last three found something running and no earlier cycle ended less than an interval ago. |
| Launcher.LauncherRoundTrip | daemon.go:653-670 | Reading the generated file by VBScript's rules yields the command line and leaves exactly `, 0, False` and the line end, if and only if the command line has no line break. |
| Launcher.GuardIsExact | daemon.go:687-691 | The guard refuses exactly the directories for which the file would not be read as meant. |
| Launcher.ScanUndoesDoubling | daemon.go:654-667 | Reading a literal undoes the doubling of quotes, exactly for texts without a line break. |
| Tray.TrayIsSafe | tray.go:67-137 | In every interleaving of any number of handlers: no SetTooltip after Remove, never two of the calls that trayMu guards at once, at most one pending request and none lost, and at most one cycle started after "Beenden". A notification or a second Remove after Remove is not among the promises: see the next row. |
| Tray.LateCallExactly | tray.go:68-102 | After Remove and before the process ends, a notification or a second Remove can follow if and only if a handler that has still to make that call had been started before. |
| Tray.LateCycleExactly | tray.go:116-137 | Once the flag is set a cycle can still start if and only if the loop waits or is on its way to the next one; past its start, in no continuation. |
| Tray.OneLateCycle | tray.go:116-137 | One such late cycle is possible. |

## Left out

- DPAPI, cookie decryption, SQLite, Chrome control, real network and process listing: foreign calls; they appear as arbitrary answers.
- JSON: bodies come with their decoding; that encoding and decoding the state or the manifest is a round trip is assumed.
- SHA-256: any function.
- Several processes in one directory, and two writers of one file name: the code documents that updates can be lost.
- Torn file writes: a truncated file with a good header could be seeded.
- Activity that does not touch the Cookie DB, such as a change made on a phone: it triggers no cycle, in the code as in the model.
- Changed conversations that are already recorded are fetched again after every deadline; no claim says that they get their turn.
- Fetch.ListAllConversations: a server on which every page is full for ever, on which the loop does not end, is not covered.
- Tray.TrayIsSafe: tray.Run on the main goroutine (tray.go:139) is inside the library's message loop throughout and takes no lock; the exclusion is among the calls that trayMu guards.
- Daemon.HarvestOnce: for the same reason takes as given that the listing ends, as RunChatHalf and RunCycle do; the organization is that of the session, its lookup is not modelled.
- Sleeps between items, logging, status texts, notifications, icons, residue removal and task installation beyond the launcher's text.
- `zeroBytes`, `jsStringLiteral`, `probe.go` and the installer script: easy or foreign.
