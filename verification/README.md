# Codex++ verification model

This project models the state machines, text editors and codecs at the core of Codex++ and proves what
they promise. Everything is stated for every input, every run or every reachable state; where the code
does not keep a promise, there is a concrete counterexample and the exact condition under which it does.

`dafny verify dfyconfig.toml` checks the project. Text is a sequence of code units; regular expressions
are written out as scanners; `JSON.parse` and `JSON.stringify` are the identity on datatypes; time is a
number that the environment supplies.

| module | what it models |
|---|---|
| `ThreadScroll`, `ThreadScrollLaws`, `ThreadScrollTrips`, `ThreadScrollRuntime` | the injected runtime's saving and restoring of thread scroll positions: locks, revisions, timers, user cancellation. The first is the protocol as a state machine, the second what its runs keep, the third what is stored and how a round trip ends, the last the mutable runtime object whose handlers are proved to be its steps |
| `ServiceTier`, `ServiceTierChoices` | the service tier override: per-thread choices in local storage and the rewriting of requests |
| `AppModules`, `AppModuleRuns` | the asset loader: shared promises, remembered failures, cooldown, attempt cap |
| `BackendSettings` | the optimistic settings store with sequence numbers |
| `Marketplace`, `MarketplaceAdditions` | merging local plugin marketplaces into a response |
| `Recency` | the timestamped stores that are pruned to their newest entries |
| `CodeLines`, `CodeHighlight`, `CodeLexers` | the line builder, what the TOML and JSON highlighters are to produce, and their loops |
| `CodeTokens`, `CodeColours`, `CodeCuts` | the tokens of both languages stated on the characters of the text, and that the colours are those of the tokens |
| `GoalsConfig`, `GoalsLaws`, `GoalsTextLaws`, `GoalsReading`, `GoalsIdempotence` | the in-place editor of the `goals` feature in config.toml |
| `Decimal`, `TokenLimits`, `WindowTexts`, `AutoCompact` | token limits and percentages, through their texts |
| `MetadataMap`, `JsonRecords`, `MetadataDocument`, `MetadataLaws`, `MetadataTexts` | renaming the keys of the metadata map; writing, synchronising and reading model.json |
| `ModelWindows`, `ModelWindowRows` | the model table and the texts it is saved as |
| `ModelFamilies`, `ModelFamilyNames`, `ModelGroups`, `ModelGroupLaws`, `ModelGroupOrder`, `ModelGroupStability` | grouping model ids by family, and filtering |
| `Base64Url`, `Base64Laws`, `Base64Bits` | unpadded URL-safe base64 (RFC 4648, sections 3.2, 4 and 5) |
| `SplitReply`, `SeenWindow` | the bridge's reply splitter and its window of seen message ids |
| `Text`, `Wrappers` | white space, trimming, splitting and joining; the optional value |

## What was found

- **A scroll hold can be lost.** A user scroll is meant to hold off restores of its thread until the user
  navigates. It is also released when a second user scroll is attributed to another thread, for instance
  while the page shows another thread for a moment: `ThreadScrollLaws.ScrollElsewhereReleases`. The exact set
  of releasing events is `ThreadScrollLaws.HoldEndsExactlyAtRelease`; up to a release the hold is proved, and
  `ThreadScrollLaws.ScrollProtectsIff` says when a user scroll protects at all.
- **A fast tier can leave for a model without one**, exactly when the request runs in the inherit mode and
  its two spellings of the tier conflict: `ServiceTier.FastLeaksIff`, with a request in `ServiceTier.FastLeaks`.
- **Setting goals twice is not always setting it once.** The second reading turns every CR LF the first
  writing left into a LF. `GoalsTextLaws.LastSettingWins` says what happens for every text,
  `GoalsIdempotence.LastSettingWinsIff` on which texts it is idempotent, and
  `GoalsIdempotence.SecondSettingDropsCr` gives one on which it is not.
- **The round trips of limits and percentages have sharp bounds.** Every limit of a window survives as a percentage
  exactly up to 100,000,000 tokens, every six-digit percentage survives as a limit exactly from there to
  2^53 - 1, and every whole percentage exactly from 100 tokens to 2^53 - 1. A limit that was computed
  from a percentage is stable for every window.
- **A written model.json can be unreadable**: a limit without its window, exactly when the window is beyond
  JavaScript's exact integers and the limit is not: `MetadataLaws.WrittenIsRead`, and
  `MetadataLaws.WrittenUnreadable` for half of such a window. The synchroniser
  does not have the problem: `MetadataLaws.SyncedIsRead`.
- **Loading a saved model table gives its canonical form** exactly when no name that is kept holds a line
  break: `ModelWindows.LoadsCanonicalIff`, with a name that splits in `ModelWindows.BrokenNameSplits`.
- **Grouping depends on the order of its input** exactly when two different ids of one family tie in the
  collation: `ModelGroupOrder.OrderIrrelevantIff`.

## Model

| member | source | states |
|---|---|---|
| `ThreadScrollLaws.LockAimsAtStoredPosition` | assets/inject/renderer-inject.js:5575-5622 | over any run from any stored positions, a live restore lock aims at the position stored for its thread, if one is still stored |
| `ThreadScrollLaws.StepKeepsInv` | assets/inject/renderer-inject.js:5495-5913 | every event keeps the protocol's invariant: unique entries, lock and entry agree, no callback is ahead of its revision |
| `ThreadScrollLaws.LiveLockShieldsPosition` | assets/inject/renderer-inject.js:5779-5798 | while a lock is live, no event overwrites the position it protects; at most it is pruned |
| `ThreadScrollLaws.WritesAreStoredPositions` | assets/inject/renderer-inject.js:5808-5833 | only a restore callback of the current revision moves a scroller; it is that of the active thread, not held by the user, and it goes to the stored position, or to the target of the live lock if the entry was pruned, clamped to the range |
| `ThreadScrollLaws.OpeningRestores` | assets/inject/renderer-inject.js:5835-5882 | opening a thread with a stored position arms a callback that leaves its scroller there, to within a pixel, whenever it runs |
| `ThreadScrollLaws.HoldEndsExactlyAtRelease` | assets/inject/renderer-inject.js:5552-5573 | a hold put on a thread by a user scroll ends with an event if and only if the event is a navigation elsewhere, the opening of another thread or a user scroll attributed elsewhere; switching the feature off and on keeps it |
| `ThreadScrollLaws.UserScrollStopsRestores` | assets/inject/renderer-inject.js:5552-5573 | after a user scroll, no restore moves that thread's scroller in any run without a release |
| `ThreadScrollLaws.ScrollProtectsIff` | assets/inject/renderer-inject.js:5552-5573 | a user scroll on the active thread protects it from restores, as long as the page stays on it, if and only if it is attributed to it |
| `ThreadScrollLaws.NotHeldIsRestored` | assets/inject/renderer-inject.js:5808-5882 | an active thread that is not held is put back to its stored position, from anywhere off it, by a run without navigation or user scroll |
| `ThreadScrollLaws.ScrollElsewhereReleases` | assets/inject/renderer-inject.js:5552-5564 | a run from a page with one stored thread in which the thread is restored, without navigation or change of thread, after the user had scrolled it |
| `ThreadScrollLaws.UserScrollKillsCallbacks` | assets/inject/renderer-inject.js:5835-5894 | callbacks scheduled before a user scroll do nothing in whatever order and however late they run |
| `ThreadScrollTrips.SaveStores` | assets/inject/renderer-inject.js:5779-5798 | a save stores the scroller's own position, height and client height under its session exactly if the feature is on, there is a session and a scroller, no lock of the session lives and the scroller is two pixels or more off the last position or differs in size; otherwise nothing is stored. There is room in the store, or the save is newer than every other entry |
| `ThreadScrollTrips.StoredWasSaved` | assets/inject/renderer-inject.js:5779-5798 | over any run, a stored position was stored before the run, or is where the scroller was at a save made while its thread was active |
| `ThreadScrollTrips.TripRestores` | assets/inject/renderer-inject.js:5808-5913 | leaving a thread for another one and coming back moves its scroller to the position it was left at, or to the nearer end of its range, for both orientations and whenever the armed callback runs |
| `ThreadScrollTrips.LockLasts` | assets/inject/renderer-inject.js:5603-5616 | a restore holds off saves of its session for 3.2 seconds and no longer |
| `ThreadScrollTrips.IntentLasts` | assets/inject/renderer-inject.js:5552-5568 | for 1.2 seconds after a user scroll no restore moves a scroller |
| `ThreadScrollTrips.RepeatedClick` | assets/inject/renderer-inject.js:5905-5907 | the same click within five seconds does not save again |
| `ThreadScrollTrips.ScrollIsAttributed` | assets/inject/renderer-inject.js:5552-5558 | a user scroll is attributed to the session of the restore in progress, else to the one shown, else to the active one |
| `ThreadScrollTrips.RestoredIsNotSaved` | assets/inject/renderer-inject.js:5779-5833 | a position the runtime moved the scroller to is not saved again, up to two pixels off |
| `ThreadScrollTrips.OpeningUnknown` | assets/inject/renderer-inject.js:5835-5882 | opening a session without a stored position locks nothing and arms no callback |
| `ThreadScrollRuntime.Runtime.ActiveLock` | assets/inject/renderer-inject.js:5575-5585 | returns the live lock of a thread and forgets it if it has expired |
| `ThreadScrollRuntime.Runtime.SaveNow` | assets/inject/renderer-inject.js:5779-5798 | the runtime object after a save is the protocol's save step, whose stored position is `ThreadScrollTrips.SaveStores` |
| `ThreadScrollRuntime.Runtime.RestorePosition` | assets/inject/renderer-inject.js:5808-5833 | the runtime object after a restore is the protocol's restore step |
| `ThreadScrollRuntime.Runtime.ScheduleRestore` | assets/inject/renderer-inject.js:5835-5851 | the runtime object after scheduling a restore is the protocol's step |
| `ThreadScrollRuntime.Runtime.Sync` | assets/inject/renderer-inject.js:5853-5882 | the runtime object after a sync is the protocol's sync step; the lock prepared on the way leaves no trace |
| `ThreadScrollRuntime.Runtime.ScheduleSyncAttempts` | assets/inject/renderer-inject.js:5884-5894 | the runtime object after scheduling sync attempts is the protocol's step |
| `ThreadScrollRuntime.Runtime.CaptureNavigation` | assets/inject/renderer-inject.js:5896-5913 | the runtime object after a captured navigation is the protocol's step |
| `ThreadScrollRuntime.Runtime.CancelForUserIntent` | assets/inject/renderer-inject.js:5552-5564 | the runtime object after a user scroll is the protocol's step |
| `ThreadScrollRuntime.Runtime.SetEnabled` | assets/inject/renderer-inject.js:2206-2218 | a change of the setting, which the backend keeps, changes what the handlers see and nothing else: hold, lock, positions and revisions survive |
| `ThreadScrollRuntime.Runtime.Handle` | assets/inject/renderer-inject.js:5518-5536 | every event leaves the runtime object in the state the protocol says, with the invariant kept |
| `Recency.NewestFind` | assets/inject/renderer-inject.js:5495-5506 | pruning keeps each entry as it was or drops it |
| `Recency.NewestKeepsNewest` | assets/inject/renderer-inject.js:5495-5506 | pruning drops an entry only from a full store, and none that is newer than one it keeps |
| `Recency.PutKept` | assets/inject/renderer-inject.js:5495-5506 | an entry is found again if the store has room for it or it is newer than all the others |
| `Recency.PutElsewhere` | assets/inject/renderer-inject.js:5495-5506 | storing an entry leaves every other entry as it was, or drops it from a full store |
| `ServiceTier.OnlyCustomHasChoices` | assets/inject/renderer-inject.js:2914-2948 | from empty storage, after any actions, outside the custom mode there are no per-thread entries and no draft, and the default mode is the control mode's |
| `ServiceTier.EnterCustomKeepsTiers` | assets/inject/renderer-inject.js:2743-2758 | entering the custom mode changes the tier shown for no thread, in every reachable storage |
| `ServiceTier.EnterCustomKeepsRequests` | assets/inject/renderer-inject.js:3208-3261 | entering the custom mode changes no request, in every reachable storage |
| `ServiceTier.FastLeaksIff` | assets/inject/renderer-inject.js:3192-3261 | with the feature on, a request leaves fast in some spelling for a model without the fast tier if and only if it runs in the inherit mode and its two spellings conflict |
| `ServiceTier.FastLeaks` | assets/inject/renderer-inject.js:3192-3261 | a request for an ordinary tier in one spelling and a fast one in the other leaves as it is, for a model without the fast tier |
| `ServiceTier.ModeIsSent` | assets/inject/renderer-inject.js:3208-3261 | the fast mode sends the fast tier where the model has it, the standard mode never does, the inherit mode leaves such requests alone |
| `ServiceTier.BadgeIsSent` | assets/inject/renderer-inject.js:2950-2987 | a request for the thread on show goes out at the tier that is displayed for it, whenever a mode is set |
| `ServiceTierChoices.ChoiceIsSent` | assets/inject/renderer-inject.js:2879-2896 | from the action to the request: after any actions, a choice for a thread and any actions that are no other choice for it and no mode for all threads, a request for the thread on a model with the fast tier leaves fast if and only if the choice was fast; both fields of the request are given |
| `ServiceTierChoices.DraftIsSent` | assets/inject/renderer-inject.js:2898-2912 | the same for a choice made before the thread had an id and bound to it within the minute |
| `ServiceTierChoices.InheritIsSent` | assets/inject/renderer-inject.js:2879-2896 | after inherit is chosen for a thread its requests leave as the last mode set for all threads says |
| `ServiceTierChoices.ControlIsSent` | assets/inject/renderer-inject.js:2914-2948 | after a mode is set for all threads, requests of a thread without a choice of its own leave fast, not fast, or unchanged, also once the custom mode is entered for other threads |
| `ServiceTierChoices.ChosenIsKept` | assets/inject/renderer-inject.js:2879-2896 | the choice made for a thread is its override, inherit being none |
| `ServiceTierChoices.OthersKeepTheirs` | assets/inject/renderer-inject.js:2879-2896 | a choice for a thread changes no other thread's, unless the store is full |
| `ServiceTierChoices.DraftIsKept` | assets/inject/renderer-inject.js:2872-2896 | a choice without a thread is the draft for 60 seconds and changes no thread |
| `ServiceTierChoices.DraftIsBound` | assets/inject/renderer-inject.js:2898-2912 | the first thread shown within the 60 seconds gets the draft's choice unless it has its own, and the draft is used up; later nothing changes |
| `ServiceTierChoices.FastIsBlocked` | assets/inject/renderer-inject.js:3192-3261 | the fast choice sends no tier in either spelling for a model without the fast tier |
| `ServiceTierChoices.InheritedIsBlocked` | assets/inject/renderer-inject.js:3208-3218 | a thread in the inherit mode loses the tier it asks for if that is fast and its model has none; every other request leaves as it is |
| `ServiceTierChoices.TierIsShown` | assets/inject/renderer-inject.js:2743-2758 | the tier shown is that of the choice for the thread, or of the mode for all threads |
| `ServiceTier.Page.SetOverride` | assets/inject/renderer-inject.js:2879-2896 | the storage after a choice for a thread or for the draft, whose effect is `ServiceTierChoices.ChosenIsKept` and `ServiceTierChoices.DraftIsKept` |
| `ServiceTier.Page.BindDraftTo` | assets/inject/renderer-inject.js:2898-2912 | the storage after a draft is bound to the thread that now has an id |
| `ServiceTier.Page.SetMode` | assets/inject/renderer-inject.js:2914-2948 | the storage after the control mode is chosen |
| `ServiceTier.Page.Handle` | assets/inject/renderer-inject.js:2827-2948 | every action leaves the storage as specified and keeps its invariant |
| `AppModules.LoadsAreLegal` | assets/inject/renderer-inject.js:2456-2484 | over any run and call pattern an asset is loaded at most eight times, never twice at once, at least 30 s after the previous failure and never after a success; and a call starts a load exactly when that history allows it |
| `AppModuleRuns.RunExtends` | assets/inject/renderer-inject.js:2456-2484 | the history the loader has is the one computed from the calls and the ends of loads alone |
| `AppModuleRuns.OutcomeOf` | assets/inject/renderer-inject.js:2456-2484 | a call joins a load that runs or succeeded, is refused within 30 seconds of a failure and after eight loads, and starts one otherwise, all in terms of the earlier actions |
| `AppModules.Loader.Request` | assets/inject/renderer-inject.js:2456-2483 | a call joins the shared promise, is refused, or starts a load, as the specification says |
| `AppModules.Loader.Finish` | assets/inject/renderer-inject.js:2468-2480 | a settled load is remembered or counted as a failure, as the specification says |
| `BackendSettings.AppliedIffNoWriteSince` | assets/inject/renderer-inject.js:3800-3852 | in every interleaving, a response is applied if and only if no write was issued since its request |
| `BackendSettings.WriteHoldsUntilAnswered` | assets/inject/renderer-inject.js:3839-3852 | in every interleaving, a written key keeps its value until its own or a later request is answered, or it is written again |
| `BackendSettings.ResponseShows` | assets/inject/renderer-inject.js:3804-3815 | key by key: a response changes what is shown only if it has settings and no write was issued since its request, and then exactly the keys it has |
| `BackendSettings.IssuedShows` | assets/inject/renderer-inject.js:3839-3845 | a read shows nothing new, a write shows its value under its key and nothing else |
| `BackendSettings.Settings.BeginLoad` | assets/inject/renderer-inject.js:3800-3803 | issuing a read records the current sequence number |
| `BackendSettings.Settings.BeginSet` | assets/inject/renderer-inject.js:3839-3845 | issuing a write shows it at once and outdates everything in flight |
| `BackendSettings.Settings.Complete` | assets/inject/renderer-inject.js:3804-3815 | a response is merged or discarded as the specification says |
| `Marketplace.MergeLaws` | assets/inject/renderer-inject.js:4535-4590 | markets and plugins stay in place, what is added to an existing market has a new key, every keyed local plugin ends up under its market's name, and a second merge adds nothing |
| `MarketplaceAdditions.AdditionsComeFromLocals` | assets/inject/renderer-inject.js:4535-4590 | an added market begins as the first local market of its name, with its keyed plugins in order, and no market before it has the name; every plugin added anywhere is a keyed plugin of a local market of that name |
| `MarketplaceAdditions.RestoredNames` | assets/inject/renderer-inject.js:4592-4599 | the five names of the shipped markets are restored to their own, and no other name is changed |
| `MarketplaceAdditions.MissingFilledIn` | assets/inject/renderer-inject.js:4520-4533 | an added plugin keeps its properties; its key stands in for a missing name and display name, the market for the rest |
| `Marketplace.MergePluginsInto` | assets/inject/renderer-inject.js:4535-4551 | the loop takes exactly the offers whose key is new |
| `Marketplace.MergeLocalPluginMarketplaces` | assets/inject/renderer-inject.js:4553-4590 | the loop with its name map merges each local market into the last market of its name, or adds it |
| `CodeHighlight.HighlightIsLossless` | apps/codex-plus-manager/src/code-highlight.ts:4-5 | for every text and both languages the tokens give back the text; there is a line per line break and one more, no token is empty or holds a line break, no neighbours share a kind |
| `CodeHighlight.HighlightIsDetermined` | apps/codex-plus-manager/src/code-highlight.ts:38-57 | no other compact lines show the same text in the same colours |
| `CodeCuts.JsonColours` | apps/codex-plus-manager/src/code-highlight.ts:192-245 | however a JSON text is cut into tokens, stated on its characters, every character has the colour of its token |
| `CodeCuts.JsonCutExists` | apps/codex-plus-manager/src/code-highlight.ts:192-245 | every JSON text can be cut into such tokens |
| `CodeCuts.TomlColours` | apps/codex-plus-manager/src/code-highlight.ts:59-190 | however a TOML text is cut into tokens, stated on its characters and on whether a key is expected, every character has the colour of its token |
| `CodeCuts.TomlCutExists` | apps/codex-plus-manager/src/code-highlight.ts:59-190 | every TOML text can be cut into such tokens |
| `CodeColours.JsonTokenIff` | apps/codex-plus-manager/src/code-highlight.ts:195-242 | kind by kind, which prefixes of a JSON text are a token: a string is a key if and only if only white space stands between its end and a colon; words, numbers, comments and marks by their characters |
| `CodeColours.TomlTokenIff` | apps/codex-plus-manager/src/code-highlight.ts:66-187 | kind by kind, which prefixes of a TOML text are a token where a key or a value is expected |
| `CodeColours.TomlStateIs` | apps/codex-plus-manager/src/code-highlight.ts:69-147 | which characters begin and end the places where a key is expected, and the nesting of braces |
| `CodeTokens.NumberIff` | apps/codex-plus-manager/src/code-highlight.ts:30-30 | a number is a sign and a run of hexadecimal, octal or binary digits behind its mark, a decimal with fraction and exponent, `nan` or `inf`, each as long as it goes |
| `CodeTokens.DateIff` | apps/codex-plus-manager/src/code-highlight.ts:29-29 | a date is `dddd-dd-dd`, and a time of day, seconds, a fraction and a zone as far as they are there |
| `CodeTokens.StringIff` | apps/codex-plus-manager/src/code-highlight.ts:257-272 | a string ends at the first quote or line break that has no odd number of backslashes before it |
| `CodeTokens.ColonIff` | apps/codex-plus-manager/src/code-highlight.ts:204-207 | the probe finds a colon if and only if only white space stands before it |
| `CodeTokens.HeaderIff` | apps/codex-plus-manager/src/code-highlight.ts:88-92 | a table header runs to the last closing bracket of its line |
| `CodeTokens.ThroughFirstIff` | apps/codex-plus-manager/src/code-highlight.ts:98-105 | a comment block or a string of several lines runs through the first closing mark, or to the end |
| `CodeLexers.TokenizeToml` | apps/codex-plus-manager/src/code-highlight.ts:59-190 | the TOML lexer terminates on every text, and every branch, pushing its slice of the text and moving behind it, keeps what is still to come complete |
| `CodeLexers.TomlLayout` | apps/codex-plus-manager/src/code-highlight.ts:69-85 | the branches for line breaks, white space and comments push what they skip, in the colour the specification gives it |
| `CodeLexers.TomlTable` | apps/codex-plus-manager/src/code-highlight.ts:87-96 | the branch for table headers pushes the header, or leaves the bracket to a later branch exactly if its line has no closing one behind it |
| `CodeLexers.HeaderClose` | apps/codex-plus-manager/src/code-highlight.ts:89-91 | searching the whole text backwards from the end of the line finds the bracket that closes the header, or one before it exactly if there is none |
| `CodeLexers.TomlMultilineString` | apps/codex-plus-manager/src/code-highlight.ts:98-105 | the branch for multi-line strings pushes the string with its delimiters, or the rest of the text |
| `CodeLexers.TomlQuotedString` | apps/codex-plus-manager/src/code-highlight.ts:106-111 | the branch for quoted strings pushes a key or a string, an escape past the end of the text included |
| `CodeLexers.TomlMark` | apps/codex-plus-manager/src/code-highlight.ts:112-147 | the branches for operators and brackets push one character and update the two flags |
| `CodeLexers.TomlKey` | apps/codex-plus-manager/src/code-highlight.ts:149-159 | the branches where a key is expected push the bare key or one character |
| `CodeLexers.TomlValue` | apps/codex-plus-manager/src/code-highlight.ts:161-187 | the branches for dates, booleans, numbers and bare words push their match, or one character |
| `CodeLexers.TokenizeJson` | apps/codex-plus-manager/src/code-highlight.ts:192-245 | the JSON lexer terminates on every text, and every branch keeps what is still to come complete |
| `CodeLexers.JsonString` | apps/codex-plus-manager/src/code-highlight.ts:202-210 | the branch for strings pushes the string with the colour that `CodeColours.JsonTokenIff` gives it |
| `CodeLexers.ProbeColon` | apps/codex-plus-manager/src/code-highlight.ts:204-207 | the probe skips white space and sees whether a colon follows |
| `CodeLexers.JsonComment` | apps/codex-plus-manager/src/code-highlight.ts:211-218 | the branch for comments pushes the line, or the block with its closing mark, or the rest of the text |
| `CodeLexers.JsonValue` | apps/codex-plus-manager/src/code-highlight.ts:228-242 | the branches for words and numbers push their match, or one character |
| `CodeLexers.TokenizeCode` | apps/codex-plus-manager/src/code-highlight.ts:34-36 | the highlighter's result is the specified one for both languages, and joins to the text |
| `CodeHighlight.ReadQuoted` | apps/codex-plus-manager/src/code-highlight.ts:257-272 | the scan of a quoted string ends where the specification says, past the end of the text included |
| `CodeHighlight.QuotedStringEndsAtFirstStop` | apps/codex-plus-manager/src/code-highlight.ts:257-272 | a quoted string runs to its first unescaped quote, or to the first unescaped line break or the end |
| `CodeHighlight.IndexOrEndIsFirst` | apps/codex-plus-manager/src/code-highlight.ts:247-255 | the search finds the first occurrence, or the end if there is none |
| `CodeLines.LineBuilder.Push` | apps/codex-plus-manager/src/code-highlight.ts:45-56 | pushing a text adds exactly its characters in its colour, across line breaks and into the last token |
| `CodeLines.LinesCompact` | apps/codex-plus-manager/src/code-highlight.ts:45-56 | the lines built are compact: no empty token, no equal neighbours |
| `CodeLines.LinesKeepCells` | apps/codex-plus-manager/src/code-highlight.ts:45-56 | reading the colours back off the lines gives the coloured text |
| `CodeLines.CompactLinesUnique` | apps/codex-plus-manager/src/code-highlight.ts:45-56 | compact lines are determined by the coloured text they show |
| `GoalsTextLaws.ReadsWhatWasSet` | apps/codex-plus-manager/src/goals-config.ts:6-97 | for every text, what was set is what is read |
| `GoalsReading.ReaderIff` | apps/codex-plus-manager/src/goals-config.ts:6-23 | on lines: the value read is `b` if and only if some line is `goals`, blanks, `=`, blanks, the word for `b` and a word boundary, stands below a `[features]` line with no table header between, and is the first such line |
| `GoalsReading.SetterEdits` | apps/codex-plus-manager/src/goals-config.ts:41-97 | on lines: a `[features]` line whose section has no goals line gets one below it, the first goals line of each section is replaced and its others go, every other line stays; the end of the text is trimmed |
| `GoalsReading.SetterAppends` | apps/codex-plus-manager/src/goals-config.ts:82-96 | a text without a `[features]` line is trimmed and gets a section at its end |
| `GoalsReading.SetterKeepsOtherLines` | apps/codex-plus-manager/src/goals-config.ts:41-97 | on lines: the text of all lines that are no goals lines of a features section is the same after setting, but for the carriage returns that reading takes |
| `GoalsReading.KindMeans` | apps/codex-plus-manager/src/goals-config.ts:11-20 | which trimmed lines are the features header, a table header, a goals line, and a goals line with a value |
| `GoalsTextLaws.LastSettingWins` | apps/codex-plus-manager/src/goals-config.ts:41-97 | for every text, setting twice is setting the last value and making each CR LF left in the result a LF |
| `GoalsIdempotence.LastSettingWinsIff` | apps/codex-plus-manager/src/goals-config.ts:41-97 | setting twice equals setting the last value if and only if, in the text that is set, no surviving line ends in a carriage return in front of something that is written; without a features section, if and only if the trimmed text has no CR CR LF |
| `GoalsIdempotence.LastSettingWinsPlain` | apps/codex-plus-manager/src/goals-config.ts:41-97 | on texts without stray carriage returns, setting is idempotent and the last setting wins |
| `GoalsIdempotence.SecondSettingDropsCr` | apps/codex-plus-manager/src/goals-config.ts:41-97 | a text on which a second setting changes the result of the first |
| `GoalsTextLaws.OtherLinesSurvive` | apps/codex-plus-manager/src/goals-config.ts:41-97 | for every text and any number of sections, all other lines survive in order, up to outer trimming and CR LF |
| `GoalsTextLaws.ConfigLinesUnix` | apps/codex-plus-manager/src/goals-config.ts:42-42 | splitting at an optional CR and a LF is splitting the text with its CR LF made LF |
| `GoalsLaws.RowsReadBack` | apps/codex-plus-manager/src/goals-config.ts:41-97 | on rows: the first goals line the reader meets is the one written |
| `GoalsLaws.RowsSetTwice` | apps/codex-plus-manager/src/goals-config.ts:41-97 | on rows: the last setting wins, for any number of sections and stray goals lines |
| `GoalsLaws.RowsKeepOthers` | apps/codex-plus-manager/src/goals-config.ts:41-97 | on rows: every other row is kept, in order |
| `GoalsConfig.ReadFeatureValue` | apps/codex-plus-manager/src/goals-config.ts:6-23 | the reading loop returns the value that `GoalsReading.ReaderIff` describes |
| `GoalsConfig.SetRowsInPlace` | apps/codex-plus-manager/src/goals-config.ts:49-86 | the writing loop with its flags and its splice gives one goals line per features section, in place of the first or right below the header |
| `GoalsConfig.MeetRow` | apps/codex-plus-manager/src/goals-config.ts:60-84 | every turn of the writing loop keeps what the rows written so far will be completed to |
| `GoalsConfig.SetFeatureInConfig` | apps/codex-plus-manager/src/goals-config.ts:41-97 | the setter's text is the specified one, with a new section if there was none |
| `TokenLimits.LimitsComeBackIff` | apps/codex-plus-manager/src/model-metadata.ts:84-117 | every limit of a window survives limit, printed percentage, limit if and only if the window has at most 100,000,000 tokens |
| `WindowTexts.WindowIs` | apps/codex-plus-manager/src/model-metadata.ts:65-77 | digits, and K or k for thousands or M or m for millions, with white space around them, are that many tokens if positive and within 64 bits |
| `WindowTexts.OnlyWindows` | apps/codex-plus-manager/src/model-metadata.ts:65-77 | no other text has a window |
| `WindowTexts.PercentIs` | apps/codex-plus-manager/src/model-metadata.ts:84-92 | digits, up to six decimals and a percent sign, with white space around them, are that many millionths of a percent if positive and at most 100 percent |
| `WindowTexts.OnlyPercents` | apps/codex-plus-manager/src/model-metadata.ts:84-92 | no other text is a percentage |
| `WindowTexts.LimitIs` | apps/codex-plus-manager/src/model-metadata.ts:94-105 | the limit is the share of the window rounded half up, at least one, and stored up to 2^53 - 1 |
| `WindowTexts.PercentOfLimit` | apps/codex-plus-manager/src/model-metadata.ts:107-117 | which limits are shown as a percentage, and that it reads back as the share rounded half up |
| `WindowTexts.ScaledIsNearest` | apps/codex-plus-manager/src/model-metadata.ts:111-112 | the percentage of a limit is its share of the window rounded half up to millionths |
| `WindowTexts.ShownIsNearest` | apps/codex-plus-manager/src/model-metadata.ts:119-125 | the percentage shown is rounded half up to whole percents |
| `TokenLimits.PercentsComeBackIff` | apps/codex-plus-manager/src/model-metadata.ts:84-117 | every six-digit percentage survives percentage, limit, printed percentage if and only if the window has 100,000,000 to 2^53 - 1 tokens |
| `TokenLimits.WholePercentsComeBackIff` | apps/codex-plus-manager/src/model-metadata.ts:94-125 | every whole percentage survives storing and displaying if and only if the window has 100 to 2^53 - 1 tokens |
| `TokenLimits.LimitStable` | apps/codex-plus-manager/src/model-metadata.ts:94-117 | a limit computed from a percentage survives being shown and computed again, for every window |
| `TokenLimits.PrintedPercentReadsBack` | apps/codex-plus-manager/src/model-metadata.ts:84-117 | the percentage printer and parser are inverse on all 100,000,000 values |
| `TokenLimits.LimitInWindow` | apps/codex-plus-manager/src/model-metadata.ts:94-105 | a stored limit lies between 1 and its window |
| `TokenLimits.LimitGrows` | apps/codex-plus-manager/src/model-metadata.ts:94-105 | the limit is monotone in the window and in the percentage |
| `AutoCompact.NormalizeIdempotent` | apps/codex-plus-manager/src/auto-compact.ts:13-18 | normalising twice is normalising once, and keeps validity and blankness |
| `AutoCompact.ValidIffCalculable` | apps/codex-plus-manager/src/auto-compact.ts:4-11 | the form's check and the arithmetic accept the same percentages, except for white space before the percent sign |
| `AutoCompact.NormalizeKeepsPercent` | apps/codex-plus-manager/src/auto-compact.ts:13-18 | normalising a valid percentage keeps its value |
| `MetadataTexts.NormalizeIs` | apps/codex-plus-manager/src/auto-compact.ts:4-18 | a number with up to six decimals and an optional percent sign is valid above 0 and up to 100, and then gets the sign; otherwise it is only trimmed |
| `MetadataTexts.OnlyValid` | apps/codex-plus-manager/src/auto-compact.ts:4-11 | no other text but a blank one is valid |
| `MetadataMap.RemapRelabels` | apps/codex-plus-manager/src/model-metadata.ts:168-196 | renaming to distinct names gives exactly the relabelled map, swaps, cycles and chains included |
| `MetadataMap.RemapInverse` | apps/codex-plus-manager/src/model-metadata.ts:168-196 | renaming back restores the map: no entry is lost or merged |
| `MetadataMap.RemapIs` | apps/codex-plus-manager/src/model-metadata.ts:168-196 | for any list: a slug that entries move to has the one moved last; any other keeps its entry unless it moves away and no mapping keeps it |
| `MetadataMap.RemapSlugs` | apps/codex-plus-manager/src/model-metadata.ts:168-196 | the loop over the moves gives the specified map |
| `MetadataLaws.WrittenIsRead` | apps/codex-plus-manager/src/model-metadata.ts:127-143 | a written document reads back with its fields, window and limit, unless its limit has no window, in which case reading fails |
| `MetadataLaws.WrittenUnreadable` | apps/codex-plus-manager/src/model-metadata.ts:127-143 | half of a window beyond the exact integers is written as a limit that cannot be read |
| `MetadataLaws.RewriteSame` | apps/codex-plus-manager/src/model-metadata.ts:351-410 | writing what was read from a written document gives the same document, up to the summary parameter that reading fills in |
| `MetadataTexts.DigitsAreInteger` | apps/codex-plus-manager/src/model-metadata.ts:317-324 | a text of digits with white space around it counts as a number of tokens from 1 to 2^53 - 1 |
| `MetadataTexts.OnlyIntegers` | apps/codex-plus-manager/src/model-metadata.ts:317-324 | nothing but an integer or a text of digits counts as a number of tokens |
| `MetadataTexts.SummaryIs` | apps/codex-plus-manager/src/model-metadata.ts:393-396 | the summary parameter takes the value of the older field if it is not there itself, and no other field changes |
| `MetadataLaws.ShownPercentKeepsLimit` | apps/codex-plus-manager/src/model-metadata.ts:94-117 | the percentage read back from a written limit gives that limit again |
| `MetadataLaws.SyncFrame` | apps/codex-plus-manager/src/model-metadata.ts:238-291 | synchronising changes the two limits of one model and no other model, field or order of the other fields |
| `MetadataLaws.SyncedIsRead` | apps/codex-plus-manager/src/model-metadata.ts:293-315 | a synchronised document reads back as the form says, whatever it held before |
| `MetadataLaws.SyncIdempotent` | apps/codex-plus-manager/src/model-metadata.ts:265-291 | synchronising twice is synchronising once |
| `JsonRecords.ReorderedKeeps` | apps/codex-plus-manager/src/model-metadata.ts:225-236 | reordering the fields changes no value |
| `MetadataTexts.ReorderedInOrder` | apps/codex-plus-manager/src/model-metadata.ts:225-236 | after reordering, slug, window and limit stand first in this order, and all other fields in the order they had |
| `JsonRecords.ModelObject.Reorder` | apps/codex-plus-manager/src/model-metadata.ts:225-236 | the two loops put the managed fields first and keep the others in order |
| `MetadataDocument.SynchronizeContextWindow` | apps/codex-plus-manager/src/model-metadata.ts:238-263 | writes the window into the one model of the slug, or nothing if there is not exactly one or the window is not a number |
| `MetadataTexts.WindowIsWritten` | apps/codex-plus-manager/src/model-metadata.ts:238-263 | digits and a unit in the form are written as the number they stand for into the window of the one model, or refused if zero or above 2^53 - 1 |
| `MetadataTexts.BlankIsWritten` | apps/codex-plus-manager/src/model-metadata.ts:252-260 | a blank form clears the window if it is there |
| `MetadataDocument.SynchronizeLimits` | apps/codex-plus-manager/src/model-metadata.ts:265-291 | writes both limits, the model being found again after the first |
| `ModelWindows.LoadsCanonicalIff` | apps/codex-plus-manager/src/model-windows.ts:101-184 | loading a saved table gives its canonical form if and only if no kept name holds a line break |
| `ModelWindowRows.TableReloads` | apps/codex-plus-manager/src/model-windows.ts:101-184 | loading a saved table gives the first row of each name, trimmed, with a normalised percentage or 90%, in order, if and only if none of these names holds a line break |
| `ModelWindowRows.KeptAreFirst` | apps/codex-plus-manager/src/model-windows.ts:79-99 | merging keeps the first row of each name, tidied, in order, and nothing else |
| `ModelWindowRows.RowIsStored` | apps/codex-plus-manager/src/model-windows.ts:151-184 | what is stored under the name of a row is its window if there is one, its percentage, and its image mode if it is one of the two that are stored |
| `ModelWindows.BrokenNameSplits` | apps/codex-plus-manager/src/model-windows.ts:101-184 | a table whose one name holds a line break comes back with other names |
| `ModelWindows.SerializeStable` | apps/codex-plus-manager/src/model-windows.ts:151-184 | saving what was loaded saves the same again |
| `ModelWindows.NamesComeBack` | apps/codex-plus-manager/src/model-windows.ts:132-135 | the names come back from the list if none holds a line break; else there are more lines than names |
| `ModelWindows.MergeRows` | apps/codex-plus-manager/src/model-windows.ts:79-99 | the loop keeps the first row of each name, cleaned, or gives one blank row |
| `ModelWindows.SerializeRows` | apps/codex-plus-manager/src/model-windows.ts:151-184 | the loop fills the list and the three maps as specified |
| `ModelFamilies.FamilyIffMatches` | apps/codex-plus-manager/src/model-groups.ts:34-45 | a model belongs to a named family if and only if its normalized id matches that family's pattern |
| `ModelFamilyNames.FamilyIffNamed` | apps/codex-plus-manager/src/model-groups.ts:19-45 | a model is in a family if and only if its id, trimmed, in lower case and with dashes for the other separators, begins with a name of the family, digits, and a dash or the end; the names are spelled out |
| `ModelFamilyNames.OtherIsNoName` | apps/codex-plus-manager/src/model-groups.ts:38-45 | a model is in no family exactly if no name fits |
| `ModelFamilies.FamiliesDisjoint` | apps/codex-plus-manager/src/model-groups.ts:19-32 | no id matches two families, so the order of the table does not decide |
| `ModelFamilies.VersionedMeans` | apps/codex-plus-manager/src/model-groups.ts:34-36 | the greedy scan of the version accepts exactly what the regular expression does |
| `ModelGroupLaws.GroupsPartition` | apps/codex-plus-manager/src/model-groups.ts:51-72 | the groups hold every trimmed non-blank id exactly once and nothing else |
| `ModelGroupLaws.GroupsShape` | apps/codex-plus-manager/src/model-groups.ts:47-72 | groups are not empty, hold one family each, are sorted, and come in the order of the table with Other last |
| `ModelGroupOrder.OrderIrrelevantIff` | apps/codex-plus-manager/src/model-groups.ts:51-72 | the groups depend on the set of ids alone if and only if no two ids of one family tie |
| `ModelGroupOrder.TieShowsOrder` | apps/codex-plus-manager/src/model-groups.ts:65-71 | two ids of one family that tie give two inputs with the same ids and different groups |
| `ModelGroupStability.TiesKeepOrder` | apps/codex-plus-manager/src/model-groups.ts:51-72 | of two ids of a family that the collation allows in either order, the one listed first comes first |
| `ModelGroupOrder.FilterModelGroups` | apps/codex-plus-manager/src/model-groups.ts:74-79 | filtering before grouping is filtering inside the groups and dropping the empty ones |
| `ModelGroupOrder.MentionsTrimmed` | apps/codex-plus-manager/src/model-groups.ts:74-79 | a query occurs in an id if and only if it occurs in the trimmed id |
| `ModelGroups.GroupModelsBy` | apps/codex-plus-manager/src/model-groups.ts:51-72 | the loop with its set and its buckets gives the specified groups |
| `Base64Laws.DecodeEncode` | services/share-site/app.js:202-213 | decoding an encoding returns the bytes |
| `Base64Laws.EncodingShape` | services/share-site/app.js:202-206 | an encoding has ceil(4n/3) letters of the URL-safe alphabet and no padding |
| `Base64Bits.EncodedLetter` | services/share-site/app.js:202-206 | each letter is the letter of the URL-safe alphabet for its six bits of three bytes taken together |
| `Base64Laws.PaddingRestored` | services/share-site/app.js:208-211 | padding an encoding to a multiple of four restores the standard base64 |
| `Base64Laws.DecodableIff` | services/share-site/app.js:208-213 | a text over the alphabet decodes if and only if its length is not one more than a multiple of four |
| `Base64Laws.ToBase64Url` | services/share-site/app.js:202-206 | the text is over the URL-safe alphabet, has ceil(4n/3) letters, decodes to the bytes and has no spare bits set, which only one text does |
| `Base64Laws.EncodeDecodeIff` | services/share-site/app.js:202-213 | encoding what was decoded gives the text again if and only if the bits of its last letter that belong to no byte are zero |
| `SplitReply.SplitReply` | tools/codex-wechat/codex_wechat.py:562-576 | the splitting loop terminates for every text and limit and gives the specified chunks |
| `SplitReply.RestShrinks` | tools/codex-wechat/codex_wechat.py:568-573 | every cut makes progress, even for a limit of one and a leading line break |
| `SplitReply.CutAtLastBreak` | tools/codex-wechat/codex_wechat.py:569-571 | a cut is at the last line break of the second half of the limit, or at the limit if there is none |
| `SplitReply.ReplyKeepsText` | tools/codex-wechat/codex_wechat.py:562-576 | the text is its chunks in order with only white space around them |
| `SplitReply.InkConserved` | tools/codex-wechat/codex_wechat.py:562-576 | the characters that are not white space arrive complete and in order |
| `SplitReply.ChunksFit` | tools/codex-wechat/codex_wechat.py:562-576 | every chunk fits a positive limit |
| `SplitReply.OnlyFirstChunkEmpty` | tools/codex-wechat/codex_wechat.py:562-576 | there is a chunk, and none but the first is empty |
| `SplitReply.ChopTight` | tools/codex-wechat/codex_wechat.py:562-576 | the chunks of a text that had to be split have no white space at their ends |
| `SplitReply.ChunkCount` | tools/codex-wechat/codex_wechat.py:562-576 | all chunks but one use up at least half the limit |
| `SeenWindow.AnsweredOncePerWindow` | tools/codex-wechat/codex_wechat.py:636-651 | over every run, a relevant message is answered if and only if it has no id or none with its id was answered in the five minutes before |
| `SeenWindow.Bridge.ProcessMessage` | tools/codex-wechat/codex_wechat.py:636-651 | decides and remembers as specified |
| `SeenWindow.Bridge.DropOld` | tools/codex-wechat/codex_wechat.py:645-647 | the deleting loop leaves exactly the entries within the window |

## Left out

- Timers of the scroll protocol: a callback may run at any moment after it was scheduled and more than once, so `clearTimeout`, due times and the list of delays are not modelled; the results hold for every order.
- The scroller as a DOM object: listener binding, the last bound scroller and the guard against the page's own scrolling; a scroller is its position and range, supplied by the page with each event.
- Where the setting comes from: a change of it is an event. The reset in `setCodexPlusSetting` (assets/inject/renderer-inject.js:2228-2238) is not modelled, because the function returns before it for every setting the backend keeps, this one included.
- A second injection of the script, which starts a new runtime over the same stored positions.
- The order of properties with equal timestamps or integer-like keys, and keys such as `__proto__`.
- Malformed stored data: stored values have their types, a missing time is not replaced by the current one, and session keys are taken as validated.
- Service tier requests: the remote-session provider override, the diagnostics, and the nested places a model name can be in; a request carries one model name. Writing the inherited state and the badge is not modelled.
- The lookup of an asset's address and the import itself; a load ends with success or failure when the environment says so.
- The start-up retry loop of the settings and the check of a response's shape; a response is settings or a failure.
- Cloning, counters and diagnostics of the marketplace merge, and aliasing between markets; markets are values, addressed by position.
- ServiceTier.FastLeaksIff: the property holds only for requests whose spellings do not conflict, so it is stated with its exact exception.
- AutoCompact.ValidIffCalculable: stated with the white space before the percent sign that only the arithmetic accepts.
- The TOML and JSON grammars beyond what the highlighters and the goals editor recognise.
- `codexGoalsFeatureState`, the validation messages of the model table, `buildModelWindows` and the text forms of the window map: they follow from one branch each.
- `replaceModelMetadataForSlug`, `clearModelMetadataForSlug` and `retainModelMetadataForSlugs`, which are single map updates.
- MetadataMap.RemapSlugs: works on the parsed map and does not return the unparsed text when there is nothing to move.
- Model documents: the JSON around the list of models, the unwrapping of JavaScript modules, and the capability checks, which are a parameter.
- Case folding beyond ASCII, Unicode normalisation, and the difference between code units and code points.
- `localeCompare`: an arbitrary total preorder.
- `btoa` and `atob` are written out from the standard they implement; the error `atob` throws is the missing value.
- The rest of the bridge: authorisation, commands, polling and sending; the clock does not run backwards in a run.
