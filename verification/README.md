# Sukkula's trust boundary, verified

Sukkula receives files and messages from strangers on the local network. This project models, in Dafny,
the part of it that stands between those strangers and the phone (`crates/sukkula-core`), and the pieces
of the engine and of the Qt bridge that drive it, and proves what that code is for.

* **Inbox and store** (`FileSystem`, `Inbox`, `InboxRuns`, `Receivers`, `Store`). Directories are maps from names to
  inodes, and every system call is one step, before which the rest of the world may act: not at all, as
  other writers do, or with hostile intent. Each call may fail, or follow a script, so that a failure can be
  shown to happen. Each class keeps the history of its own steps. A kill may fall after any of them, so crash
  safety is a statement about every step of the history, on the link path and on both copy paths.
* **Consent queue** (`Consent`, `ConsentProtocol`, `ConsentWrap`). The part under the lock is a class; the
  interleaving of asks, answers, deadlines, withdrawals and shutdown is a state machine with an inductive
  invariant over the queue, the channels, the progress of every ask and the observer's log.
* **Sanitisers** (`Chars`, `Strings`, `Text`, `Messages`, `Names`, `Numbering`). Each one-pass automaton, as
  a loop, is proved equal to a composition of simple passes over the whole text; the normal form, that the
  results are exactly the fixed points, and idempotence are proved of the composition. That nothing else is
  lost is proved against a second definition, which says of each character of the raw text whether it is kept
  and of each two neighbours kept what comes between them. A string is built
  from its end (`Str`), since everything here pushes, pops, trims and searches there.
* **Rate limiter** (`Limiter`, `Rates`), against an ideal limiter that forgets nobody.
* **The state machines on top** (`Settings`, `Offers`, `Hex`, `Transfers`, `Progress`, `Slots`, `Bridge`).

Sukkula's own words for things are kept: staging file, target directory, offer, ask, adopt, lock down.

## What turned out otherwise than the source says

* `consent.rs` says that an id still in use is skipped when ids wrap, so that an answer cannot go astray.
  Only ids that still *wait* are skipped. After as many asks as there are ids, an ask that was answered just
  as its time ran out can find its id issued again, time out after all, and take the newcomer's entry for its
  own. A new ask breaks the invariant exactly when it is given the id of one in progress
  (`ConsentWrap.CarefulIff`), and from each such ask on an answer can be lost or the newcomer evicted
  (`ConsentWrap.ReuseBreaksAPromise`). Until the ids wrap every promise holds, and it holds longer in every
  run without such an ask.
* `store.rs` says that a failed write leaves the old contents. It does, exactly unless the write got as far
  as its rename and the fsync of the directory failed after it (`Store.Store.Write`); a run in which that
  happens: `Store.FailedWriteReplaces`.
* `inbox.rs` says that a failure anywhere leaves nothing behind. What is left is exactly the entries whose
  clean-up failed (`InboxRuns.Receive`), so nothing is left if and only if none failed
  (`InboxRuns.FailedReceiveLeaves`). A clean-up fails when its unlink does, when the `statat` by which the
  guard of a copy looks at it does, or when the `fstat` right after creating a file does, before anything
  guards that file. A run for each: `InboxRuns.FstatFailureLeavesTheFile`,
  `InboxRuns.UnlinkFailureLeavesTheStagingFile`, `InboxRuns.StatFailureLeavesTheCopy`.
* A whole file already under its real name is given up again when the `statat` that checks it fails; nothing
  but that, or success, ever shows a file (`InboxRuns.Receive`). Runs in which it is taken back, and in which
  it stays although the receive failed: `InboxRuns.StatFailureTakesTheFileBack`,
  `InboxRuns.FailedReceiveLeavesItsFile`.
* In `inbox.rs`, a random staging name that is already taken while copying reads as "this name is taken", so
  that the next number is tried. Where there are no links, and whatever is on the disk, a receive skips names
  exactly when the name drawn for its copy is taken, and then it skips all thousand, the free ones too
  (`InboxRuns.SkipsIff`). Such a draw exists if and only if the file is staged in the target's `.partial` or
  that holds a staging file (`InboxRuns.CollisionIff`). Otherwise, or if all thousand names are taken anyway,
  the name given is the first free one in every run (`InboxRuns.FirstFree`).
* `config.rs` says that a file that is not a JSON object gives the locked-down settings. It does, exactly
  unless it is an array of at most seven items that are all usable, each as the field at its place
  (`Settings.FromStored`). So the file `[]` turns every protocol on and reports nothing
  (`Settings.EmptyArrayTurnsEverythingOn`), where the part-by-part path would have locked it down
  (`Settings.PathsAgreeIff`).
* `reach.rs` says `burst` a window for an address, and `ctx.rs` at most ten unrequested offers a minute. What
  can be had in the window that begins now is the tokens left of an earlier refill that is not over yet, and a
  burst: no run gets more (`Rates.SpareBound`, `Rates.OffersSpareBound`), and whenever tokens are left some run
  gets as much (`Rates.SpareIsSpent`, `Rates.SpareOffersGetThrough`). So the source is right about that window
  if and only if none are left (`Rates.OneBurstIff`, `Rates.TenAMinuteIff`). At most 2 · burst − 1 can be had
  in any window (`Rates.RateBound`), and is (`Rates.RateBoundIsTight`): nineteen offers in some minute of some
  run (`Rates.NineteenOffersInAMinute`).
* `ctx.rs` reports progress that only grows, as long as the byte count does not pass 2^64
  (`Progress.ReportsAreThrottled`); which calls break it then: `Progress.WrapGoesBackIff`.

## Model

| member | source | states |
|---|---|---|
| Chars.IsMark | crates/sukkula-core/src/text.rs:98-110 | the binary search finds exactly the code points inside some range of a sorted table |
| Chars.ClassifyIsAPolicy | crates/sukkula-core/src/text.rs:33-95 | the classification, on any usable mark table, meets every assumption the sanitisers' proofs make of a policy |
| Strings.TruncateBytes | crates/sukkula-core/src/text.rs:266-275 | stepping back to a character boundary gives the longest prefix that fits |
| Strings.FitLongest | crates/sukkula-core/src/text.rs:263-275 | a prefix fits the byte count if and only if it is a prefix of the truncation |
| Text.Display | crates/sukkula-core/src/text.rs:125-182 | the one-pass loop with its early exit equals visible, limit marks, squeeze, trim, cap, one after the other |
| Text.DisplayedIsDisplayable | crates/sukkula-core/src/text.rs:118-182 | every result is in normal form and within the cap, also when the cap cuts after a pushed space |
| Text.DisplayFixesNormalForm | crates/sukkula-core/src/text.rs:125-182 | a text is shown unchanged if and only if it is in normal form |
| Text.DisplayIdempotent | crates/sukkula-core/src/text.rs:125-182 | showing what was shown changes nothing, for every text and cap |
| Text.DisplayEmptyIff | crates/sukkula-core/src/text.rs:118-121 | nothing is shown if and only if the cap is zero or no character can carry text |
| Text.DisplayCutsOnlyAtTheCap | crates/sukkula-core/src/text.rs:155-172 | a line that fits is shown whole; a longer one is a prefix and the ellipsis, and fills the cap but for one trimmed space |
| Text.LineIsWoven | crates/sukkula-core/src/text.rs:125-182 | a line is exactly the characters kept of the raw text, in order, with one space between two neighbours that have a space or a line break between them |
| Text.KeptInLineMeans | crates/sukkula-core/src/text.rs:139-153 | over indices: a mark is kept if and only if a base comes before it and fewer than three marks since |
| Text.BlankSinceMeans | crates/sukkula-core/src/text.rs:131-136 | over indices: there is a blank between two neighbours kept if and only if the raw text has one between them |
| Text.TidyMeans | crates/sukkula-core/src/text.rs:112-182 | the normal form in plain terms: nothing forbidden, a base first, single spaces, three marks between bases |
| Messages.Message | crates/sukkula-core/src/text.rs:202-261 | the one-pass loop with its byte-cap exits equals folding breaks, limiting marks, aligning, limiting gaps, fitting and trimming |
| Messages.MessagedHasForm | crates/sukkula-core/src/text.rs:195-261 | every result is in the message normal form and within 64 KiB, wherever the cap cuts |
| Messages.MessageFixesNormalForm | crates/sukkula-core/src/text.rs:202-261 | a message is passed on unchanged if and only if it is in normal form |
| Messages.MessageIdempotent | crates/sukkula-core/src/text.rs:202-261 | cleaning a cleaned message changes nothing |
| Messages.MessageIsWoven | crates/sukkula-core/src/text.rs:202-261 | a message is exactly the characters kept of the raw text, in order, with the line breaks between two neighbours, a carriage return and a line feed being one and three at most, or else one space if there is one, cut to 64 KiB and trimmed |
| Messages.JointMeans | crates/sukkula-core/src/text.rs:210-230 | over indices: there are line breaks between two neighbours kept if and only if the raw text has one between them, and otherwise a space if and only if it has one |
| Messages.NeatMeans | crates/sukkula-core/src/text.rs:184-261 | the normal form in plain terms: nothing forbidden, no space at a line edge, every line starts with a base, three breaks in a row at most |
| Names.LastOf | crates/sukkula-core/src/name.rs:106-107 | the last segment, and no separator in it |
| Names.Scan | crates/sukkula-core/src/name.rs:109-151 | the bounded loop keeps exactly the clean form of the part it reads, and says whether it read all |
| Names.Sanitize | crates/sukkula-core/src/name.rs:105-177 | the one-pass sanitiser equals the composition of its passes, names cut mid-scan included |
| Names.SanitizedIsSafe | crates/sukkula-core/src/name.rs:99-177 | every result, for every input, is one safe path component of at most 200 bytes |
| Names.IsSafeIffSafe | crates/sukkula-core/src/name.rs:179-183 | a name sanitises to itself if and only if it is in the normal form |
| Names.SanitizeIdempotent | crates/sukkula-core/src/name.rs:101-104 | sanitising a sanitised name changes nothing, for every string |
| Names.FallbackIff | crates/sukkula-core/src/name.rs:172-176 | nothing is left of a name, and it falls back, exactly when no character in it can start one |
| Names.LastSegmentMeans | crates/sukkula-core/src/name.rs:106-107 | the segment is all that follows the last separator |
| Names.CleanIsWoven | crates/sukkula-core/src/name.rs:109-151 | the clean form is exactly the characters kept of the raw name, in order, with one space before a base that has a space or a line break between it and the base before it |
| Names.ReadPartMeans | crates/sukkula-core/src/name.rs:117-121 | a name is read up to the first place where what is kept outgrows the scan limit, and no less far |
| Names.ShortenCuts | crates/sukkula-core/src/name.rs:213-229 | a name over the cap keeps the longest stem that leaves room for its extension, or the longest beginning if it has none: any other that fits is, once trimmed, a prefix of it |
| Names.SanitizeCuts | crates/sukkula-core/src/name.rs:162-176 | the same of every sanitised name |
| Names.SanitizedIsWoven | crates/sukkula-core/src/name.rs:105-177 | a name read whole becomes the characters kept of it, trimmed, and cut to the cap like that |
| Names.LongSanitizedIsWoven | crates/sukkula-core/src/name.rs:153-160 | a longer one with an extension becomes the longest stem of all the characters kept of it, and the extension |
| Names.SanitizedExtensionMeans | crates/sukkula-core/src/name.rs:185-196 | that extension is the longest beginning of its base characters within the limit |
| Names.ShortNamesSurvive | crates/sukkula-core/src/name.rs:162-176 | a name whose clean form fits is only trimmed |
| Names.ShortenSafe | crates/sukkula-core/src/name.rs:213-229 | shortening keeps a name safe, the extension moved onto the shorter stem included |
| Names.SanitizeKeepsExtension | crates/sukkula-core/src/name.rs:198-229 | a name read whole keeps the extension of its clean form |
| Names.LongNamesKeepTheirExtension | crates/sukkula-core/src/name.rs:153-160 | a name too long to be read whole ends with its own cleaned extension |
| Names.SafeMeans | crates/sukkula-core/src/name.rs:9-21 | the normal form in plain terms: no separator, nothing forbidden, no dot or space at an end, no mark without a base or on a dot, three marks in a row at most |
| Numbering.NumberedIsSafe | crates/sukkula-core/src/name.rs:60-77 | every numbered spelling of a safe name is safe, for every 32-bit number |
| Numbering.NumberedReads | crates/sukkula-core/src/name.rs:57-77 | where there is room, the nth spelling of any name reads `stem (n).ext`, its number in decimal and its stem without dots and spaces at the end, or the fallback if that is nothing |
| Numbering.NumberedCuts | crates/sukkula-core/src/name.rs:60-77 | every spelling keeps the longest stem that leaves room for its number and the extension |
| Numbering.DecimalReads | crates/sukkula-core/src/name.rs:64 | the decimal reads back as the number |
| Numbering.NumberedDistinct | crates/sukkula-core/src/name.rs:60-77 | two numbers give two names |
| Numbering.NumberedIsPlainIff | crates/sukkula-core/src/name.rs:60-77 | a spelling is the plain name again if and only if the stem already ends in that number and the name is within a byte of the cap |
| Numbering.NumberedCanBePlain | crates/sukkula-core/src/name.rs:60-77 | such a name exists |
| Numbering.NumberedIsNotStaging | crates/sukkula-core/src/inbox.rs:56-58 | no received file can take the staging directory's name |
| Hex.Encode | crates/sukkula-core/src/hex.rs:7-14 | the loop spells each byte as two digits, the high one first |
| Hex.Decode32 | crates/sukkula-core/src/hex.rs:19-30 | the loop over pairs reads 64 bytes of text as the recursive definition does, text that is not ASCII included |
| Hex.DecodeEncode | crates/sukkula-core/src/hex.rs:7-30 | decoding what was encoded gives it back, in lower case, two digits a byte |
| Hex.Decode32Iff | crates/sukkula-core/src/hex.rs:16-39 | accepted if and only if it is 64 hex digits; encoding the result gives the text in lower case |
| Limiter.RateLimiter.constructor | crates/sukkula-core/src/reach.rs:73-79 | an empty table, and a burst of at least one |
| Limiter.RateLimiter.FindVictim | crates/sukkula-core/src/reach.rs:130-142 | the address given up has the most tokens, and is the stalest among equals |
| Limiter.RateLimiter.Evict | crates/sukkula-core/src/reach.rs:116-144 | forgets what is over, and one victim if and only if the table is still full |
| Limiter.RateLimiter.Allow | crates/sukkula-core/src/reach.rs:82-102 | room made only for a newcomer to a full table, then refill if due, then one token |
| Limiter.TableBounded | crates/sukkula-core/src/reach.rs:82-144 | at most 256 entries after every call of every run, whatever the clock does |
| Limiter.BoundedIsIdeal | crates/sukkula-core/src/reach.rs:82-144 | while at most 256 addresses are inside their window, every answer of every run is the ideal limiter's |
| Rates.CrowdedIsNotIdeal | crates/sukkula-core/src/reach.rs:116-144 | with 257 addresses inside one window there is a run with an answer that is not |
| Rates.EmptyGivenUpLast | crates/sukkula-core/src/reach.rs:121-129 | a live bucket without tokens is given up only when no live bucket has any |
| Rates.GivenUpInOrder | crates/sukkula-core/src/reach.rs:121-142 | of two live addresses, the one with fewer tokens, or as many and refilled later, is not given up before the other |
| Rates.NoLaundering | crates/sukkula-core/src/reach.rs:116-144 | an exhausted address stays remembered and refused until its window ends, however many new addresses arrive |
| Rates.BurstPerRefill | crates/sukkula-core/src/reach.rs:82-102 | tokens left and tokens given out since the last refill make exactly one burst |
| Rates.SpareBound | crates/sukkula-core/src/reach.rs:82-102 | in any stretch of one window, at most the tokens that were left to an address when it began, and a burst, unless the address is given up while live |
| Rates.SpareIsSpent | crates/sukkula-core/src/reach.rs:82-102 | after any run, whenever tokens are left, the run can go on to get exactly that many |
| Rates.OneBurstIff | crates/sukkula-core/src/reach.rs:67-102 | every run that goes on from here keeps to `burst` in the window that begins now if and only if no tokens are left of an earlier refill that is not over |
| Rates.RateBound | crates/sukkula-core/src/reach.rs:82-102 | so at most 2 · burst − 1 yeses to an address in any stretch of one window |
| Rates.RateBoundIsTight | crates/sukkula-core/src/reach.rs:82-102 | for every burst, and every window of two milliseconds or more, a run of the limiter in which an address gets exactly that many in one stretch |
| Rates.OneBurstWithoutRefill | crates/sukkula-core/src/reach.rs:67-102 | of a whole run: at most `burst` yeses in a stretch in which the address is not refilled, whatever was left to it |
| Rates.OneBurstFromARefill | crates/sukkula-core/src/reach.rs:67-102 | and at most `burst` in a window that begins at a refill, first arrival included |
| Rates.NineteenOffersInAMinute | crates/sukkula-engine/src/ctx.rs:246-259 | a run of decisions in which nineteen unrequested offers reach the user within one minute |
| Rates.Ctx.Decide | crates/sukkula-engine/src/ctx.rs:236-260 | which offers reach the user, and that only unrequested ones that got that far touch the shared bucket |
| Rates.DecidesMeans | crates/sukkula-engine/src/ctx.rs:236-260 | a well-formed offer that was asked for always reaches the user while there is room; others touch the shared bucket or do not reach them |
| Rates.MeteredRun | crates/sukkula-engine/src/ctx.rs:246-259 | the shared limiter sees exactly the unrequested offers, whatever requested ones are interleaved |
| Rates.UnrequestedOffersBounded | crates/sukkula-engine/src/ctx.rs:246-259 | at most 19 offers nobody asked for reach the user in any minute of any run |
| Rates.OffersSpareBound | crates/sukkula-engine/src/ctx.rs:246-259 | and at most those that were left when the minute began, and ten |
| Rates.SpareOffersGetThrough | crates/sukkula-engine/src/ctx.rs:246-259 | after any run of decisions, whenever some are left, it can go on to let exactly that many through |
| Rates.TenAMinuteIff | crates/sukkula-engine/src/ctx.rs:246-259 | every run that goes on from here keeps to ten in the minute that begins now if and only if none are left |
| Consent.SearchIsShort | crates/sukkula-core/src/consent.rs:250-261 | pigeonhole: a search that found only zero and waiting ids has taken no more steps than there are of them |
| Consent.State.FreshId | crates/sukkula-core/src/consent.rs:254-261 | ends, from any start and across the wrap, at the first id that is neither zero nor waiting, and leaves its successor |
| Consent.State.Register | crates/sukkula-core/src/consent.rs:149-160 | the locked section of an ask: stopping, busy, or queued under a fresh id |
| ConsentProtocol.AgreeStep | crates/sukkula-core/src/consent.rs:147-281 | every step of every party keeps queue, channels and asks in agreement |
| ConsentProtocol.LogStep | crates/sukkula-core/src/consent.rs:241-247 | every step keeps the observer's log in agreement with every ask's progress |
| ConsentProtocol.RunInv | crates/sukkula-core/src/consent.rs:147-281 | so the invariant holds in every state of every run that reissues no id in use |
| ConsentProtocol.NoReuseBeforeTheWrap | crates/sukkula-core/src/consent.rs:250-261 | every run of at most 2^64 − 1 asks is such a run |
| ConsentProtocol.YesOnlyIfAnswered | crates/sukkula-core/src/consent.rs:192-200 | an ask ends with a yes only if `answer(id, Accept)` had returned true for this very ask |
| ConsentProtocol.DeliveredAnswerStands | crates/sukkula-core/src/consent.rs:13-19 | an ask whose answer returned true has not ended, or ends by that answer, or its own future was dropped after it |
| ConsentProtocol.AnswerIsReceived | crates/sukkula-core/src/consent.rs:173-195 | in every state an answered ask at its await, or past its deadline, can go on, and can only go on to its answer |
| ConsentProtocol.AnswerDelivers | crates/sukkula-core/src/consent.rs:203-214 | an answer returns true if and only if an ask with that id waits for one, and is then recorded for that ask alone |
| ConsentProtocol.WithdrawnIffDropped | crates/sukkula-core/src/consent.rs:264-281 | an ask ends as withdrawn if and only if its future was dropped |
| ConsentProtocol.TimedOutAfterDeadline | crates/sukkula-core/src/consent.rs:173-188 | an ask ends as timed out only after its deadline |
| ConsentProtocol.EndedWhen | crates/sukkula-core/src/consent.rs:173-200 | every end is by one step of the ask's own, and is withdrawn, its answer, or for want of one shutdown or timeout |
| ConsentProtocol.RefusedIff | crates/sukkula-core/src/consent.rs:149-160 | an ask is turned away if and only if the queue is stopping or full |
| ConsentProtocol.UndeliveredChangesNothing | crates/sukkula-core/src/consent.rs:203-214 | an answer that returned false changed nothing |
| ConsentProtocol.ShownOnceClosedOnce | crates/sukkula-core/src/consent.rs:147-201 | at most `max_pending` wait; each shown offer is announced once and, once over, closed once after that, for its reason; the rest are never shown |
| ConsentProtocol.ShutdownWakesEveryone | crates/sukkula-core/src/consent.rs:223-228 | after a shutdown every ask at its await can go on, to its own answer or to Shutdown |
| ConsentWrap.CarefulIff | crates/sukkula-core/src/consent.rs:250-261 | from a state in agreement, a new ask leads to one in agreement if and only if the id it is given is not that of an ask in progress |
| ConsentWrap.ReuseBreaksAPromise | crates/sukkula-core/src/consent.rs:177-188 | from every step that does issue one there is a run in which a delivered answer is lost, or the newcomer is evicted by an ask that is not its own |
| ConsentWrap.ElapsedLosesTheAnswer | crates/sukkula-core/src/consent.rs:177-183 | the race: an ask that was answered as its time ran out, and whose id is issued again before it looks, ends as timed out |
| ConsentWrap.AnswerCanBeLostAfterTheWrap | crates/sukkula-core/src/consent.rs:250-261 | a run from the start in which that happens |
| FileSystem.Disk.Create | crates/sukkula-core/src/inbox.rs:654-666 | a new empty file under a name nobody held, or nothing |
| FileSystem.Disk.Link | crates/sukkula-core/src/inbox.rs:621-635 | adds one name for our own inode and never replaces an entry, in any world |
| FileSystem.Disk.EntryId | crates/sukkula-core/src/inbox.rs:616-621 | the inode an entry leads to, or nothing when there is no such entry or the call fails |
| FileSystem.Disk.RenameNoReplace | crates/sukkula-core/src/inbox.rs:494-506 | moves our own entry to a free name and never replaces an entry, in any world |
| Receivers.OthersAreAWorld | crates/sukkula-core/src/inbox.rs:1-39 | all that another receiver does between two steps of one is what that one relies on the world for, so that what is proved of each alone holds of both; they share no random name and no inode |
| Receivers.TakenBackIsFree | crates/sukkula-core/src/inbox.rs:457-466 | that includes giving its file a real name that the first has shown and taken back |
| Receivers.KilledTogether | crates/sukkula-core/src/inbox.rs:28-32 | two receives cut short at any point of either, in any order of their steps: every real name is untouched, or leads to the one whole file or the other |
| FileSystem.KillPoint | crates/sukkula-core/src/inbox.rs:28-32 | after every single step, every real name is untouched or leads to a whole file |
| Inbox.Incoming.WriteAll | crates/sukkula-core/src/inbox.rs:347-349 | an error or a cancellation leaves some prefix of the chunk; success leaves all of it |
| Inbox.Incoming.Write | crates/sukkula-core/src/inbox.rs:328-354 | appends exactly the chunk, or spoils the file for good, overflow and cancellation included; the target directory is not touched |
| Inbox.Incoming.CopyBytes | crates/sukkula-core/src/inbox.rs:543-549 | a finished copy holds exactly what was received, however reads and writes are split |
| Inbox.Incoming.Copy | crates/sukkula-core/src/inbox.rs:525-554 | a whole copy in the target's `.partial`, or none but what could not be cleaned up, whichever call fails or is cancelled; "taken" only where another staging file can have had its name |
| Inbox.Incoming.Verify | crates/sukkula-core/src/inbox.rs:459-466 | in any world: yes only if the new name was seen to lead to the very inode; anything else, and an own file that could not be looked at, is taken away again or recorded as left |
| Inbox.Incoming.PlaceWholeCopy | crates/sukkula-core/src/inbox.rs:487-520 | a whole copy linked or renamed to a free name; or nothing shown; or, exactly when it could not be looked at, shown and taken back; with all that is left accounted for |
| Inbox.Incoming.PlaceCopy | crates/sukkula-core/src/inbox.rs:483-520 | the same with the copy made first if there is none yet |
| Inbox.Incoming.Place | crates/sukkula-core/src/inbox.rs:440-471 | the same for the link, with both fallbacks behind it; when no call fails, it has the name afterwards, unless that was taken, and then it says so |
| Inbox.Incoming.RemoveOwn | crates/sukkula-core/src/inbox.rs:606-614 | a copy not placed is removed, and only after its entry was seen to lead to it, or is left because the look or the unlink failed |
| Inbox.Incoming.Drop | crates/sukkula-core/src/inbox.rs:566-589 | of all that was in use, exactly the staging entry and an unused copy go, or are recorded as left |
| Inbox.Incoming.Check | crates/sukkula-core/src/inbox.rs:384-409 | passes only a file that is not spoiled, has the declared size and matches its digest; when no call fails, passes every such file |
| Inbox.Incoming.TryNames | crates/sukkula-core/src/inbox.rs:410-433 | the names before the one it stopped at were all taken, or skipped for a copy's name that was |
| Inbox.Incoming.Commit | crates/sukkula-core/src/inbox.rs:383-434 | places only a whole file, under a free name; every step keeps all real names that are not its own; what is left is exactly what could not be cleaned up; something is shown if and only if it succeeds or could not look at what it placed; which failure gives which error; in any world, success only after the length and the real name's inode were seen to be right |
| InboxRuns.Begin | crates/sukkula-core/src/inbox.rs:214-244 | an empty staging file under a random name, or an error and nothing but a file whose fstat failed |
| InboxRuns.Receive | crates/sukkula-core/src/inbox.rs:214-434 | a whole receive with errors and cancellation anywhere: every step safe, a real name only for the whole payload, and what is left of it exactly the file, if it succeeds, and the entries whose clean-up failed |
| InboxRuns.GoesWell | crates/sukkula-core/src/inbox.rs:214-434 | over every disk, with links or without: when no call fails and no random name is taken, a payload as declared is saved whole under the first free name and nothing else changes; "no free name" if and only if all thousand are taken |
| InboxRuns.IsRefused | crates/sukkula-core/src/inbox.rs:384-409 | and one that is not is refused as truncated, mismatched or spoiled, whichever it is, and nothing changes |
| InboxRuns.KilledReceive | crates/sukkula-core/src/inbox.rs:28-32 | at every kill point of every receive, real names are as they were before it or lead to the whole payload |
| InboxRuns.FailedReceiveLeaves | crates/sukkula-core/src/inbox.rs:22-27 | all directories and files are then as they were found but for those entries, and so as they were found if and only if there are none |
| InboxRuns.DoneReceiveLeaves | crates/sukkula-core/src/inbox.rs:383-434 | otherwise they are as they were found but for those entries and the one new, whole file |
| InboxRuns.FstatFailureLeavesTheFile | crates/sukkula-core/src/inbox.rs:227-228 | a failing receive that leaves its staging file, as the fstat of it failed |
| InboxRuns.UnlinkFailureLeavesTheStagingFile | crates/sukkula-core/src/inbox.rs:419-423 | receives, failed and not, that leave their staging file, as its unlink failed |
| InboxRuns.StatFailureLeavesTheCopy | crates/sukkula-core/src/inbox.rs:606-614 | a failing receive that leaves its copy, as its guard could not look at it |
| InboxRuns.StatFailureTakesTheFileBack | crates/sukkula-core/src/inbox.rs:457-466 | a receive that shows a whole file and then takes it back and fails, as it could not look at it |
| InboxRuns.FailedReceiveLeavesItsFile | crates/sukkula-core/src/inbox.rs:457-466 | a failed receive that leaves its file under the real name |
| InboxRuns.SkipsIff | crates/sukkula-core/src/inbox.rs:427-433 | over every disk and draw with the staging name free: without links a receive skips names if and only if its copy's name is taken, and then all thousand, and says there is none free |
| InboxRuns.CollisionIff | crates/sukkula-core/src/inbox.rs:525-536 | there is such a draw if and only if the file is staged in `.partial` or that holds a staging file |
| InboxRuns.FirstFree | crates/sukkula-core/src/inbox.rs:410-433 | if there is none, or all thousand names are taken, the names before the one given were all taken, in every run |
| InboxRuns.NoFreeNameMeans | crates/sukkula-core/src/inbox.rs:410-433 | "no free name" only when 999 different names were taken |
| InboxRuns.SweepStale | crates/sukkula-core/src/inbox.rs:266-292 | removes all regular `*.part` files of a directory of at most 9,998 entries, and never anything else |
| InboxRuns.Reopen | crates/sukkula-core/src/inbox.rs:162-175 | both sweeps: only regular `*.part` files of the two directories go, and all of them from a directory within the cap |
| InboxRuns.KilledThenReopened | crates/sukkula-core/src/inbox.rs:28-32 | after a kill at any point, that keeps every real name, and removes everything staged if both directories are within the cap |
| Store.IsTemporaryIff | crates/sukkula-core/src/store.rs:288-310 | accepts exactly the names of temporary files of valid store names |
| Store.TemporaryNameInjective | crates/sukkula-core/src/store.rs:288-293 | such a name decodes one way only |
| Store.StoreNamesAreNotTemporary | crates/sukkula-core/src/store.rs:312-323 | no store file has one |
| Store.Store.Replace | crates/sukkula-core/src/store.rs:240-256 | the old file, or the whole new one, after every step |
| Store.Store.Write | crates/sukkula-core/src/store.rs:135-146 | the same with the clean-up, and exactly when a failed write has replaced the file after all |
| Store.FailedWriteReplaces | crates/sukkula-core/src/store.rs:252-254 | a write that says it failed and has replaced the file |
| Store.SweepTemporaries | crates/sukkula-core/src/store.rs:264-286 | removes all regular temporary files of a directory within the cap, which `.` and `..` count towards, and never anything else |
| Store.KilledThenSwept | crates/sukkula-core/src/store.rs:13-19 | a write killed after any step of its history, and the next open, leave the old or the new file, every other store file, and no temporary file of that write |
| Offers.CheckFiles | crates/sukkula-core/src/offer.rs:222-246 | the running total refuses exactly when a file or the exact sum breaks a rule, and never overflows |
| Offers.Validate | crates/sukkula-core/src/offer.rs:205-286 | accepts exactly the offers that meet the rules; sizes and order kept, the total exact, every text a fixed point of its sanitiser; a refusal names the first rule that is broken, in the order they are checked, and the first file that breaks it |
| Offers.DeclaredMeans | crates/sukkula-core/src/offer.rs:234-237 | a digest is the text given without the white space around it, and none if that is nothing |
| Offers.AcceptanceIgnoresOrder | crates/sukkula-core/src/offer.rs:222-246 | acceptance is the same for every order of the files |
| Settings.ValidateFixes | crates/sukkula-core/src/config.rs:299-321 | what validation accepts it leaves alone the second time |
| Settings.FixedMeans | crates/sukkula-core/src/config.rs:299-321 | validated settings are exactly those with a name fit to show and every given string trimmed and within its rule |
| Settings.ValidateMeans | crates/sukkula-core/src/config.rs:299-321 | of any settings: refused for the first string that does not pass its test without the white space around it; otherwise each string is itself without that, or none if it is nothing else, and no switch changes |
| Settings.GivenMeans | crates/sukkula-core/src/config.rs:301-310 | a string comes to nothing if and only if it is all white space, and otherwise to what is between the white space at its ends |
| Settings.AdoptIsLocal | crates/sukkula-core/src/config.rs:401-420 | a part put into settings that are in order is judged by itself and changes nothing else |
| Settings.Adopt | crates/sukkula-core/src/config.rs:401-420 | taken if and only if it parses and validates on its own |
| Settings.ReadParts | crates/sukkula-core/src/config.rs:352-398 | the loop gives, for any order of keys, each part its own value, its locked-down value or its default, and turns all off for an unknown key |
| Settings.FromStored | crates/sukkula-core/src/config.rs:343-399 | whole files: unreadable, and locked down, if and only if neither an object without repeated keys nor an array of usable fields; a protocol is on exactly when its part says so or is left out of a file without unknown keys; always a fixed point of validation |
| Settings.StringsAreRead | crates/sukkula-core/src/config.rs:343-399 | the strings of every part that can be used come to just that in the settings read |
| Settings.PartsOfAFile | crates/sukkula-core/src/config.rs:352-398 | part by part: its own value if it can be used, the strictest there is if not, the default if it is left out |
| Settings.WholeAgrees | crates/sukkula-core/src/config.rs:344-351 | parts that parse and validate whole give the same settings part by part, with every part used |
| Settings.FastPathIff | crates/sukkula-core/src/config.rs:344-351 | the fast path takes a file if and only if it is read as parts that can all be used, and then says what the parts say |
| Settings.PathsAgreeIff | crates/sukkula-core/src/config.rs:344-358 | a file it takes is read the same part by part if and only if it is an object |
| Settings.WholeIffParts | crates/sukkula-core/src/config.rs:344-351 | parts validate together if and only if each can be used alone |
| Settings.EmptyArrayTurnsEverythingOn | crates/sukkula-core/src/config.rs:1045-1049 | the file `[]` is read as the defaults, with every protocol on and nothing reported |
| Settings.OrderDoesNotMatter | crates/sukkula-core/src/config.rs:343-399 | permuting the entries of a file, repeated keys included, changes nothing in what is read |
| Settings.FailsClosed | crates/sukkula-core/src/config.rs:8-30 | of every file: a protocol is on if and only if the file is read, has no unknown key, and the protocol's part is left out or can be used and says on |
| Transfers.TransfersInner.Begin | crates/sukkula-engine/src/ctx.rs:440-452 | refused at eight, else entered under the next id |
| Transfers.StartedOnceFinishedOnce | crates/sukkula-engine/src/ctx.rs:431-481 | in every state of every run the registry is exactly the unfinished handles, at most eight; one Started, then one Finished with the outcome |
| Transfers.CancelHits | crates/sukkula-engine/src/ctx.rs:484-492 | a cancel says yes exactly for a transfer that is not over, and cancels that one |
| Progress.TransferHandle.AddProgress | crates/sukkula-engine/src/ctx.rs:551-580 | one call, with the wrapping count and the throttle |
| Progress.ReportsAreThrottled | crates/sukkula-engine/src/ctx.rs:543-580 | reported values strictly increase up to the total, the total comes last exactly when reached, and the others keep 250 ms apart |
| Progress.ReportedIff | crates/sukkula-engine/src/ctx.rs:551-580 | exactly which calls are reported, and with what: the first, and each that shows more and shows all or comes 250 ms after the last report |
| Progress.FewReports | crates/sukkula-engine/src/ctx.rs:543-580 | at most two reports more than intervals between the first and the last |
| Progress.TotalReportedOnce | crates/sukkula-engine/src/ctx.rs:543-551 | the total is reported once at most |
| Progress.WrapGoesBackIff | crates/sukkula-engine/src/ctx.rs:551-580 | after a call that wraps the count, the next breaks the promise if and only if it adds something, is 250 ms later, and stays short of the total |
| Progress.WrapGoesBack | crates/sukkula-engine/src/ctx.rs:551-580 | every run whose count wraps to less than the total less one has a next call that breaks it |
| Bridge.HandOffIsBounded | src/bridge.cpp:153-200 | the count is posted events plus callbacks that have counted and not posted, at most 256 with no failed start queued |
| Bridge.DeliveredInOrder | src/bridge.cpp:153-200 | what was delivered followed by what is posted is what was posted, in its order, less what a stop removed |
| Bridge.StopLeavesNothing | src/bridge.cpp:124-145 | when a stop that found an engine returns, nothing is posted, counted or in progress |
| Bridge.NothingStaleAfterStop | src/bridge.cpp:139-145 | no event from before a stop is delivered after it |
| Bridge.StoppingDrains | src/bridge.cpp:131-138 | while a stop waits nothing more is counted, and every step but a new call brings its end nearer |
| Bridge.StopCanFinish | src/bridge.cpp:131-145 | a stop can be finished from every state, whatever the callbacks wait for |
| Slots.SlotsAreCounted | crates/sukkula-engine/src/slots.rs:13-45 | under every interleaving, with spurious failures, the count is the number of holders, at most the maximum, and the operations are a run of one atomic counter |
| Slots.FalseMeansFull | crates/sukkula-engine/src/slots.rs:13-29 | a take that fails was refused at an instant of that call at which the counter was full |
| Slots.GiveBackGives | crates/sukkula-engine/src/slots.rs:32-45 | giving back a taken slot never finds the counter at zero |

## Left out

- Fsync and power loss, ownership and mode bits, and the creation of directories: kills are modelled, disk caches are not, and opening a directory either works or fails.
- Inbox.Incoming.Commit: in a hostile world only this is proved, that no entry is ever replaced, none removed that the receiver did not make, and success not reported before the checks passed; a swapped staging entry can stand under a real name for the instant before the check that takes it away.
- Inbox.Incoming.Write: a write is done when the call returns; the background thread of the asynchronous file is not modelled.
- InboxRuns.Reopen: the target's `.partial` can be opened.
- InboxRuns.SweepStale: unlinks succeed; which entries a sweep leaves of a directory over its cap is not described. Store.SweepTemporaries likewise.
- SHA-256 is any function of the bytes, random names are arbitrary, and time is a parameter.
- Chars.ClassifyIsAPolicy: the table of combining marks is any sorted table that starts at U+0300 or later and leaves out the ellipsis, as the program's own does.
- Settings.FromStored: starts from the JSON tree; how one part is parsed, and which URLs and relays are acceptable, are parameters.
- Offers.Validate: the protocol tag and the MIME type of a file are left out; they refuse nothing.
- Progress.ReportsAreThrottled: for calls made one after another; reports of concurrent calls can overtake each other between the count and the lock.
- Transfers.StartedOnceFinishedOnce: for up to 2^64 − 1 transfers; an id could then be entered twice.
- Rates.RateBound: an address given up while live starts a new window when it returns, so nothing is claimed of it.
- Rates.SpareBound: the same, and of Rates.OneBurstIff; it cannot happen to the one address of the shared limiter, so the theorems about offers have no such condition.
- Events over the bridge's size limit, which are dropped: they change nothing.
- Reading store files, free-space checks, and what happens to an offer after consent: straight-line code.
- `ReachPolicy`, the adapters, the hub, logging and the C interface: tables, glue, or libraries that are not part of this model.
