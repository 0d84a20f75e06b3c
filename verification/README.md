# MediaFusion, modelled in Dafny

MediaFusion collects media streams for streaming add-ons. This project models the parts of it whose
correctness rests on state, protocols, parsers and codecs, and proves what they are for. `dafny verify
dfyconfig.toml` checks the whole project.

| file | models |
|---|---|
| `KeywordLease.dfy`, `KeywordGuards.dfy`, `KeywordEnds.dfy` | the lease under which the keyword recompute runs, as a step machine over one shared table; what an attempt has made sure of when it sweeps and publishes; how an invocation ends |
| `KeywordConverge.dfy` | when that brings the flags to the keywords in the database |
| `KeywordSweep.dfy` | the recompute itself: pattern compiler, batches over the media table, and the in-memory filter beside it |
| `LzString.dfy` | the lz-string decoder for shared hash lists, with the encoder it has to invert |
| `Bencode.dfy`, `BencodeScan.dfy`, `MetadataFetch.dfy` | bencode (BEP 3), what its reader makes of any bytes at all, and fetching torrent metadata piece by piece (BEP 9, BEP 10) |
| `Template.dfy`, `TemplateTidy.dfy`, `TemplateCondition.dfy` | the stream template engine: parser, renderer, the trees that templates stand for, conditions |
| `ProfileSecrets.dfy`, `ProfileFails.dfy`, `ProfileCrypto.dfy` | splitting a profile into configuration and secrets, and merging them again |
| `CircuitBreaker.dfy`, `BatchProcessing.dfy` | the circuit breaker and the batch retries around it |
| `DecryptCache.dfy` | the two bounded caches around the decryption of secrets |
| `KeywordMinimise.dfy`, `StreamLists.dfy`, `ExceptionWalk.dfy`, `RateLimit.dfy` | keyword minimisation, stream caps and interleaving, the search through linked exceptions, the request counter |
| `Basics.dfy`, `Wrappers.dfy` | lower case, substrings, minimum and maximum; the option type |

Each loop or state change of the source is a method or a class, proved against a function; the
theorems are about that function. Parsers are proved against a printer, codecs against their inverse,
protocols and objects over every run.

## What the proofs found

- **Sweeps may overlap with the shipped constants.** The comments at `backend/src/state.rs:673-675` and
  `backend/src/state.rs:797-803` promise that two sweeps never overlap. The deadline is looked at only after
  a renewal attempt, so a holder sweeps on for up to 120 + 60 + 1 seconds after its last confirmed renewal,
  and its lease may be claimed after 180. `KeywordLease.ExclusionIff` gives the exact condition on the constants,
  for all constants and any latency of the database, and `KeywordLease.ShippedConstantsOverlap` shows that the shipped ones
  do not meet it.
- **The unfenced deletion of the lease** in `abort_recompute_lease` breaks exclusion and the truth of the
  completion marker whatever the constants are (`KeywordLease.UnsafeAbort`). So does, for the marker, a
  batch statement that still takes effect after its process has given it up (`KeywordLease.UnsafeLate`):
  leaving `select!` drops the batch without waiting for the database. What holds even then is
  `KeywordLease.FencedPublication`.
- **The recompute need not converge to the keywords in the database**, as `backend/src/state.rs:778-789`
  promises. When an edit is taken back before its version is published, the scheduler finds the marker at the
  live version and leaves the request row as it is, while the sweep goes on and publishes its own version
  (`KeywordConverge.RevertSticks`, for every step at which the edit may be taken back). From there on no run brings
  the marker to the live version before the keywords change, that version is requested, or the reading of the
  request row fails (`KeywordConverge.StuckForever`); and an invocation goes through all its attempts
  in one instant, for the branch at `backend/src/state.rs:880-888` does not sleep (`KeywordConverge.GivesUp`).
  `KeywordConverge.ConvergesIff` gives the exact condition: no other version is requested.
- **The sweep and the in-memory filter disagree** on a row that is not adult if its title has a keyword while its
  description is whitelisted, or the other way round, or if it has no text and a keyword is empty, and on no other
  such row (`KeywordSweep.FilterAgreesWithSweep`).
- **The 32-bit sum of the batch loop overflows** exactly if an id is greater than 2147483500
  (`KeywordSweep.OverflowsIff`; for instance `KeywordSweep.OverflowAt2147483501`). A checked build panics there.
  The release profile at `backend/Cargo.toml:194-197` leaves the check off, and the sum wraps: an undisturbed
  sweep then goes round and still ends, with every positive id recomputed, exactly if the largest id is at
  most 2147483644 (`KeywordSweep.EndsIff`); on the three ids above that it never ends
  (`KeywordSweep.LargestNeverReached`).
- **A bencoded list or dictionary without its end** is accepted, with an end one past the data for each
  container left open; slicing a piece from there panics. So does a string length that takes the end
  to 2^64 or further, whether the sum is checked or wraps. `MetadataFetch.FetchPanics` says for all bytes a peer may
  send when the fetch panics; `MetadataFetch.UnterminatedPiecePanics` and `MetadataFetch.OverlongPanics` are
  single messages that do it.
- **Merging profile secrets does not undo the split** when a configuration is present under its full name,
  holding credentials, and under its alias as well (`ProfileSecrets.RoundTrip` gives the exact condition,
  `ProfileSecrets.ShadowedExample` such a configuration). And a credential stays in the clean configuration
  when it hides behind another of the same name (`ProfileSecrets.NothingLeft`, `ProfileSecrets.HiddenExample`).
- **The rate limiter is no sliding window**, although the comment at
  `backend/src/rate_limit_middleware.rs:89` calls it one, except for a limit or a window of at most one
  (`RateLimit.SlidingIff`): up to `2 * limit - 1` requests get through within a window's length
  (`RateLimit.IntervalLimit`), and for every limit that many do (`RateLimit.BurstAdmitted`).

## Model

| member | source | states |
|---|---|---|
| KeywordLease.InvStep | backend/src/state.rs:806-1000 | when the constants fit, every step of any process, timer, stray renewal, late batch or clock keeps the invariant: whoever sweeps holds a lease refreshed recently enough, and, unless batches may take effect late, has flagged every row it is past |
| KeywordLease.SafeWhenFits | backend/src/state.rs:671-677 | in every run of any number of processes, if no sweep can outlive the stale window and the lease is not deleted unfenced: no two processes sweep at once, and, unless a batch takes effect after its process has given it up, every marker published says what the flags of all rows say |
| KeywordLease.UnsafeTiming | backend/src/state.rs:893-950 | otherwise, for all constants and every latency, a run exists in which a second sweep starts inside the first, and one in which a marker is published over rows flagged for another version |
| KeywordLease.OutlivedUsually | backend/src/state.rs:902-945 | how long a sweep may outlive its last refresh, for renewals less than two abort windows apart as shipped: latency, abort window, interval and a second, less a nanosecond |
| KeywordLease.UnsafeAbort | backend/src/state.rs:741-758 | with the unfenced deletion such runs exist whatever the constants and the latency are |
| KeywordLease.UnsafeLate | backend/src/state.rs:947-950 | where a batch statement may take effect after `select!` has dropped it, or after it failed for its process, a marker over rows flagged for another version exists whatever the constants are |
| KeywordLease.ExclusionIff | backend/src/state.rs:671-677 | over all runs, for all constants and every latency: sweeps exclude each other if and only if no sweep can outlive the stale window and the lease is never deleted unfenced; published markers are true if and only if, besides, no batch takes effect late |
| KeywordLease.ShippedConstantsOverlap | backend/src/state.rs:671-676 | the shipped 180, 60 and 120 seconds do not exclude overlapping sweeps, whatever the latency is |
| KeywordLease.OwnershipIsClaimed | backend/src/state.rs:841-857 | a process comes to own the lease by nothing but its own claim |
| KeywordLease.OwnershipIsLost | backend/src/state.rs:1048-1078 | ownership ends only by the owner's release, by the unfenced deletion, or by a claim that found the lease stale; fenced statements of others never end it |
| KeywordLease.OnlyPublicationWrites | backend/src/state.rs:1009-1043 | the completion marker changes only by a publication of the lease's owner |
| KeywordLease.OwnedSinceClaim | backend/src/state.rs:841-857 | a process past its claim that owns the lease has owned it at every step since the claim of that very attempt, although its token is the same in every attempt |
| KeywordLease.RowWasSwept | backend/src/state.rs:577-641 | every row a sweep is past was covered by a successful batch of the same attempt for the same version |
| KeywordLease.FencedPublication | backend/src/state.rs:1009-1043 | in every run, deletions, takeovers and late batches included: when a publication writes the marker, the publisher has owned the lease at every step since that attempt's claim, and every row was flagged for that version by that attempt's sweep, between the claim and the publication; that no newer version was found meanwhile is KeywordGuards.PublicationChecked |
| KeywordGuards.AttemptGuarded | backend/src/state.rs:819-971 | in every run an attempt gets from each phase to the next only by a read or a reply that allows it, and does not fall back in between: the version loaded was live, the marker was not at it, the claim was won, no request contradicted it, the renewal before the sweep found the lease, every batch check and the last one found no newer version |
| KeywordGuards.PublicationChecked | backend/src/state.rs:957-971 | a publication rests on a check of that attempt made after its last batch: if a requested version could be read then, it was the published one; else, if the live one could be read, it was that |
| KeywordGuards.SweepChecked | backend/src/state.rs:823-889 | whoever sweeps has loaded the version when it was live, has read the marker since its claim not to name it, and has read no other version to be requested |
| KeywordGuards.SweepOwned | backend/src/state.rs:841-898 | and has won its claim, and found the lease its own by a fenced renewal |
| KeywordEnds.UnreadGoesOn | backend/src/state.rs:834-889 | before the sweep an attempt goes on exactly unless the marker is read to name its version, or another version to be requested: reads that fail do not stop it |
| KeywordGuards.BatchCheckDecides | backend/src/state.rs:760-769 | the check after a batch ends the sweep exactly if another version is requested or, where no request can be read, another is live |
| KeywordGuards.SweptCheckDecides | backend/src/state.rs:957-971 | the check after the sweep lets it publish exactly if it succeeded and that is not so |
| KeywordGuards.SupersededNeverPublishes | backend/src/state.rs:625-633 | in every run: when the check after a batch finds another version requested, the sweep ends, and that attempt never publishes |
| KeywordGuards.LostEndsSweep | backend/src/state.rs:927-930 | a renewal whose reply says that the lease is lost ends the sweep at once |
| KeywordEnds.RenewalDecides | backend/src/state.rs:926-945 | renewals that fail or time out are put up with exactly until the last confirmed one is as old as the abort window, and a confirmed one counts from its reply on |
| KeywordEnds.EndsUpToDate | backend/src/state.rs:830-878 | in every run an invocation ends with attempts left only after it has, in one attempt, read a version to be live and later the marker to name it: neither its own publication nor a sweep that failed, was superseded or lost its lease ends it |
| KeywordEnds.LeavesNoLease | backend/src/state.rs:1066-1078 | an invocation whose claims, renewals and releases get through does not own the lease between its attempts, nor at its end |
| KeywordEnds.BatchFlags | backend/src/state.rs:581-612 | a batch that takes effect flags exactly the 500 ids behind its start, for the version of its sweep |
| KeywordEnds.OthersKeepFlags | backend/src/state.rs:806-1118 | no step of any process, timer or the scheduler but a batch changes a flag |
| KeywordConverge.Publishes | backend/src/state.rs:778-789 | every run in which an invocation with nothing in its way is left to itself, its renewals coming between as they may, has published the live version after so many steps of its work, and keeps to it |
| KeywordConverge.CanWork | backend/src/state.rs:819-971 | and such runs exist, of any number of steps up to that |
| KeywordConverge.ConvergesIff | backend/src/state.rs:778-789 | an invocation that finds the lease stale and the marker behind gets the marker to the live version, left to itself, if and only if no other version is requested; and then in every run that is long enough |
| KeywordConverge.ScheduledConverges | backend/src/state.rs:1080-1118 | scheduling requests the live version unless the marker names it, and starts an invocation unless one holds the lease for that very request; with the lease deleted, or stale, that invocation publishes the live version in every long enough run in which it is left to itself, whatever else was under way |
| KeywordConverge.StuckForever | backend/src/state.rs:880-888 | while another version is requested and nobody past that check works on the live one, no steps of any processes, timers or the scheduler bring the marker to the live version, until the keywords change, it is requested, or the check fails |
| KeywordConverge.RevertSticks | backend/src/state.rs:1080-1118 | from a quiet state, for all versions and tables and at any step of the sweep: an edit, its schedule, and the edit taken back lead there |
| KeywordConverge.GivesUp | backend/src/state.rs:819-1003 | there an invocation spends all its attempts in one instant, seven steps each, and ends with the marker unchanged |
| KeywordSweep.BuildRegexPattern | backend/src/state.rs:499-533 | the compiled pattern is the bracketed alternation of the escaped terms, None for no terms |
| KeywordSweep.PatternParses | backend/src/state.rs:499-533 | every compiled pattern is well formed, and reads back as the alternation of exactly the terms' characters, metacharacters included |
| KeywordSweep.PatternFindsTerms | backend/src/state.rs:499-533 | the compiled pattern is found in a text exactly when some term is a substring of it |
| KeywordSweep.NewBlockedMeans | backend/src/state.rs:588-604 | the flag the batch statement computes: adult, or some keyword within title or description and no whitelist phrase within either |
| KeywordSweep.RecomputeKeywordBlocked | backend/src/state.rs:535-651 | with the sum wrapping at 32 bits, batches failing with or without effect, and newer versions reported: the sweep succeeds at the first batch that reaches the largest id, fails at the first before that which fails or is superseded, and else is cut off with the process; exactly the rows of the batches that took effect are recomputed, all else is untouched, and success means every positive id |
| KeywordSweep.EndsIff | backend/src/state.rs:576-637 | the wrapping `from_id` ever reaches the largest id if and only if that is at most 2147483644 |
| KeywordSweep.OverflowsIff | backend/src/state.rs:576-582 | the sum overflows before the sweep has ended if and only if an id is greater than 2147483500 |
| KeywordSweep.LargestNeverReached | backend/src/state.rs:631-637 | a table whose largest id no number of batches reaches |
| KeywordSweep.OverflowAt2147483501 | backend/src/state.rs:576-582 | an id on which the sum overflows and the wrapping loop ends |
| KeywordSweep.FilterAgreesWithSweep | backend/src/state.rs:94-106 | for every row and all lists, exactly when the in-memory check and the flag agree: on adult rows when the check hits too, on others unless one field is hit while the other is whitelisted, or an empty keyword meets a row without text; and the check hides more than the flag exactly on split rows that are not adult |
| KeywordSweep.SweptRowNeedsNoFilter | backend/src/state.rs:73-92 | after a completed sweep a row is hidden if and only if it is blocked, its poster is flagged, or, unless overridden, it is flagged or is split and not adult: only there the runtime check still adds anything |
| KeywordSweep.FilterDisagreesWithSweep | backend/src/state.rs:44-55 | a row on which the two differ |
| LzString.Read | python-deprecated/utils/lzstring.py:32-50 | reading n bits gives a value below 2^n and moves the cursor by n bits, or fails on a bad character |
| LzString.ReadFailsIff | python-deprecated/utils/lzstring.py:32-50 | it fails exactly if the cursor moves to a character on the way that is not in the alphabet |
| LzString.AlphabetPlace | python-deprecated/utils/lzstring.py:9-16 | the value of a character is its place in the URI-safe alphabet |
| LzString.BitReader.ReadBits | python-deprecated/utils/lzstring.py:32-50 | the bit loop with its powers of two and its data value computes that, across characters and past the end |
| LzString.Advance | python-deprecated/utils/lzstring.py:85-105 | after every code, dictionary size plus codes left before the next width is 2^bits, with at least one left; entries from 3 on are not empty |
| LzString.MainLoop | python-deprecated/utils/lzstring.py:66-105 | the unbounded loop ends on every input and decodes what the specification says; the dictionary's keys are exactly 0 to its size less one |
| LzString.DecompressUri | python-deprecated/utils/lzstring.py:108-122 | the whole call, with blanks for plus signs and every exception as one error |
| LzString.DecodingFailsIff | python-deprecated/utils/lzstring.py:66-105 | on any input at all the main loop fails if and only if it gets to a word in which such a character has to be read |
| LzString.TextIsMarked | python-deprecated/utils/lzstring.py:66-105 | a text is never cut short: if it is not empty, it is all that was decoded when the end mark was read |
| LzString.FirstCharacter | python-deprecated/utils/lzstring.py:52-60 | of which texts the first character alone says that they are empty, or not of this format |
| LzString.ReadBack | python-deprecated/utils/lzstring.py:32-50 | a number written as n bits, lowest first, is read back wherever it stands |
| LzString.PackHolds | python-deprecated/utils/lzstring.py:108-120 | bits packed six to a character of the URI-safe alphabet are the bits the reader sees, with padding behind them |
| LzString.DecodeWord | python-deprecated/utils/lzstring.py:66-97 | decoding one emitted word takes the decoder to the state that mirrors the encoder's, the code equal to the dictionary size included |
| LzString.LearnInStep | python-deprecated/utils/lzstring.py:85-105 | encoder and decoder stay in step: same dictionary, same width, same countdown |
| LzString.RoundTrip | python-deprecated/utils/lzstring.py:19-122 | decoding the output of compressToEncodedURIComponent gives the text back, for every sequence of 16-bit code units |
| LzString.RoundTripThroughUrl | python-deprecated/utils/lzstring.py:113 | also when any plus signs have become blanks |
| Bencode.DecodeBVal | backend/src/demagnetize.rs:699-748 | the cursor loops over lists and dictionaries compute the recursive decoder |
| Bencode.Decode | backend/src/demagnetize.rs:699-748 | a decoded value ends behind its start, which bounds the recursion |
| Bencode.RoundTrip | backend/src/demagnetize.rs:699-748 | an encoded value, at any offset and before any tail, is decoded to that value and its end; of a repeated key the last value counts |
| Bencode.EntriesBack | backend/src/demagnetize.rs:723-737 | the same for the entries of a dictionary from any point on |
| Bencode.DecodedRepresentable | backend/src/demagnetize.rs:699-748 | whatever is decoded has 64-bit integers and UTF-8 keys |
| BencodeScan.ScanDecides | backend/src/demagnetize.rs:699-748 | for every data and position, one pass over the bytes with a stack of open containers tells what the reader does: it rejects exactly what the pass is stuck on, panics exactly at a length too great, and otherwise ends where the pass does, one past the data for each container left open |
| MetadataFetch.PeerStream.ReadMessage | backend/src/demagnetize.rs:606-624 | the read loop skips keep-alives and gives the next message, or fails on a length over 8 MiB or at the end |
| MetadataFetch.FrameBack | backend/src/demagnetize.rs:606-624 | a framed message is read back whatever stands before and after it, if its length is allowed, and refused otherwise |
| MetadataFetch.SentIsRead | backend/src/demagnetize.rs:589-603 | what one side sends as an extended message the other reads back, exactly up to the reader's limit |
| MetadataFetch.RequestIsBencoded | backend/src/demagnetize.rs:518-521 | the text of a piece request is the bencoded dictionary BEP 9, section "extension message", asks for |
| MetadataFetch.FetchPieces | backend/src/demagnetize.rs:512-565 | steps 4 to 6 compute the specified outcome and send exactly one request for each piece; when that outcome is the metadata and when an error, the rows below say |
| MetadataFetch.AllPresent | backend/src/demagnetize.rs:552-562 | as many pieces as expected means every index is there, so the `expect` cannot fail |
| MetadataFetch.FetchSound | backend/src/demagnetize.rs:523-565 | if pieces carry their true slices, then for any order, repetitions and other messages, a fetch that succeeds returns the metadata |
| MetadataFetch.FetchComplete | backend/src/demagnetize.rs:523-565 | and it succeeds when every piece arrives, nothing is rejected, and at most three messages per piece and thirty more are read, keep-alives not counted |
| MetadataFetch.FetchRejected | backend/src/demagnetize.rs:523-550 | whatever sound messages came before, short of the whole metadata, and whatever comes after: a rejection within the message limit fails the fetch |
| MetadataFetch.FetchFails | backend/src/demagnetize.rs:523-556 | so does a stream that ends, is cut off in a message or holds one too long, or the last message of the budget, while a piece is missing |
| MetadataFetch.RepeatedIgnored | backend/src/demagnetize.rs:538-542 | a piece that is there is not replaced by whatever comes for it |
| MetadataFetch.RejectParsed | backend/src/demagnetize.rs:659-679 | any dictionary whose `msg_type` is 2 is a rejection, whatever else is in it and behind it |
| MetadataFetch.HarmlessParsed | backend/src/demagnetize.rs:659-679 | any other value, and a piece that is out of range, adds no piece and rejects nothing |
| MetadataFetch.JunkParsed | backend/src/demagnetize.rs:659-679 | neither does what is no bencode |
| MetadataFetch.ReadIsFrame | backend/src/demagnetize.rs:606-624 | whatever is read is a complete framed message within the limit, with nothing but keep-alives before it |
| MetadataFetch.RequestsAreRead | backend/src/demagnetize.rs:516-521 | at the other end the requests are read one after another, one for each piece, in order |
| MetadataFetch.PieceParsed | backend/src/demagnetize.rs:659-679 | any dictionary that says so announces a piece, whose bytes begin right behind it |
| MetadataFetch.OffsetBehind | backend/src/demagnetize.rs:659-679 | a piece is announced to begin behind its message if and only if containers are left open in it, and as far behind as there are of them |
| MetadataFetch.FetchPanics | backend/src/demagnetize.rs:523-565 | for all bytes a peer may send, the fetch panics if and only if a message read before the loop ends holds a length too great, or is a piece in range and not yet received with a container left open |
| MetadataFetch.UnterminatedPiecePanics | backend/src/demagnetize.rs:720-746 | a fetch of any size panics on a first message whose dictionary has no end |
| MetadataFetch.OverlongPanics | backend/src/demagnetize.rs:739-746 | a fetch of any size panics on a first message that announces a string of 2^64 - 1 bytes |
| Template.FindClose | backend/src/template.rs:195-212 | the loop finds the brace that closes the first one |
| Template.SmartSplit | backend/src/template.rs:238-266 | the character loop computes the specified parts |
| Template.SplitKeeps | backend/src/template.rs:238-266 | the parts, joined by the delimiter, are the text: nothing is lost |
| Template.SplitCloses | backend/src/template.rs:238-266 | every part but the last closes its quotes and brackets, and no delimiter that splits is inside a part |
| Template.SplitJoined | backend/src/template.rs:238-266 | and that is the only way to take the text apart: such parts, joined, are split where they were joined |
| Template.VarBack | backend/src/template.rs:215-235 | parsing a printed variable gives its path and modifiers |
| Template.ParseVar | backend/src/template.rs:215-235 | the loop over the parts, cut at ten modifiers |
| Template.ModifiersCut | backend/src/template.rs:215-235 | modifiers from the eleventh on are dropped, and the others are kept as if they stood alone |
| Template.ParseBlock | backend/src/template.rs:60-192 | the cursor loops append exactly the specified nodes and leave the cursor where specified |
| Template.ParseIf | backend/src/template.rs:104-157 | the branches of one conditional |
| Template.TagsInAnyCase | backend/src/template.rs:90-103 | the tags of conditionals are known by their words in capitals or not |
| Template.BlockEnds | backend/src/template.rs:62-93 | every block stops at the end of the template or, inside a conditional, at a stop token left for the caller; at top level all is consumed |
| Template.BlockBack | backend/src/template.rs:60-192 | printed nodes are read back from anywhere in a text, at any depth, up to a stop token |
| Template.ParsePrinted | backend/src/template.rs:52-192 | parsing undoes printing for every canonical tree nested at most MAX_RECURSION_DEPTH deep |
| Template.PrintedOnce | backend/src/template.rs:52-192 | no two canonical trees print alike |
| TemplateTidy.VarCanon | backend/src/template.rs:215-235 | a variable whose quotes and parentheses are closed parses to a canonical one: trimming and lower case leave braces, quotes and delimiters as they are, and make no tag of it |
| TemplateTidy.BlockCanon | backend/src/template.rs:60-192 | from any position of a tidy template, at any depth, the parser makes canonical nodes |
| TemplateTidy.PrintedTidy | backend/src/template.rs:60-192 | a canonical tree is printed as a tidy template |
| TemplateTidy.CanonIff | backend/src/template.rs:52-192 | the canonical trees are exactly those the parser makes of templates whose braces, conditionals, quotes and parentheses are closed, with no tag astray and at most ten modifiers each |
| TemplateTidy.PrintedAgain | backend/src/template.rs:52-192 | printing what was parsed gives a normal form: it parses to the same tree |
| Template.Chosen | backend/src/template.rs:288-298 | of a conditional that does not hold, the first `elif` that holds is rendered, or the `else` body if none does |
| Template.GuardIdle | backend/src/template.rs:270-302 | on trees nested within the bound, rendering with the depth guard is rendering without it |
| Template.RenderMeans | backend/src/template.rs:20-26 | for every template: the parser consumes it all, an over-long one renders as nothing, and the renderer's depth guard never drops anything of what the parser built |
| Template.PrintedMeans | backend/src/template.rs:20-24 | a canonical tree, printed and rendered, shows its meaning, which Template.RenderIf, Template.RenderLeaf and Template.RenderBoth pin down |
| Template.RenderIf | backend/src/template.rs:283-300 | a printed conditional renders as its printed body if the condition holds, else as its first `elif` printed as a conditional with the rest, else as its printed `else` body |
| Template.RenderLeaf | backend/src/template.rs:278-282 | text renders as itself, and a printed variable as what is shown for its path and modifiers |
| Template.RenderBoth | backend/src/template.rs:270-272 | nodes printed one after another render one after another |
| TemplateTidy.PlainRenders | backend/src/template.rs:62-82 | a text without a closing brace renders as itself |
| TemplateTidy.StrayShowsNothing | backend/src/template.rs:90-100 | an `else`, `elif` or `/if` outside of conditionals shows nothing, and what stands around it renders as if it stood alone |
| TemplateTidy.OpenIfRenders | backend/src/template.rs:112-165 | a conditional that is never closed renders as if it were closed at the end |
| TemplateCondition.SplitLogical | backend/src/template.rs:376-396 | the scan computes the specified parts, and the text itself if there is no separator |
| TemplateCondition.SplitGlued | backend/src/template.rs:376-396 | splitting undoes gluing, for parts among whose words the separator is not |
| TemplateCondition.EvalMeans | backend/src/template.rs:336-358 | a printed disjunction of conjunctions of negated atoms holds exactly if every literal of some conjunction does: `not` binds tighter than `and`, and `and` than `or` |
| ProfileCrypto.ExtractSecrets | python-deprecated/utils/profile_crypto.py:163-327 | the loops over fields, downloaders, providers and services compute the specified split, or raise where specified |
| ProfileCrypto.ExtractProvider | python-deprecated/utils/profile_crypto.py:204-281 | the split of one provider, its index noted if it has secrets |
| ProfileCrypto.MergeSecrets | python-deprecated/utils/profile_crypto.py:329-481 | the loops of the merge compute the specified result, or raise where specified, for any values in place of the dictionaries and lists that are looked for |
| ProfileCrypto.MergeProviderSecrets | python-deprecated/utils/profile_crypto.py:344-393 | the merge into one provider, whatever its downloaders and their secrets are |
| ProfileCrypto.MergeInProvider | python-deprecated/utils/profile_crypto.py:344-393 | the same for a provider or secrets that are no dictionary: unchanged if nothing is found in them, else it raises |
| ProfileSecrets.ExtractAllAt | python-deprecated/utils/profile_crypto.py:283-325 | on the keys of one step, the whole split does what that step does alone: the steps do not interfere |
| ProfileSecrets.MergeAllAt | python-deprecated/utils/profile_crypto.py:395-479 | the same for the merge, although it takes the steps in the same and not in reverse order |
| ProfileSecrets.AllYields | python-deprecated/utils/profile_crypto.py:283-325 | something is taken out, and something is changed, exactly if a credential is set where the split looks |
| ProfileSecrets.TakesFirst | python-deprecated/utils/profile_crypto.py:208-215 | of each pair of names the value under the full one is taken, and only without that the one under the alias; nothing else is, and all else stays |
| ProfileFails.SplitFailsIff | python-deprecated/utils/profile_crypto.py:163-327 | for every configuration: splitting raises if and only if a downloader or an external service that is looked into is true but no dictionary, namely a number, or a text or a list with the name of a credential in it |
| ProfileSecrets.MergeSetsFields | python-deprecated/utils/profile_crypto.py:346-348 | merging into a provider sets exactly the credentials that the secrets have, whatever was there |
| ProfileSecrets.MergeSets | python-deprecated/utils/profile_crypto.py:350-393 | and into a nested configuration: under the alias if that is there, else under the full name, else under a new key, exactly the listed credentials that the secrets have are set, and all else stays |
| ProfileFails.WrittenUnder | python-deprecated/utils/profile_crypto.py:395-433 | providers are merged under the alias if that is there, else under the full name, else under the name that the secrets have, and all else stays; the secrets of a list that is not there are lost |
| ProfileFails.EachGetsItsOwn | python-deprecated/utils/profile_crypto.py:395-415 | every provider of a list gets, one after another, exactly the secrets whose index is its place: the first place without an index, counted from the end for a negative one |
| ProfileFails.MergeAccepts | python-deprecated/utils/profile_crypto.py:329-481 | merging does not raise on a configuration and secrets in which everything looked into is of the right type, however far the indices reach |
| ProfileSecrets.StageBackIff | python-deprecated/utils/profile_crypto.py:163-481 | for each kind of configuration, merging undoes the split exactly if no alias shadows it |
| ProfileSecrets.ListBack | python-deprecated/utils/profile_crypto.py:283-295 | the same for a list of any number of providers, values that are no dictionaries among them |
| ProfileSecrets.RoundTrip | python-deprecated/utils/profile_crypto.py:163-481 | for every configuration the split accepts: merging gives it back, top-level `ap` renamed to `api_password`, if and only if nothing is shadowed |
| ProfileSecrets.ShadowedExample | python-deprecated/utils/profile_crypto.py:296-325 | a configuration that merging does not give back: an RPDB key under the full name, beside an empty configuration under the alias |
| ProfileSecrets.StageLeft | python-deprecated/utils/profile_crypto.py:204-317 | after a step a listed credential is left exactly if one was hidden behind another of the same name |
| ProfileSecrets.NothingLeft | python-deprecated/utils/profile_crypto.py:163-327 | the clean configuration holds a listed credential if and only if one was hidden |
| ProfileSecrets.HiddenExample | python-deprecated/utils/profile_crypto.py:204-281 | a provider with a token under both names, whose clean configuration still holds a token |
| CircuitBreakers.CircuitBreaker.IsClosed | python-deprecated/utils/network.py:58-79 | the new state and the answer of a check |
| CircuitBreakers.CircuitBreaker.RecordFailure | python-deprecated/utils/network.py:88-99 | the new state after a failure |
| CircuitBreakers.CircuitBreaker.RecordSuccess | python-deprecated/utils/network.py:101-114 | the new state after a success |
| CircuitBreakers.CountsMatchState | python-deprecated/utils/network.py:88-99 | over every interleaving of checks and outcomes the breaker is open exactly if its failures reach the threshold |
| CircuitBreakers.AdmittedIff | python-deprecated/utils/network.py:58-79 | a check is let through exactly if the breaker is not open or the latest failure recorded by anyone is `recovery_timeout` ago |
| CircuitBreakers.OpenUntilRecovered | python-deprecated/utils/network.py:58-79 | from opening on, whatever outcomes still arrive, every check is refused until that much time has passed since the latest failure |
| CircuitBreakers.ClosesAfterSuccesses | python-deprecated/utils/network.py:101-111 | from HALF-OPEN to CLOSED only on the last of exactly `half_open_attempts` successes, or of one if fewer are asked for, with no failure between them, all recorded while HALF-OPEN |
| CircuitBreakers.Recovers | python-deprecated/utils/network.py:101-111 | and exactly that many close it |
| CircuitBreakers.OpensAfterFailures | python-deprecated/utils/network.py:88-99 | it opens only on the last of `failure_threshold` failures with no success recorded between them while closed |
| CircuitBreakers.OpensWhenDue | python-deprecated/utils/network.py:88-99 | and by that many failures with no success between them it does open, no later, whatever checks come in between |
| CircuitBreakers.ClosesAgain | python-deprecated/utils/network.py:58-79 | an open breaker that lets a check through is testing from then on: without a failure it is closed exactly from the success on that was asked for |
| BatchProcessing.Collect | python-deprecated/utils/network.py:172-189 | one pass over the completions yields, drops and keeps for retry, in their order |
| BatchProcessing.ThreeWays | python-deprecated/utils/network.py:172-189 | every completion goes exactly one of the three ways |
| BatchProcessing.CollectPicks | python-deprecated/utils/network.py:172-189 | what is yielded, dropped and kept for retry is exactly the completions with a result, with another exception, and with a retryable one, each in order |
| BatchProcessing.ProcessBatch | python-deprecated/utils/network.py:165-206 | the rounds of one batch, with all completions: each round hands out what asked to be tried again in the one before, and they go on exactly until nothing asks or the retries are used up; what is yielded are the results of all rounds and what is dropped their failures, in order; what asked in the last round is abandoned |
| BatchProcessing.BatchProcess | python-deprecated/utils/network.py:144-209 | for every outcome, order of completion and batch size: the data are taken in batches, each run as above; over all rounds what is yielded are the results and what is dropped the failures, in order; every item ends exactly once as yielded, dropped or abandoned, and is handed out at most max_retries + 1 times; the count is of those yielded |
| BatchProcessing.AbandonedAsked | python-deprecated/utils/network.py:191-201 | an item is abandoned only if it asked to be tried again in every round, the last one included, and there were as many rounds as there may be |
| DecryptCache.Transparent | python-deprecated/utils/crypto.py:228-293 | after every history of calls, profile look-ups, invalidations and clock readings, a secret that is no profile id gets the value or error that decryption without caches gives |
| DecryptCache.DecodedIsServed | python-deprecated/utils/crypto.py:246-270 | a direct secret that was decoded is served from the cache for as long as its entry lives |
| DecryptCache.RefusedIsServed | python-deprecated/utils/crypto.py:243-244 | one that is at fault is refused without another attempt for as long as its mark lives |
| DecryptCache.AlwaysTruthful | python-deprecated/utils/crypto.py:74-167 | in every history the caches hold only what decryption would answer, and no refusal for another exception than a ValueError |
| DecryptCache.AlwaysSized | python-deprecated/utils/crypto.py:100-118 | in every history the caches hold at most 2048 and 4096 entries, no key twice |
| DecryptCache.Insert | python-deprecated/utils/crypto.py:100-118 | the new entry is there, nothing else is added, and the size stays within the cap |
| DecryptCache.InsertKeeps | python-deprecated/utils/crypto.py:100-118 | a full cache gives up its oldest live entry and no other |
| DecryptCache.EvictExpired | python-deprecated/utils/crypto.py:93-98 | popping the collected keys leaves exactly the entries that have not expired, in their order |
| DecryptCache.CryptoUtils.GetCached | python-deprecated/utils/crypto.py:74-91 | the unexpired entry, if any; an expired one is dropped |
| DecryptCache.CryptoUtils.CacheDecrypted | python-deprecated/utils/crypto.py:100-118 | the new cache: expired entries gone, then the oldest if it is full |
| DecryptCache.CryptoUtils.MarkInvalid | python-deprecated/utils/crypto.py:148-162 | the new cache, and whether the mark is a new one |
| DecryptCache.CryptoUtils.InvalidatePrefix | python-deprecated/utils/crypto.py:120-125 | exactly the entries under the prefix go |
| DecryptCache.CryptoUtils.DecryptUserData | python-deprecated/utils/crypto.py:228-293 | the caches and the reply of one call |
| DecryptCache.CryptoUtils.ProfileArrived | python-deprecated/utils/crypto.py:271-293 | the caches and the reply once a profile, or an error, has come back |
| DecryptCache.ProfileMayBeStale | python-deprecated/utils/crypto.py:271-276 | a profile id gets its old value while the entry lives, so the exception for profile ids is needed |
| DecryptCache.ResolveReplies | python-deprecated/utils/crypto.py:271-293 | the reply to a profile id is the profile that was found, the message, or an error, exactly as its look-up ended |
| DecryptCache.ProfileAnswered | python-deprecated/utils/crypto.py:243-248 | in every history what the caches answer to a profile id was looked up for that very id, less than its lifetime ago: a profile that was found, or a refusal |
| DecryptCache.FoundIsServed | python-deprecated/utils/crypto.py:246-276 | a profile that was found is the answer for as long as its entry lives |
| DecryptCache.RefusedProfileIsServed | python-deprecated/utils/crypto.py:280-290 | and a look-up that was refused, for as long as its mark lives |
| KeywordMinimise.FindRedundant | backend/scripts/optimize_keywords.py:29-46 | although it passes over keywords already found redundant, it finds exactly those within which another keyword lies properly, each with such a keyword |
| KeywordMinimise.Covering | backend/scripts/optimize_keywords.py:38-44 | the inner loop, which passes over keywords already found redundant, still finds a keyword that lies properly within the given one if there is any |
| KeywordMinimise.Minimal | backend/scripts/optimize_keywords.py:29-46 | within any text that contains a keyword lies one that is not covered |
| KeywordMinimise.Kept | backend/scripts/optimize_keywords.py:68-70 | exactly the keywords that are not covered are kept |
| KeywordMinimise.KeepsMeaning | backend/scripts/optimize_keywords.py:1-6 | every text matches a kept keyword if and only if it matches one of all |
| KeywordMinimise.KeptAreMinimal | backend/scripts/optimize_keywords.py:68-70 | no kept keyword lies properly within another |
| StreamLists.LimitStreams | python-deprecated/utils/parser.py:503-514 | the counting loop keeps the streams with fewer than the cap of their resolution before them, then the total cap keeps the first of these |
| StreamLists.FirstOfEach | python-deprecated/utils/parser.py:503-510 | of each resolution exactly the first streams up to the cap are kept |
| StreamLists.KeepsOrder | python-deprecated/utils/parser.py:503-510 | in the order of the list |
| StreamLists.Interleave | python-deprecated/utils/parser.py:691-704 | the iterators, advanced in turn and popped from the end, give every stream of every provider from its place, exactly once, ordered by place and then by provider |
| StreamLists.EachOnceInOrder | python-deprecated/utils/parser.py:691-704 | every stream of every provider is there exactly once, ordered by its place in its list and then by provider |
| ExceptionWalk.Walk | python-deprecated/db/retry_utils.py:16-35 | on every finite graph, cycles and sharing included, the walk ends and visits exactly the reachable exceptions, each once |
| ExceptionWalk.ReachesNoFurther | python-deprecated/db/retry_utils.py:16-35 | a set closed under links that holds the start holds all that is reachable |
| ExceptionWalk.IsPoolExhaustion | python-deprecated/db/retry_utils.py:38-49 | exhaustion is reported if and only if a reachable exception is a queue pool timeout |
| RateLimit.Redis.CheckRateLimit | backend/src/rate_limit_middleware.rs:69-87 | the counter after a request, and whether it is admitted |
| RateLimit.WindowLimit | backend/src/rate_limit_middleware.rs:69-87 | how many requests of one counter window are admitted from any of them on; at most `limit` in all |
| RateLimit.NoStartWithin | backend/src/rate_limit_middleware.rs:69-87 | a window reaches past every request less than its length behind its first |
| RateLimit.IntervalLimit | backend/src/rate_limit_middleware.rs:69-87 | of any requests within less than `window` at most 2 * limit - 1 are admitted, and none if the limit is not positive |
| RateLimit.BurstAdmitted | backend/src/rate_limit_middleware.rs:69-87 | for every positive limit and every window of at least two, requests at two neighbouring instants, after one earlier request, of which that many are admitted |
| RateLimit.SlidingIff | backend/src/rate_limit_middleware.rs:69-89 | for all limits and windows: no more than `limit` requests are admitted within less than `window`, on any trace, if and only if the limit or the window is at most one |

## Left out

- KeywordLease.ExclusionIff: a renewal interval of zero, on which `tokio::time::interval` panics.
- KeywordLease.SafeWhenFits: assumes owner tokens that are unique to an invocation, one clock for the database and all processes, timers that fire when due, a sweep that stops at once when its renewal loop ends, and media ids that do not change while a sweep runs. Whether dropped batches may take effect late is a parameter, as is the unfenced deletion.
- KeywordLease.FencedPublication: the same assumptions except those on time; a successful batch and its reply are one step, as are the two reads of `recompute_superseded`.
- KeywordLease: the scheduler's own steps are free: a request recorded, a lease deleted or an invocation started at any moment and in any order, which includes every order the source can produce. Statements other than renewals and batches take effect before their reply.
- KeywordEnds.LeavesNoLease: the lease that is there when the run begins is not of this invocation; a claim or renewal whose reply is lost leaves a lease that only goes stale.
- KeywordConverge.ConvergesIff: for an abort window of at least a second, without which every renewal ends the sweep; the reads and statements of one scheduling are taken together, and the pauses between attempts are not modelled.
- KeywordSweep: regular expressions other than alternations of literals; letters outside ASCII; concurrent writers of the swept columns; a batch that takes effect after its process has given it up, which is a step of KeywordLease; the SQL fragments built for queries.
- LzString: the other lz-string formats; the encoder is a specification, for the source has none.
- Bencode: numbers are read as the Rust parsers read them, an initial plus sign included; memory limits and stack depth are not modelled.
- MetadataFetch.FetchSound: a peer that sends a false slice is not caught here; the caller compares the hash of the metadata.
- MetadataFetch: proxies, peer discovery, racing of peers, the handshake and the extension handshake (steps 1 to 3), and the file list read from the metadata.
- Template: templates are ASCII; `get_value`, the modifiers and the comparisons are parameters of the renderer; the removal of blank lines after rendering is not modelled.
- Template.RenderIf: of the branch that is rendered, where a brace is text only because conditionals may not nest any deeper, that text would be a conditional outside of this one; the first and the last case leave such branches to Template.PrintedMeans.
- TemplateCondition.EvalMeans: atoms are comparisons or paths without the words `and`, `or` or a leading `not`; quoted strings do not protect such words in the source either.
- ProfileSecrets.RoundTrip: nested dictionaries are values, because the source copies the configuration deeply first and no aliasing remains; numbers are integers, since only their truth matters, and of an `_index` its value.
- ProfileSecrets: encryption of the secrets, masking for display, and the path helpers that nothing calls.
- CircuitBreakers.CountsMatchState: for a failure threshold of at least one; with less the breaker starts closed although no failure is allowed, and opens on the first.
- CircuitBreakers: the `call` wrapper is its check and its outcome as two events, so that other tasks may come between; times are reals.
- BatchProcessing.BatchProcess: a batch size of zero, on which `range` raises, or less, for which nothing is processed; the generator is run to its end; the pauses between rounds.
- DecryptCache.Transparent: decoding is deterministic and the digest injective; profile ids are excepted, for their answer depends on the database and may be as old as the cache entry.
- DecryptCache: locks; a direct secret is handled without suspension, a profile id in two steps with anything between them.
- KeywordMinimise.KeepsMeaning: case folding is any function; sorting and writing the file are left out.
- StreamLists: filtering and sorting before the caps; the separate grouping, which is plain concatenation; streams that are None, which do not occur.
- ExceptionWalk.IsPoolExhaustion: whether a single exception is a queue pool timeout is given.
- RateLimit.IntervalLimit: Redis answers, and increment and expiry are one step; a request admitted because Redis failed is not counted.
- Everything that is SQL, Redis or HTTP plumbing, route handling, posters, user interface, scrapers, administration scripts and migrations: thin, or settled by reading one branch.
