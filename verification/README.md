# Verified model of the streamclone chat and emote core

This project models, in Dafny, the parts of streamclone whose correctness does
not show in any single function, and proves what they promise together:

- **Chat tokenizers.** The server's heap trie (`Trie.dfy`), the two browser
  copies over a lookup map (`EmoteText.dfy`) and the splicing of native emote
  spans (`EmotesTag.dfy`, `NativeEmotes.dfy`). `Tokens.dfy` holds the functions
  they are all proved against, `TokenLaws.dfy` what those functions promise,
  `Blanks.dfy` exactly which blanks they drop and `Pieces.dfy` which word becomes
  which fragments.
- **Redaction** (`Redact.dfy`). Six rewriting passes; the secret shapes are
  stated as predicates, the matchers are proved to find exactly their longest
  instances, and no pass brings back what an earlier one removed. `RedactTrace.dfy`
  says on the input alone what is cut out of it.
- **Emote dictionary protocol.** A small Redis (`RedisStore.dfy`), the writer
  (`EmoteDict.dfy`), the reader (`Enrich.dfy`), and both as one step system
  (`DictProtocol.dfy`), which `Reader.dfy` ties to the reader's loop and trie.
- **Graph algorithms.** The two-way bounded breadth-first search
  (`CallChain.dfy`) and alias resolution with cycle detection
  (`CanonicalStream.dfy`).
- **Fan-out state machines.** The IRC socket pool (`IrcPool.dfy`), the hub and
  its bounded client queues (`Hub.dfy`, module `ChatHub`), the leading-edge
  batcher (`Batcher.dfy`) and the browser's message list (`ChatStore.dfy`).
- **Arithmetic and control.** The token bucket (`RateLimiter.dfy`), the
  live-latency controller (`Latency.dfy`) and the line-protocol printer
  (`LineProtocol.dfy`, `Rollups.dfy`).

Classes keep the form of the source's objects; every method of such a class is
proved to take its abstract state (`View()`, `Names()`) through a step function,
and the theorems are about runs of these step functions. Where several
goroutines meet, one step is one section under the lock. Calls that leave the
process (Redis answers, dials, clocks, the alias query, the call graph) are
parameters or nondeterministic choices.

`dafny verify dfyconfig.toml` checks the whole project.

## What the proofs turned up

- A chain of exactly 64 distinct stream ids whose last one links back into the
  chain is a cycle, but resolution gives up on it instead of reporting it: the
  65th look is never taken (`CanonicalStream.PathDecides`,
  `CanonicalStream.RingOf64GivesUp`).
- A bearer token whose keyword is taken for the value of another one in front of it
  is not cut as a whole: `bearer bearer x` keeps its `x`
  (`RedactTrace.BearerBearer`). All bearer tokens of a string are cut exactly when
  none starts inside another (`RedactTrace.BearersAreCovered`).
- The recovery branch of the latency controller never moves to a faster mode;
  only `reset` can (`Latency.RecoveryNeverSpeedsUp`,
  `Latency.RecoveryNeedsAFasterReset`).
- A rebuild from an empty emote list removes the dictionary, but readers go on
  serving the one they have (`DictProtocol.EmptyRebuildIsNotNoticed`); every other
  rebuild is noticed (`DictProtocol.RebuildIsNoticed`). A patch that removes the
  last entry goes unnoticed in the same way, and no other patch does
  (`DictProtocol.PatchIsNoticed`).
- A native emote span that ends at the largest 64-bit integer is accepted by the
  tag parser and makes splicing panic, because one past its end wraps around
  (`NativeEmotes.LongestSpanPanics`); every other message is spelled
  (`NativeEmotes.SplicedMessageIsSpelled`).
- The staging key of a login is the dictionary key of the login with `:rebuild`
  appended (`EmoteDict.RebuildDisturbs`).
- A channel can end up on two sockets: after a part and a join during a
  reconnect's backoff (`IrcPool.InterleavedJoinDuplicates`), and without any
  reconnect after a part and a second join while the first is still dialling
  (`IrcPool.ConcurrentDialsDuplicate`). It never does exactly when no step gives
  a socket a channel that another socket in use reads
  (`IrcPool.RunKeepsOnePlaceIffHeeding`).
- A channel with subscribers can end up unread, when one join's dial gives up while
  another was counted (`IrcPool.GivingUpForgetsTheOther`), and a channel without
  any can end up read, when it is parted while its dial is under way
  (`IrcPool.LateDialReadsInVain`). Neither happens exactly when no dial or
  reconnect gives up a channel nothing else cares for, no dial ends unwanted, and
  the last to leave leaves no reader behind (`IrcPool.RunKeepsDemandIffHeeding`).
- The per-socket limit needs room for at least one channel
  (`IrcPool.LimitNeedsRoom`).
- A first client who comes within a grace period joins the channel in IRC once
  more (`ChatHub.SubscribeCountsOnce`), and every teardown parts it once. A join is
  left over when a grace period ends while the channel is in use again and its part
  is needed: after coming back to a channel (`ChatHub.ComingBackLeaksAJoin`), and
  after a refused and then a granted subscription
  (`ChatHub.RefusedSubscriptionLeaksAJoin`). Every join stays covered exactly when
  no step does that (`ChatHub.RunKeepsCoveredIffHeeding`).
- The playback rate can exceed the limit reported with it, after a downgrade or
  on the first tick after a reset to a mode faster than the user's
  (`Latency.RateMayOutrunTheNewMode`, `Latency.RateOutrunsAfterAFasterReset`).
- Batches of one channel may be emitted out of order
  (`Batcher.EmissionMayOvertake`). A run keeps each channel's order exactly when
  no emission overtakes a batch of its own channel
  (`Batcher.RunKeepsOrderIffGuarded`).
- Printed points are read back if and only if no name or value in them holds a
  newline (`LineProtocol.PrintedPointsReadBack`), which a stream title may
  (`Rollups.NewlineInTitle`).
- The echo of one's own message is recognised exactly when server and browser
  drop the same blanks (`ChatStore.EchoIsRecognised`,
  `ChatStore.EchoNeedsTheSameBlanks`). It is missed by a browser that has not
  loaded a zero-width emote (`ChatStore.UnloadedZeroWidthMissesTheEcho`), and even
  over the same emotes when a native emote stands in front of a zero-width one
  (`ChatStore.NativeEmoteMissesTheEcho`).
- Blanks in front of a combined word are kept even when the word's base is a
  zero-width emote (`Blanks.CombinedWordKeepsItsBlank`); only a zero-width emote
  that is a word of its own drops them (`Blanks.ContentsAreKept`).

## Model

| member | source | states |
|---|---|---|
| `Trie.Trie.Insert` | internal/chat/tokenize/tokenize.go:30-45 | inserting on the heap gives the name its new emote and leaves every other name alone |
| `Trie.Trie.Match` | internal/chat/tokenize/tokenize.go:47-60 | walking the nodes finds exactly the stored names |
| `Trie.InsertAll` | internal/chat/tokenize/tokenize.go:30-45 | after any sequence of inserts the trie holds the dictionary of `LastWriteWins` |
| `Trie.LastWriteWins` | internal/chat/tokenize/tokenize.go:30-45 | a name is in that dictionary if and only if it was inserted, with the emote of its last insertion |
| `Trie.Trie.MatchZeroWidthChain` | internal/chat/tokenize/tokenize.go:83-104 | the loops over the trie compute the greedy chain of `Tokens.ChainIsGreedy`, and fail on the empty text |
| `Tokens.ChainIsGreedy` | internal/chat/tokenize/tokenize.go:78-104 | a chain is found if and only if the text can be consumed by taking the longest zero-width name each time, and it is that one |
| `Trie.Trie.SplitZeroWidthSuffix` | internal/chat/tokenize/tokenize.go:62-76 | the loop over the trie computes the split of `Tokens.SplitSuffixIsLongest` |
| `Tokens.SplitSuffixIsLongest` | internal/chat/tokenize/tokenize.go:62-76 | the split has the longest proper base that works, base and overlays spell the word, and there is none only when no base works |
| `Trie.SplitMentionToken` | internal/chat/tokenize/tokenize.go:192-209 | the loop finds the longest mention at the start of the word |
| `Trie.Trie.Tokenize` | internal/chat/tokenize/tokenize.go:106-167 | the loop over the message computes the fragments of `Pieces.WordsDecideFragments` over the stored names, and one empty text fragment for the empty message |
| `Pieces.WordsDecideFragments` | internal/chat/tokenize/tokenize.go:106-209 | every word that is a name becomes its one emote, any other with a split the emotes of its longest base and its overlays, any other that starts with a mention that mention; between these lies, in order, what the text keeps there as text, and there is nothing else |
| `Pieces.GivesOnce` | internal/chat/tokenize/tokenize.go:139-161 | a word becomes one thing at most: a name comes before a split, a split before a mention |
| `Trie.ChannelDict.Tokenize` | internal/chat/tokenize/tokenize.go:184-190 | a channel without a dictionary serves plain text, any other the fragments of the trie swapped in last |
| `Trie.ServedFragmentsSpell` | internal/chat/tokenize/tokenize.go:184-190 | what a channel serves spells the message, up to blanks before a zero-width emote |
| `TokenLaws.TokenizingIsLossless` | internal/chat/tokenize/tokenize.go:106-167 | for every dictionary and text the contents concatenate to the text but for blanks, each between an emote and a zero-width emote right after it |
| `Blanks.ContentsAreKept` | internal/chat/tokenize/tokenize.go:106-167 | the contents are the text without exactly those stretches that lie between an emote word and a word that is itself a zero-width name, with nothing but blanks that are no emotes in them |
| `Blanks.CombinedWordKeepsItsBlank` | internal/chat/tokenize/tokenize.go:141-153 | a word made of two zero-width names keeps the blank behind an emote |
| `TokenLaws.TokenizingIsExactWithoutZeroWidth` | internal/chat/tokenize/tokenize.go:106-167 | without zero-width names the contents concatenate to exactly the text |
| `TokenLaws.FragmentsAreWellShaped` | internal/chat/tokenize/tokenize.go:106-174 | no fragment is empty, no two text fragments are adjacent, every emote fragment is its dictionary entry |
| `TokenLaws.NonemptyTextHasFragments` | internal/chat/tokenize/tokenize.go:106-167 | a nonempty message has fragments |
| `TokenLaws.ServerAndBrowserAgree` | internal/chat/tokenize/tokenize.go:106-167 | for every dictionary and text, turning mentions into text and joining adjacent text gives the fragments computed without mentions |
| `TokenLaws.ServerAndBrowserContentsAgree` | internal/chat/tokenize/tokenize.go:106-167 | both sides spell the same contents |
| `EmoteText.BuildEmoteLookup` | frontend/src/emoteText.ts:7-13 | the lookup map has the last emote of each nonempty name |
| `EmoteText.MatchZeroWidthChain` | frontend/src/emoteText.ts:15-35 | over the lookup map, the greedy chain of `Tokens.ChainIsGreedy` |
| `EmoteText.SplitZeroWidthSuffix` | frontend/src/emoteText.ts:37-47 | over the lookup map, the split of `Tokens.SplitSuffixIsLongest` |
| `EmoteText.TokenizeEmoteText` | frontend/src/emoteText.ts:49-101 | the caption tokenizer computes the fragments without mentions |
| `EmoteText.TokenizeClientSide` | frontend/src/chatStore.ts:188-241 | the chat tokenizer of the browser computes the fragments without mentions |
| `EmoteText.ThreeTokenizersAgree` | frontend/src/emoteText.ts:49-101 | over the same emotes and any nonempty text, the server's fragments with mentions and text joined are exactly those of both browser tokenizers |
| `EmotesTag.SortSpans` | internal/chat/parse/emotes.go:48-53 | the result is ordered by start, then end, and a permutation of the input |
| `EmotesTag.ParseEmotesTag` | internal/chat/parse/emotes.go:17-55 | the spans are well-formed and ordered, and exactly those the tag holds |
| `EmotesTag.TagReadsBack` | internal/chat/parse/emotes.go:16-55 | a tag written from any emote groups parses to exactly their spans |
| `NativeEmotes.TokenizeWithNative` | internal/chat/enrich/enrich.go:90-121 | the loop, with its wrapping 64-bit sum, computes the splice of the served dictionary around the native spans, or panics |
| `NativeEmotes.KeptAreDisjoint` | internal/chat/enrich/enrich.go:96-116 | the spans that are kept follow each other without overlap inside the message |
| `NativeEmotes.EverySpanIsCovered` | internal/chat/enrich/enrich.go:96-116 | of ordered spans, every one that starts in the message is kept or overlaps one that is |
| `NativeEmotes.KeptSpansAreEmotes` | internal/chat/enrich/enrich.go:104-115 | when splicing returns, every kept span has become a native emote fragment with the runes it covers |
| `NativeEmotes.SplicedMessageIsSpelled` | internal/chat/enrich/enrich.go:90-121 | splicing returns if and only if no kept span ends at the largest 64-bit integer, and then the fragments spell the whole message, up to blanks before a zero-width emote |
| `NativeEmotes.LongestSpanPanics` | internal/chat/enrich/enrich.go:100-107 | the tag `25:0-9223372036854775807` parses, and splicing its span into any message panics |
| `NativeEmotes.SplicedContents` | internal/chat/enrich/enrich.go:90-121 | the spliced contents are the text without exactly the blanks dropped in front of, between and behind the kept spans |
| `Redact.MatchEndIsLongest` | internal/redact/redact.go:38-48 | at every position each matcher finds the longest instance of its pattern, or there is none |
| `Redact.ReplaceAll` | internal/redact/redact.go:75-77 | one pass of the loop replaces the leftmost instances, left to right |
| `Redact.RedactStandaloneTokens` | internal/redact/redact.go:87-111 | the loop over the runs cuts those that no letter or digit borders |
| `Redact.TokensAreRuns` | internal/redact/redact.go:49-53 | what the last pass cuts is exactly a run of thirty or more lower-case letters and digits standing alone |
| `Redact.PassKeepsFree` | internal/redact/redact.go:59-77 | a later pass does not bring back an instance of any pattern that was absent |
| `Redact.Redact` | internal/redact/redact.go:69-78 | the six passes compute the string of `RedactTrace.RedactedIsCut`, and it holds no secret |
| `RedactTrace.RedactedIsCut` | internal/redact/redact.go:39-111 | the result is the input with the placeholder in place of disjoint stretches, all else kept in place: for the patterns in their order the longest matches that earlier patterns leave, leftmost first, and then exactly the runs that stand alone; there are no other stretches |
| `RedactTrace.MatchesAreCut` | internal/redact/redact.go:59-78 | every match in the input is cut as a whole, overlapped by what an earlier pattern cut, or entered by the value of a match of its own pattern further left |
| `RedactTrace.BearersAreCovered` | internal/redact/redact.go:39-40 | every bearer token of the input is cut as a whole if and only if none starts inside another |
| `RedactTrace.BearerBearer` | internal/redact/redact.go:39-40 | in `bearer bearer x` one does |
| `Redact.RedactedIsSecretFree` | internal/redact/redact.go:11-15 | for every string, no instance of the five patterns and no run standing alone survives |
| `Redact.RedactedFixpoint` | internal/redact/redact.go:67-79 | a string is left as it is if and only if it holds no secret shape |
| `Redact.RedactIsIdempotent` | internal/redact/redact.go:67-79 | redacting twice is redacting once |
| `Redact.Log` | internal/redact/redact.go:119-133 | a log line is message, pairs and a left-over field, redacted as a whole |
| `EmoteDict.RebuildCommandsRebuild` | internal/emote/dict/dict.go:118-129 | the queued commands, one after the other, put the whole new dictionary with its expiry in place of the old one |
| `EmoteDict.SetFieldsLastWins` | internal/emote/dict/dict.go:110-123 | the hash built has exactly the names in the list, each with its last value |
| `EmoteDict.Dict.Rebuild` | internal/emote/dict/dict.go:98-134 | an accepted rebuild replaces the dictionary at once, a rejected one leaves it and at most gives it an expiry |
| `EmoteDict.RebuildDisturbs` | internal/emote/dict/dict.go:39-41 | a rebuild leaves another channel's dictionary alone if and only if that channel is not named like the staging key |
| `EmoteDict.Dict.AddEmote` | internal/emote/dict/dict.go:146-149 | the script sets one entry and renews the expiry of an existing dictionary, and reports a missing one untouched |
| `EmoteDict.Dict.RemoveEmote` | internal/emote/dict/dict.go:153-156 | the script removes one entry and renews the expiry; the last entry takes the dictionary with it |
| `EmoteDict.Dict.BackfillPage` | internal/emote/dict/dict.go:238-282 | the count returned is the number of dictionaries that got an expiry; without a TTL nothing changes |
| `EmoteDict.BackfillBoundsLegacy` | internal/emote/dict/dict.go:220-282 | every scanned dictionary without an expiry gets one, no existing expiry changes, no entry is touched |
| `DictProtocol.EveryRunKeepsLive` | internal/emote/dict/dict.go:90-97 | in every run of rebuilds, patches, expiries and backfills a live dictionary is the last accepted rebuild with all later patches, never empty, and has an expiry whenever one is configured |
| `DictProtocol.OnlyRebuildCreates` | internal/emote/dict/dict.go:143-149 | no patch and nothing else but an accepted rebuild brings a dictionary into being |
| `DictProtocol.CacheIsSnapshot` | internal/chat/enrich/enrich.go:201-220 | a reader changes what it serves only to the whole dictionary it reads |
| `DictProtocol.EveryRunServesSnapshots` | internal/chat/enrich/enrich.go:173-220 | in every run a reader serves what it started with or a dictionary as it was built at some moment |
| `DictProtocol.QuiescentReaderAgrees` | internal/chat/enrich/enrich.go:173-220 | in every run, with no delta on its way and none missed, the reader serves the live dictionary |
| `DictProtocol.EmptyRebuildIsNotNoticed` | internal/chat/enrich/enrich.go:206-211 | after a rebuild from an empty list and its delta, the dictionary is gone and the reader serves what it served |
| `DictProtocol.RebuildIsNoticed` | internal/chat/enrich/enrich.go:206-220 | after a rebuild and its delta the reader serves what was built if and only if the list was not empty or the reader served nothing |
| `DictProtocol.PatchIsNoticed` | internal/emote/dict/dict.go:143-207 | after a patch of a live dictionary and its delta the reader serves what is left if and only if an entry is left or the reader served nothing; without an entry the dictionary is gone and the reader serves what it served |
| `Enrich.LoadTrie` | internal/chat/enrich/enrich.go:158-170 | in whatever order the hash is walked, the trie holds exactly its entries that decode |
| `Enrich.Reload` | internal/chat/enrich/enrich.go:206-220 | a reload serves the whole hash read, and keeps what was served when the read fails or the key is missing |
| `Enrich.DeltaLoop.OnTimer` | internal/chat/enrich/enrich.go:193-196 | the timer reloads once and is disarmed |
| `Reader.OnDelta` | internal/chat/enrich/enrich.go:183-192 | receiving a delta takes the loop and the trie it serves through the step system's step |
| `Reader.OnTimer` | internal/chat/enrich/enrich.go:193-220 | so does the timer, with a hit, a missing key or a failed read |
| `Reader.OthersLeaveTheReader` | internal/chat/enrich/enrich.go:173-220 | no other step of the system, a writer's or a publication, touches the loop's timer or what it serves, so these two are all the loop does |
| `Reader.EveryRunShowsSnapshots` | internal/chat/enrich/enrich.go:173-220 | in every run the trie served shows what it started with or a whole dictionary as it was built at some moment |
| `Reader.QuiescentTrieAgrees` | internal/chat/enrich/enrich.go:173-220 | in every run, with no delta on its way and none missed, the trie served shows the live dictionary |
| `Enrich.Enricher.Ensure` | internal/chat/enrich/enrich.go:123-145 | a channel gets one dictionary, holding what Redis held or nothing; other channels keep theirs |
| `Enrich.Enricher.Tokenize` | internal/chat/enrich/enrich.go:61-72 | plain or spliced, the fragments spell the message, up to blanks before a zero-width emote, unless a kept span ends at the largest 64-bit integer |
| `CallChain.Search` | tools/codegraph/codegraph_mcp.py:104-147 | one search finds everything within reach of its seed, at no more than its distance, and the calls on the way, on top of what earlier searches found |
| `CallChain.GetCallChain` | tools/codegraph/codegraph_mcp.py:91-156 | on every call graph, with the depth held between 1 and 3: a symbol of any kind is listed if and only if a nonempty path of at most that many calls, through functions, joins it to a seed, at the length of the shortest such path and as the far end of its last edge; every call is an edge once for each of its copies and each seed from which it goes on from the end of a shortest path, and there are no others |
| `CallChain.RowsCount` | tools/codegraph/query.py:104-140 | the query for a node returns every call out of it, to functions and to classes, or every call into it as a function, as often as the graph holds it |
| `CallChain.TotalIsPositive` | tools/codegraph/codegraph_mcp.py:104-147 | a call is an edge at all if and only if it goes on from the end of a shortest path from some seed |
| `CallChain.CallersMirrorCallees` | tools/codegraph/codegraph_mcp.py:111-147 | both directions, run through one queue, search the same relation from either end |
| `CanonicalStream.Unique` | internal/canonicalstream/resolver.go:82-97 | the loop computes the trimmed ids of `UniqueOfHas` |
| `CanonicalStream.UniqueOfHas` | internal/canonicalstream/resolver.go:81-97 | an id is in the result if and only if it is nonempty and what trimming leaves of a candidate |
| `CanonicalStream.StableID` | internal/canonicalstream/resolver.go:71-79 | the first after sorting is the least of the unique ids |
| `CanonicalStream.StableIdIgnoresOrder` | internal/canonicalstream/resolver.go:71-79 | candidates may come in any order and any number of times |
| `CanonicalStream.StableIdIsOneOf` | internal/canonicalstream/resolver.go:71-79 | the stable id of trimmed, nonempty candidates is one of them |
| `CanonicalStream.Resolve` | internal/canonicalstream/resolver.go:28-69 | the loop computes the outcome of `ResolveIsExact` and asks at most 64 times |
| `CanonicalStream.IdsWithoutAliasAreCanonical` | internal/canonicalstream/resolver.go:28-69 | a blank id resolves to nothing; any other is its own canonical id, on a path of one, if and only if the query returns no row, a blank one or the id itself; resolution fails if and only if a query on the way does |
| `CanonicalStream.ResolveIsExact` | internal/canonicalstream/resolver.go:28-69 | told by the answers of the query, each followed to its trimmed value: what is found is there, a path without repeats to an id without an alias, a closed chain, 64 distinct ids with one still to follow, or an id whose lookup fails |
| `CanonicalStream.PathDecides` | internal/canonicalstream/resolver.go:28-69 | what is there is found: each of these four kinds of path decides the outcome, canonical id and cycle included |
| `CanonicalStream.RingOf64GivesUp` | internal/canonicalstream/resolver.go:36-68 | a closed chain of 2 to 63 ids is found, one of 64 makes resolution give up |
| `CanonicalStream.CanonicalIsStable` | internal/canonicalstream/resolver.go:28-69 | when an id resolves, every id on its path, the one it links to and the canonical id itself resolve to the same canonical id |
| `LineProtocol.EscapeTagIsOnePass` | internal/timeseries/writer.go:562-568 | the four replacements in a row put one backslash before each special character and touch nothing else |
| `LineProtocol.PrintedPointsReadBack` | internal/timeseries/writer.go:412-470 | a backslash-aware reader recovers every printed point if and only if no name or value holds a newline |
| `Rollups.BuildInfluxLineProtocol` | internal/timeseries/writer.go:412-448 | the printer writes exactly the points of all rollups that are not skipped, under some walk of each emote map |
| `Rollups.RollupsReadBack` | internal/timeseries/writer.go:412-505 | what is printed reads back as the very points if and only if no printed rollup holds a newline in its channel, stream, sanitized title or category, or the key of a used emote |
| `Rollups.NewlineInTitle` | internal/timeseries/writer.go:476-479 | a title with a newline inside does not read back |
| `Rollups.CountUniqueEmotes` | internal/timeseries/writer.go:486-497 | the loop counts the emotes used at least once |
| `Rollups.UniqueCountIsEmoteLines` | internal/timeseries/writer.go:420-466 | `unique_emote_count` is the number of emote lines printed for the rollup |
| `Rollups.CloneRollups` | internal/timeseries/writer.go:521-541 | the loop drops skipped rollups and unused emotes, and nothing else |
| `Rollups.FilteringIsInvisible` | internal/timeseries/writer.go:521-541 | a text may be printed for rollups if and only if it may be printed for the filtered ones |
| `IrcPool.Manager.PickConn` | internal/chat/ircconn/ircconn.go:99-106 | the loop finds the first socket with room |
| `IrcPool.PickHasRoom` | internal/chat/ircconn/ircconn.go:99-106 | a socket picked is in use and has room, and none is picked only when all are full |
| `IrcPool.Manager.Join` | internal/chat/ircconn/ircconn.go:45-60 | the first locked section of a join counts the subscriber and places a first one where there is room |
| `IrcPool.Manager.DialFailed` | internal/chat/ircconn/ircconn.go:62-71 | a join whose dial gave up takes its subscriber back |
| `IrcPool.Manager.Attach` | internal/chat/ircconn/ircconn.go:72-76 | the new socket is in use and reads the channel |
| `IrcPool.Manager.Part` | internal/chat/ircconn/ircconn.go:80-97 | the last part takes the channel off its socket |
| `IrcPool.Manager.DetachDead` | internal/chat/ircconn/ircconn.go:180-195 | a dead socket leaves the pool and its channels lose their place |
| `IrcPool.Manager.StillWanted` | internal/chat/ircconn/ircconn.go:218-225 | the loop over the waiting channels finds exactly those that have subscribers |
| `IrcPool.Manager.AttachAgain` | internal/chat/ircconn/ircconn.go:239-251 | the new socket takes over the waiting channels that have subscribers |
| `IrcPool.EveryRunIsMapped` | internal/chat/ircconn/ircconn.go:45-258 | in every interleaving of the locked sections a channel's socket is in use and knows the channel, and no socket holds more channels than allowed |
| `IrcPool.LimitNeedsRoom` | internal/chat/ircconn/ircconn.go:62-76 | a join with a new socket keeps the limit if and only if the limit is at least one |
| `IrcPool.WholeJoinIsExact` | internal/chat/ircconn/ircconn.go:45-78 | a join that is not interleaved keeps every subscribed channel on exactly one socket and counts one subscriber more |
| `IrcPool.FailedJoinLeavesNoTrace` | internal/chat/ircconn/ircconn.go:45-71 | a join that is not interleaved and whose dial gives up leaves the pool exactly as it was |
| `IrcPool.PartIsExact` | internal/chat/ircconn/ircconn.go:80-97 | a part keeps that too and counts one subscriber less, never fewer than none |
| `IrcPool.WholeReconnectIsExact` | internal/chat/ircconn/ircconn.go:180-258 | so does a reconnect that is not interleaved, and it changes no count |
| `IrcPool.ExactMeansOnePlace` | internal/chat/ircconn/ircconn.go:45-97 | a channel has subscribers if and only if some socket in use reads it, and then only one does |
| `IrcPool.InterleavedJoinDuplicates` | internal/chat/ircconn/ircconn.go:210-251 | a part and a join while a socket is redialled put the channel on two sockets |
| `IrcPool.ConcurrentDialsDuplicate` | internal/chat/ircconn/ircconn.go:45-97 | so do a part and a second join while the first join is still dialling, without any reconnect |
| `IrcPool.AttachKeepsOnePlace` | internal/chat/ircconn/ircconn.go:72-76 | a dialled socket leaves no channel with two places if and only if no socket in use reads the one it takes |
| `IrcPool.ReconnectKeepsOnePlace` | internal/chat/ircconn/ircconn.go:239-246 | a redialled socket does so if and only if no socket in use reads a channel it takes over |
| `IrcPool.JoinKeepsOnePlace` | internal/chat/ircconn/ircconn.go:45-60 | so does the first section of a join if and only if no socket but the one picked reads the channel |
| `IrcPool.RunKeepsOnePlaceIffHeeding` | internal/chat/ircconn/ircconn.go:45-258 | in a run no channel ever has two places if and only if every step heeds these conditions |
| `IrcPool.StepKeepsAttended` | internal/chat/ircconn/ircconn.go:45-258 | a step leaves every channel with subscribers placed, dialled for or waiting if and only if whoever gives up a channel with subscribers left is not the only one to care for it |
| `IrcPool.StepKeepsNoneIdle` | internal/chat/ircconn/ircconn.go:45-258 | a step leaves no channel without subscribers on a socket in use if and only if a dial ends while its channel is wanted, a last part finds nobody but the channel's own socket reading it, and a last dial that gives up finds nobody |
| `IrcPool.RunKeepsDemandIffHeeding` | internal/chat/ircconn/ircconn.go:45-258 | in a run both hold throughout if and only if every step heeds these conditions |
| `IrcPool.QuietIsExact` | internal/chat/ircconn/ircconn.go:45-258 | with no dial or reconnect under way, exact placement is the same as both of these and one place for each channel |
| `IrcPool.HeedingRunsAreExact` | internal/chat/ircconn/ircconn.go:45-258 | from the empty pool, a run that heeds all conditions is exact whenever no dial or reconnect is under way |
| `IrcPool.GivingUpForgetsTheOther` | internal/chat/ircconn/ircconn.go:45-71 | two joins and the first one's dial giving up leave a subscriber, no socket and nothing under way |
| `IrcPool.LateDialReadsInVain` | internal/chat/ircconn/ircconn.go:62-97 | a part while the join is dialling leaves a socket reading a channel without subscribers |
| `ChatHub.Client.Deliver` | internal/chat/hub/hub.go:284-300 | delivery appends the frame, giving up the oldest one when the queue is full |
| `ChatHub.Client.Take` | internal/chat/hub/hub.go:117-131 | the write loop takes the oldest waiting frame |
| `ChatHub.QueueIsBoundedSuffix` | internal/chat/hub/hub.go:284-300 | in every run a queue holds exactly the newest unread frames up to its capacity, and frames are taken in the order of delivery, none twice |
| `ChatHub.Hub.Accept` | internal/chat/hub/hub.go:97-105 | a new client is registered without channels |
| `ChatHub.Hub.EnterTables` | internal/chat/hub/hub.go:161-169 | the locked section lets the client in and tells whether it is the channel's first |
| `ChatHub.Hub.LeaveTables` | internal/chat/hub/hub.go:200-212 | the locked section lets the client go; the last one out starts a grace period |
| `ChatHub.Hub.StartListening` | internal/chat/hub/hub.go:172-190 | the first client joins the channel in IRC and listens in Redis; a subscription kept over a grace period ends |
| `ChatHub.Hub.Subscribe` | internal/chat/hub/hub.go:156-193 | the whole step and the frames the client is told, for a valid or invalid name and a granted or refused subscription |
| `ChatHub.ToldSubscribedIsMember` | internal/chat/hub/hub.go:156-193 | a client is told "subscribed", and nothing else, if and only if it is in the channel afterwards; no other membership changes |
| `ChatHub.MembersHaveSubscribed` | internal/chat/hub/hub.go:156-282 | in every run a client is in a channel if and only if, while connected, it subscribed to that valid name without being refused, and neither unsubscribed nor disconnected since; only a channel's first client can be refused |
| `ChatHub.ClientsAreOnline` | internal/chat/hub/hub.go:97-115 | in every run the hub's clients are those that have connected and not disconnected |
| `ChatHub.Hub.Unsubscribe` | internal/chat/hub/hub.go:195-231 | the whole step and the frame the client is told |
| `ChatHub.Hub.Teardown` | internal/chat/hub/hub.go:210-228 | a channel still empty when its grace period ends is parted and its subscription ends; any other is left alone |
| `ChatHub.Hub.RemoveClient` | internal/chat/hub/hub.go:267-282 | leaving channel by channel, in any order, takes the client out of all of them |
| `ChatHub.Hub.Broadcast` | internal/chat/hub/hub.go:302-313 | every client of the channel gets the frame, and nobody else does |
| `ChatHub.EveryRunKeepsInv` | internal/chat/hub/hub.go:156-282 | in every run client and channel tables mirror each other, and running subscriptions are exactly those the hub can end |
| `ChatHub.EveryRunServesSubscribers` | internal/chat/hub/hub.go:156-231 | in every run a subscribed channel is joined at least once in IRC and has exactly one live subscription; with no teardown due, no other has one |
| `ChatHub.SubscribeCountsOnce` | internal/chat/hub/hub.go:172-190 | joins stay one per channel if and only if a first client does not come within a grace period and is not refused |
| `ChatHub.NothingElseMiscounts` | internal/chat/hub/hub.go:195-282 | connecting, leaving and teardowns keep joins at one per channel |
| `ChatHub.ComingBackLeaksAJoin` | internal/chat/hub/hub.go:172-228 | leaving, coming back, a teardown that finds the channel in use, leaving again and the second teardown leave the channel joined with no teardown due |
| `ChatHub.RefusedSubscriptionLeaksAJoin` | internal/chat/hub/hub.go:172-228 | so do a refused subscription, a granted one, the teardown of the first, leaving and the second teardown |
| `ChatHub.StepKeepsCovered` | internal/chat/hub/hub.go:156-282 | every join stays needed by the channel's clients or to be ended by a teardown due over a step if and only if the step is not the end of a grace period of a channel in use with more joins than teardowns due |
| `ChatHub.RunKeepsCoveredIffHeeding` | internal/chat/hub/hub.go:156-282 | in a run that holds throughout if and only if no step is such an end |
| `ChatHub.HeedingRunsLeakNoJoin` | internal/chat/hub/hub.go:156-282 | from the start, after a run without such an end a joined channel has clients or a teardown due |
| `ChatHub.UncoveredJoinsStay` | internal/chat/hub/hub.go:210-228 | when all teardowns due of a channel without clients have run, it is still joined if and only if its joins were not covered |
| `Batcher.Batcher.Add` | internal/chat/batch/batch.go:55-76 | without a running timer the message is extracted at once and the timer armed, otherwise it is pending |
| `Batcher.Batcher.Flush` | internal/chat/batch/batch.go:78-90 | the timer is disarmed and everything pending is extracted as one batch |
| `Batcher.EveryRunKeepsInv` | internal/chat/batch/batch.go:55-104 | in every interleaving of adds, timers and emissions the tables and histories agree |
| `Batcher.EveryRunLosesNothing` | internal/chat/batch/batch.go:55-104 | extracted batches followed by what is pending are what was added, in order; pending implies an armed timer; once all is emitted, every message is emitted exactly once |
| `Batcher.EmissionMayOvertake` | internal/chat/batch/batch.go:73-90 | emission outside the lock may reorder two batches of a channel |
| `Batcher.EmitKeepsOrder` | internal/chat/batch/batch.go:92-104 | emitting a batch keeps its channel's order if and only if its messages commute with those it overtakes, and never disturbs another channel |
| `Batcher.EmitKeepsOrderIffNothingIsOvertaken` | internal/chat/batch/batch.go:92-104 | for a batch of messages of its own that is when no earlier batch in flight is of its channel |
| `Batcher.RunKeepsOrderIffGuarded` | internal/chat/batch/batch.go:55-104 | a run of distinct messages emits every channel in order throughout if and only if no emission overtakes a batch of its own channel |
| `RateLimiter.Bucket.Take` | internal/httpx/ratelimit.go:36-45 | updating the fields in place refills up to the burst and takes a token if there is a whole one |
| `RateLimiter.RateLimiter.Allow` | internal/httpx/ratelimit.go:27-46 | one call changes the caller's bucket only |
| `RateLimiter.TokensStayInRange` | internal/httpx/ratelimit.go:27-46 | tokens stay between zero and the burst |
| `RateLimiter.PassesIffEveryWindowHasRoom` | internal/httpx/ratelimit.go:27-46 | a request passes if and only if, for every earlier request of the address, what passed since and this one fit into the burst and what the time since has brought |
| `RateLimiter.WindowBound` | internal/httpx/ratelimit.go:27-46 | in any window at most the burst plus rate times its length pass |
| `RateLimiter.BoundNeedsABurst` | internal/httpx/ratelimit.go:31-35 | for a first request that bound holds if and only if the burst is at least one |
| `RateLimiter.SpacedRequestsPass` | internal/httpx/ratelimit.go:36-45 | a request at least one token's time after the address' earlier ones is never refused |
| `RateLimiter.KeysAreIndependent` | internal/httpx/ratelimit.go:27-46 | an address' requests are decided as if there were no others |
| `Latency.Controller.Tick` | frontend/src/liveLatencyController.ts:65-132 | the branches compute the step and the output |
| `Latency.Controller.Reset` | frontend/src/liveLatencyController.ts:134-140 | a reset starts over in the given mode |
| `Latency.RecoveryNeverSpeedsUp` | frontend/src/liveLatencyController.ts:98-121 | the mode after a tick is the one before, one slower after a downgrade, and never faster than the user's nor than before |
| `Latency.RecoveryNeedsAFasterReset` | frontend/src/liveLatencyController.ts:103-121 | the recovery branch runs only while a reset holds a mode faster than the user's, and no tick leaves one |
| `Latency.RateIsBounded` | frontend/src/liveLatencyController.ts:76-89 | the playback rate lies between one and the catch-up rate of the mode before the tick, and above one if and only if the player is behind by more than the slack but within reach |
| `Latency.RateMayOutrunTheNewMode` | frontend/src/liveLatencyController.ts:76-123 | it exceeds the new mode's limit if and only if a downgrade, or going back to the user's mode from a faster one, lowers that limit below it |
| `Latency.RateOutrunsAfterAFasterReset` | frontend/src/liveLatencyController.ts:76-140 | five seconds behind live, the first tick after a reset from stable to instant plays at 1.25 in a mode that allows 1.05, without a downgrade |
| `Latency.FallBacksAreFinal` | frontend/src/liveLatencyController.ts:98-121 | between resets every downgrade costs a mode for good, so there are two at most |
| `Latency.FallBacksAreSpaced` | frontend/src/liveLatencyController.ts:98-102 | between resets two downgrades are at least 4000 ms apart |
| `Latency.StableSinceIsKeptUp` | frontend/src/liveLatencyController.ts:76-89 | since the moment recorded as stable the player was never further behind than its mode's target |
| `Latency.CapIsLiftedLate` | frontend/src/liveLatencyController.ts:91-96 | the quality limit is lifted only after thirty seconds of that, by a tick without fetch pressure |
| `ChatStore.MatchFromIsFirst` | frontend/src/chatStore.ts:309-314 | the message answered is the first that matches |
| `ChatStore.MergingPlacesEachOnce` | frontend/src/chatStore.ts:297-332 | every incoming message ends up at a spot of its own, unanswered messages stay in place, and added ones follow in order |
| `ChatStore.MergingAnswersOldestFirst` | frontend/src/chatStore.ts:309-331 | sends that look alike are answered oldest first, each at most once, and an echo is added only when nothing is left it could answer; an answered message keeps its own id and sending time |
| `ChatStore.Store.MergeNext` | frontend/src/chatStore.ts:297-331 | the loop body merges one message and notes the time of the echo, if it is one |
| `ChatStore.Store.MergeIncoming` | frontend/src/chatStore.ts:289-358 | the loop computes the merged list, of which the newest are kept, and the echo times of the answered messages |
| `ChatStore.Store.PushLatency` | frontend/src/chatStore.ts:256-263 | a window takes the nonnegative samples and keeps the newest 180 |
| `ChatStore.PushedOneMore` | frontend/src/chatStore.ts:256-263 | samples pushed one by one leave the same window as samples pushed together |
| `ChatStore.Store.SendMessage` | frontend/src/chatStore.ts:520-542 | blank text is not sent, anything else is shown at once as pending |
| `ChatStore.EchoIsRecognised` | frontend/src/chatStore.ts:297-321 | for any emotes on either side and any native emotes: what the server makes of a message sent from here is recognised if and only if the names agree, a minute has not passed, and both sides leave the same of its text; then it takes a message's place |
| `ChatStore.EchoNeedsTheSameBlanks` | frontend/src/chatStore.ts:309-314 | for a sent message and names free of white space, the last of these means that no blank is dropped on one side only |
| `ChatStore.EchoOverTheSameEmotes` | frontend/src/chatStore.ts:309-314 | over the same emotes and without native emotes only the sender matters |
| `ChatStore.EchoIsRecognisedWithoutZeroWidth` | frontend/src/chatStore.ts:309-314 | without zero-width names only the sender matters, whatever emotes either side knows and whatever native emotes there are |
| `ChatStore.UnloadedZeroWidthMissesTheEcho` | frontend/src/chatStore.ts:309-314 | a browser without the zero-width emote misses the echo of a message using it |
| `ChatStore.NativeEmoteMissesTheEcho` | frontend/src/chatStore.ts:309-314 | over the same emotes, a native emote in front of a zero-width one makes the browser miss the echo |

## Left out

- Strings are sequences of runes: UTF-8, its repair, and Unicode normalisation are not modelled; one white-space predicate stands for both Go's `TrimSpace` and JavaScript's `trim`.
- The regular-expression engine: the patterns are written as predicates with explicit matchers; case folding covers ASCII letters and the two other code points that fold into them.
- Rollups.BuildInfluxLineProtocol: titles are cut at 80 characters, where the source cuts at 80 bytes.
- TokenLaws.TokenizingIsLossless: bounds the blanks that may go; which ones do is what Blanks.ContentsAreKept states.
- NativeEmotes.EverySpanIsCovered: spans that start behind the end of the message are dropped by the source without a trace, so nothing is stated of them.
- EmoteText.ThreeTokenizersAgree: not for the empty text, for which the server and the chat tokenizer give one empty fragment and the caption tokenizer none.
- EmotesTag.ParseEmotesTag: the order among spans that agree in start and end is left open, as the source's unstable sort leaves it.
- Sockets, HTTP, JSON, SQL, Redis connections, metrics and logging; a malformed hash value counts as one that does not decode.
- EmoteDict.Dict.BackfillPage: one scanned page at a time; paging, pacing between batches and a failure half-way are not modelled, and any function stands for the jitter.
- EmoteDict.Dict.AddEmote: the expiry is kept as an instant; sub-millisecond rounding of configured durations is not modelled.
- Enrich.Enricher.Ensure: loading and publishing the dictionary are one step; deltas published before the subscription exists are not covered. `Invalidate` is left out.
- DictProtocol.EveryRunKeepsLive: holds from states in which every live dictionary was built by this code.
- CallChain.GetCallChain: the final sorting of rows by file and line, and the order of the edges, are left out.
- IrcPool.WholeJoinIsExact: says nothing of interleaved operations; when those stay in order is what IrcPool.RunKeepsOnePlaceIffHeeding and IrcPool.RunKeepsDemandIffHeeding state. Writing JOIN and PART lines to a socket, which may fail, is left out.
- ChatHub.EveryRunServesSubscribers: joins, subscriptions and teardowns are single steps, since the source checks emptiness and tears down under separate locks; sending chat messages through the hub is left out.
- ChatHub.Client.Deliver: with a capacity of zero a frame handed directly to a waiting reader is not modelled.
- RateLimiter.RateLimiter.Allow: reals for floating point, and a clock that never goes back; deriving the client's address is left out.
- Latency.Controller.Tick: reals for floating point.
- ChatStore.Store.MergeIncoming: only the echo times are followed; the source, relay and browser delays and all averages are left out, as are the acknowledgement frames, moderation events and the local cache. Lower-casing is any function.
- Batcher.Batcher.Add: the JSON frame and its sending time are left out, as is the batcher's copy for moderation events.
- User interface, video playback, configuration and URL templates.
