# BOPM, verified

BOPM watches the clients that connect to an IRC server, looks each address up in DNS blacklists and
has it scanned for open proxies by libopm, sends a kline for what it finds, and remembers the clean
addresses for a while. This project models the parts of it that are hard to get right and proves what
they promise:

- **The negative cache** (`Bits`, `Patricia`, `NegCache`). The PATRICIA trie of linked nodes, with its
  up-links, the splice at the highest differing bit and the post-order rebuild, is proved to be a plain
  map from address to time. The word width is a parameter; bit `maxb` of an address, which the code
  tests with a full-width shift, reads as 0. A rebuild touches each old node once and never after its
  release: nodes are read through an allocator that refuses a released one.
- **The glob matcher** (`Glob`, `Collapse`). The loop with one point to come back to is proved to decide
  the recursive meaning of `*` and `?`, exactly whenever it gets through in its 512 iterations.
- **Scans and lookups** (`DnsQueue`, `Lifecycle`, `Daemon`, `Sending`, `Starts`, `Outcomes`, `Klines`,
  `Remembering`, `Clients`, `LinkedList`, `Firedns`, `Scanning`, `Handlers`). The daemon is a state machine over
  connects with the client's masks, manual checks, cycles with the datagrams they receive, libopm callbacks
  and timer ticks. `Daemon` proves what holds after every run; `Sending` when a query counts as sent and how
  long it is waited for; `Starts` which blacklists and scanners a scan begins with; `Outcomes` what single
  events come to after any run; `Klines` that nothing else sends a kline; `Remembering` that a clean client is
  let go; and `Clients` who is scanned by what, and the way from the bytes of a reply to the kline. `Handlers` has the daemon as the objects it is made of, the
  resolver over its doubly linked list (`Firedns`) and the scans over the linked trie (`Scanning`), and
  proves that handling an event takes exactly the step of the machine on what these objects stand for, so
  that a daemon driven through any run is as the results about runs say.
- **Operator commands** (`OperCmd`): the commands that wait for a USERHOST reply, as a machine and as the
  doubly linked list the daemon walks.
- **The DNS wire format** (`DnsWire`, `DnsReply`): the query encoder and the cursor over replies,
  against sections 4.1.1 to 4.1.4 of RFC 1035.
- **Text codecs** (`Inet`, `Snprintf`, `NumberText`, `Formats`): the IPv6 printer and parser, and the
  bounded formatter, from the format string to what is in the buffer.

`Options` and `Basics` hold what several of these share. What the sockets, poll, libopm and the clock
answer is input to every statement, so each holds whatever they answer. libopm is held to its contract:
one END per accepted scan, open-proxy callbacks only before it, no callback inside `opm_scan` or
`opm_end`. Two assumptions are made: fewer than 65536 tests per scan (`ss->scans` is an unsigned short, and
wraps in the model), a precondition; and a clock that does not go back, a precondition on the runs of
`OperCmd`, while the runs of `Daemon` read an earlier time as the time of the last event.

Five properties do not hold of the code as it stands. Each is proved with its exact condition and shown
to fail at an input:

- `match` is not exact for every name: it gives up after 512 iterations and says no. `MatchDecides` says
  exactly when that is wrong and bounds the iterations by the longest stretch of the mask without a star;
  `StarFreeDecides` and `BudgetFamily` have closed forms; `BudgetExample` is a mask of 11 bytes that fails
  a client of 65.
- A rebuild is not quite invisible: `check_neg_cache` keeps an entry aged exactly `negcache` (`<=`,
  src/negcache.c:200) and the rebuild drops it (`<`, src/negcache.c:267). `RebuildVisibleExactly` is the
  condition, `RebuildVisibleExample` an entry.
- The encoder takes labels it cannot represent: a label over 63 bytes or an empty one is written with no
  error. `QuestionReadsBackExactly` says that the question reads back exactly when no label is like that;
  `TrailingDotExample` is a zone written with its trailing dot.
- A conversion does not print its full width and precision when a length does not fit an int, in which the
  code counts paddings. `EmittedLength`, `NumericLength`, `NumberPrinted`, `StringPrinted` and `FieldAlone`
  have the exact condition; `WidthExample` is `%2147483648s` of an empty string, which prints nothing.
- A number with `h` may print a sign, a `0x` or a zero it does not mean, since the code looks at the argument
  before it is cut to a short. `CutHarmless` in `NumberPrinted` is the exact condition: with a sign flag the
  cut keeps the sign (or the misplaced blank falls into the padding), and with `#x`, `#X` or precision 0 it
  keeps whether the number is 0. `ShortSignExample` is `%+hd` of 40000, `ShortZeroExample` are `%.0hd` and
  `%#hx` of 65536.

## Model

| member | source | states |
|---|---|---|
| Patricia.LookupFinds | src/negcache.c:112-129 | In a well-shaped trie the descent by bits ends at an address exactly if it is stored there, through any nesting of up-links |
| Patricia.TestsBounded | src/negcache.c:117-123 | A search tests at most as many bits as the word has and at most as many as there are stored addresses |
| Patricia.OneUpLinkEach | src/negcache.c:167-176 | Each stored address is the target of exactly one up-link |
| Patricia.SpliceShaped | src/negcache.c:134-179 | Splicing an absent address at its highest differing bit keeps the shape (bits fall on the way down, leaves agree above the tested bit and split on it, up-links go to ancestors or self) and adds that address alone |
| Patricia.SpliceSpot | src/negcache.c:155-165 | The place where the new node goes in is one whose leaves agree with the address above its bit |
| NegCache.SpliceSound | src/negcache.c:155-176 | The splice, written as the two link changes the code makes, gives a sound trie again |
| NegCache.Trie.constructor | src/negcache.c:90-105 | A new trie is a head of address 0 linked to itself and stores nothing |
| NegCache.Trie.Descend | src/negcache.c:112-127 | The loop over linked nodes follows exactly the descent of the trie it represents, and counts its tests |
| NegCache.Trie.Search | src/negcache.c:112-129 | nc_search returns a node exactly if the address is 0 or stored; the node holds that address and its time; the tests are bounded |
| NegCache.Trie.HighestDifferentBit | src/negcache.c:155-156 | The loop from the top bit down finds the highest bit in which two different addresses differ |
| NegCache.Trie.FindSpot | src/negcache.c:158-165 | The second descent stops at the parent and the node between which the new one goes |
| NegCache.Trie.InsertAt | src/negcache.c:167-178 | Linking the new node keeps the trie sound and linked, and adds exactly that node |
| NegCache.Trie.Insert | src/negcache.c:134-179 | nc_insert returns the node of the address, new and zeroed if it was missing, and leaves every other entry alone |
| NegCache.Trie.SetSeen | src/negcache.c:222-225 | Stamping a node changes one entry of the map and no link; for address 0 it is the head's time that changes |
| NegCache.KeepOrDrop | src/negcache.c:267-283 | A node is copied exactly if it is younger than negcache, then released |
| NegCache.RebuildNode | src/negcache.c:232-284 | The recursion, measured by the tested bit, moves exactly the recent entries of a part to the new trie, releases each of its nodes once and reads none after its release |
| NegCache.RebuildAll | src/negcache.c:237-284 | From the head: all entries but the head's are visited, kept exactly if recent, and released |
| NegCache.Cache.Check | src/negcache.c:185-205 | check_neg_cache finds an address exactly if the map has it at most negcache seconds old; address 0 stands for the head |
| NegCache.Cache.Insert | src/negcache.c:211-226 | negcache_insert records the time of an address that parses and ignores one that does not; address 0 stamps the head and is no entry |
| NegCache.Cache.Rebuild | src/negcache.c:289-301 | negcache_rebuild leaves exactly the recent entries in a new trie with a zeroed head, and every old node released |
| NegCache.RebuildVisibleExactly | src/negcache.c:200-267 | A rebuild changes the answer of a later check exactly in the same second for an entry aged exactly negcache |
| NegCache.RebuildVisibleExample | src/negcache.c:200-267 | An address seen 100 seconds ago, with negcache 100, is found before a rebuild and missed after it |
| NegCache.RunRemembersLastInsertion | src/negcache.c:185-301 | Through any run of insertions and rebuilds a later check depends only on when the address was last inserted |
| Glob.IterationSound | src/match.c:127-188 | Every pass of the loop that returns gives the recursive meaning, and every other keeps the invariant (leftmost placement, positions within the name) and raises the potential |
| Glob.LeftmostSuffices | src/match.c:154-179 | If the rest of the mask fits after a later placement of a star-free stretch, it fits after the leftmost: one point to come back to is enough |
| Glob.ShortcutRight | src/match.c:143-152 | The step back over trailing `?` at the end of the name accepts exactly what the mask means |
| Glob.RunDecides | src/match.c:127-189 | With any budget the matcher accepts exactly what the mask means and can be settled within the budget |
| Glob.IterationsBounded | src/match.c:75-189 | The iterations needed are at most (name length + 1) * (L + 1), where L is the longest stretch of the mask without a star, less the potential |
| Glob.MatchDecides | src/match.c:112-190 | match accepts nothing the mask does not mean; it is wrong exactly for names meant that need over 512 iterations; it is exact whenever (name length + 1) * (L + 1) is at most 512 |
| Glob.FitsExactly | src/match.c:37-75 | A byte of a mask fits itself and the other form of a letter, given as the two alphabets, and nothing else; `?` fits any byte |
| Glob.CaseIgnored | src/match.c:37-75 | Masks and names that differ in the case of letters alone mean the same |
| Glob.StarFreeDecides | src/match.c:112-190 | Without stars match is right exactly below 512 bytes of mask |
| Glob.BudgetFamily | src/match.c:127-189 | The mask `*`, k letters and another one means a name that ends so; match finds it exactly if (n - k + 1) * (k + 1) + 1 passes, and one for each byte before the letters, are at most 512 |
| Glob.BudgetExample | src/match.c:75-189 | A mask of 11 bytes does not match a client of 65 bytes that it means |
| Glob.Match | src/match.c:112-190 | The loop over m, n, ma, na and wild computes the specified result for every mask, the empty one included |
| Glob.CheckExempt | src/scan.c:1137-1150 | scan_checkexempt says yes exactly if some exempt mask matches the host mask or the address mask |
| Glob.ExemptionMeant | src/scan.c:1137-1150 | Nobody is exempt unless the mask means one of the client's two masks |
| Collapse.CollapsedReduces | src/match.c:210-236 | No two stars are adjacent after collapse, and only star runs were shortened |
| Collapse.CollapsedUnique | src/match.c:210-236 | There is only one such text, so these two properties say all that collapse does |
| Collapse.CollapsedIdempotent | src/match.c:210-236 | Collapsing twice is collapsing once |
| Collapse.CollapsedMeansSame | src/match.c:210-236 | A collapsed mask means exactly the same names |
| Collapse.CollapseInPlace | src/match.c:210-236 | Shifting the text down in its buffer leaves exactly the collapsed text, terminated |
| DnsQueue.GetIpKeeps | src/firedns.c:316-354 | A new lookup keeps the descriptor count exact and within the limit, the descriptors distinct and the lookups conserved; it is listed exactly if it was sent or queued |
| DnsQueue.ReopenKeeps | src/firedns.c:372-387 | Sending a waiting query keeps the same |
| DnsQueue.SettleKeeps | src/firedns.c:716-723 | Closing a query and handing its result on keeps the same |
| Lifecycle.TestDoneRefs | src/scan.c:531-557 | When a test is over its scan is freed exactly if nothing else is owed to it, and every counter stays equal to what is owed |
| Lifecycle.LookupResultRefs | src/dnsbl.c:175-224 | Handling a lookup result keeps the reference counts exact, whatever the reply says |
| Lifecycle.ScannerEndsRefs | src/scan.c:768-785 | So does an END callback |
| Lifecycle.CheckFinishedHistory | src/scan.c:531-557 | Finishing a scan keeps the history: one kline exactly for positive scans, cached only clean automatic ones, each cached address traced to its scan |
| Lifecycle.ListedExactly | src/dnsbl.c:107-150 | A bitmask blacklist lists exactly the replies that share a binary digit with one of its numbers, a plain one the replies that are one of its numbers; one that bans unknown replies lists all |
| Daemon.StepKeeps | src/scan.c:339-884 | Every event keeps the whole invariant of queue, reference counts and history |
| Daemon.RunKeeps | src/scan.c:110-884 | The invariant holds after every run |
| Daemon.HistoryNeverRewritten | src/scan.c:531-657 | A longer run only adds to the klines, starts, finishes and cache entries of a shorter one |
| Daemon.ScanCounterExact | src/scan.c:396-447 | After any run ss->scans is the number of lookups listed plus proxy scans not ended; a scan is alive exactly while that is positive; no callback ever met a freed scan |
| Daemon.KlinesAndCaching | src/scan.c:575-652 | After any run at most one kline per scan, none for a manual one; a scan is positive at its end exactly if it sent one; manual or positive scans are never cached |
| Daemon.PositiveNeverCached | src/scan.c:536-553 | A scan that had sent a kline at any point of a run is not cached at any later one |
| Daemon.SkipIsJustified | src/scan.c:359-379 | A client of non-zero address is only skipped if an automatic scan of that address finished clean at most negcache seconds before, through any insertions and rebuilds between |
| Daemon.DescriptorsCounted | src/firedns.c:557-568 | After any run fdns_fdinuse is the number of open queries and within dns_fdlimit |
| Daemon.SweepKeeps | src/firedns.c:745-783 | From any place on, the first pass of a cycle ends with every open query unexpired and polled |
| Daemon.SweepPollsAllInFlight | src/firedns.c:745-783 | After any run the poll array of the next cycle holds all open queries, none expired, and is not overrun |
| Daemon.LookupsConserved | src/firedns.c:586-617 | After any run an accepted lookup was delivered exactly once or is still listed and was not; nothing else was delivered |
| Daemon.ServeKeeps | src/firedns.c:793-815 | The second pass keeps the invariant and still has ahead of it exactly what was listed at the poll |
| Daemon.ReadinessNotReused | src/firedns.c:793-815 | A readiness flag is only applied to a query that was open on that descriptor when poll was called, whatever is closed and reopened in the pass |
| Sending.SentIsStamped | src/firedns.c:557-568 | In any run, the time a query counts as sent at is that of the event that opened it, be it new or one that waited |
| Sending.OpenWasSent | src/firedns.c:557-568 | Every open query was sent by some event of the run |
| Sending.SentStays | src/firedns.c:745-815 | In any run, a query is listed up to five seconds after it was sent, unless a cycle has read an answer to it |
| Sending.SentIsPolled | src/firedns.c:745-783 | Every cycle up to five seconds after a query was sent polls it, unless it was answered |
| Sending.SentTimesOut | src/firedns.c:755-775 | The first cycle more than five seconds after a query was sent is the end of it: it is not listed any more, and delivered exactly once if somebody waits for it |
| Sending.WaitingIsSent | src/firedns.c:372-387 | A cycle that can send a waiting query, with descriptors enough, has it open on the descriptor it was given, sent now |
| Sending.PurposeKept | src/firedns.c:316-387 | A query is for the same blacklist of the same scan as long as it is listed, however it is sent |
| Starts.LookupsAsked | src/dnsbl.c:57-105 | dnsbl_add lists one query for each blacklist, under its own number and in order, and nothing else; only a lookup that could not be sent though there were descriptors left is missing |
| Starts.BeginStarts | src/scan.c:396-447 | A scan that begins is recorded as it is, and libopm owes an END for exactly the scanners chosen |
| Outcomes.OpenProxyIsKlined | src/scan.c:613-657 | After any run an open proxy reported for an automatic scan has its kline sent, exactly once |
| Outcomes.ListingIsKlined | src/dnsbl.c:107-173 | In any run, a cycle that reads a listing of an automatic scan within five seconds of the time the lookup was sent, the first answer to it, past whatever else it handles, has the kline sent exactly once |
| Outcomes.EndSettles | src/scan.c:768-785 | After any run, the END of a proxy scan finishes its scan exactly if nothing else is owed; then and only then a clean automatic scan enters its address in the cache |
| Outcomes.AnswerSettles | src/dnsbl.c:175-224 | In any run, a cycle that reads the first answer to the last thing a scan waits for, within five seconds of the time it was sent, finishes and frees the scan, positive exactly if it was or the reply lists it, cached exactly if automatic and clean |
| Outcomes.TimeoutSettles | src/firedns.c:755-775 | In any run, the first cycle more than five seconds after the last thing a scan waits for was sent finishes and frees the scan, whatever else it handles |
| Outcomes.ServeReaches | src/firedns.c:793-815 | The second pass comes to every query that was listed at the poll, with the invariant kept and nothing of the history lost |
| Clients.ScannedUnlessExcused | src/scan.c:339-394 | After any run, a client that connects has a scan of its address started exactly if the cache does not let it go and it is not exempt; a client that is exempt is meant by some exempt mask |
| Clients.ExemptIsMeant | src/scan.c:1137-1150 | A client is exempt only if an exempt mask means it, and is if one means it within the matcher's budget |
| Clients.ManualStarts | src/scan.c:996-1105 | After any run, a manual check starts a manual scan of its target, with exactly the scanners that accept |
| Clients.ManualNeverPunished | src/scan.c:613-657 | Whatever comes after a manual check, its scan sends no kline and enters nothing in the cache |
| Clients.ScannersMeant | src/scan.c:404-443 | After any run, libopm owes an END for a client that is scanned only from scanners that have a mask that means it, and from every scanner that accepts and has one that means it within the budget |
| Clients.BlacklistsAsked | src/dnsbl.c:57-105 | After any run, whoever is scanned has every blacklist asked once and under its own number, but for lookups that could not be sent |
| Clients.ListedClientIsKlined | src/dnsbl.c:90-210 | In any run, the reply to the query that asks blacklist i about a client is judged by blacklist i: if that lists it, the client's kline is sent exactly once |
| Clients.ReplyBytesToKline | src/firedns.c:586-724 | In any run, a cycle that receives, in time, a well-formed reply whose first address record lists an automatic scan has the kline sent exactly once |
| Klines.KlinedOnlyIfFound | src/scan.c:575-657 | After any run, an event that reports no open proxy of a scan and reads no listing on one of its queries leaves its klines as they were |
| Klines.RefusedKeepsKlines | src/firedns.c:607-632 | After any run, a cycle that receives for a scan nothing, or only datagrams with another id, that are no replies, in error (such as NXDOMAIN) or without an answer, leaves its klines as they were |
| Klines.StrayReplyLeaves | src/firedns.c:615-618 | A datagram with another id leaves the query listed |
| Remembering.CleanClientIsLetGo | src/scan.c:359-379 | In any run, a client that connects less than negcache seconds after an automatic scan of its address finished clean is let go, whatever was entered and rebuilt between |
| Remembering.RebuiltOnTime | src/scan.c:137-156 | In any run, every 43201st tick leaves exactly the entries younger than negcache, and no other tick changes the cache |
| Firedns.Resolver.FindNode | src/firedns.c:586-598 | The walk over the linked list finds the first query with a descriptor, or its end |
| Firedns.Resolver.Take | src/firedns.c:716-721 | Taking a node out of the linked list and closing its descriptor leaves the list of the queue without that query, and the count one less |
| Scanning.Scans.AcceptAll | src/scan.c:404-443 | The loop over scanners counts those that accept, each of which then owes an END |
| Scanning.Scans.Rebuild | src/negcache.c:289-301 | Rebuilding the linked trie leaves the map of the state machine rebuilt, and the head's time zero |
| Handlers.Bopm.StartAllLookups | src/dnsbl.c:57-105 | The loop of dnsbl_add starts and counts the lookups the machine does |
| Handlers.Bopm.SweepNode | src/firedns.c:747-782 | One node of the first loop of firedns_cycle: the next node, saved before the list changes, is the next in the list after it |
| Handlers.Bopm.SweepQueries | src/firedns.c:745-783 | The first loop of firedns_cycle over linked nodes is the first pass of the machine |
| Handlers.Bopm.MatchScanners | src/scan.c:404-443 | The loops over the scanners and their masks find those with a mask that matches and that libopm accepts |
| Handlers.Bopm.Collect | src/firedns.c:571-724 | firedns_getresult: the datagram is read by the cursor, and the entry with this descriptor is taken out and delivered with what that finds, unless the reply is for another |
| Handlers.Bopm.ServeNode | src/firedns.c:795-814 | One node of the second loop: the next node, saved before the list changes, is the next in the list after it, though it is taken out through its descriptor |
| Handlers.Bopm.ServeQueries | src/firedns.c:793-815 | The second loop of firedns_cycle over linked nodes is the second pass of the machine |
| Handlers.Bopm.Handle | src/scan.c:110-884 | Any event at any time takes the step of the machine on what the objects stand for, and leaves them well linked with the invariant of every run |
| Handlers.Bopm.HandleAll | src/scan.c:110-884 | A daemon that handles a run of events stands for the state that run ends in |
| Handlers.Bopm.Drive | src/scan.c:110-884 | A daemon made and driven through any run has all of this |
| LinkedList.List.Add | src/list.c:52-76 | list_add appends the node to the sequence the links spell out, in both directions |
| LinkedList.List.Remove | src/list.c:78-105 | list_remove takes one node out and keeps the order of the rest |
| LinkedList.List.BypassedIsRemoved | src/list.c:83-103 | Links that bypass a node are those of the sequence without it |
| OperCmd.EnqueueAtMostOne | src/opercmd.c:201-211 | One call queues at most one command: the names in the table exclude each other |
| OperCmd.HeardIsQueued | src/opercmd.c:149-214 | A word behind the bot's name that is a name in the table but for case has that command queued for its sender, with what follows the word as its parameter, if fewer than 64 wait; any other word, or none, changes nothing |
| OperCmd.DropOldExact | src/opercmd.c:119-130 | On a queue in order of arrival, stopping at the first command in time removes exactly the timed-out ones |
| OperCmd.OldAreDropped | src/opercmd.c:102-131 | In any run, every eleventh second drops exactly the commands older than three minutes, and no other second drops any |
| OperCmd.ReplyReadRight | src/opercmd.c:299-313 | Whatever byte stands before it, a reply is read as an operator's for a nickname exactly if it is the nickname followed by `*=` |
| OperCmd.OperatorServed | src/opercmd.c:315-330 | An operator's reply runs every queued command of that nick once and leaves every other command |
| OperCmd.OthersRefused | src/opercmd.c:299-330 | A reply for somebody who is no operator drops every command of that nick, leaves the others, and runs none |
| OperCmd.UserhostKeeps | src/opercmd.c:291-331 | A reply keeps the invariant: no handler twice, and only on an operator's reply for the sender |
| OperCmd.RunKeeps | src/opercmd.c:102-331 | After every run at most 64 commands wait, in order; each handler ran at most once and on an operator's reply for its sender |
| OperCmd.CommandQueue.OnHeard | src/opercmd.c:149-214 | command_parse on the linked list: the table loop queues what the machine queues |
| OperCmd.CommandQueue.OnSecond | src/opercmd.c:102-131 | command_timer walks the linked list with the next node saved, and leaves exactly the commands the machine leaves |
| OperCmd.CommandQueue.OnReply | src/opercmd.c:291-331 | command_userhost takes nodes out of the linked list while it walks, and runs and leaves exactly the commands the machine does |
| OperCmd.CommandQueue.Drive | src/opercmd.c:102-331 | A queue driven through any run holds the commands of that run, at most 64, each handler run at most once and on an operator's reply |
| DnsWire.QuestionRoundTrip | src/firedns.c:392-430 | The question of a name with labels of 1 to 63 bytes decodes back to those labels and has the length of the name plus 6 |
| DnsWire.QuestionReadsBackExactly | src/firedns.c:392-430 | It decodes back exactly if every label has 1 to 63 bytes |
| DnsWire.TrailingDotExample | src/firedns.c:392-430 | The name `a.` is encoded without a root, and does not decode back |
| DnsWire.BuildQueryPayload | src/firedns.c:392-430 | The encoder fails exactly if the name does not fit, and else writes the question inside the 512 bytes |
| DnsReply.SkipsQuestions | src/firedns.c:633-655 | The question skipper stops exactly behind any well-formed question section |
| DnsReply.WalksAnswers | src/firedns.c:657-713 | The cursor finds the first matching record of any well-formed answer section |
| DnsReply.WellFormedReplyRead | src/firedns.c:627-713 | Every well-formed reply with an answer is read as the data of the first record of the type and class asked for, or as an error if there is none |
| DnsReply.OwnQuestionSkipped | src/firedns.c:633-655 | The skipper stops exactly at the length of the question the encoder wrote |
| DnsReply.ListingCollected | src/firedns.c:711-713 | The first address record of the type and class asked for gives the resolver no error and its fourth byte as the code of a listing |
| DnsReply.HeaderDecides | src/firedns.c:613-632 | Field by field: another id is for another lookup, and only that; no reply or an opcode is an error, an rcode that error, and no answers NXDOMAIN |
| DnsReply.NothingDecides | src/firedns.c:607-614 | A failed recv is a network error, and less than a header is no answer |
| DnsReply.GetResult | src/firedns.c:600-713 | A failed recv is a network error; the cursor loops end on any datagram, read only what was received and give the specified outcome |
| Inet.QuadRoundTrip | src/inet.c:373-414 | A dotted quad reads back as its four bytes |
| Inet.BestIsLeftmostLongest | src/inet.c:232-259 | The run left out is the leftmost of the longest zero runs of two words or more |
| Inet.PrintedForm | src/inet.c:264-289 | The printed text is the words joined by colons, or two groups around a double colon, the last with a dotted quad where one is embedded |
| Inet.EmbedsExactly | src/inet.c:270-289 | A dotted quad is printed exactly if five zero words come first, and then a zero and a non-zero word, or 0xffff |
| Inet.PrintReadsBack | src/inet.c:431-530 | Whatever good run is left out, the text reads back as the address |
| Inet.RoundTrip | src/inet.c:206-302 | Reading the printed form of any address gives the address |
| Inet.TextFits | src/inet.c:215-291 | The text, terminated, fits the temporary buffer |
| Inet.LongestRun | src/inet.c:232-259 | The loop with best and cur finds that run |
| Inet.ToText | src/inet.c:206-302 | The whole of inet_ntop6: the text of the 16 bytes reads back as them and fits the buffer, or nothing exactly if the caller's buffer is too small for it |
| Inet.FromQuad | src/inet.c:373-414 | inet_pton4, with its running octet |
| Inet.ShiftRight | src/inet.c:508-525 | The shift by hand moves the bytes behind the double colon to the end and leaves zeros between |
| Inet.FromText | src/inet.c:431-530 | inet_pton6, with its cursor, pending word and buffer |
| Snprintf.Vsnprintf | src/snprintf.c:544-1030 | The result is the length of the whole output whatever the buffer; the buffer holds what fits of it before a terminator |
| Snprintf.Emit | src/snprintf.c:948-1008 | The write sites of one conversion count all they print and write what fits |
| Snprintf.NumberFits | src/snprintf.c:581-884 | The text of any number, terminated, fits the 32 bytes it is printed in |
| Snprintf.EmittedLength | src/snprintf.c:948-1008 | A conversion prints the wider of its field and its text with its zeros exactly if the lengths can be counted in an int |
| Snprintf.NumericLength | src/snprintf.c:722-927 | A number prints the wider of its field and of its sign, prefix and digits filled to its precision exactly if the lengths can be counted in an int |
| NumberText.DigitsRead | src/snprintf.c:859-884 | The digits of a number have its value in their base and no leading zero |
| NumberText.DigitCase | src/snprintf.c:859-884 | x has its letters in lower case, and X in upper case |
| NumberText.ValueStored | src/snprintf.c:767-812 | An argument is cut to 16 bits by h, 64 by l and 32 without: the value differs by a multiple of the width, and has its sign for d |
| NumberText.ArgumentTaken | src/snprintf.c:684-812 | A number or a string is taken from the argument at its place, and a star's value is the int given |
| NumberText.DigitsMean | src/snprintf.c:856-926 | The digits to be printed, leading zeros included, have the value of the argument in the base and are as many as precision, `#o` and the 0 flag ask for |
| NumberText.NumberPrinted | src/snprintf.c:722-1009 | d, u, o, x and X print exactly the sign or 0x the flags ask for and those digits, justified in the field, if and only if the lengths can be counted in an int and a cut to a short does not show |
| NumberText.PrintedUnlessShort | src/snprintf.c:722-1009 | Without an `h` only the lengths matter |
| NumberText.ShortSignExample | src/snprintf.c:768-780 | `%+hd` of 40000 does not print what it means, while plain `%hd` of 40000 does |
| NumberText.ShortZeroExample | src/snprintf.c:786-862 | `%.0hd` and `%#hx` of 65536 do not print what they mean |
| NumberText.StringPrinted | src/snprintf.c:705-717 | s prints exactly as much of the string as the precision lets through, justified in the field, if and only if the lengths can be counted in an int |
| Formats.SpecReadBack | src/snprintf.c:603-682 | A specification as written (any flags, a width and a precision in digits or `*`, h, l or ll, any conversion) is read as what it says wherever it stands in a format: flags by being there, digits modulo 2^32, negative stars, and the synonyms i, D, U and O |
| Formats.FieldAlone | src/snprintf.c:603-1012 | A format of one specification prints what it means for its arguments if and only if the lengths can be counted in an int and a cut to a short does not show |
| Formats.FormatPrinted | src/snprintf.c:578-1012 | A format of words and such specifications prints its words and what each specification means for the arguments it takes, stars included, in order |
| Formats.WidthExample | src/snprintf.c:940-1008 | `%2147483648s` of an empty string prints nothing, where it means 2^31 blanks |

## Left out

- Sockets, poll, reconnects, logging, mail, signals and processes: what they answer is input, what they are told is not modelled.
- libopm's inside: only its contract is used, and a callback it may not make is ignored.
- Liveness of queued lookups: firedns_cycle returns before its second pass when poll reports nothing (src/firedns.c:786-791), so nothing promises that a queued lookup is ever sent.
- The scan structure that a manual check leaks when its target does not resolve (src/scan.c:1025-1033): a manual scan begins after the resolve.
- The kline text: its template expander is one "kline sent" step; every reply type is taken to have a text (one with an empty text would count as unknown, src/dnsbl.c:145), a reply number is the signed char of most platforms, and the statistics are not counted.
- Clock readings within one event: an event has one time, and time() does not change while it runs.
- Answers no environment can give, such as a descriptor that is open already, are read as failures.
- Handlers.Bopm.Handle: a query record is part of its list node and not an object of its own, scan structures are numbered in the order of their allocation, and libopm's scans still to end are a table of the daemon's.
- Which scanners an operator names in a manual check is part of the event, and the replies to the channel are output.
- Which scanners libopm accepts a client for, and the random id of each query (a function of the number of the query), are inputs.
- Remembering.CleanClientIsLetGo: not for address 0, which no client has: it is the head's, whose time a rebuild forgets (src/negcache.c:90-105).
- Sending.WaitingIsSent: for a list no longer than dns_fdlimit, so that a descriptor is free when the pass comes to the query.
- NegCache.Trie.Search: bit maxb reads as 0, since a shift by the full width has no value in C.
- Glob.Match: for an empty mask the code reads the byte before it (src/match.c:148-151), whose value does not matter; that the read is out of bounds is not modelled.
- OperCmd.CommandQueue.OnReply: for a reply that begins with `=` the byte before it, which the code reads and may overwrite, is an input; what the write does to the buffer before the reply is not modelled.
- DnsReply.GetResult: takes the received bytes as a sequence; the copy of a record's middle into a structure of its own is read field by field.
- Inet.FromText: computes what the code computes on any text; characters that mean nothing are skipped (src/inet.c:488-499), so it does not accept exactly the valid addresses.
- Inet.ToText: prints an embedded IPv4 address as a plain dotted quad, since inet_ntop4 is compiled out.
- Snprintf.Vsnprintf: its result is the length as an int, so a length of 2^31 or more wraps; missing or mismatched arguments, which C leaves undefined, read as 0 or a null string.
- A width of INT_MIN given through `*`, whose negation C does not define, is read as 2^31.
- NumberText.NumberPrinted: not for p, whose text is the platform's; so Formats.FieldAlone and Formats.FormatPrinted leave p out.
- The sending of a request (firedns_send_requests before its accounting, src/firedns.c:433-556), the table of error strings, the configuration files, dlclist.c (not built) and the Solaris, HP-UX, Perl and Linux variants of the formatter.
