# A verified model of dnspython's DNS library

dnspython's `dns/` package reads, writes and moves DNS data. This project models the parts of it that
carry state or arithmetic, in the form the library gives them (classes whose methods update fields,
loops over variables, pure functions on immutable names), and proves what the library promises of
them. Every method is proved against a specification, most often equal to a function of its inputs and
the old state; the promises are lemmas about those functions, for every input, every run or every
interleaving.

* **Names** (`Names.dfy`, `NameText.dfy`, `NameDict.dfy`): validation, the order of section 6.1 of
  RFC 4034, hashing, text form, and the name dictionary.
* **The wire codec** (`Wire.dfy`, `Decoding.dfy`, `NameWire.dfy`, `Compression.dfy`, `Records.dfy`,
  `Renderer.dfy`, `Message.dfy`, `Reader.dfy`, `RoundTrip.dfy`, `Sizes.dfy`, `Merging.dfy`,
  `Reading.dfy`): the parser and which octets are a name, name compression with its shared table
  (section 4.1.4 of RFC 1035) and how far it goes, record writing with the patched length, the renderer
  with its size limit and rollback, the reader that regroups records into RRsets through an index, the
  round trip of whole messages, and which messages are sure to be rendered.
* **Inbound zone transfer** (`Serial.dfy`, `RdataTypes.dfy`, `ZoneStore.dfy`, `StoreRuns.dfy`, `Xfr.dfy`,
  `Transfers.dfy`, `Replies.dfy`, `Cuts.dfy`, `Questions.dfy`, `Boundaries.dfy`, `Increments.dfy`): the
  transaction store with its CNAME eviction, the state machine of AXFR (section 2.2 of RFC 5936) and
  IXFR (section 4 of RFC 1995) with the fallback from one to the other, which messages are refused,
  exactly which record streams are accepted, and what transferring real differences commits.
* **The versioned zone** (`Versioned.dfy`, `Handoff.dfy`, `Retention.dfy`): the hand-off of the single
  write transaction and the retention of versions, as steps of any number of interleaved callers. Each
  region under the zone's lock is one step; the methods of the class `Zone` and the steps of the
  interleaving are the same functions.
* **The resolver core** (`LruCache.dfy`, `CacheRuns.dfy`, `Resolution.dfy`, `CachedAnswers.dfy`,
  `ResolutionRuns.dfy`, `Attempts.dfy`): the heap-linked least-recently-used cache against a list and
  against a plain map, the logic of a resolution under any cache contents and any outcome of every
  query, how each of its endings comes about, and what one resolution finds of what another has cached.
* **Text formats** (`Ascii.dfy`, `Tokenizer.dfy`, `ZoneText.dfy`, `Ipv6.dfy`, `Ipv6Groups.dfy`): the
  tokenizer and what it makes of any text of words, strings, comments and parentheses; IPv4 and IPv6
  addresses.

`Wrappers.dfy` has the option and result types that stand for `None` and exceptions. Names are compared
and looked up by their case-folded labels, as `Name.__eq__` and `Name.__hash__` do; that this is an
equality, and that equal names hash equally, is proved in `Names.dfy`.

Where the code and its documentation, or what one would expect, part ways, the model follows the code,
and the exact condition is proved:

* The decoder leaves the parser after the furthest octet read, which on arbitrary bytes can lie beyond
  the name (`FurthestCanPassTheName`); it is the end of the name if and only if none of the stretches
  its pointers lead to ends beyond that (`FurthestIsTheEnd`).
* Records after the end of a transfer are an error in the same message, raised after the commit, and
  are never looked at in a later one (`RecordsAfterTheEnd`); the cut into messages makes a difference
  if and only if it falls there and something follows (`MessageBoundaries`).
* After an IXFR was answered with a whole zone, a further message that repeats the IXFR question is
  refused, although it was no fault before (`AskingAgain`); questions make a difference if and only if
  that happens before the zone has ended (`QuestionAfterFallBack`).
* A write that raises is not rolled back, and can leave more octets than the renderer's limit
  (`OverlongItem`): with a limit that a message can have, the output is over it in the end if and only if
  an item too long for its length field was added where nothing kept it from being written
  (`RunBounded`).
* Lowering the size of the cache evicts nothing until the next put (`LoweringEvictsNothing`,
  `OverFull`); how many items there can be after any operations, and that a size which is never lowered
  is kept to, is in `SizeBound` and `StaysWithin`.

## Model

| member | source | states |
|---|---|---|
| Names.ValidateLabels | dns/name.py:311-338 | The check raises LabelTooLong before NameTooLong before EmptyLabel, and passes exactly the valid names: labels of at most 63 octets, 255 in all, an empty label only at the end |
| Names.FullCompare | dns/name.py:415-489 | The loop from the right gives the order, the relation and the number of common labels that the lemmas below characterise |
| Names.OrderAntisymmetric | dns/name.py:538-560 | Comparing the other way around negates the order |
| Names.OrderTransitive | dns/name.py:538-560 | The order is transitive over relative and absolute names together |
| Names.OrderZeroIsCanonicalEquality | dns/name.py:526-530 | Names compare equal exactly when their labels agree up to case |
| Names.EqualUpToCase | dns/name.py:451-489 | Names are equal exactly when they differ at most in the case of ASCII letters |
| Names.CompareLabelsMeaning | dns/name.py:455-489 | Two labels are compared by the first octet that differs, and a label that runs out is smaller |
| Names.OrderAcrossKinds | dns/name.py:415-450 | Every relative name is less than every absolute one |
| Names.CompareRightMeaning | dns/name.py:455-489 | The order of section 6.1 of RFC 4034: the first label after the shared suffix decides, and a name that runs out is smaller |
| Names.RelationMeaning | dns/name.py:415-489 | SUBDOMAIN, SUPERDOMAIN and EQUAL hold exactly for proper suffixes and equal names, and nlabels is the length of the longest common suffix |
| Names.Hash | dns/name.py:403-413 | The nested loops compute the folded hash |
| Names.EqualNamesHashEqually | dns/name.py:403-413 | Names of order 0 have the same hash, so that they are one dictionary key |
| NameText.Escapify | dns/name.py:138-153 | The loop escapes octet by octet: by backslash, as is, or as three digits |
| NameText.FromText | dns/name.py:977-1025 | The loop with its escape state is the scan of the specification, with BadEscape, EmptyLabel, the overflow of a three-digit escape, the special texts and the origin |
| NameText.TextRoundTrip | dns/name.py:568-587 | Every valid name is read back from its text octet for octet, and an absolute one from its text without the final dot under the root origin |
| NameText.TextIdentifies | dns/name.py:568-587 | No two names have the same text |
| NameText.TextUnderOrigin | dns/name.py:977-1025 | A relative name is read back from its text completed by the origin, or with NameTooLong when the two together are too long; an absolute name is read back under any origin |
| NameText.TextMeans | dns/name.py:977-1025 | What any text is read as: the labels that its characters, escaped characters, three-digit numbers and dots spell, or BadEscape where an escape breaks off, or EmptyLabel or the overflow of a number, whichever comes first |
| NameText.TextSplits | dns/name.py:977-1025 | Every text is made of such pieces, up to where an escape breaks off |
| NameDicts.NameDict.Set | dns/namedict.py:64-68 | Stores the value and keeps the depth bound, although overwriting counts a key twice |
| NameDicts.NameDict.Delete | dns/namedict.py:70-77 | Removes the key or reports it missing, and recounts when no deepest key can be left, so that the bound still holds |
| NameDicts.NameDict.GetDeepestMatch | dns/namedict.py:88-109 | Finds the longest stored suffix of the name (the empty name last), or none exactly when no stored key is a suffix |
| Wire.Parser.GetBytes | dns/wire.py:24-31 | Reads within the window or fails without moving |
| Wire.Parser.Seek | dns/wire.py:61-66 | Moves anywhere up to the end and nowhere beyond |
| Wire.Parser.GetRestricted | dns/wire.py:68-83 | Reads inside a restricted window and restores the window |
| Wire.Parser.ReadLabels | dns/name.py:1044-1061 | The loop over length octets and pointers finds the labels, or the error, of the walk; it terminates on any bytes because pointers strictly decrease |
| Wire.Parser.GetName | dns/wire.py:85-90 | Decodes the name at the current offset and leaves the parser at the furthest octet read, also after an error |
| Wire.DecodedShape | dns/name.py:1031-1061 | On arbitrary bytes a decoded name has labels of 1 to 63 octets, one empty label at the end and at most 255 octets; the only error its labels cause is NameTooLong |
| Wire.WalkFrame | dns/name.py:1044-1061 | A successful decode depends only on the octets between the lowest and the furthest it read |
| Wire.FurthestIsLastEnd | dns/name.py:1044-1061 | The furthest octet read is the last one of the stretch that ends last, following the pointers |
| Wire.FurthestIsTheEnd | dns/wire.py:85-90 | After decoding, the parser is at the end of the name if and only if none of the stretches of octets that its pointers lead to, one after the other, ends beyond that |
| Wire.FurthestCanPassTheName | dns/wire.py:85-90 | Six octets on which it ends beyond the name |
| Decoding.DecodedExactly | dns/name.py:1031-1061 | Any octets decode to a name, or fail, exactly as their grammar says: groups of labels, each with a pointer to the next one that starts below all earlier ones, up to a zero octet; or up to what is wrong there, a length from 64 to 191, a pointer that does not go down, or the end of the data |
| NameWire.ToWire | dns/name.py:675-727 | Writing a name to a file with a compression table, or the error, which leaves both unchanged; the completed name is checked against 255 octets |
| NameWire.WriteLabels | dns/name.py:703-727 | The loop writes labels until a suffix is in the table, enters each suffix at an offset a pointer can hold, and builds every suffix as a name |
| NameWire.WrittenNameDecodes | dns/name.py:694-727 | Decoding where a name was written gives it back through strictly decreasing pointers |
| NameWire.WriteFromExtends | dns/name.py:694-727 | Writing only appends, keeps every entry and never takes more octets than the uncompressed form |
| NameWire.CompressionSound | dns/name.py:642-727 | Writing with a sound table (every entry an offset of at most 0x3FFF that decodes to its key) leaves a sound table; decoding at the start gives the name up to case and consumes exactly what was written |
| Compression.CompressedExactly | dns/name.py:703-727 | With a table, exactly the labels before the longest suffix that is known are written out, two octets stand for that suffix, and each suffix written within the reach of a pointer is known from then on, where it starts |
| Compression.WrittenAgain | dns/name.py:703-727 | A name, in any case, that has been written within reach takes two octets the next time |
| Compression.Uncompressed | dns/name.py:703-727 | Without a table a name takes all its octets |
| Records.WriteRRset | dns/rdataset.py:282-345 | One record per item in some permutation, or one empty record with TTL 0, with the owner compressed and the length patched in |
| Records.WriteBody | dns/rdataset.py:331-343 | The length field is patched with the length of the data, or stays zero when the data is too long |
| Records.Shuffle | dns/rdataset.py:328-330 | The shuffle yields a permutation, any permutation |
| Renderer.Renderer.constructor | dns/renderer.py:81-98 | Starts with twelve zero octets, no entries and no counts |
| Renderer.Renderer.Rollback | dns/renderer.py:100-113 | Cuts the output and removes exactly the entries at or beyond the cut |
| Renderer.RollbackUndoes | dns/renderer.py:100-113 | Rolling back to where a write began restores output and table exactly |
| Renderer.Renderer.SetSection | dns/renderer.py:115-128 | Sections only go forward |
| Renderer.Renderer.EndTracking | dns/renderer.py:130-136 | Too much output is rolled back and reported as TooBig |
| Renderer.Renderer.AddQuestion | dns/renderer.py:138-145 | A question is added, or the state is as the specification says |
| Renderer.Renderer.AddRRset | dns/renderer.py:147-157 | An RRset is added in some permutation of its items, or the state is as the specification says |
| Renderer.Renderer.WriteHeader | dns/renderer.py:286-306 | The header with the final counts replaces the first twelve octets, unless a count does not fit |
| Renderer.Renderer.Reserve | dns/renderer.py:313-320 | Moves size from the limit to the reserve, or refuses |
| Renderer.Renderer.ReleaseReserved | dns/renderer.py:322-325 | Moves the reserve back |
| Renderer.OpKeeps | dns/renderer.py:100-170 | An add that ends in TooBig or WrongSection leaves octets, table and counts exactly as before; no operation changes earlier octets; limit plus reserve never changes; the table stays sound |
| Renderer.RunBounded | dns/renderer.py:130-170 | Over every run, going on after any error: the output ends up with more octets than limit plus reserve only if an item of 65536 octets or more was added, in a section not yet passed and under a name that can be written; and exactly then when limit plus reserve is below 65536, as for every message |
| Renderer.OverlongItem | dns/rdataset.py:331-343 | One item of 65536 octets leaves more octets than any such limit |
| Renderer.ReserveThenRelease | dns/renderer.py:313-325 | What was reserved is still free when it is released, whatever was added in between, and the limit is as before |
| Sizes.TooBigExactly | dns/renderer.py:130-157 | An add is TooBig exactly when what it writes, were there no limit, passes the limit; otherwise exactly that is in the output |
| Messages.RenderMessage | dns/message.py:496-573 | Rendering the four sections in order through the renderer, with the effective size, gives the octets or the error of the specification for some permutation of every RRset |
| Reader.WireReader.FindRRset | dns/message.py:341-409 | The index finds the same RRset as a scan of the section, and stays in agreement when one is appended |
| Reader.WireReader.GetQuestion | dns/message.py:1049-1063 | A question starts an RRset of its own |
| Reader.WireReader.GetSection | dns/message.py:1068-1162 | Every record joins the RRset with its name, class and type, or starts one |
| Reader.WireReader.Read | dns/message.py:1164-1196 | Reading a whole message, with ShortHeader and TrailingJunk |
| Reader.FindUpdate | dns/message.py:341-409 | Changing an RRset's data does not change what the index must find |
| Messages.RenderedFits | dns/message.py:536-573 | A message that is rendered takes at least the header and at most the limit |
| Sizes.LimitInForce | dns/message.py:531-539 | The limit is the one asked for, or the requestor's, or 65535, but never out of the range from 512 to 65535 |
| Sizes.Renders | dns/message.py:496-573 | A message is rendered, in any order of its items, whenever its names can be completed, its items and counts fit their fields, and all octets together fit the limit even without compression |
| Merging.RecordsMerge | dns/message.py:1087-1162 | Records of one name, class and type become one RRset with all their data, or the last one's for a singleton type, and the smallest of their TTLs |
| Reading.NothingAdded | dns/message.py:1164-1196 | A message with anything after it is refused as TrailingJunk |
| Reading.NothingCutOff | dns/message.py:1164-1196 | No proper prefix of a message is a message |
| Reading.ShortHeaderExactly | dns/message.py:1164-1196 | ShortHeader is raised exactly for less than twelve octets |
| RoundTrip.MessageRoundTrip | dns/message.py:246-267 | If rendering does not raise, whatever permutations and compression, reading gives an equal message, with the RRsets of every section in order, items as written, names up to case and TTLs up to 2^31-1 unchanged |
| RoundTrip.SendAndReceive | dns/message.py:1199-1270 | The same on the objects: rendering succeeds whenever the uncompressed octets fit the limit, and whenever it succeeds, reading does and gives an equal message |
| Serials.LessMeaning | dns/serial.py:28-60 | Serial a is less than b when b is 1 to 2^31-1 increments ahead; serials half way round are incomparable |
| ZoneStore.Transaction.AddOrReplace | dns/transaction.py:398-440 | Adding merges with what is there (the smaller TTL, one item for singleton types), replacing does not; class, SOA owner and zone are checked; a CNAME and other data evict each other |
| ZoneStore.Transaction.DeleteExact | dns/transaction.py:442-504 | Deletes exactly these data when all of them are there, and otherwise fails and changes nothing |
| ZoneStore.Transaction.End | dns/transaction.py:510-517 | A commit that changed something becomes the zone; a rollback changes nothing; nothing ends twice |
| ZoneStore.Zone.Writer | dns/zone.py:852-855 | A transaction starts from a copy of the zone, or from nothing when it replaces it |
| StoreRuns.AddStores | dns/transaction.py:398-440 | An addition is accepted exactly for the zone's class, a name in the zone and an SOA at its origin only; then the store has the new data (with the old, and the smaller TTL, unless it replaces them) and all that was there, except that data of the other kind at that name goes: regular data for a CNAME or its signature, and these for regular data |
| StoreRuns.DeleteRemoves | dns/transaction.py:442-504 | In a zone without such conflicts: a deletion is accepted exactly when all of the data are there; then exactly these are gone |
| StoreRuns.ChangesKeepClean | dns/node.py:141-167 | Over every run of additions, replacements and deletions no name comes to have both a CNAME and regular data |
| StoreRuns.HistoryKeepsClean | dns/xfr.py:89-235 | Nor by anything a server sends in a transfer |
| Xfr.Inbound.constructor | dns/xfr.py:54-87 | A transfer starts with no transaction, no SOA seen and nothing done |
| Xfr.Inbound.FirstMessage | dns/xfr.py:120-151 | The first SOA: its checks, already up to date, gone backwards, truncated over UDP, or more to come |
| Xfr.Inbound.Record | dns/xfr.py:152-228 | One record after the first: final SOA, SOA of a deletion or an addition set, fallback, data |
| Xfr.Inbound.Data | dns/xfr.py:212-228 | Falling back to a whole zone discards the transaction and restarts from nothing; the data is then deleted or added |
| Xfr.Inbound.ProcessMessage | dns/xfr.py:89-235 | One message: the state and the error, in every branch |
| Xfr.Inbound.Exit | dns/xfr.py:244-247 | Leaving the context commits nothing |
| Xfr.Transfer | dns/query.py:1416-1451 | The reading loop over an `Inbound` and its context: the run of the specification, with the errors of the constructor |
| Replies.SuitsExactly | dns/xfr.py:101-112 | A message's header is accepted exactly when its rcode is 0 and it has no question, or one for the zone and of the type that was asked for |
| Replies.HeaderErrors | dns/xfr.py:101-112 | A message raises TransferError with its rcode exactly when that is not 0, and then WrongQuestionName and WrongQuestionType exactly for a question of another zone or type; a header that is refused changes nothing |
| Replies.FirstErrors | dns/xfr.py:113-151 | Each error of the first message, exactly: no record at the origin, no SOA, a serial that went backwards, and UseTCP for a datagram with nothing but one newer SOA |
| Replies.UseTcpExactly | dns/xfr.py:120-151 | Over any messages: a transfer is told to use TCP exactly when it is an IXFR over UDP and the first message is such a one; it has committed nothing |
| Replies.CommittedReplies | dns/xfr.py:89-235 | A transfer that commits has read only messages with rcode 0 that have no question or one for the zone |
| Replies.InboundXfr | dns/query.py:1393-1454 | Trying UDP first: told to use TCP by the first reply's own fields, the transfer ends exactly as if UDP had never been tried, or raises when only UDP is allowed |
| Transfers.HistoryUntorn | dns/xfr.py:89-235 | However many messages and whatever they hold, even going on after errors: at most one commit, the zone untouched before it, and the committed zone carries the announced SOA |
| Transfers.RunUntorn | dns/xfr.py:89-247 | The same for the loop that stops at the first error |
| Transfers.TransferExact | dns/xfr.py:113-235 | Exactly which streams commit, and what: an SOA, then the whole zone and the SOA again, or (IXFR, to another serial and not back) a chain of differences from the current serial in which every deleted record is present, ending at the announced SOA |
| Transfers.ChainAccepted | dns/xfr.py:158-228 | Every such chain of differences is accepted |
| Transfers.AdditionsFound | dns/xfr.py:158-228 | Only such a chain is accepted, and this finds it |
| Questions.QuestionAfterFallBack | dns/xfr.py:107-215 | Whatever the messages, matching questions in them change nothing, except exactly when a message repeats one after the answer to an IXFR has turned out to be a whole zone that has not ended yet: that is refused |
| Questions.AskingAgain | dns/xfr.py:107-215 | Two messages of which the second is refused for its question, though it is the first one's |
| Boundaries.CompleteExactly | dns/xfr.py:113-235 | The transfer is over, without an error, after exactly the streams that transfer a zone or say that there is nothing to transfer |
| Boundaries.MessageBoundaries | dns/xfr.py:89-235 | Cutting an answer into messages anywhere comes to the same state as one message, always; and to the same error, except exactly when a message ends where the transfer does and records follow |
| Boundaries.RecordsAfterTheEnd | dns/xfr.py:155-188 | What follows the end is an error after the commit in the same message, and ignored in a later one |
| Boundaries.CommittedRun | dns/xfr.py:89-235 | Over UDP or TCP, with any messages, and also when an error follows: a transfer that commits has first read a stream that transfers exactly what it committed, out of messages with rcode 0 and no question or one for the zone |
| Boundaries.TransferredRuns | dns/xfr.py:89-235 | Every stream that transfers a zone commits it over TCP, however it is cut, with or without questions |
| Boundaries.TransferredUdp | dns/xfr.py:89-235 | One message with such a stream commits it over UDP |
| Increments.DiffApplies | dns/transaction.py:398-504 | The difference between two versions of a zone turns the content of the one into that of the other |
| Increments.IncrementalTransfer | dns/xfr.py:89-235 | Differences between consecutive versions, in any record order, TTLs and cut, with or without questions, are accepted and commit exactly the last version's data |
| Increments.WholeZoneTransfer | dns/xfr.py:89-228 | A whole zone, asked for as such or not, its records grouped into RRsets in any way, is accepted and commits exactly its data |
| Versioned.Zone.constructor | dns/versioned.py:48-83 | A new zone has one empty version with id 1 |
| Versioned.Zone.TryWriter | dns/versioned.py:124-146 | Under the lock a caller gets the transaction when there is none and it is its turn, and otherwise joins the end of the queue |
| Versioned.Writer.SetupVersion | dns/zone.py:1004-1019 | The new version has the next id and starts from a copy of the zone, or empty |
| Versioned.Zone.MaybeWakeupOneWaiter | dns/versioned.py:170-173 | The first waiter's event is set and remembered |
| Versioned.Zone.EndWriteTxn | dns/versioned.py:242-249 | Ends the write and wakes one waiter |
| Versioned.Zone.Commit | dns/versioned.py:251-263 | Appends the version, prunes, takes its content and ends the write |
| Versioned.Zone.PruneVersions | dns/versioned.py:181-197 | The loop prunes from the oldest, below the least version kept, while the policy says so |
| Versioned.Zone.LeastVersionKept | dns/versioned.py:190-193 | The least id a reader has open, or the newest |
| Versioned.PruneRetains | dns/versioned.py:181-197 | Pruning keeps the newest version and all that readers have open, and cannot run off the versions |
| Versioned.PrunedShape | dns/versioned.py:181-197 | Pruning leaves a suffix, and removes nothing from the least version kept on |
| Versioned.Zone.OpenRead | dns/versioned.py:85-119 | Opens the newest version with the id or serial, the newest of all, or fails exactly when there is none |
| Versioned.Zone.EndReader | dns/versioned.py:237-240 | Closes the reader and prunes |
| Versioned.Zone.SetMaxVersions | dns/versioned.py:199-215 | Rejects less than one and otherwise installs the policy and prunes |
| Versioned.Zone.SetPruningPolicy | dns/versioned.py:217-235 | Installs the policy, or the default, and prunes |
| Retention.WriterStarts | dns/versioned.py:265-270 | In every interleaving a writer starts from the newest version's content, or from nothing, and with the next id |
| Retention.CommitIsNewest | dns/versioned.py:251-263 | In every interleaving what a writer commits becomes the newest version and the zone's content |
| Handoff.NextKeeps | dns/versioned.py:121-263 | Every step of every caller keeps the whole invariant: one writer, waiters only while somebody writes or was woken, a queue in order of arrival, consecutive versions, readers' versions kept |
| Handoff.MutualExclusion | dns/versioned.py:121-173 | In every interleaving at most one caller has the write transaction, and a woken caller gets it at once |
| Handoff.NobodyForgotten | dns/versioned.py:121-173 | Whoever waits, either somebody writes or somebody has been woken, never both, and never two of them |
| Handoff.WokenInTurn | dns/versioned.py:124-173 | A waiter with k others before it is woken by exactly the (k+1)-th end of a write |
| Handoff.FirstComeFirstServed | dns/versioned.py:124-146 | A later caller has the transaction only after the earlier one has had it |
| Retention.ReadersRetained | dns/versioned.py:85-119 | For every policy and run: a version is always there, ids are consecutive, and from an open reader's version on every id can be opened |
| Retention.IdsCountCommits | dns/versioned.py:265-270 | The newest id counts the commits, so that none is used twice |
| Retention.PruneWithin | dns/versioned.py:199-215 | With a maximum, pruning ends with at most that many versions or with the oldest one pinned, and never below the number |
| Retention.MaxVersionsHeld | dns/versioned.py:199-215 | From then on there are more than the maximum only while a reader has the oldest one open |
| Retention.DefaultHeld | dns/versioned.py:175-197 | With the default policy there is more than the newest version only while a reader has the oldest one open |
| LruCache.Node.LinkAfter | dns/resolver.py:450-454 | Links a node into the ring |
| LruCache.Node.Unlink | dns/resolver.py:456-458 | Unlinks it |
| LruCache.LRUCache.constructor | dns/resolver.py:471-481 | An empty ring, and a size of at least one |
| LruCache.LRUCache.SetMaxSize | dns/resolver.py:483-486 | Changes the bound and evicts nothing |
| LruCache.LRUCache.UnlinkNode | dns/resolver.py:456-458 | The ring without a node is a ring again, with inverse links |
| LruCache.LRUCache.LinkNode | dns/resolver.py:450-454 | The ring with a node after the sentinel is a ring again |
| LruCache.LRUCache.Get | dns/resolver.py:488-514 | A hit moves the item to the front and counts; an expired item is dropped; ring, data and items agree |
| LruCache.LRUCache.MakeRoom | dns/resolver.py:539-542 | Evicts from the tail, terminates, and leaves room for one |
| LruCache.LRUCache.Put | dns/resolver.py:525-545 | The item is first, followed by the most recently used others, as many as fit |
| LruCache.LRUCache.FlushKey | dns/resolver.py:557-561 | Removes the item of a key |
| LruCache.LRUCache.Flush | dns/resolver.py:562-569 | Unlinks every node |
| LruCache.LRUCache.GetHitsForKey | dns/resolver.py:516-523 | The hits of an item that has not expired |
| CacheRuns.HitsAreLastPut | dns/resolver.py:488-545 | Over every run a hit is the value last put under the key and not flushed since, and has not expired |
| CacheRuns.RunRefines | dns/resolver.py:461-569 | The cache always holds a part of what a plain map would |
| CacheRuns.LoweringEvictsNothing | dns/resolver.py:483-486 | Two puts and then a size of one leave two items |
| CacheRuns.OverFull | dns/resolver.py:483-545 | After any run, changing the size leaves more items than it allows exactly when there were more |
| CacheRuns.SizeBound | dns/resolver.py:483-569 | Over every run, whatever becomes of the size on the way: at most as many items as puts make, each put within the size in force at it |
| CacheRuns.StaysWithin | dns/resolver.py:483-569 | A cache whose size is never lowered, though it may be raised, stays within it |
| CacheRuns.RecentStays | dns/resolver.py:488-545 | A key that has not expired, however often it is looked up itself, is evicted only by as many other keys as there is room for |
| CacheRuns.PutThenHit | dns/resolver.py:488-545 | After a put, while fewer other keys than there is room for are used, every lookup hits until the answer expires, and none does then |
| CacheRuns.HitsCounted | dns/resolver.py:488-523 | Its hits are then the number of times it was looked up since |
| Resolutions.Resolution.constructor | dns/resolver.py:584-620 | Starts with the names to try |
| Resolutions.Resolution.LookUp | dns/resolver.py:629-657 | The two cache lookups for a name, each with the time it is made at, and what they make of the cache |
| Resolutions.Resolution.NextRequest | dns/resolver.py:622-691 | The loop takes names off the list until one is answered from the cache or is to be asked for, or none is left: state, result and cache follow from the cache's items before |
| Resolutions.Resolution.NextServer | dns/resolver.py:693-714 | The next server: the same one over TCP, the next of the round, a new round after a doubled pause, or none |
| Resolutions.Resolution.TakeResult | dns/resolver.py:716-814 | What a reply leads to, in every branch, and what it puts into the cache |
| CachedAnswers.AnswerReused | dns/resolver.py:629-772 | An answer that one resolution got is what any later one for the same question is given, however often, until it expires, while fewer other keys than there is room for are used; then it is not given again |
| CachedAnswers.NxdomainReused | dns/resolver.py:642-788 | After an NXDOMAIN, a later resolution for the name and any type of which no answer is cached sends it on to the next name without asking |
| ResolutionRuns.RemoveTakesOne | dns/resolver.py:736-742 | Removing a server takes one occurrence |
| ResolutionRuns.NextFair | dns/resolver.py:693-714 | The server asked and those left in the round are among the usable ones |
| ResolutionRuns.ReportAccounts | dns/resolver.py:716-814 | Every configured server is usable or has been discarded for an error on record |
| ResolutionRuns.EndsForAReason | dns/resolver.py:686-706 | NXDOMAIN is raised only when every name has an NXDOMAIN response on record, and NoNameservers only when every configured server was discarded for an error |
| ResolutionRuns.EndsExactly | dns/resolver.py:622-814 | Each of the five endings, exactly, from the last input read: an answer when one was cached or made of a NOERROR reply and has data or may be without, NoAnswer when it has none and may not, YXDOMAIN on that rcode, NXDOMAIN when the names run out, NoNameservers when the servers do |
| ResolutionRuns.AttemptsBounded | dns/resolver.py:1189-1237 | Removing the server never fails, and one name takes at most 2*(servers + replies that kept a server) queries |
| Attempts.TimeoutsInTurn | dns/resolver.py:693-714 | While all queries time out, the i-th attempt of every round asks the i-th server, at its own port or else the common one, after a pause before each round of 0.1, 0.2, 0.4, 0.8, 1.6 and then always 2 seconds |
| Attempts.TruncatedRetried | dns/resolver.py:693-742 | After a truncated datagram the same server is asked at once, at the same port, over TCP |
| Attempts.FaultRecorded | dns/resolver.py:716-814 | A reply that leads to another query is on record with server, port, protocol and fault; its server goes exactly when it is of no more use: not after a timeout, a first truncation, or a SERVFAIL that is to be retried |
| Tokenizers.Tokenizer.NextChar | dns/tokenizer.py:281-296 | The next character, from the buffer or the text |
| Tokenizers.Tokenizer.Skip | dns/tokenizer.py:323-341 | Skips whitespace, newlines too inside parentheses |
| Tokenizers.Tokenizer.MeetDelimiter | dns/tokenizer.py:380-423 | What parentheses, quotes, newlines and comments do before a token |
| Tokenizers.Tokenizer.MainLoop | dns/tokenizer.py:370-452 | The main loop with its escapes, quoting and errors |
| Tokenizers.Tokenizer.GetToken | dns/tokenizer.py:343-452 | The next token, with a token put back first |
| Tokenizers.UnescapeToBytes | dns/tokenizer.py:136-196 | The loop over escapes, with its errors |
| Tokenizers.Escapify | dns/rdata.py:96-112 | Escapes octet by octet |
| Tokenizers.StringUnescaped | dns/tokenizer.py:136-196 | Unescaping undoes escaping |
| ZoneText.TextTokenized | dns/tokenizer.py:323-452 | From any point: words, quoted strings, blanks, parentheses, comments and line ends are tokenized into exactly what they mean, one Identifier per word, one EOL per line outside parentheses with the comment on it, and the errors of unmatched parentheses |
| ZoneText.WholeText | dns/tokenizer.py:343-452 | The same for a whole text, to the end of file |
| ZoneText.LeadingBlanks | dns/tokenizer.py:370-372 | A caller that asks for leading whitespace gets one token for it exactly when there is some, and then the tokens it would have got without |
| ZoneText.QuotedRoundTrip | dns/tokenizer.py:343-452 | Any strings, escaped, quoted and separated by spaces, are tokenized into exactly those quoted strings and then the end |
| ZoneText.NameIsOneToken | dns/tokenizer.py:343-452 | The text of every valid name is one Identifier token with that text, and then the end |
| Ipv6.FindRun | dns/ipv6.py:60-82 | The loop finds the leftmost longest run of zeros |
| Ipv6.ToText | dns/ipv6.py:31-97 | The text leaves out that run, or embeds an IPv4 address |
| Ipv6.FromText | dns/ipv6.py:105-195 | Reading an address, with scope, dotted quad, double colon and every syntax error |
| Ipv6.SplitJoin | dns/ipv6.py:165-165 | Splitting at the separator undoes joining |
| Ipv6.Ipv4RoundTrip | dns/ipv4.py:27-65 | Every IPv4 address is read back from its text |
| Ipv6Groups.Ipv4Exactly | dns/ipv4.py:27-65 | A text is an IPv4 address exactly when it is the text of one |
| Ipv6.TextRoundTrip | dns/ipv6.py:31-195 | Every IPv6 address is read back from its text in all forms, whichever run is left out |
| Ipv6Groups.GroupsRead | dns/ipv6.py:105-195 | Groups of characters between colons are an address exactly when they are eight hexadecimal numbers of one to four digits, and which address |
| Ipv6Groups.GapNumbersRead | dns/ipv6.py:105-195 | The same with a double colon, which stands for at least one group of zeros |

## Left out

- EDNS (OPT), TSIG, dynamic updates and padding inside the message codec: reading one is an error of its own in the model, and rendering reserves nothing for them.
- Rdata of particular types: data is opaque octets (an SOA in the transfer model has a serial and an opaque rest), so compression inside rdata, canonical rdata order and DNSSEC are not modelled.
- Reader options other than the defaults (one record per RRset, question only, ignoring trailing junk, continuing on error) and an origin for reading: the transfer model takes its RRsets as given.
- `Name.to_wire` without a file, which does not check the length of the completed name again, and `to_digestable`.
- `Name` algebra (`concatenate`, `split`, `relativize`, `parent`) apart from the suffixes that the encoder and the dictionary build.
- Unicode and IDNA: text is ASCII in the name, tokenizer and address models; the tokenizer's UTF-8 encoding of other characters and its line numbers are not modelled.
- The zone's nodes are a flat map from name, type and covered type, with the eviction rule of nodes; copy-on-write and out-of-zone lookups on read are not modelled.
- Zones that learn their origin while being read, and relativized zones.
- Threads and locks as such: each region under the lock is one atomic step, and the deferred set-up of a version, which runs outside the lock, is one step of its own.
- Cancelling a waiting writer, which the library leaves to a future asynchronous version.
- The plain `Cache` with periodic cleaning; the statistics object beyond its two counters.
- Sockets, timeouts and the lifetime of a resolution: every query has an arbitrary outcome; a resolution may stop at any time. The clock shows any times; pauses are exact numbers.
- The checks of a resolution's type and class, the search list that yields the names to try, and the flags and options of the request.
- `Xfr.Transfer`: takes the messages as a list, so reading them from a socket is not modelled.
- `ZoneStore.Transaction.DeleteExact`: the general forms of `delete` by name or type are not modelled, because a transfer only deletes records.
- `Resolutions.Resolution.NextRequest`: the order in which servers are tried is a parameter, because shuffling is random; the request that is built for a name is not modelled.
- `Renderer.RunBounded`: for a limit plus reserve of 65536 octets or more, which no message has, only one direction is stated, because whether such a run goes over also depends on how far names were compressed.
- `Records.WriteRRset`: the option that overrides the class and the one that forbids shuffling are not modelled, because dynamic updates and DNSSEC are not.
- `Messages.RenderMessage`: OPT and TSIG records are not rendered.
- `Reader.WireReader.FindRRset`: the key has no covered type and no deleting class, and looking up without creating is not modelled, because only dynamic updates and signatures need them.
- `Reader.WireReader.GetSection`: OPT and TSIG records end the reading with an error of the model, and there is no mode with one record per RRset.
- `Reader.WireReader.Read`: reads with the default options and without an origin.
- `ZoneStore.Transaction.AddOrReplace`: takes an owner with its RRset, not the other forms of arguments, and there are no check callbacks.
- `Versioned.Zone.PruneVersions`: a policy sees the versions only, and not the rest of the zone.
- `Tokenizers.Tokenizer.NextChar`: does not count lines.
- `Tokenizers.UnescapeToBytes`: takes ASCII text only.
