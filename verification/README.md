# Verified models of the p2p-storage core

This project models the core of the storage node in Dafny and proves what that core relies on. Every module
follows one part of the repository:

| file | repository code | what is modelled |
|---|---|---|
| `Encryption.dfy` | `internal/store/encryption.go` | the chunked encryption of a byte stream, writer and reader |
| `Store.dfy` | `internal/store/store.go` | the content-addressed store on a directory tree |
| `Transfer.dfy` | `internal/fileserver/transfer.go`, parts of `fileserver.go` | offering, sending and receiving one file |
| `PeerSelector.dfy` | `internal/fileserver/peerselector.go` | the partial Fisher-Yates selection of peers |
| `SeenMessages.dfy` | `internal/fileserver/seenmsgs.go` | the bounded table of seen message IDs |
| `Flood.dfy` | `internal/fileserver/get.go`, `BroadcastGet` of `fileserver.go` | one GET_FILE request spreading through a network |
| `RateLimit.dfy` | `internal/middleware/ratelimit.go` | the sliding-window rate limiter |
| `PeerScore.dfy` | `internal/network/peerscore.go` | peer scores with lazy decay |
| `EventBus.dfy` | `internal/event/event.go` | the event bus as a concurrent step system |
| `Bytes.dfy` | | big-endian integers and helpers on byte sequences |

Objects whose methods change fields are classes. Each of their methods is proved against a function or relation on
values (`Encode` and `Decode`, `SeeStep`, `Allowed`, `Pruned`, `Process`, ...), and the properties are proved about those,
over all inputs and all runs. The clock, random draws, nonces, the hash and AES-GCM are parameters. Of AES-GCM only
this is assumed: opening undoes sealing, and sealing adds a 16-byte tag (sections 7.1 and 7.2 of NIST SP 800-38D).

## What the proofs bring out about the code

- `Close` writes no end marker, although the comment at `internal/store/encryption.go:143` says it does. A file cut at
  a frame boundary, or right after a frame's length field, therefore reads as a shorter file without any error
  (`Encryption.Truncation` says exactly when).
- A transfer stream that ends early but cleanly is stored and acknowledged as a success
  (`Transfer.ShortTransfer`); the file is complete exactly when nothing was cut off.
- A transfer that breaks with an error is reported as a failure, but leaves a file that reads back without an error
  and makes the receiver refuse the same file from then on (`Transfer.BrokenTransfer`).
- The key survives the transfer header exactly when it has 1 to 1024 bytes (`Transfer.HeaderRoundTrip`).
- `Delete` prunes empty directories up to and beyond Root (`ContentStore.RootSurvives` says when Root is kept). If that
  empties the working directory below a Root such as `./storage` (the default), the loop reaches `.`, which cannot be removed;
  if it empties the first directory of an absolute Root, the loop reaches the empty path. In both cases `Delete` returns
  an error after having deleted the file. That is the only way in which the store's answers differ from a plain map's
  (`ContentStore.RefinesMap`); `ContentStore.LoneFile` gives an example of both.
- The empty string marks "nothing found yet" in the eviction scan. When an empty message ID is strictly the oldest of
  several entries, and only then, something else than the oldest entry can be evicted (`Dedup.EvictsOldest`);
  `Dedup.EmptyIdBreaksEviction` lets an ID in twice that way.
- A cleanup of the rate limiter can forget accepts that still count when ttl + 1 < window; the limiter then admits more than
  limit requests in one window (`RateLimit.CleanupForgets`). Otherwise it is exact (`RateLimit.RefinesExactly`).
- The requester does not enter its own request into its seen table, so it may process and forward it once.
- A request does not reach every node within reach when copies overtake each other: the first copy a node accepts may have
  fewer hops left. `Flood.OvertakingLosesNodes` gives a run without any loss that misses a node; `Flood.ReachesAll` says
  that overtaking is exactly what costs hops, and `Flood.Completeness` that without it every node within reach is reached.
- The rate limiter is optimal except with an empty window and limit 0 (`RateLimit.Optimal`, `RateLimit.NotOptimal`).

## Model

| member | source | states |
|---|---|---|
| Encryption.EncryptingWriter.WriteChunk | internal/store/encryption.go:113-134 | one sealed frame is appended under the next nonce, as far as the destination has room; success exactly when all of it fits |
| Encryption.EncryptingWriter.Write | internal/store/encryption.go:94-111 | whatever the split into calls, the destination holds exactly the frames of the whole chunks of everything written so far; a closed writer refuses and changes nothing |
| Encryption.EncryptingWriter.Close | internal/store/encryption.go:136-148 | afterwards the destination holds exactly the encoding of the concatenated plaintext; closing twice does nothing |
| Encryption.DecryptingReader.ReadNextChunk | internal/store/encryption.go:203-236 | takes exactly one frame off the stream, or stops with the error that the format prescribes, having consumed exactly what was read |
| Encryption.DecryptingReader.Read | internal/store/encryption.go:176-201 | any buffer size delivers the head of what is still pending and leaves the rest pending; it fails exactly when nothing is pending before the failure |
| Encryption.DecryptingReader.ReadAll | internal/store/encryption.go:176-201 | any sequence of non-empty buffers delivers exactly the decoding of the stream, and ends as the decoding ends |
| Encryption.FrameHead | internal/store/encryption.go:113-134 | every written frame passes the reader's size check, and the reader takes exactly that frame off the head of any stream |
| Encryption.FrameLayout | internal/store/encryption.go:113-134 | a frame is the 4-byte length of what follows, most significant byte first, the nonce, and the sealed chunk |
| Encryption.EncodedLength | internal/store/encryption.go:94-148 | n plaintext bytes give n + 32 * ceil(n / 65536) bytes |
| Encryption.FrameShape | internal/store/encryption.go:94-148 | a file is the frames of a partition of the plaintext; no frame is empty and all but the last are full |
| Encryption.RoundTrip | internal/store/encryption.go:94-236 | decoding an encoded plaintext gives it back with a clean end |
| Encryption.Truncation | internal/store/encryption.go:176-236 | for every cut of a file, what is delivered is exactly the plaintext of the whole frames before it, and the end is clean exactly at frame boundaries and right after a length field |
| Encryption.DoesNotOpen | internal/store/encryption.go:227-231 | after any whole frames, a chunk that does not open ends the read with a decryption error; exactly the chunks before it are delivered |
| Encryption.LengthTooLarge | internal/store/encryption.go:210-213 | the same for a length above 66588, whatever follows |
| Encryption.LengthTooShort | internal/store/encryption.go:222-225 | the same for a chunk shorter than a nonce |
| Encryption.OpenedReads | internal/store/encryption.go:176-236 | any frames that open, followed by nothing or by the length of a frame that is missing, read as what they open to, with a clean end |
| Encryption.CleanEndOpened | internal/store/encryption.go:176-236 | ... and nothing else ends cleanly: then every byte delivered came out of a chunk that opened |
| Encryption.CopyEncrypted | internal/store/encryption.go:94-148 | io.Copy into a writer and Close: the file, and whether that counts as success, depend only on the concatenated data |
| Encryption.CopiedReadsBack | internal/store/encryption.go:94-236 | a successful copy reads back whole; a failed one reads back as a prefix, without any error when the destination had room |
| ContentStore.CasPathTransform | internal/store/store.go:51-69 | the folders are five characters each and together the digest, without gap or overlap (for 40 digits the whole of it); the file name is the digest |
| ContentStore.CasSeparated | internal/store/store.go:51-69 | under the content-addressed scheme different keys have different files and no file lies where a folder is needed, exactly when no two keys in use share a hash |
| ContentStore.Store.Has | internal/store/store.go:143-147 | true also on any failure other than "does not exist"; on a disk the store has kept in shape, true exactly when the key is stored |
| ContentStore.Store.Write | internal/store/store.go:218-324 | for any split of the input: the folders and the file are created, the file holds what the stream became, also when the stream breaks off or the disk fills up; success and the size returned |
| ContentStore.Store.Read | internal/store/store.go:177-216 | for any buffer sizes: exactly the stored plaintext, or an error when there is no file or it does not decrypt to a clean end |
| ContentStore.CutFileRead | internal/store/store.go:187-205 | an encrypted file cut anywhere fails to read, unless the cut is at a frame boundary or right after a length field; then it reads as the whole frames before it |
| ContentStore.FullDiskRead | internal/store/store.go:256-289 | what a full disk leaves of a file is such a cut, and the write fails |
| ContentStore.Store.Delete | internal/store/store.go:149-175 | the loop removes the file and exactly those directories that held nothing but the way to it; it reports an error, having done so, exactly when the working directory held nothing else on a root written with a leading dot (the default), or the first directory of an absolute root held nothing else |
| ContentStore.WriteSucceeds | internal/store/store.go:256-324 | on a disk the store has kept in shape, writing succeeds |
| ContentStore.WriteToExactly | internal/store/store.go:256-324 | in general, writing succeeds exactly when nothing on the way is a file and the path is no directory; when it fails it has made folders at most |
| ContentStore.WriteKeeps | internal/store/store.go:218-324 | writing keeps the shape, stores under this key and changes nothing under any other |
| ContentStore.DeleteKeeps | internal/store/store.go:149-175 | deleting keeps the shape, removes this key and changes nothing under any other |
| ContentStore.WriteLeavesNoEmptyDir | internal/store/store.go:256-324 | a directory that is empty after writing was there, and empty, before |
| ContentStore.DeleteLeavesNoEmptyDir | internal/store/store.go:149-175 | a directory that is empty after deleting, at any depth, was there, and empty, before |
| ContentStore.RunLeavesNoEmptyDir | internal/store/store.go:143-225 | a directory that is empty after any run of operations was there, and empty, at its start |
| ContentStore.RootSurvives | internal/store/store.go:161-172 | Root survives a Delete exactly when something else is stored below it |
| ContentStore.FreshStore | internal/store/store.go:111-124 | a Root holding nothing but the key file of an encrypting store represents the empty map, and that file is such another file |
| ContentStore.StepRefines | internal/store/store.go:143-225 | each operation keeps the disk representing a plain map from keys to data, and answers as on that map exactly when it is not a Delete that so exhausts the root |
| ContentStore.RefinesMap | internal/store/store.go:143-225 | in any run of Write, Read, Has and Delete, each answer is that of a plain map, exactly when it is not such a Delete at that point |
| ContentStore.RunRepresents | internal/store/store.go:143-225 | whatever was answered, after any run the disk holds exactly what the map holds |
| ContentStore.RefinesMapThroughout | internal/store/store.go:143-225 | a whole run answers as a plain map on a plainly relative root; with any other file in the working directory, on a root with a leading dot; with another file below its first directory, on an absolute root |
| ContentStore.LoneFile | internal/store/store.go:161-172 | for the content-addressed scheme with any hash, a disk holding one stored file, on a root with a leading dot or an absolute one, on which deleting it reports an error |
| Transfer.HeaderRoundTrip | internal/fileserver/transfer.go:112-160 | the receiver recovers key, size and data exactly for keys of 1 to 1024 bytes |
| Transfer.WireLayout | internal/fileserver/transfer.go:260-283 | the stream, byte by byte: key length and size most significant byte first, each before what it announces |
| Transfer.HugeSize | internal/fileserver/transfer.go:160-205 | a size with the top bit set is taken as negative: an empty file is stored and acknowledged, whatever follows |
| Transfer.FileServer.HandleIncomingStream | internal/fileserver/transfer.go:112-219 | for any split of the data into reads: the receiver's disk and the acknowledgement byte; started, one progress event a read with the running total, and complete or failed are published in this order; everyone who waits for the key is told the outcome; an unreadable header does nothing |
| Transfer.AnswerMeansFile | internal/fileserver/transfer.go:176-205 | no answer exactly when the header cannot be read; a positive one only when a file is stored under its key |
| Transfer.EventsAre | internal/fileserver/transfer.go:167-216 | what is published: started with the announced size, the running totals in order, and last complete with the size stored, or failed |
| Transfer.FileServer.HandleStoreFile | internal/fileserver/fileserver.go:387-439 | if and only if, for each answer: empty key; a session that differs, for a key not waited for; otherwise already existing or success, as the key is stored or not |
| Transfer.FileServer.RegisterTransferWaiter | internal/fileserver/fileserver.go:145-152 | a new waiter, told nothing yet, joins those of the key |
| Transfer.FileServer.NotifyTransferComplete | internal/fileserver/fileserver.go:155-172 | exactly those waiting for the key are told how its transfer ended, each for the first and only time |
| Transfer.ProgressIncreases | internal/fileserver/transfer.go:230-244 | the progress counts strictly increase and end at the size of a non-empty file |
| Transfer.StoreFileToPeer | internal/fileserver/fileserver.go:479-527 | for any loss on the way: a failed negotiation, a refused offer or a failed read changes nothing at the peer; otherwise the peer's disk is that of receiving what arrived, and success is reported exactly when the peer acknowledged and the answer came through |
| Transfer.EndToEnd | internal/fileserver/transfer.go:112-309 | a file written at A and fully sent to B reads back at B as the same bytes under any two encryption keys, and B keeps all its other files |
| Transfer.SendAcross | internal/fileserver/fileserver.go:479-527 | the same through the objects, offer included, for every split of the writes and reads on both sides; the progress counts strictly increase up to the size |
| Transfer.AcceptedOnce | internal/fileserver/fileserver.go:424-438 | an accepted offer, once its transfer ended in whatever way after the header, is answered as already existing, and accepted again after a Delete |
| Transfer.WholeFileStored | internal/store/store.go:218-289 | with room on the disk, a whole file is stored, reads back as it was, and every other key reads as before |
| Transfer.CutHeader | internal/fileserver/transfer.go:112-160 | for a stream cut anywhere: no answer inside the header, otherwise key and full size with the shorter data |
| Transfer.ShortTransfer | internal/fileserver/transfer.go:176-205 | a stream that ends early is acknowledged as a success; the stored file is the original exactly when nothing was cut off |
| Transfer.BrokenTransfer | internal/fileserver/transfer.go:185-202 | a broken stream is answered with failure, leaves a readable partial file, and later offers of the key are refused as already existing |
| PeerSelector.CopyCandidates | internal/fileserver/peerselector.go:18-24 | the loop copies the list without the excluded peer, in order |
| PeerSelector.Shuffle | internal/fileserver/peerselector.go:29-36 | the swaps in place leave, at the front, the sample without replacement that the draws determine |
| PeerSelector.Select | internal/fileserver/peerselector.go:17-37 | the result is that sample of the candidates, with min(max, number of candidates) entries |
| PeerSelector.CandidatesAre | internal/fileserver/peerselector.go:18-24 | the candidates are exactly the listed peers other than the excluded one, without new duplicates |
| PeerSelector.CandidatesInOrder | internal/fileserver/peerselector.go:18-24 | ... in the order of the list |
| PeerSelector.SampleDistinct | internal/fileserver/peerselector.go:29-36 | no peer is selected twice, and only candidates are |
| PeerSelector.SampleOnto | internal/fileserver/peerselector.go:29-36 | every duplicate-free sequence of candidates is selected by some draws |
| PeerSelector.SampleOneToOne | internal/fileserver/peerselector.go:29-36 | ... and by no others, so that uniform draws make every selection equally likely |
| PeerSelector.SampleAll | internal/fileserver/peerselector.go:25-36 | when max allows it, every candidate is selected |
| Dedup.SeenMessages.Oldest | internal/fileserver/seenmsgs.go:39-47 | the scan returns what some iteration order of the map leads to |
| Dedup.SeenMessages.See | internal/fileserver/seenmsgs.go:29-54 | new exactly when the ID has no unexpired entry; a repeat changes nothing, a new ID is entered, in a full table after an eviction |
| Dedup.SeenMessages.Cleanup | internal/fileserver/seenmsgs.go:56-69 | exactly the expired entries go |
| Dedup.EvictsOldest | internal/fileserver/seenmsgs.go:37-48 | in every iteration order the evicted entry is an oldest one, exactly when the empty ID is not strictly the oldest of several entries |
| Dedup.SizeBound | internal/fileserver/seenmsgs.go:29-69 | in every run the table holds at most maxSize entries (one, when maxSize is 0) |
| Dedup.RejectedWasAccepted | internal/fileserver/seenmsgs.go:29-69 | a rejected ID was accepted less than the window ago |
| Dedup.AcceptedTwice | internal/fileserver/seenmsgs.go:29-69 | an ID accepted twice within the window means that at least maxSize distinct other IDs were accepted no earlier than the first time, under any interleaving with cleanup, if no eviction in between met an empty ID that is strictly the oldest of several |
| Dedup.AcceptedTwiceBetween | internal/fileserver/seenmsgs.go:29-69 | ... and between the two, unless another ID was accepted before the first time at the same tick |
| Dedup.SameTickInBetween | internal/fileserver/seenmsgs.go:29-69 | with such an ID, a run in which a table of two lets an ID in twice with one other in between |
| Dedup.DedupExact | internal/fileserver/seenmsgs.go:27-54 | under the same condition, with fewer than maxSize other IDs per window, See is exact: new if and only if not accepted within the window |
| Dedup.EmptyIdBreaksEviction | internal/fileserver/seenmsgs.go:39-47 | a concrete run in which an accepted empty ID lets another ID in twice although only one other came between |
| Flood.FileServer.ProcessGet | internal/fileserver/get.go:20-67 | the seen table steps as See does; a repeat does nothing; a holder publishes that it delivers, and delivers; any other node publishes what it received and, with hops left, sends one copy with one hop less to each selected peer, none of them the sender |
| Flood.FileServer.HandleGet | internal/fileserver/get.go:20-67 | processing one copy is a delivery step of the network model: same effect on what is in flight, who delivers and who has seen the request |
| Flood.ForgetOrNothing | internal/fileserver/seenmsgs.go:29-69 | whatever else happens to a node's seen table is, for one request, a forgetting step of the model or no step |
| Flood.SelectorChoices | internal/fileserver/get.go:54 | the forwarding choices of the network model are exactly those the selector can make |
| Flood.CopiesRouted | internal/fileserver/get.go:20-67 | in every run, every copy in flight carries the request unchanged with a TTL of 0 to 3, and came along a real walk of 3 - TTL + 1 edges whose interior nodes lacked the file and never sent it straight back |
| Flood.DeliverersReached | internal/fileserver/get.go:25-36 | whoever starts a delivery holds the file at that moment and lies within 4 hops on such a walk |
| Flood.WeightDecreases | internal/fileserver/get.go:20-67 | every delivery or loss of a message strictly decreases the weight of the messages in flight, with any deduplication or none |
| Flood.Accounting | internal/fileserver/get.go:20-67 | every message sent is in flight or was handled, and the weight of the broadcast pays for all of them |
| Flood.MessageBound | internal/fileserver/get.go:20-67 | a request causes at most 1111 messages per initial peer |
| Flood.DedupBound | internal/fileserver/get.go:21-23 | while nobody forgets the ID, at most one message per initial peer and 10 per node that has seen it |
| Flood.Completeness | internal/fileserver/get.go:20-67 | when nothing is lost, forgotten or overtaken, a node other than the requester receives the request if and only if a walk of at most 4 edges through nodes that lack the file leads to it |
| Flood.DeliveryCompleteness | internal/fileserver/get.go:25-36 | ... and starts a delivery if and only if it also holds the file |
| Flood.ReachesAll | internal/fileserver/get.go:20-67 | in a lossless run every node is reached with as many hops left as along any walk to it, if and only if no delivery brings a node other than the requester more hops than the copy that it accepted had |
| Flood.SynchronousUnovertaken | internal/fileserver/get.go:20-67 | when each step delivers a copy with the most hops left of all in flight, nothing is overtaken |
| Flood.FirstReceivedTtl | internal/fileserver/get.go:38-49 | when nothing is lost, forgotten or overtaken, a node at distance d accepts a copy with TTL 3 - (d - 1) |
| Flood.ReachedInRound | internal/fileserver/get.go:20-67 | when copies are delivered in the order in which they were sent, a node at distance d first sees the request in round d, counting rounds by the copies in flight |
| Flood.FifoSynchronous | internal/fileserver/get.go:20-67 | delivering in the order of sending is one way to run in synchronous rounds |
| Flood.FinishedRunExists | internal/fileserver/get.go:20-67 | from every broadcast in a network of small degree such a run exists, and comes to an end |
| Flood.BroadcastSize | internal/fileserver/fileserver.go:602-617 | the broadcast is one copy with TTL 3 for every peer of the requester, and weighs 1111 for each |
| Flood.OvertakingLosesNodes | internal/fileserver/get.go:20-67 | a lossless run on six nodes in which overtaking keeps the request from a node four edges away |
| RateLimit.PeerWindow.Compact | internal/middleware/ratelimit.go:64-74 | the in-place compaction keeps exactly the times after the cutoff, in order |
| RateLimit.PeerWindow.Admit | internal/middleware/ratelimit.go:62-83 | a request is accepted exactly when fewer than limit recent ones are left, and only then recorded |
| RateLimit.RateLimiter.Allow | internal/middleware/ratelimit.go:51-83 | the decision and the whole new table; no other peer's window changes |
| RateLimit.RateLimiter.Cleanup | internal/middleware/ratelimit.go:99-110 | exactly the peers not seen for longer than ttl go |
| RateLimit.RefinesHistory | internal/middleware/ratelimit.go:51-110 | over any interleaving of requests and cleanups, with a ttl of at least window - 1 ticks (or with nothing to keep), a peer is answered as its own full history demands |
| RateLimit.RefinesExactly | internal/middleware/ratelimit.go:51-110 | ... and in no other configuration |
| RateLimit.CleanupForgets | internal/middleware/ratelimit.go:99-110 | for every other configuration, a run with limit + 1 accepts in one window |
| RateLimit.RunWindowBound | internal/middleware/ratelimit.go:51-110 | in those configurations, no window of the configured length, ending at any instant, holds more than limit accepts of a peer |
| RateLimit.Optimal | internal/middleware/ratelimit.go:51-83 | no schedule that keeps the limit in every window has accepted more after any number of arrivals |
| RateLimit.NotOptimal | internal/middleware/ratelimit.go:76-78 | the one exception: an empty window with limit 0 |
| PeerScore.DecayComposes | internal/network/peerscore.go:67-81 | decaying in two steps is decaying once, so it does not matter when a score is brought up to date |
| PeerScore.DecayTick | internal/network/peerscore.go:33-35 | every tick multiplies both weights by the rate |
| PeerScore.ScoreFades | internal/network/peerscore.go:38-44 | so it does what a score is apart from the latency penalty; with a rate between 0 and 1, a peer with more successes than failures loses score with every tick |
| PeerScore.FirstSuccess | internal/network/peerscore.go:83-103 | a first success without latency scores 1, and the rate one tick later |
| PeerScore.LatencyCosts | internal/network/peerscore.go:38-44 | of two peers otherwise the same, the slower one scores lower, by exactly a tenth of a point a second |
| PeerScore.SecondLatency | internal/network/peerscore.go:97-102 | the first latency is taken as it is; the second counts three tenths, the first seven |
| PeerScore.DecayShrinks | internal/network/peerscore.go:33-35 | weights only ever shrink, and never below 0 |
| PeerScore.PeerScorer.RecordSuccess | internal/network/peerscore.go:83-103 | this peer's score is brought up to date, gains one success and the new latency; all others stay |
| PeerScore.PeerScorer.RecordFailure | internal/network/peerscore.go:105-118 | this peer's score is brought up to date and gains one failure; all others stay |
| PeerScore.PeerScorer.GetScore | internal/network/peerscore.go:120-132 | the score at this instant, 0 for an unknown peer; at most the bookkeeping of this peer is refreshed |
| PeerScore.PeerScorer.BestPeers | internal/network/peerscore.go:134-167 | the result heads some ranking by score of all the given peers |
| PeerScore.ClosedForm | internal/network/peerscore.go:67-132 | after any interleaving of calls, a score is the sum over the recorded events of their decayed weights, less the latency penalty |
| PeerScore.ReadsDoNotMatter | internal/network/peerscore.go:120-167 | leaving out all reads changes no later score |
| PeerScore.AverageInRange | internal/network/peerscore.go:97-102 | the latency average stays between the least and the greatest latency recorded |
| PeerScore.BestPeersOptimal | internal/network/peerscore.go:134-167 | such a result has min(n, number of inputs) entries, all of them inputs, in non-increasing GetScore order, and nothing left out scores above anything kept |
| EventBus.Bus.Subscribe | internal/event/event.go:92-100 | the subscription step of the model: a channel that is in no list and not closed is appended to the list of its kind |
| EventBus.Bus.Unsubscribe | internal/event/event.go:102-114 | the unsubscription step of the model: this one channel is taken out of the list of its kind and closed, every other one stays where it was; nothing happens when it is not there |
| EventBus.InvariantHolds | internal/event/event.go:92-123 | after any interleaving of publishers, subscribers, unsubscribers and receivers: the table lists open channels once each, no buffer overflows, and every channel has what was published for it |
| EventBus.NoSendOnClosed | internal/event/event.go:102-123 | no publisher is ever about to send on a closed channel, and no channel holds more than 10 events |
| EventBus.DeliveredExactlyOnce | internal/event/event.go:116-123 | once a publisher is done, a channel still subscribed has got exactly that publisher's events of its kind since it subscribed, each once and in order |
| EventBus.StaysSubscribed | internal/event/event.go:92-114 | a subscription lasts until it is itself ended, whoever else comes and goes |
| EventBus.SubscriberGetsAll | internal/event/event.go:92-123 | so, from one state to any later one, it has got everything of its kind that a publisher published in between, each once, when the publisher is done |

## Left out

- libp2p: hosts, streams, deadlines, hole punching, relays, DHT and discovery. The network delivers, loses or cuts.
- AES-GCM, SHA-1, SHA-256, random generation (which never fails here), key files and their loading: parameters with
  stated hypotheses. The keys in use are a field of `ContentStore.Config` that no operation reads; they delimit where
  the hash must not collide.
- JSON encoding of control messages: payloads are values.
- Configuration, CLI, logging, metrics, the ping handler and `PendingTransfer`: they would only add easy members.
- `DefaultPathTranformFunc`, `Clear`, `ReadRaw` and `WriteRaw`. Root is not empty, and has no `.` part (other than a leading
  one), `..` part or empty part.
- File modes, symbolic links and concurrent access to the disk. A write shows its file once it is complete or has
  failed; that `Has` is already true while a file is being written is not modelled. An error while removing an
  empty directory occurs only for `.` and for the empty path.
- `ReadFull`, `io.Copy` and `LimitReader` are modelled by what they deliver; the stream's ends are a clean end and a reset.
- `processGet` is one step: the seen table, the file check and the peer list are read at the same moment.
- `deliverToRequester`: its connection attempts, and the transfer that follows a `GetDelivering` event.
- Transfer waiters: a channel is what was sent to it; timeouts of whoever waits are not modelled.
- Flood completeness when nodes have more than 10 candidates, peers change, or messages are lost.
- The semaphore limiter, and the goroutines that call `cleanup`: cleanups happen at arbitrary points of a run.
- Floating-point rounding and `math.Exp`: weights are exact reals, the decay is rate^ticks, and the latency average
  is computed exactly before it is truncated to ticks. The clock is read once per call.
- The order in which `sort.Slice` leaves equal scores: any ranking is allowed, and an insertion sort stands in for it.
- Deadlocks of the bus: a publisher blocked on a full channel holds the read lock. Here its step just is not enabled.
- Aliasing of slices, except for the in-place compaction of a peer's window and the in-place shuffle.
- Dedup.AcceptedTwice: says nothing once an eviction has met an empty ID that is strictly the oldest of several; it can
  then fail (`Dedup.EmptyIdBreaksEviction`).
- `EventBus.TableFrozen` is only a check of how the read-write lock is encoded in the model.
