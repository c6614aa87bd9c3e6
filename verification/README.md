# Operating-systems coursework: a verified model

This project models the systems code of two parts of a coursework repository and proves what that
code promises.

* **The replicated key-value store** (`hw4/src`): a leader that runs two-phase commit over the
  followers responsible for a key, followers that log what they promised and rebuild their state
  after a crash, a file store with one file per entry, a consistent-hashing ring, the messages on
  the wire, the work queue between threads, and the three vendored pieces the store is built on: MD5,
  linked lists with an in-place merge sort, and an expanding hash table.
* **The malloc clone** (`hw3/mm_alloc.c`): slot headers and bytes in one address space, with first
  fit, splitting, extension of the tail and coalescing in both directions.

One file is one module; `dfyconfig.toml` names them all. The objects the code updates in place are
classes whose methods are proved against functions on values, and the promises are then proved about
those functions or stated outright in the methods' contracts.

| part | modules |
|---|---|
| two-phase commit | `KvMap`, `ChainStore`, `TpcLog`, `FollowerProtocol`, `KvServer`, `Ring`, `FollowerRing`, `Cluster`, `LeaderProtocol`, `ReplicatedMap`, `LeaderService`, with `Common` and `Messages` |
| malloc | `HeapLayout`, `HeapPolicy`, `HeapSteps`, `Allocator` |
| lists and sorting | `LinkedLists`, `MergeRuns`, `ListSort` |
| hash table | `Arithmetic`, `HashChains`, `HashTable` |
| MD5 | `Rfc1321`, `Md5TestSuite`, `Md5Rounds`, `Md5Stream` |
| wire format | `CStrings`, `UrlCodec`, `Http`, `KvMessage` |
| work queue | `WorkQueue` |

## Main results

* **One map.** `LeaderService.Serve`: over a whole run of messages, given as the bytes that clients
  send, with followers that crash and restart anywhere and a network that loses requests and replies,
  every answer is exactly the one (`AnswerFor`) that the ring, one plain map, who is up and the script of
  what goes wrong determine; the followers' disks and handlers do not come into it. A read gives the
  map's value, a write succeeds iff the map allows it and every contact of its poll is answered. At the
  end every follower in a key's replica set holds the map's value for it and every other follower holds
  nothing. The run is cut short exactly by bytes that are no request and by a read whose reply is lost
  (`EndsIff`), and not at all by requests on a network that keeps no reply back (`NoEarlyEnd`).
* **Atomic commit.** `LeaderProtocol.Transact`: when a transaction returns, all replicas have carried
  the operation out or none has and nobody is left READY. The second phase took at most one pass more than
  contacts of it failed, where a contact fails iff it is refused or its reply is lost (`PassOver`,
  `SecondPhase`); with all replicas up and all messages delivered it took one.
* **Crash recovery.** `FollowerProtocol.CrashedHandlerIsAtomic`, `RecoveryConverges`,
  `LoggedCommitDecides`: any crash inside a handler or inside recovery, any number of times, leads
  back to the state before or the state after the handler.
* **Malloc.** `Allocator.Malloc`, `Free`, `Realloc`: the client's view is a map from live pointers to
  bytes; each call changes exactly the entry it should. The heap invariant says that slots tile the
  heap, `prev` inverts `next`, and no two free slots are neighbours.
* **Sorting.** `ListSort.LlSort`, `DlSort`, `CdlSort` and `HashSort` relink the nodes into the one stable sorted
  permutation and restore the shape of the list.
* **Hash table.** `HashTable.Find`, `Add`, `Delete`, with bucket doubling inside `Add`, refine a map that
  remembers the order of insertion; `HashTable.Sort` sorts that order and leaves the map alone.
* **MD5.** `Md5Stream.Context`: any split of a message into updates gives the digest RFC 1321 defines,
  through the unrolled compression function; `Md5TestSuite` evaluates the definition on two messages of
  appendix A.5.
* **Wire.** `KvMessage.RequestArrivesIffClean`, `ResponseArrives`: what survives a send and a receive,
  exactly; `UrlCodec.DecodedIs`: what any URL with parameters decodes to, without reference to the loop;
  `KvMessage.WriteSpelledOut` and the lemmas beside it: the bytes of each message; `KvMessage.DecodedIffRequest`, `Http.UndefinedIff`: which bytes are a request at all, and which
  responses the parser is not defined on.
* **Work queue.** `WorkQueue.FirstInFirstOut`, `NobodySleepsOverWork`: under any interleaving of threads;
  `WorkQueue.Execute` carries the order over to the linked list.

## What is assumed

* **Contacts.** A contact between the leader and a follower is one synchronous exchange. It is not
  connected, or lost before it is handled, or cut by a crash after any number of the handler's durable
  writes, or handled with its reply lost, or answered. Nothing is delivered later. Between contacts
  followers crash and restart at will, and a restart may itself crash after any durable write. What goes
  wrong is a finite script that the code cannot see; once it is used up the network is healthy.
* **One thing at a time.** The leader serves one client request at a time and never fails
  (`hw4/src/tpcleader.h:21-22`); a follower handles one request at a time. Locks do not appear, and
  interleaved leader transactions are outside the claims: no lock is held across
  `tpcleader_handle_tpc`, while `hw4/src/main/tpcleader.c:31` starts three workers. There is one exception:
  a follower that restarts registers before it listens (`hw4/src/main/kvfollower.c:57-72`), whatever the
  answer, so a restart while the leader repeats a decision needs a second worker to answer that
  registration. A restart in the model has this behind it; the ring does not change by it
  (`Ring.RegistrationOrderIsIrrelevant`).
* **Durable steps.** One log write, one store operation and one `tpclog_clear_log` are one durable step
  each, and file operations succeed. What happens when the clear is split is recorded below.
* **Names and values.** Registrations name servers that exist, by host and decimal port, which is how
  `kvserver_register_leader` forms them. Keys and values are C strings and hold no NUL. The hash is an
  arbitrary function; `Md5Stream.StrHash64` is the one the code uses. The leader's capacity and redundancy
  are positive.
* **Sizes.** Allocator sizes do not wrap, no one else moves the break, and live pointers are used within
  their bounds. A request that is sent, and so one the leader sends on, is printed in fewer than 128
  characters (`KvMessage.RequestFits`), the size of the buffer of `url_encode`. Counters other than those
  of MD5 do not overflow.

## Findings

* `tpcleader_handle_get` reads `restmp->type` in a trace line before it tests `restmp` for NULL
  (`hw4/src/tpcleader.c:158-161`), so a lost reply makes the leader read through a NULL pointer, although
  the test that follows shows it meant to go on to the next replica. `ReplicatedMap.HandleGet` says exactly
  when, in terms of who is up and of what will go wrong alone: for a key of the map, iff the first contact
  with the primary that connects is lost; for any other key, iff one of the first such contacts with the
  replicas in turn is (`ReplicatedMap.AnyLost`). `ReplicatedMap.LossIsScripted` proves that this is what
  running the handlers would show, `LeaderService.LostRead` is a run in which it happens.
* `tpcleader_handle` has the same order of trace and test (`hw4/src/tpcleader.c:307-313`): bytes that are no
  request end the leader before it can answer them with an error. `LeaderService.EndsIff` proves that the
  answer of `LeaderService.Handle` is a read through NULL iff there is no request or a full ring loses the
  reply of a read; `KvMessage.DecodedIffRequest` says which bytes are
  a request: one of four methods, a space, a path from `/` up to a space or line feed, and the parameters the
  method asks for. `LeaderService.SilenceEndsLeader` is the shortest case.
* `tpclog_clear_log` removes files oldest first. A crash after the first of two removals leaves a file
  `1.log` behind an empty log, and the next vote is logged in front of it. In front of an old COMMIT the vote is
  carried out by the next restart without ever being committed; in front of an old ABORT it is dropped by the
  next restart, and a COMMIT is then acknowledged and never carried out. `FollowerProtocol.InterruptedClear`
  gives the exact condition, `StaleCommitAppliesVote` and `StaleAbortDropsVote` the two runs.
* There is no escaping in URLs: a key or value with `&`, a space or a line feed does not arrive as it
  was sent, and `KvMessage.RequestArrivesIffClean` proves that, for what fits the URL buffer, these three
  characters are the only ones that matter. What the leader has received from a client is clean, so if it fits
  the buffer it is forwarded unchanged (`KvMessage.ForwardedArrives`). It need not fit: exactly the
  PUTs whose key and value have at most 115 characters together do (`KvMessage.PutFits`); longer ones are
  received (`KvMessage.LongPutIsReceived`) and then overrun the 128 bytes of `url_encode`. In the same way
  `tpcleader_register` prints its address into an array that is two characters too short
  (`hw4/src/tpcleader.c:61-62`), which the model does not have.
* `param_ptr` and `http_is_valid_method` compare with `strncmp` up to a length the client chooses, and so
  accept exactly the prefixes of a name, the empty one included (`UrlCodec.ParamNames`,
  `Http.MethodsLetThrough`; `UrlCodec.ShortNames` and `Http.ShortMethods` are such names). For a method this is
  harmless: a proper prefix is turned down later, as `KvMessage.DecodedIffRequest` shows.
* `http_response_parse` hands a NULL message to `strncmp` for a status it does not know, and steps over
  the terminator behind a last line feed or behind two line feeds with fewer than two characters behind them.
  The model answers `Undefined` there. `Http.UndefinedIff` says exactly which responses these are,
  `Http.UnknownStatus` and `Http.ShortEnds` give some of each kind, and `KvMessage.ResponseArrives` shows that no
  response the program sends is one.

## Model

| member | source | states |
|---|---|---|
| ChainStore.KvStore.constructor | hw4/src/kvstore.c:15-24 | an empty directory stands for the empty map |
| ChainStore.KvStore.FindEntry | hw4/src/kvstore.c:36-86 | returns the position of the key in its hash chain and its value iff the map has the key; otherwise the error for a long or a missing key |
| ChainStore.KvStore.ChainEnd | hw4/src/kvstore.c:138-145 | finds the first free position of a gap-free chain |
| ChainStore.KvStore.HasKey | hw4/src/kvstore.c:89-91 | true iff the map has the key |
| ChainStore.KvStore.Get | hw4/src/kvstore.c:96-102 | answers as a plain map does, errors included |
| ChainStore.KvStore.PutCheck | hw4/src/kvstore.c:106-115 | which puts are refused, and with which error |
| ChainStore.KvStore.Put | hw4/src/kvstore.c:120-160 | a put that passes the checks updates the map at the key and nowhere else; chains stay gap-free with distinct, correctly hashed keys for any hash function |
| ChainStore.KvStore.DelCheck | hw4/src/kvstore.c:164-173 | which deletes are refused, and with which error |
| ChainStore.KvStore.Del | hw4/src/kvstore.c:178-215 | removes exactly the key from the map and keeps the directory invariant |
| ChainStore.WriteKeepsMap | hw4/src/kvstore.c:131-156 | writing the entry of a key into its own file or at the free end of its chain is a map update |
| ChainStore.UnlinkKeepsMap | hw4/src/kvstore.c:188-212 | moving the last entry of the chain into the hole loses nothing but the deleted key |
| ChainStore.EntryRoundTrip | hw4/src/kvstore.c:152-155 | a stored file is read back as the key and the value it was written from |
| TpcLog.TpcLog.constructor | hw4/src/tpclog.c:16-36 | the next id is the first free one, and a contiguous directory gives a log with ids 0 up to it |
| TpcLog.TpcLog.Log | hw4/src/tpclog.c:42-81 | appends exactly the entry for the message, or refuses a type that is not logged; ids stay contiguous |
| TpcLog.TpcLog.IterateHasNext | hw4/src/tpclog.c:119-126 | true iff the iterator has not passed the last entry |
| TpcLog.TpcLog.IterateNext | hw4/src/tpclog.c:134-147 | returns the entries in order, and nothing past the end |
| TpcLog.TpcLog.ClearLog | hw4/src/tpclog.c:152-169 | oldest-first removal leaves an empty log |
| FollowerProtocol.ReplayIsIdempotent | hw4/src/kvserver.c:292-306 | replaying a log after any part of it was already replayed equals replaying it once, for every log, also when a second delete finds its key gone |
| FollowerProtocol.RecoveryRestarts | hw4/src/kvserver.c:248-281 | recovery interrupted after any durable write and started again ends where it would have ended |
| FollowerProtocol.RecoveryConverges | hw4/src/kvserver.c:248-281 | so does any number of interrupted recoveries |
| FollowerProtocol.LoggedCommitDecides | hw4/src/kvserver.c:237-281 | a logged COMMIT is always finished by recovery; without one the store is never changed |
| FollowerProtocol.HandlersKeepAtRest | hw4/src/kvserver.c:131-209 | between requests READY holds iff the log is exactly one operation that the store still allows, INIT and WAIT iff the log is empty; only COMMIT changes the store, and only COMMIT and ABORT leave READY |
| FollowerProtocol.VoteIsPromise | hw4/src/kvserver.c:134-168 | a vote to commit is given iff the operation was promised from an empty log; any other answer to a PUT or DELETE leaves follower and disk as they were |
| FollowerProtocol.PutReplies | hw4/src/kvserver.c:134-153 | the answer to every PUT, with the type and text of each refusal |
| FollowerProtocol.DelReplies | hw4/src/kvserver.c:154-168 | the answer to every DELETE in the same way |
| Messages.ErrorTexts | hw4/src/kvconstants.h:40-108 | the text of each error code |
| FollowerProtocol.GetReplies | hw4/src/kvserver.c:196-205 | the answer to every GET, which changes nothing |
| FollowerProtocol.DecisionReplies | hw4/src/kvserver.c:169-195 | COMMIT and ABORT are acknowledged in every state and leave no promise; only a promised operation changes the store, and only by COMMIT |
| FollowerProtocol.RestartSpelledOut | hw4/src/kvserver.c:237-281 | disk, state and durable writes of a restart for each log a handler can leave |
| FollowerProtocol.CommitPerforms | hw4/src/kvserver.c:169-178 | a COMMIT in READY carries the promised operation out: the replayed checks cannot fail |
| FollowerProtocol.ResendIsHarmless | hw4/src/kvserver.c:169-194 | a COMMIT or ABORT sent again changes nothing and is acknowledged |
| FollowerProtocol.CrashedCommitFinishes | hw4/src/kvserver.c:169-178 | whichever durable write of a commit was the last, recovery reaches the end of the commit |
| FollowerProtocol.CrashedHandlerIsAtomic | hw4/src/kvserver.c:131-281 | a handler cut by a crash is undone by recovery before its first durable write and completed from then on |
| FollowerProtocol.InterruptedClear | hw4/src/tpclog.c:152-169 | what a restart reads after a crash inside the clear, and exactly when the next entry is read back with a stale one behind it |
| FollowerProtocol.StaleCommitAppliesVote | hw4/src/tpclog.c:152-169 | the run in which such a crash makes a follower apply an operation that was only voted on |
| FollowerProtocol.StaleAbortDropsVote | hw4/src/tpclog.c:152-169 | the run in which it forgets a vote instead and acknowledges a COMMIT it does not carry out |
| KvServer.RecordRoundTrip | hw4/src/tpclog.c:57-71 | the key and the value of a logged operation are decoded as they were encoded |
| KvServer.ParseLog | hw4/src/kvserver.c:311-319 | returns the offset behind the first NUL, or NULL |
| KvServer.KvServer.constructor | hw4/src/kvserver.c:22-42 | started on any files an earlier process left, the server reaches the recovered disk and state |
| KvServer.KvServer.Get | hw4/src/kvserver.c:69-75 | reads as the map does |
| KvServer.KvServer.PutCheck | hw4/src/kvserver.c:79-88 | equals the check of the map, the empty key included |
| KvServer.KvServer.DelCheck | hw4/src/kvserver.c:102-109 | equals the check of the map |
| KvServer.KvServer.Put | hw4/src/kvserver.c:92-98 | checks and applies a put to the map |
| KvServer.KvServer.Del | hw4/src/kvserver.c:113-119 | checks and applies a delete to the map |
| KvServer.KvServer.DoLog | hw4/src/kvserver.c:292-306 | the store becomes the replay of the log, with one durable write for each operation in it |
| KvServer.KvServer.HandlePut | hw4/src/kvserver.c:134-153 | state, disk, reply and durable writes are those of the protocol |
| KvServer.KvServer.HandleDel | hw4/src/kvserver.c:154-168 | the same for a delete |
| KvServer.KvServer.HandleDecision | hw4/src/kvserver.c:169-195 | the same for COMMIT and ABORT |
| KvServer.KvServer.HandleTpc | hw4/src/kvserver.c:131-209 | the server over its files refines the protocol for every request, write by write |
| KvServer.KvServer.LastEntry | hw4/src/kvserver.c:252-265 | the scan of the log ends with its last entry |
| KvServer.KvServer.RebuildState | hw4/src/kvserver.c:248-281 | recovery over the files refines recovery on the disk, write by write |
| Ring.RegisteredIs | hw4/src/tpcleader.c:74-96 | a registration keeps the ids strictly increasing and adds the follower iff its id is new |
| Ring.RegisteredAllIs | hw4/src/tpcleader.c:47-101 | after any registrations that fit, those are on the ring who were or who registered with a free id |
| Ring.RegistrationOrderIsIrrelevant | hw4/src/tpcleader.c:64-97 | the ring depends on the set of registrations alone, not on their order or on repetitions |
| Ring.ReplicasAreNearest | hw4/src/tpcleader.c:108-135 | the primary and its successors are distinct and exactly the followers nearest to the hash going clockwise, nearest first |
| FollowerRing.TpcLeader.constructor | hw4/src/tpcleader.c:21-37 | an empty ring; the redundancy is cut to the capacity |
| FollowerRing.TpcLeader.FindPlace | hw4/src/tpcleader.c:74-90 | the loop finds the id or the place of a new one |
| FollowerRing.TpcLeader.LinkBefore | hw4/src/tpcleader.c:78-81 | relinking four pointers inserts the node in front of a position and keeps the circular list, `prev` inverse to `next` |
| FollowerRing.TpcLeader.Add | hw4/src/tpcleader.c:77-96 | the new follower is linked in at its place and counted |
| FollowerRing.TpcLeader.Register | hw4/src/tpcleader.c:47-101 | the ring becomes the sorted ring with the follower; a full ring is frozen and answers an error |
| FollowerRing.TpcLeader.GetPrimary | hw4/src/tpcleader.c:108-124 | the first follower with a greater id, else the lowest; NULL until the ring is full |
| FollowerRing.AddressSpelledOut | hw4/src/tpcleader.c:60-63 | a follower of host 127.0.0.1 and port 16201 is known by the hash of "16201:127.0.0.1" |
| CStrings.AtoiDecimal | hw4/src/tpcleader.c:60 | a port sent in decimal is registered as that port |
| Cluster.BefallKeepsView | hw4/src/kvserver.c:237-281 | crashes, restarts and crashed restarts never change the settled disk of a follower |
| Cluster.MeetIsAtomic | hw4/src/kvserver.c:131-209 | a contact with any fate is handled as a whole or not at all; if it is answered it was handled and the answer is the handler's |
| Cluster.ExchangeViews | hw4/src/tpcleader.c:263-281 | among all followers a contact changes at most the settled disk of the one contacted, by one handler |
| Cluster.LuckDecides | hw4/src/tpcleader.c:154-159 | whether a contact connects and whether its reply is lost depends on who is up and on the script alone, not on the request or the disks |
| LeaderProtocol.VoteView | hw4/src/kvserver.c:134-168 | a follower votes commit iff its store allows the operation, and is then prepared |
| LeaderProtocol.DecisionView | hw4/src/kvserver.c:169-195 | a decision completes the transaction at a follower whatever it has missed so far |
| LeaderProtocol.CollectVotes | hw4/src/tpcleader.c:209-234 | the decision is commit iff every replica could carry the operation out and every contact of the poll was answered; then all are bound by their vote, and in any case only replicas are prepared |
| LeaderProtocol.SendDecision | hw4/src/tpcleader.c:255-287 | a pass keeps every replica prepared or done; all acknowledged iff no contact up to the first refused one failed, and then all are done |
| LeaderProtocol.PassesBound | hw4/src/tpcleader.c:253-287 | every pass but the last has a contact that is refused or gets no reply, so passes are at most failures plus one |
| LeaderProtocol.PassUsesScript | hw4/src/tpcleader.c:258-286 | every failing contact uses something that goes wrong up, so the passes end |
| LeaderProtocol.UntroubledCourse | hw4/src/tpcleader.c:253-287 | with all replicas up and all messages delivered there is one pass |
| LeaderProtocol.Transact | hw4/src/tpcleader.c:206-291 | atomicity: SUCCESS iff every replica could carry the operation out and answered the poll, and then all have applied it, otherwise none; others unchanged, nobody prepared; the passes are those of the contacts that fail |
| ReplicatedMap.WillingIffMapAllows | hw4/src/tpcleader.c:212-234 | when the followers represent a map, all replicas can carry an operation out iff the map allows it |
| ReplicatedMap.DecisionRefinesMap | hw4/src/tpcleader.c:206-291 | the followers after a decided transaction represent the map after the operation, or the same map |
| ReplicatedMap.ReplicaAnswersForMap | hw4/src/kvserver.c:196-205 | every replica of a key answers a read as the map does and changes nothing |
| ReplicatedMap.Ask | hw4/src/tpcleader.c:154-159 | asking one replica until it can be reached |
| ReplicatedMap.HandleGet | hw4/src/tpcleader.c:141-184 | answers exactly as the map; the NULL response is read iff, by who is up and by the script, one of the first contacts that connect is lost: with the primary for a key of the map, with the replicas in turn for any other |
| ReplicatedMap.PrimaryDecides | hw4/src/tpcleader.c:154-169 | for a key of the map only the primary's first reply matters |
| ReplicatedMap.LossIsScripted | hw4/src/tpcleader.c:152-169 | that condition equals what running the handlers on the disks in turn shows |
| ReplicatedMap.NothingIsLost | hw4/src/tpcleader.c:154-159 | a network that refuses connections but keeps no reply back loses no read |
| ReplicatedMap.LossHappens | hw4/src/tpcleader.c:158-159 | a lost read exists: one follower, up, with an empty disk |
| LeaderService.HandleTpc | hw4/src/tpcleader.c:194-296 | exactly the answer of one map: not at capacity, unknown type, or SUCCESS iff the map allows the write and the poll is answered; the followers represent the map that follows |
| LeaderService.Register | hw4/src/tpcleader.c:47-101 | a registration changes nothing for clients |
| LeaderService.ForwardedUnchanged | hw4/src/tpcleader.c:157 | the request a follower decodes from what the leader sends on is the one the leader decoded, and has no NUL |
| LeaderService.Handle | hw4/src/tpcleader.c:303-329 | any bytes: the answer is exactly what ring, map, who is up and script determine, and the leader and its followers stand at the stage that follows |
| LeaderService.Read | hw4/src/tpcleader.c:141-184 | the value of the map, or the read through NULL iff the reply is lost |
| LeaderService.EndsIff | hw4/src/tpcleader.c:303-329 | the leader reads through NULL iff the bytes are no request or a read on a full ring loses its reply |
| LeaderService.SilenceEndsLeader | hw4/src/tpcleader.c:307-313 | an empty message is answered by reading through NULL |
| LeaderService.LostRead | hw4/src/tpcleader.c:141-161 | a run from a new leader, one registration and one read, that ends at the NULL response |
| LeaderService.ReadSpelledOut | hw4/src/tpcleader.c:303-329 | the bytes of a GET are answered with the value of that key in the map, or with the text for a missing one, unless the reply is lost |
| LeaderService.WriteSpelledOut | hw4/src/tpcleader.c:303-329 | on a full ring whose poll is answered, the bytes of a PUT put that value under that key and those of a DELETE remove it, or the map refuses and stays |
| LeaderService.OthersSpelledOut | hw4/src/tpcleader.c:303-329 | the texts of the other answers |
| LeaderService.FreshClusterIsReady | hw4/src/tpcleader.c:21-37 | a new leader over empty followers represents the empty map, whoever is up and whatever will go wrong |
| LeaderService.AnswerIsAllowed | hw4/src/tpcleader.c:303-329 | each answer is one that a service of one map may give, and the map changes by the writes reported as successful alone |
| LeaderService.NoWorse | hw4/src/tpcleader.c:303-329 | a network that keeps no reply back, or is healthy, is so after any message |
| LeaderService.OneMap | hw4/src/socket_server.c:24-32 | so is every answer of a run, checked against the map its own answers describe |
| LeaderService.NoEarlyEnd | hw4/src/socket_server.c:24-32 | on a network that keeps no reply back no request of a run ends the leader |
| LeaderService.Serve | hw4/src/socket_server.c:24-32 | every answer and the final stage of a run of received bytes are determined exactly; the followers hold the one map that the answers describe; the run ends early only where the answer is the read through NULL |
| Allocator.Allocator.InitMalloc | hw3/mm_alloc.c:15-24 | the heap is the empty sentinel that is never free |
| Allocator.Allocator.FindListElem | hw3/mm_alloc.c:27-39 | the first free slot that is large enough, in address order |
| Allocator.Allocator.FindListElemDataLocation | hw3/mm_alloc.c:63-72 | the slot of a live pointer |
| Allocator.Allocator.SplitSlot | hw3/mm_alloc.c:41-61 | cuts a free slot iff the rest has room for a header and four bytes, links the rest in, clears both; clients see nothing |
| Allocator.Allocator.MergeFollowing | hw3/mm_alloc.c:75-92 | swallows exactly the run of free slots behind a slot; clients see nothing |
| Allocator.Allocator.MergePrevious | hw3/mm_alloc.c:93-109 | is swallowed by exactly the run of free slots before it; clients see nothing |
| Allocator.Allocator.MergeFreeSpace | hw3/mm_alloc.c:74-110 | both loops together merge the whole run of free slots around the slot |
| Allocator.Allocator.ExtendTail | hw3/mm_alloc.c:127-133 | a free tail grows over new memory iff the break can move |
| Allocator.Allocator.AppendSlot | hw3/mm_alloc.c:135-144 | a new slot behind a used tail iff the break can move |
| Allocator.Allocator.Malloc | hw3/mm_alloc.c:112-147 | NULL iff the size is zero or there is no room; else a new pointer to at least `size` zero bytes, every other block and byte as before |
| Allocator.Allocator.Free | hw3/mm_alloc.c:208-217 | takes the pointer away, changes no other block's bytes, and merges; NULL does nothing |
| Allocator.Allocator.Move | hw3/mm_alloc.c:161-205 | moves a live block to a new one, or leaves everything as it was when there is no room |
| Allocator.Allocator.Realloc | hw3/mm_alloc.c:149-206 | keeps the first bytes up to the smaller size and zero-fills the rest at a new pointer; on failure the old block is intact |
| Allocator.Allocator.CopyInto | hw3/mm_alloc.c:199-203 | a copy between live blocks changes only the target block |
| Allocator.Allocator.Shape | hw3/mm_alloc.c:13-24 | headers and data add up to what sbrk gave, and slots do not overlap |
| Allocator.Allocator.Neighbours | hw3/mm_alloc.c:41-61 | neighbouring slots touch, and `prev` inverts `next` |
| HeapLayout.BytesConserved | hw3/mm_alloc.c:13-24 | over tiled blocks the sizes plus headers equal the bytes obtained |
| HeapLayout.SplicedIsRep | hw3/mm_alloc.c:41-110 | rewriting a stretch of slots and the links of its neighbours keeps the whole heap well formed |
| HeapLayout.SplicedLive | hw3/mm_alloc.c:41-110 | and changes the clients' view only inside the stretch |
| HeapPolicy.FirstFit | hw3/mm_alloc.c:27-39 | the first free block of at least the size |
| HeapPolicy.Split | hw3/mm_alloc.c:41-61 | both parts fill the block exactly, and what is kept exceeds the size by less than a header and four bytes |
| HeapPolicy.FirstFitIsCut | hw3/mm_alloc.c:112-128 | a first fit with room for a header and four bytes more is cut to the size, with the rest as a free block behind it; any other is handed out whole; the break stays |
| HeapPolicy.RestServesNext | hw3/mm_alloc.c:41-61 | a later request the rest is large enough for does not move the break, and gets the rest unless something before it fits |
| HeapPolicy.NothingFits | hw3/mm_alloc.c:129-146 | otherwise the break moves by what a free last block lacks, or by a header and the size |
| HeapPolicy.MallocKeepsCoalesced | hw3/mm_alloc.c:112-147 | no two free blocks become neighbours when one is used, split or appended |
| HeapPolicy.FreeKeepsCoalesced | hw3/mm_alloc.c:208-217 | nor when one is freed and merged |
| HeapSteps.MergeTwice | hw3/mm_alloc.c:74-110 | merging forward and then backward is merging the maximal run |
| HeapSteps.WriteStep | hw3/mm_alloc.c:199-203 | bytes written inside a live block change that block's bytes and nothing else |
| LinkedLists.DlAppend | hw4/src/utlist.h:522-534 | appends the node and keeps the doubly linked list with head.prev the tail |
| LinkedLists.DlDelete | hw4/src/utlist.h:557-573 | unlinks the node at any position, keeping the shape |
| MergeRuns.MergeIsSorted | hw4/src/utlist.h:196-217 | two sorted runs merge into a sorted one |
| MergeRuns.MergeIsStable | hw4/src/utlist.h:203-209 | equal nodes keep their order, those of the first run first |
| MergeRuns.PassDoublesRuns | hw4/src/utlist.h:186-219 | if every aligned run of k is sorted, after a pass every aligned run of 2k is |
| MergeRuns.PassIsStable | hw4/src/utlist.h:186-219 | a pass keeps the order of equal nodes |
| MergeRuns.PassPermutes | hw4/src/utlist.h:186-219 | a pass keeps the nodes |
| MergeRuns.Merges | hw4/src/utlist.h:185-224 | a pass makes at most one merge iff the list is no longer than two runs |
| MergeRuns.PassesPermute | hw4/src/utlist.h:171-228 | for any comparison, also one that is no order, the sort keeps the nodes |
| MergeRuns.SortOfIsStableSort | hw4/src/utlist.h:171-228 | for every total preorder the sort is a stable sorted permutation |
| MergeRuns.StableSortIsUnique | hw4/src/utlist.h:171-228 | and there is only one |
| ListSort.Emit | hw4/src/utlist.h:210-216 | relinking the tail puts one node out |
| ListSort.Choose | hw4/src/utlist.h:197-209 | the node comes from the run the merge says |
| ListSort.MergeTwo | hw4/src/utlist.h:195-218 | the inner loop puts out the merge of two neighbouring runs, reading links that it has not overwritten yet |
| ListSort.TakeRun | hw4/src/utlist.h:188-195 | the walk covers the run and finds the start of the next |
| ListSort.MergePass | hw4/src/utlist.h:182-219 | the middle loop puts out the pass and counts its merges |
| ListSort.LlSort | hw4/src/utlist.h:108-165 | relinks a singly linked list into the stable sorted order and never touches `prev` |
| ListSort.DlSort | hw4/src/utlist.h:171-228 | relinks a NULL-ended list with head.prev the tail into the stable sorted order, in the same shape; ends by doubling the runs |
| ListSort.CdlSort | hw4/src/utlist.h:233-304 | the same for a ring |
| ListSort.HashSort | hw4/src/uthash.h:730-815 | the same for the application order of a hash table, with its tail; writes no other field of a handle |
| HashChains.MaskIsMod | hw4/src/uthash.h:207-210 | masking with a power of two less one is the remainder |
| HashChains.ShiftIsDiv | hw4/src/uthash.h:688-690 | shifting is dividing by a power of two |
| HashChains.IdealChainIsCeiling | hw4/src/uthash.h:659-690 | the shift-and-mask formula is the ceiling of items over buckets |
| HashChains.PushFront | hw4/src/uthash.h:622-628 | a handle is linked in at the front of a bucket |
| HashChains.Unchain | hw4/src/uthash.h:636-646 | a handle is unlinked from any place of its bucket |
| HashChains.FindInChain | hw4/src/uthash.h:608-619 | finds the key in a bucket iff it is there |
| HashTable.PlacedAdd | hw4/src/uthash.h:207-210 | a handle added to the bucket of its hash value keeps every handle in exactly its bucket |
| HashTable.Rehash | hw4/src/uthash.h:682-711 | moving every handle to the doubled array puts each into exactly the bucket of its hash value; counts, multipliers and the number of handles beyond the ideal length are right |
| HashTable.HashTable.ExpandBuckets | hw4/src/uthash.h:677-723 | the buckets double and stay a power of two, the contents stay; ineffective expansions in a row are counted, and the second gives expansion up |
| HashTable.HashTable.AddToBucket | hw4/src/uthash.h:622-633 | the handle joins its bucket; the buckets double iff it then holds ten for every multiple it is allowed and expansion was not given up |
| HashTable.HashTable.JoinOrder | hw4/src/uthash.h:185-196 | the handle joins the end of the application order; the first makes the table |
| HashTable.HashTable.JoinIndex | hw4/src/uthash.h:197-201 | the handle is counted, hashed and put into its bucket, under the same condition for doubling |
| HashTable.HashTable.Detach | hw4/src/uthash.h:234-255 | a handle that is not alone leaves the order, its bucket and the count |
| HashTable.HashTable.MakeTable | hw4/src/uthash.h:150-167 | a new table has 32 empty buckets |
| HashTable.HashTable.Home | hw4/src/uthash.h:207-210 | the bucket of a key is its hash value modulo the number of buckets |
| HashTable.HashTable.Add | hw4/src/uthash.h:182-205 | the map gains the key and the order gains the handle at its end; the first key makes 32 buckets, a later one doubles them iff its bucket is crowded |
| HashTable.HashTable.Find | hw4/src/uthash.h:103-114 | returns what the map holds for the key |
| HashTable.HashTable.Delete | hw4/src/uthash.h:224-257 | the map loses the key and the order the handle; the last one frees the table |
| HashTable.HashTable.Sort | hw4/src/uthash.h:730-815 | the application order becomes the stable sorted one; the table stays valid and its contents are untouched |
| HashTable.SortKeeps | hw4/src/uthash.h:730-815 | whatever the comparison, no handle is lost or doubled and every key keeps its handle |
| HashTable.Rejoined | hw4/src/uthash.h:236-251 | once its neighbours point past a handle the others are in order without it |
| HashTable.UnlinkApp | hw4/src/uthash.h:236-251 | patches the application order, its head and its tail |
| HashTable.DropFrom | hw4/src/uthash.h:636-646 | takes a handle out of its bucket and its count, other buckets untouched |
| Md5Rounds.FIsRfcF | hw4/src/md5.c:51 | the rewritten F is the F of RFC 1321 |
| Md5Rounds.GIsRfcG | hw4/src/md5.c:52 | the rewritten G is the G of RFC 1321 |
| Md5Rounds.HsAreRfcH | hw4/src/md5.c:53-54 | H and H2 are the H of RFC 1321 |
| Md5Rounds.RotationIsCircular | hw4/src/md5.c:62 | the two shifts rotate, for every amount MD5 uses |
| Md5Rounds.StepIsOperation | hw4/src/md5.c:60-63 | STEP on rotated register names is the next operation of section 3.4 of RFC 1321 |
| Md5Rounds.Round1 | hw4/src/md5.c:112-128 | sixteen unrolled steps are operations 1 to 16 |
| Md5Rounds.Round2 | hw4/src/md5.c:130-146 | operations 17 to 32 |
| Md5Rounds.Round3 | hw4/src/md5.c:148-164 | operations 33 to 48, with H and H2 in turn |
| Md5Rounds.Round4 | hw4/src/md5.c:166-182 | operations 49 to 64 |
| Md5Stream.Context.constructor | hw4/src/md5.c:200-209 | a fresh context stands for the empty message |
| Md5Stream.Context.Body | hw4/src/md5.c:93-198 | any number of blocks are folded with the compression function of RFC 1321 |
| Md5Stream.CountStep | hw4/src/md5.c:216-219 | the two counters keep hi * 2^29 + lo equal to the byte count modulo 2^61 |
| Md5Stream.Context.Count | hw4/src/md5.c:216-219 | and so does the code that updates them |
| Md5Stream.Context.Update | hw4/src/md5.c:211-247 | the context comes to stand for the message with the data appended: counters, hashed blocks and buffered tail |
| Md5Stream.LengthBytes | hw4/src/md5.c:267-277 | the eight length bytes are the bit count modulo 2^64 |
| Md5Stream.Context.Pad | hw4/src/md5.c:253-265 | the padding of section 3.1 of RFC 1321, in one block or two |
| Md5Stream.Context.Final | hw4/src/md5.c:249-294 | the result is the RFC 1321 digest of everything updated; the context is wiped |
| Md5Stream.HashChunks | hw4/src/md5.c:211-294 | however a message is cut into updates, the digest is that of the whole |
| Md5Stream.StrHash64 | hw4/src/kvconstants.h:112-120 | the 64-bit hash is the first eight bytes of the digest, low byte first |
| Rfc1321.BlocksOfConcat | hw4/src/md5.c:106-190 | hashing block by block can be cut anywhere between blocks |
| Md5TestSuite.InitialBytes | hw4/src/md5.c:202-205 | the registers start from the byte row of section 3.3 of RFC 1321 |
| Md5TestSuite.EmptyDigest | hw4/src/md5.c:200-294 | the digest of the empty message is that of appendix A.5 of RFC 1321 |
| Md5TestSuite.AbcDigest | hw4/src/md5.c:200-294 | and so is the digest of "abc" |
| CStrings.StrtolDecimal | hw4/src/libhttp.c:99-100 | strtol reads what sprintf printed and stops behind it |
| CStrings.StrtolForms | hw4/src/libhttp.c:129-130 | blanks in front and either sign are read, and it stops behind the digits |
| CStrings.DecimalNotation | hw4/src/kvmessage.c:176-178 | numbers are printed in base ten |
| UrlCodec.UrlEncode | hw4/src/liburl.c:75-90 | within its buffer, the printed URL without its last separator; url_decode reads the parameters back from it |
| UrlCodec.KnownNameEndsFirst | hw4/src/liburl.c:55-65 | the length given to malloc and strncpy is never negative |
| UrlCodec.ParamNames | hw4/src/liburl.c:11-17 | a name is taken for `key` or `val` iff it is a prefix of it; the empty one for `key` |
| UrlCodec.ShortNames | hw4/src/liburl.c:11-17 | `k` and the empty name are read as `key` |
| UrlCodec.UrlDecode | hw4/src/liburl.c:19-73 | computes the decoding that `DecodedIs` describes, prefixes of names and stray parameters included |
| UrlCodec.UrlRoundTrip | hw4/src/liburl.c:19-73 | url_decode reads the parameters out of any text of the form of a URL, whoever wrote it, also with `=` and `?` inside them |
| UrlCodec.DecodedIsPlain | hw4/src/liburl.c:45-69 | no decoded parameter holds `&`, and all its characters come from the URL |
| UrlCodec.DecodedIs | hw4/src/liburl.c:19-73 | any URL with parameters: the rest is split at the ampersands, the last item named by a prefix of `key` gives the key, the last named by a non-empty prefix of `val` the value |
| UrlCodec.ForeignIsPassedOver | hw4/src/liburl.c:55-60 | an item of another name, or without `=`, makes no difference wherever it stands |
| UrlCodec.OrderIsIrrelevant | hw4/src/liburl.c:45-69 | nor does the order of two items, unless both give the key or both the value |
| Http.HttpRequestParse | hw4/src/libhttp.c:18-66 | computes the parse that the round trip is about, for any bytes received |
| Http.RequestRoundTrip | hw4/src/libhttp.c:18-66 | a request line is parsed to its method and path |
| Http.ParsedPathIsPlain | hw4/src/libhttp.c:46-59 | no parsed path holds a space or a line feed |
| Http.MethodsLetThrough | hw4/src/libhttp.c:156-161 | a method passes the test iff it is a prefix of one of the four |
| Http.ShortMethods | hw4/src/libhttp.c:156-161 | a method of one letter, and an empty one, are parsed |
| Http.HttpResponseParse | hw4/src/libhttp.c:77-147 | computes the parse that the round trip is about, for any bytes received, with the undefined outcomes |
| Http.LengthHeaderIs | hw4/src/libhttp.c:115-134 | the length header is found and read |
| Http.ResponseRoundTrip | hw4/src/libhttp.c:77-147 | a built response is parsed to its status, length and body |
| Http.AnyResponseParses | hw4/src/libhttp.c:77-147 | so is one of either version, whatever length it announces |
| Http.StatusNeeds | hw4/src/libhttp.c:90-100 | no other version and no missing space is accepted |
| Http.WalkDecides | hw4/src/libhttp.c:112-134 | the loop over the headers goes past the terminator iff well-formed headers lead to a line end that is too short |
| Http.UndefinedIff | hw4/src/libhttp.c:77-141 | when the parser uses a NULL message or goes past the terminator, exactly |
| Http.UnknownStatus | hw4/src/libhttp.c:112-113 | every unknown three-digit status on a line of its own does |
| Http.ShortEnds | hw4/src/libhttp.c:112-135 | and so do a last line feed and a last two |
| KvMessage.Outbound.Add | hw4/src/libhttp.c:241-257 | appends to the message being built |
| KvMessage.Outbound.Send | hw4/src/libhttp.c:259-278 | whatever write accepts at a time, the whole message is sent once, or a prefix of it and an error returned |
| KvMessage.KvRequestSend | hw4/src/kvmessage.c:134-150 | sends the text of the request, or nothing for a type that is not sent |
| KvMessage.IsValidMethodName | hw4/src/libhttp.c:198-206 | true iff the method is one of four |
| KvMessage.KvRequestReceive | hw4/src/kvmessage.c:13-61 | computes the decoding that the lemmas on bytes are about, errors included |
| KvMessage.TypeComesBack | hw4/src/kvmessage.c:102-130 | method, path and parameters determine the type of a complete request |
| KvMessage.TextArrives | hw4/src/kvmessage.c:13-61 | a complete request that a URL can carry is decoded to itself if one read takes it in, whoever wrote it |
| KvMessage.CleanRequestArrives | hw4/src/kvmessage.c:13-150 | a complete request that fits the URL buffer and whose fields a URL can carry is received as it was sent |
| KvMessage.RequestArrivesIffClean | hw4/src/kvmessage.c:13-150 | and of those that fit only such a request is |
| KvMessage.HandlerRequestArrives | hw4/src/kvmessage.c:13-150 | what one handler sends within the buffer is the request the other handles, and no two requests look alike on the wire |
| KvMessage.ForwardedArrives | hw4/src/tpcleader.c:222 | what the leader received from a client and can print reaches a follower unchanged |
| KvMessage.PutFits | hw4/src/liburl.c:75-85 | which writes fit the buffer, exactly |
| KvMessage.LongPutIsReceived | hw4/src/kvmessage.c:13-61 | the writes that do not fit can be received all the same |
| KvMessage.DecisionArrives | hw4/src/tpcleader.c:237-247 | COMMIT and ABORT always fit and arrive |
| KvMessage.DecodedIffRequest | hw4/src/kvmessage.c:13-61 | bytes are decoded to a request iff they start with one of four methods, a space and a path that ends, and the path has the parameters the method asks for; otherwise NULL |
| KvMessage.ReadAndDeleteSpelledOut | hw4/src/kvmessage.c:23-34 | the bytes of a GET and of a DELETE are decoded to a read and a delete of that key |
| KvMessage.WriteSpelledOut | hw4/src/kvmessage.c:28-31 | the bytes of a PUT are decoded to a write of that value under that key, whichever comes first |
| KvMessage.RegistrationSpelledOut | hw4/src/kvmessage.c:35-39 | the bytes of a registration are decoded to that host and port |
| KvMessage.DecisionsSpelledOut | hw4/src/kvmessage.c:23-43 | the bytes of COMMIT, of ABORT and of a request for the index page |
| KvMessage.ReadAndDeletePrinted | hw4/src/kvmessage.c:102-150 | what is sent for a GET and a DELETE |
| KvMessage.WritePrinted | hw4/src/kvmessage.c:102-150 | for a PUT |
| KvMessage.RegistrationPrinted | hw4/src/kvmessage.c:102-150 | and for a registration |
| KvMessage.KvResponseSend | hw4/src/kvmessage.c:169-184 | sends the text of the response, with the length of its body |
| KvMessage.KvResponseReceive | hw4/src/kvmessage.c:84-100 | computes the decoding that the round trip is about |
| KvMessage.ResponseArrives | hw4/src/kvmessage.c:65-184 | every response arrives with its type and body, a missing body as an empty one, and the announced length is that of the body |
| KvMessage.ResponsePrinted | hw4/src/kvmessage.c:152-184 | the bytes of each of the five answers: 200 OK, 201 Created, 202 Accepted, 204 No Content, 500 Internal Server Error |
| KvMessage.ResponseDecoded | hw4/src/kvmessage.c:65-100 | bytes with each of these lines, of either version and any announced length, are received as that answer |
| WorkQueue.WorkQueue.Push | hw4/src/wq.c:35-43 | the job joins the end of the queue; size and list stay consistent |
| WorkQueue.WorkQueue.Take | hw4/src/wq.c:24-30 | the oldest job leaves the queue |
| WorkQueue.RunKeepsInvariant | hw4/src/wq.c:17-43 | in every run at most one thread is inside the mutex, jobs popped and queued are those pushed, and a sleeper over a non-empty queue has a broadcast coming |
| WorkQueue.FirstInFirstOut | hw4/src/wq.c:17-43 | under any interleaving jobs leave in push order, each once |
| WorkQueue.Perform | hw4/src/wq.c:17-43 | each step of a thread, carried out on the linked list, leaves the queue the step says and hands out the job it says; the size is zero iff the thread has to wait |
| WorkQueue.Execute | hw4/src/wq.c:17-43 | over a whole run on the linked list the jobs handed out are the first that were put in, and the list holds the rest |
| WorkQueue.NobodySleepsOverWork | hw4/src/wq.c:21-23 | with the mutex free no thread sleeps while the queue is non-empty |
| WorkQueue.NoDeadlock | hw4/src/wq.c:17-43 | some thread inside push or pop can go on, unless all of them sleep on an empty queue |

## Left out

- FollowerRing.TpcLeader.Register: the id is formed by an arbitrary hash of "port:host", and the port is what strtol makes of the text without its clamping to the range of a long.
- LeaderService.Serve: serial requests only; interleaved leader transactions and messages delivered after the leader's timeout are outside it, because transactions carry no identifier.
- LeaderService.Handle: the text of the index page, and requests too long for the buffer of `url_encode`, which are a precondition.
- KvServer.KvServer.HandleTpc: a client's own PUT, COMMIT or ABORT to a follower is handled by the same code, but the cluster's claims are for followers that only the leader writes to.
- ChainStore.KvStore.Put: one atomic step; the code releases the read lock before it takes the write lock (`hw4/src/kvstore.c:131-132`), so concurrent puts and deletes are not covered.
- TpcLog.TpcLog.Log: errors of open, write and malloc, and the raw bytes of a log entry's header.
- Allocator.Allocator.Malloc: `size_t` wrap-around, the alignment of results and other users of sbrk; header bytes are cells of their own, so a client cannot forge one.
- Allocator.Allocator.Realloc: a pointer that is not live, and the in-place paths that are commented out in the source.
- Md5Stream.Context.Body: the sine table behind the constants and the per-block scratch array of machines that are not little-endian.
- Md5Stream.Context.Update: reads its data as a sequence of bytes; aliasing of the data with the context is not modelled.
- Md5Stream.StrHash64: takes the bytes of the string up to its NUL.
- ListSort.DlSort: overflow of the C int that holds the run length, here and in the other sorts.
- HashTable.HashTable.Sort: the elements compared are values; a table of pointers to records that change while they are sorted is not covered.
- HashTable.HashTable.Add: the hash is an arbitrary function of the key and unsigned numbers do not wrap; HASH_REPLACE, HASH_SELECT and the Bloom filter are not modelled.
- HashTable.HashTable.Delete: freeing the table's memory is forgetting it.
- UrlCodec.UrlEncode: overflow of its 128-byte buffer, which is a precondition.
- FollowerRing.TpcLeader.IdOf: the array that the address is printed into, which is too short for it (`hw4/src/tpcleader.c:61-62`).
- Http.HttpResponseParse: the size of the body's allocation; a body longer than its announced length overflows it in the code, and the model only shows that sent responses announce the right length.
- KvMessage.KvRequestReceive: one read of the socket returns the whole message, or its first 8192 bytes.
- KvMessage.Outbound.Send: failure of write is one negative return; the message it then leaks is not modelled.
- Sockets, `connect_to`, `server_run`, signals, and homeworks 0 to 2: input and output, or easy loops.
- Initialisation and cleaning of directories (`kvstore_init`, `kvstore_clean`), memory that is never freed, and tracing.
