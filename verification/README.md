# Gateway cores, verified

A Dafny model of the parts of the gateway whose correctness no single branch
shows: connection ownership and draining under concurrency, path
normalisation and mount resolution, the FTP connector, configuration over
whole runs, and the policy kernel. `dafny verify dfyconfig.toml` checks
everything.

**Concurrent protocols.** `TailcatListener`, `Lifecycle` and `Bridge` are
transition systems: one step per lock section, channel operation or program
point of a goroutine, in any interleaving (`Runs` is what they share). An
inductive invariant is proved for every run, and the promises at return are
drawn from it. `BridgeService` adds why the accept loop ends and who is served. The
mutex-protected objects (`Listener`, `ConnectionSessions`, `Connections`) are
classes whose methods are proved to perform exactly those steps.

**Paths and mounts.** `MountPath` is the byte scanner, the percent decoder
(section 2.1 of RFC 3986), the guards and the lexical clean; `PathLaws` says
what an accepted path looks like and when a second pass accepts it, and
`PathAccepts` which requests are accepted at all.
`MountResolve` is the single pass over the mounts and the declarative maximum
it computes; `ResolveFields` tells it from the fields of mounts and requests
alone, and `ResolveLaws` and `Ambiguity` draw its consequences.

**FTP.** `FtpReply` reads replies (section 4.2 of RFC 959) and is proved the
inverse of their wire form; `FtpPassive` reads the passive replies (section 3
of RFC 2428, section 4.1.2 of RFC 959); `FtpConnector` is the conversation, as
a record of everything done to the sockets, and `FtpWire` ties that record to
the bytes written and read; `FtpBody` is the streaming body that owns both
connections.

**Configuration.** `Config` is validation. `Store` keeps configurations on the
heap, with arrays for slices and objects for pointers; `StoreRuns` proves that
in any run of writes, publications and snapshots no write shows in the store,
and that callers who share nothing see each configuration as a value of its
own. `Reload` proves that the one-directional checks amount to equality, in
every interleaving of reloads, and `Routes` that the transport lookup therefore
never fails.

**Policy and codecs.** `Policy` and `Legacy` are the maximum fold and the
compiler of first-match directives to priorities; `LegacyServer` is what the
other directives compile to. `Pairing` and `Socks5` are
two framings with their round trips.

Strings are sequences of bytes, one `char` per byte. Library functions whose
bodies are not in the repository (`url.Parse`, `strings.EqualFold`, `netip`,
Tailcat address parsing, TLS loading) are function parameters, and every
theorem holds for whatever they return, with two exceptions:
`Routes.LookupNeverFails` and `Routes.EveryTransportIsUsed` need case folding to
tell `ftp` from `https`, and the results of `Legacy` about directives as written
use the laws `Legacy.CaseLaws` of folding and lower-casing.

## Where the code does less than it says

- `mount/path_fuzz_test.go:14-20` expects every output of `NormalizePath` to be
  accepted unchanged. `/%25` gives `/%`, which is rejected
  (`PathLaws.SecondPassCanFail`); `PathLaws.SecondPass` is the exact condition.
- `DESIGN.md:66` says equally specific mounts need distinct priorities or
  validation fails. Validation does not look:
  `Ambiguity.ValidConfigurationCanBeAmbiguous` is a valid configuration and a
  request it cannot resolve. `Ambiguity.AmbiguousIffTwinsOnTop` is exactly when
  that happens, and `Ambiguity.DistinctPrioritiesSuffice` is the promise as a
  check on the configuration alone.
- `server/http.go:305-307` drops the backend without closing it when the client
  arrives after draining began: `Lifecycle.LateClientLeavesBackendOpen`;
  `Lifecycle.HandlerReturnsClean` is the exact condition.
- `socks5/socks5.go:180-205` lets the last label of a domain end in a hyphen:
  `Socks5.OnlyTheLastMayEndInHyphen`.
- `connector/ftp.go:103-105` ignores the code of the greeting:
  `FtpConnector.GreetingDecidesNothing`. A server that greets with 421 is sent
  USER all the same: `FtpConnector.RefusingGreeting`.
- `config/legacy.go:129-130` lower-cases selectors that are later compared by case
  folding. The two disagree on U+0130, and then a compiled rule matches what its
  directive does not name and misses what it does:
  `Legacy.LoweringCanChangeAMatch`. `Legacy.RuleExact` and `Legacy.FirstMatchExact`
  say exactly when a directive means what it says.
- `connector/ftp.go:387-396` writes a target as it is, line feeds included.
  `FtpWire.CommandsAreLines` says exactly when each command is one line.

## Model

| member | source | states |
|---|---|---|
| TailcatListener.EveryRunKeepsInv | link/tailcat_adapter.go:257-332 | in every interleaving of `Handle`, any number of `Accept` calls and `Close`, the queue holds at most 64, the flags agree with the progress of `Close`, and no connection is lost or duplicated |
| TailcatListener.InvStep | link/tailcat_adapter.go:276-332 | each atomic step of the three operations keeps that invariant |
| TailcatListener.PlacesAccept | link/tailcat_adapter.go:293-314 | no step of `Accept` changes in how many places a connection is |
| TailcatListener.ExactlyOnePlace | link/tailcat_adapter.go:257-332 | a connection whose `Handle` has finished is queued, held by one `Accept` in progress, delivered or closed by the listener: exactly one of these, once |
| TailcatListener.ClosedQueueStaysEmpty | link/tailcat_adapter.go:316-332 | once the mutex is free with `closing` set, the queue is empty then and in every later state |
| TailcatListener.QuiescentSettled | link/tailcat_adapter.go:293-332 | when `Close` has returned and no `Accept` is in progress, arrivals are exactly deliveries plus closed connections |
| TailcatListener.DeliveredInArrivalOrder | link/tailcat_adapter.go:276-314 | with one accept loop, what is delivered is a subsequence of what arrived |
| TailcatListener.Listener.Handle | link/tailcat_adapter.go:276-291 | queues the connection when open and not full, otherwise closes it once; performs exactly the step of the protocol |
| TailcatListener.Listener.AcceptEnter | link/tailcat_adapter.go:293-299 | goes on to wait unless the closed channel is closed |
| TailcatListener.Listener.AcceptReceive | link/tailcat_adapter.go:300-303 | takes the head of the queue and holds it |
| TailcatListener.Listener.AcceptSettle | link/tailcat_adapter.go:304-311 | delivers the held connection, or closes it once and fails when closing has begun |
| TailcatListener.Listener.Close | link/tailcat_adapter.go:316-332 | closes every queued connection once and leaves the queue empty; a second call changes nothing |
| Sessions.SectionsKeepValid | server/lifecycle.go:98-159 | every lock section keeps: the drained channel is closed, once, exactly when draining with nothing tracked; dials are cancelled exactly when draining |
| Sessions.DrainingIsPermanent | server/lifecycle.go:98-151 | no section clears draining, and while it holds nothing new is tracked |
| Sessions.ConnectionSessions.Add | server/lifecycle.go:98-111 | tracks the connection unless nil or draining, and closes a refused one once |
| Sessions.ConnectionSessions.Remove | server/lifecycle.go:113-120 | untracks it and signals drained when it was the last while draining |
| Sessions.ConnectionSessions.BeginDrain | server/lifecycle.go:122-134 | starts draining, cancels dials, and signals drained at once when nothing is tracked |
| Sessions.ConnectionSessions.ForceClose | server/lifecycle.go:136-151 | closes every tracked connection once, untracks all and signals drained |
| Sessions.ConnectionSessions.CloseDrainedLocked | server/lifecycle.go:153-159 | leaves the drained channel closed, never closing it twice |
| Lifecycle.EveryRunKeepsInv | server/lifecycle.go:21-159 | the joint invariant of `Serve`, its sessions and any number of CONNECT handlers holds in every state of every interleaving; in it every registered connection is tracked, closed, or about to be closed by `forceClose` |
| Lifecycle.InvStep | server/http.go:289-322 | each program point of a handler and of `Serve` keeps the joint invariant |
| Lifecycle.DrainedExactlyWhenEmpty | server/lifecycle.go:98-159 | in every reachable state drained is closed, at most once, exactly when draining with nothing tracked, and dials are cancelled exactly when draining |
| Lifecycle.DrainingNeverReverts | server/lifecycle.go:98-151 | after draining begins it holds for ever and the tracked set only shrinks |
| Lifecycle.SettledAfterServe | server/lifecycle.go:36-57 | once `Serve` has returned, then and in every later state nothing is tracked and every connection a handler has registered and not released is closed |
| Lifecycle.OpenAfterServe | server/lifecycle.go:36-57 | a connection still open then is one its handler has not registered, or the backend of a handler whose client came too late |
| Lifecycle.TakenWhenTracked | server/lifecycle.go:136-151 | what `forceClose` has taken is exactly what was tracked when one of its lock sections ran |
| Lifecycle.LateWhenOfferedInDrain | server/http.go:305-307 | a handler is late exactly when draining was set at the step in which it offered its client |
| Lifecycle.BackendRefusedInDrain | server/http.go:296-298 | a backend is refused exactly when draining was set at the step in which it was offered |
| Lifecycle.AHandlerRelays | server/http.go:289-321 | a concrete run in which a handler relays between two registered, open connections |
| Lifecycle.AForcedDrain | server/lifecycle.go:36-57 | a concrete run in which a drain that times out closes the tracked backend before `Serve` returns |
| Lifecycle.AQuietDrain | server/lifecycle.go:36-57 | a concrete run in which a drain with nothing tracked ends without force |
| Lifecycle.HandlerReturnsClean | server/http.go:289-322 | when a CONNECT handler returns its hijacked client is closed, neither connection is tracked, and its backend is closed if and only if the client was not offered during a drain, or `forceClose` found the backend tracked and has closed it |
| Lifecycle.LateClientLeavesBackendOpen | server/http.go:305-307 | a concrete run in which draining between the two registrations leaves the backend open |
| Lifecycle.NoRelayAfterDraining | server/http.go:296-321 | a handler that had not registered both connections when draining began never relays |
| Bridge.EveryRunKeepsInv | link/bridge.go:21-158 | the ownership invariant of the accept loop, the stream goroutines, the wait group and the tracker holds in every interleaving with cancellation |
| Bridge.InvStep | link/bridge.go:21-116 | each step of the accept loop, of a stream and of the canceller keeps it |
| Bridge.RefusalUnreachable | link/bridge.go:61-63 | the branch of the accept loop for a refused `Add` is never taken |
| Bridge.FinishedIsSettled | link/bridge.go:47-99 | when `Serve` returns every accepted client and every dialled remote is closed, the tracker is empty and no stream is live |
| Bridge.ServeReturnsSettled | link/bridge.go:47-99 | the same in every later state, whichever path led to the return |
| BridgeService.LoopEndsForCause | link/bridge.go:47-63 | the accept loop ends only when the context was cancelled or `Accept` failed |
| BridgeService.FailsWhenAcceptBreaks | link/bridge.go:49-56 | `Serve` fails exactly when `Accept` failed for another reason than its end, which counts only before cancellation |
| BridgeService.EveryClientIsServed | link/bridge.go:57-66 | every accepted client is in the loop's hands, has had a stream, or was turned away by a cancellation |
| BridgeService.FinishedServedAll | link/bridge.go:47-86 | a `Serve` that returns without having been cancelled has run a stream for every client |
| BridgeService.NoStreamAfterCancel | link/bridge.go:57-60 | a client whose context check comes after cancellation never gets a stream |
| BridgeService.StreamRelays | link/bridge.go:71-84 | a stream that gives up the remote it was given has relayed, unless the run was cancelled or a drain was closing connections |
| BridgeService.NoRelayAfterCancel | link/bridge.go:76-78 | a stream whose second look at the context comes after cancellation never relays |
| BridgeService.AClientIsRelayed | link/bridge.go:47-84 | a concrete run that accepts a client, dials for it and relays |
| BridgeService.ARelayEnds | link/bridge.go:66-85 | the end of that relay closes both connections while the loop goes on |
| BridgeService.AClosedListenerEndsServe | link/bridge.go:49-52 | a closed listener then ends `Serve` without error |
| BridgeService.ADrainTimesOut | link/bridge.go:88-98 | a concrete run in which the drain closes the client under its stream |
| BridgeService.ACancelTurnsAway | link/bridge.go:57-60 | a concrete run in which a client accepted after cancellation is closed |
| BridgeService.ABrokenAcceptFails | link/bridge.go:53-55 | a concrete run in which an accept error fails `Serve` |
| Bridge.Connections.Add | link/bridge.go:128-138 | tracks the connection unless closing, else closes it once |
| Bridge.Connections.Remove | link/bridge.go:140-144 | untracks it |
| Bridge.Connections.Close | link/bridge.go:146-158 | sets closing and closes every tracked connection once |
| MountPath.HasEncodedSeparator | mount/path.go:52-64 | the loop with its skip computes the scan `ScansSeparator` |
| MountPath.ScannerExact | mount/path.go:52-64 | on text the decoder accepts, the scan fires exactly when decoding yields a separator that was not written literally |
| MountPath.SkipNeedsDecoder | mount/path.go:52-64 | on text the decoder rejects, the skip can step over an encoded slash |
| MountPath.ContainsPercentEscape | mount/path.go:66-76 | true exactly when some position starts a percent escape |
| MountPath.NibblesAreDigits | mount/path.go:90-101 | exactly the hexadecimal digits of either case are read, each as its value |
| MountPath.EscapedReadsBack | mount/path.go:78-101 | any bytes written as percent escapes are decoded to themselves |
| MountPath.DecodeSegments | mount/path.go:12-31 | decoding each piece of the raw text split at `/` gives the pieces of the decoded text |
| MountPath.NormalizePath | mount/path.go:12-50 | the method computes `Normalize`, with its guards in order and their errors |
| PathLaws.NormalForm | mount/path.go:12-50 | an accepted path keeps every segment boundary of the request; its non-empty segments are the decoded non-empty ones in order, none is `.` or `..`, and a trailing slash is kept exactly when the decoded path had one |
| PathLaws.OutputChecked | mount/path.go:31-50 | an accepted output is valid UTF-8, printable, and holds no percent escape |
| PathLaws.SecondPass | mount/path.go:12-76 | a second pass accepts an output exactly when it holds no percent sign, and then returns it unchanged |
| PathLaws.SecondPassCanFail | mount/path_fuzz_test.go:14-20 | `/%25` gives `/%`, which a second pass rejects |
| PathAccepts.AcceptsExactly | mount/path.go:12-50 | a request is accepted if and only if it is absolute, decodes without adding a slash or backslash, and the decoded text is UTF-8 without backslash, bytes below 0x20, 0x7f, percent escapes and dot segments |
| PathAccepts.FirstFailureNamed | mount/path.go:13-43 | a rejected request gets the error of the first guard it fails |
| PathAccepts.PlainPathsPass | mount/path.go:12-50 | printable ASCII paths without percent signs, backslashes and dot segments are accepted |
| PathAccepts.SpellingIsRead | mount/path.go:20-23 | a text is read back from every way of writing its bytes, literally or escaped with digits of either case |
| PathAccepts.ReadIsSpelling | mount/path.go:20-23 | whatever is read was written in one of these ways |
| PathAccepts.EncodedIsValid | mount/path.go:24-26 | the encoding of any Unicode scalar values is valid UTF-8 |
| PathAccepts.ValidIsEncoded | mount/path.go:24-26 | valid UTF-8 is the encoding of some Unicode scalar values |
| PathAccepts.EscapeIsThreeBytes | mount/path.go:66-88 | an escape is a percent sign and two hexadecimal digits |
| MountResolve.ResolveFor | mount/resolve.go:40-105 | no match exactly when no mount matches, ambiguous exactly when two positions attain the lexicographic maximum of specificity, priority, authority and scope, and otherwise the one that does, with its rewritten target |
| MountResolve.Select | mount/resolve.go:57-92 | after the single pass the winner ranks highest and the flag says whether another position ties with it |
| MountResolve.OutcomeUnique | mount/resolve.go:40-105 | that property determines the result |
| MountResolve.Outranks | mount/resolve.go:80-83 | the chain of comparisons is the lexicographic order |
| MountResolve.Ties | mount/resolve.go:89-91 | the tie test is equality of all four components |
| ResolveFields.FoundFits | mount/resolve.go:57-104 | the mount found has matching server and protocol scopes, source and pattern, told from the fields; its target is the one written, with a star replaced by what the pattern's star stood for; every other position of a fitting mount ranks below it |
| ResolveFields.BestFitIsFound | mount/resolve.go:57-104 | conversely, a fitting mount that every other fitting one ranks below is found |
| ResolveFields.NoMatchExactly | mount/resolve.go:94-96 | nothing is found exactly when no mount fits |
| ResolveFields.CandidateIsFit | mount/resolve.go:57-79 | a mount takes part exactly when it fits, and ranks by pattern length, priority, having a source, and number of named scopes |
| ResolveLaws.OrderIrrelevant | mount/resolve.go:40-105 | permuting the mounts changes no outcome |
| ResolveLaws.DominatedIrrelevant | mount/resolve.go:57-92 | adding a mount that some matching mount outranks, at any position, changes no outcome |
| ResolveLaws.SpecificityIdentifiesPattern | mount/resolve.go:124-136 | two patterns matching the same path are equally specific exactly when they are the same |
| ResolveLaws.SpecificityIsLongestPrefix | mount/resolve.go:124-136 | an exact pattern beats every wildcard, and between wildcards the strictly longer prefix wins |
| ResolveLaws.CaptureCompletesPrefix | mount/resolve.go:124-136 | prefix and capture together are the path |
| ResolveLaws.TargetsDistinguishPaths | mount/resolve.go:100-104 | through one wildcard-to-wildcard mount, two requests get the same target exactly when their normalised paths are the same |
| ResolveLaws.CaptureHasNoDots | mount/resolve.go:100-104 | when the prefix ends in `/`, no segment of the capture is `.` or `..` |
| Ambiguity.AmbiguousIffTwinsOnTop | mount/resolve.go:79-99 | a request is ambiguous if and only if a best match has a twin: another position with the same effective pattern, priority, kind of source and number of scopes |
| Ambiguity.DistinctPrioritiesSuffice | mount/resolve.go:79-99 | where mounts written with the same pattern and kind of source have distinct priorities, no request is ambiguous |
| Ambiguity.RepeatedMountIsValidAndAmbiguous | config/config.go:82-106 | repeating a mount keeps a configuration valid and makes every request it served ambiguous |
| Ambiguity.ValidConfigurationCanBeAmbiguous | config/config.go:32-113 | a concrete valid configuration and a request it cannot resolve |
| FtpReply.ReadsLine | connector/ftp.go:350-364 | a line ended by CRLF or LF, within the bytes that remain, is read without its ending and leaves what follows |
| FtpReply.LineIsWire | connector/ftp.go:350-364 | whatever is read was such a line at the front of the input |
| FtpReply.ReplyReader.NextLines | connector/ftp.go:336-347 | the loop reads continuation lines up to the one that starts with the terminator, within the bytes that remain |
| FtpReply.ReplyReader.NextReply | connector/ftp.go:322-348 | computes `ReadReply` and leaves the rest of the input unread |
| FtpReply.StartIsCode | connector/ftp.go:366-381 | an accepted first line starts with the three digits of a code in 100-599 |
| FtpReply.ReadsReply | connector/ftp.go:322-348 | a well-formed reply within the bound, followed by anything, is read as its code and lines, leaving exactly what follows |
| FtpReply.ReplyIsWire | connector/ftp.go:322-381 | whatever is accepted is such a reply, of at most the bound, at the front of the input |
| FtpReply.BodyIsLines | connector/ftp.go:336-347 | the body determines the lines |
| FtpReply.ReadsAllReplies | connector/ftp.go:322-348 | repeated reading of concatenated replies returns exactly those replies and leaves exactly the suffix |
| FtpReply.RepliesInOrder | connector/ftp.go:322-348 | the n-th reply read from a stream is the n-th that was sent, and what follows is read next |
| FtpPassive.PASVPort | connector/ftp.go:532-554 | the loop over the six fields computes `ParsePASVPort` |
| FtpPassive.PortsInRange | connector/ftp.go:516-571 | an accepted port lies in 1..65535 |
| FtpPassive.ParenthesesFound | connector/ftp.go:556-563 | what is read lies between the first parentheses of the body |
| FtpPassive.EPSVReads | connector/ftp.go:516-530 | every extended passive reply is read, with any delimiter that is neither a digit nor a parenthesis |
| FtpPassive.EPSVAccepts | connector/ftp.go:516-530 | an accepted body is three delimiters, a number and a delimiter |
| FtpPassive.PASVReads | connector/ftp.go:532-554 | a passive reply yields the port of its last two numbers, whatever address the others spell |
| FtpConnector.Operate | connector/ftp.go:73-217 | for every server: the commands are a prefix of USER [PASS] TYPE EPSV [PASV] and one transfer command, each with its argument and justified by the reply just before it, and USER goes out exactly when a greeting could be read; at most one data dial, to the control peer at the port its reply gave; both sockets closed at return unless the body owns them; the result is exactly the one the replies call for, a retrieval, store or listing goes out only for a verb that asks for it, in letters of either case, and a store succeeds only after the data connection was closed and the completion confirmed |
| FtpConnector.GreetingDecidesNothing | connector/ftp.go:103-105 | any two readable greetings lead to the same result |
| FtpConnector.RefusingGreeting | connector/ftp.go:103-108 | a server that greets with 421 is sent USER |
| FtpConnector.ReturnedMeans | connector/ftp.go:156-216 | a body comes back exactly when both connections are up and the server agreed to a retrieval; success exactly when a store was sent and confirmed |
| FtpConnector.CommandIsRequested | connector/ftp.go:156-164 | GET and RETR ask for RETR, PUT and STOR for STOR, LIST for LIST, in either case, and no other verb for any |
| FtpWire.CommandsAreLines | connector/ftp.go:387-396 | the bytes written, cut at line feeds, are exactly the commands of the record, one a line, if and only if no transfer command was sent or its target, when not blank, holds no line feed |
| FtpWire.LinesComeApart | connector/ftp.go:387-396 | lines written one after another come apart as they went in if and only if none holds a line feed |
| FtpWire.CommandLineReads | connector/ftp.go:387-391 | a command line is the command, or the command and its argument with the first space between |
| FtpWire.StreamDecides | connector/ftp.go:101-216 | over a control connection that carries well-formed replies, the operation returns what those replies call for, whatever bytes follow the first eight |
| FtpConnector.OutcomeOf | connector/ftp.go:219-228 | a refusing code is never a success; 530 and 532 alone deny permission, 550 alone means not found |
| FtpConnector.Conversation.Login | connector/ftp.go:103-127 | goes on exactly when the login replies allow it, sending PASS only after 331, and otherwise reports the outcome of the refusing reply |
| FtpConnector.Conversation.SetBinary | connector/ftp.go:128-137 | goes on exactly after 200 |
| FtpConnector.Conversation.Passive | connector/ftp.go:398-440 | the port is that of the EPSV reply, or of the PASV reply asked for exactly after 500, 501, 502 or 522 |
| FtpConnector.Conversation.Ask | connector/ftp.go:194-200 | sends the transfer command, only over an open data connection, and reads its reply |
| FtpConnector.Conversation.Transfer | connector/ftp.go:156-216 | returns a body exactly after a preliminary reply to a retrieval, the outcome of any other reply, and never dials again |
| FtpConnector.Conversation.FinishStore | connector/ftp.go:181-192 | closes the data connection after the copy, then succeeds exactly on a 2xx completion |
| FtpConnector.Conversation.Prepare | connector/ftp.go:103-142 | reaches the data dial exactly when every reply before it allows, with a port in range |
| FtpConnector.Conversation.Run | connector/ftp.go:103-216 | the script, the single dial and the exact result before the deferred closes |
| FtpBody.TransferBody.Read | connector/ftp.go:244-273 | one read performs exactly the transition `AfterRead` |
| FtpBody.TransferBody.Close | connector/ftp.go:275-278 | closes both connections |
| FtpBody.TransferBody.Finish | connector/ftp.go:286-300 | closes both connections the first time and does nothing after |
| FtpBody.ErrorClosesBoth | connector/ftp.go:244-300 | after any error result both connections are closed, then and for ever |
| FtpBody.EOFIsConfirmed | connector/ftp.go:254-272 | end of file is reported only after a 2xx completion reply |
| FtpBody.ReadReports | connector/ftp.go:244-273 | what each read of an open body reports, both ways: end of file exactly when the data ended, the context stands and the completion is 2xx |
| FtpBody.EOFOnce | connector/ftp.go:244-273 | end of file is reported at most once; later reads say the pipe is closed |
| FtpBody.BytesConserved | connector/ftp.go:244-273 | in every run, what was delivered and what the data connection still holds make up the stream |
| FtpBody.EOFDeliveredAll | connector/ftp.go:244-273 | when end of file is reported exactly the data stream was delivered |
| Config.ValidHeaderName | config/config.go:115-126 | accepts exactly the non-empty token strings |
| Config.CheckServer | config/config.go:40-66 | accepts a server exactly when it is valid on its own |
| Config.CheckServers | config/config.go:36-75 | accepts exactly lists of valid servers with pairwise distinct names and listen addresses |
| Config.CheckScope | config/config.go:80-106 | accepts a mount's scopes exactly when they name servers that exist and agree |
| Config.Validate | config/config.go:32-113 | accepts exactly the valid configurations |
| Config.CheckMount | mount/mount.go:82-109 | accepts a mount exactly when its syntax and target are valid and a TLS policy has an HTTPS target |
| Config.TokenIsVisible | config/config.go:115-126 | a token character is visible ASCII other than a delimiter (section 5.6.2 of RFC 9110) |
| Store.Clone | config/store.go:47-66 | the copy has the same value and shares no array, proxy list or TLS object with anything, itself included |
| Store.CloneServers | config/store.go:49-56 | the server slice, its proxy lists and its TLS objects are all new |
| Store.CloneMounts | config/store.go:57-63 | the mount slice and its TLS objects are all new |
| Store.Store.Replace | config/store.go:29-36 | publishes a private copy exactly when the candidate is valid, and otherwise leaves the published value as it was |
| Store.Store.Snapshot | config/store.go:39-45 | returns a new copy of what is published, the empty configuration when nothing is |
| Store.NewStore | config/store.go:19-25 | a store exists exactly when the initial configuration is valid, and publishes its value |
| StoreRuns.RunOnHeap | config/store.go:19-66 | after any run of in-place writes, publications and snapshots, whatever callers share, what is published is the last valid value offered, as it was when offered; callers who share nothing see exactly the values of a run in which every configuration is a value of its own |
| StoreRuns.RunFromStart | config/store.go:19-45 | the same from `NewStore` on, and what is published is always valid |
| StoreRuns.LastValidMeans | config/store.go:29-45 | only a valid offer changes what is published, and a valid store stays valid |
| StoreRuns.Apply | config/store.go:47-66 | any write adds only new objects to what any configuration reaches; through one that shares nothing within itself it changes the value at that place alone |
| StoreRuns.PublishedIsLastPublication | config/store.go:29-45 | what is published is the value the last successful publication had at that moment, or the initial one |
| StoreRuns.HeldChangesOnlyByItsWrites | config/store.go:39-66 | a held configuration changes only by writes made through it |
| StoreRuns.SnapshotsAlwaysValid | config/store.go:19-45 | a store that starts valid publishes, and hands out, only valid configurations |
| Reload.SameListenerTopology | config/reload.go:76-91 | computes the one-directional comparison |
| Reload.SameBackendTLSPolicies | config/reload.go:53-74 | comparing sizes and one inclusion decides equality of the two policy sets |
| Reload.SameFrontendTLS | config/reload.go:93-98 | equality of optional policies |
| Reload.FitsIsEquality | config/reload.go:76-91 | between validated lists the comparison holds exactly when both map the same names to the same protocol, listen address and frontend TLS |
| Reload.FitsNeedsUniqueNames | config/reload.go:76-91 | without unique names it accepts lists with different servers |
| Reload.ReloadFile | config/reload.go:19-51 | publishes exactly candidates that are valid, supported and equal to the current configuration in topology and backend TLS policies; otherwise changes nothing and names the first failed check; publication itself never fails |
| Reload.ReloadAll | config/reload.go:19-51 | any sequence of reload attempts produces a history of accepted configurations that ends in what is published |
| Reload.NothingFixedEverChanges | config/reload.go:19-98 | every configuration of a history accepted step by step is valid, has for every server one of the first with the same name, protocol, listen address and frontend TLS, and the other way round, and has the first one's backend TLS policies |
| Reload.OverlappingReloadsChangeNothingFixed | config/reload.go:40-49 | in every interleaving of reloads, each a snapshot step and a later publication, what is published forms such a history |
| Reload.AReloadPublishes | config/reload.go:40-50 | a reload of a valid, supported candidate that changes nothing fixed is published |
| Routes.LoadPolicies | cmd/delegate/http_runtime.go:27-41 | loads exactly the policies of the mounts, and fails exactly when one of them does |
| Routes.NewHTTPRoutes | connector/routes.go:27-53 | one transport for each present policy |
| Routes.Prepare | cmd/delegate/http_runtime.go:27-42 | the routes hold the loaded form of exactly the policies of the starting configuration |
| Routes.LookupExactly | connector/routes.go:91-108 | the FTP connector exactly for FTP targets, else the default one exactly without a TLS policy, else the transport of that policy or its absence |
| Routes.LookupNeverFails | connector/routes.go:91-108 | routes prepared at the start find a connector for every mount of every configuration ever published, and for a TLS mount the transport of its own policy |
| Routes.EveryTransportIsUsed | connector/routes.go:91-108 | every preloaded transport is selected by some mount of every configuration ever published |
| Policy.Evaluate | policy/policy.go:58-76 | the decision is that of the highest ranking matching rule, a reject before a permit of the same priority, the earliest among equals; default deny when none matches; the rule named covers the request field by field |
| Policy.DecidesUnique | policy/policy.go:58-76 | that property determines the decision |
| Policy.AppliesExactly | policy/policy.go:110-148 | a rule takes part exactly when its effect is known and each of its five selectors is empty, a star, or accepts the request's own field |
| Policy.CheckRule | policy/policy.go:90-108 | accepts exactly rules of a known effect whose source and destination are well formed |
| Policy.AllowedIffPermitted | policy/policy.go:58-76 | allowed exactly when some permit that covers the request outranks every reject that covers it |
| Policy.DefaultIffNoMatch | policy/policy.go:58-76 | denied by default exactly when no rule of a known effect covers the request |
| Policy.OrderIrrelevant | policy/policy.go:58-76 | permission and reason do not depend on the order or repetition of rules |
| Policy.RejectOnlyRestricts | policy/policy.go:58-76 | adding a reject anywhere never turns a denial into permission |
| Policy.FallingPrioritiesAreFirstMatch | policy/policy.go:58-76 | with strictly falling priorities the first matching rule decides |
| Policy.Authorize | policy/policy.go:58-87 | evaluation and enforcement together: the operation runs, once, exactly when some permit that covers the request outranks every reject that does, and a denial says whether any rule covered it |
| Legacy.ParseLegacyArgs | config/legacy.go:23-106 | the loop over the arguments computes `Compile` |
| Legacy.GatherCompiles | config/legacy.go:30-80 | the rules gathered are the policy directives of the arguments, in order, with falling priorities |
| Legacy.SelectorsAreParts | config/legacy.go:108-125 | the three selectors are what stands before the first colon, between the first two and after the second, trimmed, when none is blank |
| LegacyServer.CompiledServer | config/legacy.go:29-101 | an accepted command line makes one server: its protocol is what every SERVER value says in lower case, its port what every -P value says or the default of its protocol, its mounts those of the MOUNT values in order |
| Legacy.CompiledRuleMatches | config/legacy.go:108-137 | a compiled rule matches a request exactly when its directive does with two selectors lower-cased |
| Legacy.FirstMatchPreserved | config/legacy.go:69-137 | for every accepted argument list and request, evaluation returns the effect and index of the first matching directive, or default deny when none matches: of the directives lower-cased always, and as written when each protocol and destination is a wildcard or folds to its lower-case form |
| Legacy.RuleExact | config/legacy.go:108-137 | a compiled rule agrees with its directive as written on every request if and only if its protocol and its destination are each a wildcard or fold to their lower-case form |
| Legacy.FirstMatchExact | config/legacy.go:69-137 | a command line of one directive is decided as written on every request if and only if that condition holds of it, and a first directive that violates it always shows |
| Legacy.DottedLibraryObeys | config/legacy.go:129-130 | the laws hold of ASCII folding with a lower-casing that also maps U+0130 |
| Legacy.LoweringCanChangeAMatch | config/legacy.go:129-130 | under those laws, a directive and two requests: its rule matches the one the directive does not, and misses the one it does |
| Socks5.ValidDomain | socks5/socks5.go:180-205 | accepts exactly dot-separated non-empty labels of letters, digits and hyphens, none starting with a hyphen and none but the last ending with one |
| Socks5.OnlyTheLastMayEndInHyphen | socks5/socks5.go:188-192 | `a-` is accepted and `a-.b` is not |
| Socks5.ReadGreeting | socks5/socks5.go:77-94 | consumes and returns exactly what `ParseGreeting` says |
| Socks5.ReadsGreeting | socks5/socks5.go:77-94 | an encoded greeting is read back and what follows is left unread |
| Socks5.AcceptedIsGreeting | socks5/socks5.go:77-94 | whatever is accepted is the encoding of what was returned |
| Socks5.Offers | socks5/socks5.go:58-65 | true exactly when the method is among those offered |
| Socks5.SelectNoAuth | socks5/socks5.go:98-103 | no authentication exactly when offered |
| Socks5.ReadAddress | socks5/socks5.go:145-178 | consumes and returns exactly what `ParseAddress` says |
| Socks5.ReadRequest | socks5/socks5.go:115-143 | consumes and returns exactly what `ParseRequest` says, errors included |
| Socks5.ReadsEncoding | socks5/socks5.go:115-178 | for every wire-form host, port in 1..65535 and trailing bytes, the request is read back and the trailing bytes are left |
| Socks5.AcceptedIsEncoding | socks5/socks5.go:115-178 | whatever is accepted begins with the encoding of what was returned |
| Socks5.EncodingsDoNotOverlap | socks5/socks5.go:115-178 | bytes can be cut into a request and a rest in one way only |
| Socks5.EncodedBytes | socks5/socks5.go:13-28 | the bytes of a request by number: version 5, CONNECT 1, a zero, the address types 1, 3 and 4, and the port with its high byte first |
| Socks5.GreetingBytes | socks5/socks5.go:77-94 | the bytes of a greeting by number |
| Socks5.RequestErrors | socks5/socks5.go:115-178 | which error a rejected request gets, by its bytes |
| Socks5.ReadsAreBounded | socks5/socks5.go:115-178 | no outcome takes more than 262 bytes from the stream |
| Socks5.WriteMethod | socks5/socks5.go:106-111 | emits exactly the two reply bytes, or nothing for an unsupported method |
| Socks5.WriteReply | socks5/socks5.go:209-214 | emits exactly the ten reply bytes, or nothing for an unsupported reply |
| Socks5.WriteAll | socks5/socks5.go:220-232 | success emits exactly the input, failure a prefix of it with the last answer's error; a writer that makes progress without error succeeds |
| Pairing.Accepts | link/tailcat.go:28-44 | exactly the strings `ndlink1:`, a decimal port 1-65535 with any zeros in front, `:` and a valid address without colon or white space at its end are accepted, and as that pairing |
| Decimal.ParseUintExactly | link/tailcat.go:36-39 | a number reads exactly from its decimal form with any zeros in front |
| Decimal.AtoiFound | connector/ftp.go:370-373 | whatever reads as a signed number is its decimal form with any zeros and at most a sign in front |
| Decimal.AtoiReads | connector/ftp.go:370-373 | and all of these read |
| Decimal.TrimmedParts | link/tailcat.go:29 | trimming takes white space off both ends, and all of it |
| Pairing.ReencodeRoundTrip | link/tailcat.go:23-44 | parsing the encoding of an accepted pairing gives the same pairing |
| Pairing.EncodeIsIdentity | link/tailcat.go:23-44 | the encoding is the accepted string exactly when its port had no leading zero |

## Left out

- Real sockets, deadlines, timers, TLS handshakes, certificate loading, the Tailcat transport and `net/http` internals: nondeterministic steps, and connections that only record closing.
- Liveness: nothing is claimed about how soon a drain, a dial or a relay ends.
- Byte copying in `relay` and `relayStreams`: one step that ends.
- Aliasing between accepted, dialled and hijacked connections: each is a distinct object, and a dialer or hijacker that succeeds returns one.
- Lifecycle.EveryRunKeepsInv: `Serve` only with a handler that owns its sessions; which error `Serve` returns is not modelled.
- FtpBody.TransferBody.Read: callers that read and close from different goroutines at once are not modelled; the flag is set before the sockets close, so such a reader may see either order.
- FtpConnector.Operate: verbs are upper-cased as ASCII, which HTTP methods are; cancellation appears as reads, writes and dials that fail.
- FtpReply.ReplyReader.NextReply: an I/O error is the end of what the server still sends.
- Config.Validate: the remaining syntax checks of a mount, the TLS policy checks and address prefixes are parameters; error messages are reduced to rejection.
- StoreRuns.RunOnHeap: which values callers see when their own configurations share slices or TLS objects is not described, only that the store is unaffected.
- Store.Store.Replace: the pointer is read and written one call at a time; the atomicity of the real pointer is what that stands for.
- Reload.ReloadFile: opening and TOML decoding are an optional decoded candidate, and closing the file a flag.
- Routes.LookupNeverFails: that case folding never identifies `ftp` with `https` is a premise, here and in `Routes.EveryTransportIsUsed`.
- Routes.Prepare: frontend identities and the binding of listeners are not modelled.
- Legacy.ParseLegacyArgs: URL parsing inside mount directives is a parameter.
- `clientaddr`, `explain`, `endpoint`, `tlsconfig`, `release`, `compatibility`, header sanitising, JSON output, flags and signals: easier properties, or plumbing.
