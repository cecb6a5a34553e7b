# A verified model of the DBGp proxy and client

The Xdebug DBGp tools are a proxy between debugger engines and IDEs, an interactive command-line
client, and a small cloud protocol that both speak. This Dafny project models the core they share
and proves what it keeps: the packet forwarder, the registry of connections with the sessions that
own its entries, the command line from printer to parser, and the interactive session.

`dafny verify dfyconfig.toml` checks everything.

## The parts

* **Wire, Stream, Client, Forwarder** – a connection delivers chunks of bytes, expired read
  deadlines and failures in any order (`Stream.Event`). `Stream.BufReader` and `Client.DbgpClient`
  are the two readers stacked on it, as objects with loops; they are proved equal to
  `Wire.NextResponse`, which reads one item at a time. `Wire.ForwardIsSplit` then says what the
  forwarder's loop passes on without any reading at all: every second NUL-separated field of the
  bytes that arrive, up to the first closing packet. `Wire.ByLength` is a receiver of the other kind,
  which trusts the lengths. `Forwarder.SetupForwarder` puts them together, for every schedule of chunks
  and deadlines: what the IDE reads by the lengths is what the engine sent.
* **ForwarderChannel** – the two goroutines of a forwarder and their unbuffered channel, as an
  interleaving of atomic steps.
* **Registry, Connections, Sessions** – `Registry` is the mutex-protected map as a transition
  system with its history. `Connections.ConnectionList` is the object itself: each method is proved to
  be one step of `Registry`, and `RemoveByKey`, which lets go of the lock before it looks at
  `claimed`, lets any steps of others come in between. `Sessions` adds the cloud sessions that
  register on opening and remove on closing.
* **Arguments, CommandLine, Commands** – the client's printers, the rewriting that numbers a line,
  and the server's readers, argument parsers and command objects. The round trips run through all of
  it: printed, trimmed, split, numbered, joined, terminated, read, split and parsed.
* **ClientSession** – the interactive loop. A session keeps its own history; the rules of the history
  are `Allowed`. What they come to is proved on the documents' root tags and commands, and the lockstep
  of responses and commands is a consequence of them.
* **Routing** – the proxy's loop over the init packets of an engine's connection, as a run of passes: what
  each reads off the connection, what it does on the registry, to the IDE and to the engine.
* **Xml, Printing, Text, Decimal** – the dispatch on packet kinds, the printers for property trees and
  source listings, and the few library functions the code relies on (`strings.Split`, `Join`,
  `TrimSpace`, `TrimRight`, `strconv.Itoa`, `Atoi` with its 64-bit range).

## How to read the model

* On the packet wire a `char` is one byte; in a command line it is a code point. NUL and space are one
  byte in UTF-8 and occur in no other encoding, so the two views agree on all that is looked for.
* A schedule of network events is finite and ends in end-of-file. It stands for every run cut off
  at any point; the loops' variants are the events left.
* An expired deadline carries the answer (`ideGone`) that the poll of the IDE's side gives at that
  moment, so a schedule fixes both sides of a forwarder.
* `sent` is everything handed to `Write`. After the init packet the forwarder does not look whether a
  write succeeded, and neither does the model. What the copying goroutine moves from the IDE to the
  engine is not part of `sent`.
* XML decoding and base64 are arbitrary functions; every theorem holds for all of them.
* `view` of a connection list is its state, with its history, as a value of `Registry.Reg`. `view`, `known`
  and `trace` are ghost state. `Registry.Later` relates two states of a registry by the steps taken
  in between, which the history tells.
* The registry is shared: wherever a handler waits for the network, other goroutines may take any
  steps on it (`Connections.ConnectionList.Interfere`), and contracts speak of the registry at the
  moment it is used.
* `Routing.Pass` and `Routing.Turn` record a run of the proxy's handler as ghost values; what signals it
  finds and how its dials go are parameters.
* Three parsers (`proxystop`, `cloudinit`, `cloudstop`) contain the same loop with a different flag;
  it is modelled once, as `Arguments.CreateKeyed`. `cloudstop` removes a key exactly as `proxystop`
  does; both are `Commands.HandleStop`.

## What the code does not do

These are theorems here, each with its exact condition.

* The option `-f` is documented (`dbgpProxy/main.go:62`) as allowing an IDE to register with a key
  that is already registered. The code (`lib/connections/connections.go:88-91`) deletes the old entry,
  does not store the new connection, and reports success. `Commands.FlagTellsOfChange` states when a
  successful registration leaves its key present; `Sessions.ForceAddLosesBoth` is a run.
* A session's `Close` removes whatever sits under its key. `Sessions.CloseDisturbs` says exactly when
  that is somebody else's entry; `Sessions.UnregisteredCloseDisturbs` and
  `Sessions.StopThenCloseDisturbs` are runs.
* Rewriting a line twice gives the text of rewriting it once, except for a blank line, whose empty
  first token does not survive the second trimming (`CommandLine.RewriteTwice`).
* `proxystop`, `cloudinit` and `cloudstop` lines end in their key, so the trimming can cut white space
  other than a space off the key; `proxyinit` has the port behind it and keeps it. The round-trip
  theorems are equivalences that say so.
* The forwarder reads through a reader of its own. Bytes the routing loop's reader still holds never
  reach it; `Forwarder.HandoffHarmless` and `Forwarder.HandoffLoses` say that this does no harm exactly if
  they hold no NUL.
* The proxy removes by key after a forward that may have lasted long. By then another IDE may hold the
  key, and its entry is what goes: `Routing.FailedForwardRemoves` says exactly when, and
  `Registry.LateRemovalDisturbs` is a run.
* `RunCommand` dereferences nil when the reply is XML of unknown kind
  (`lib/protocol/dbgp-client.go:386-394`). That outcome is `Client.RunResult.Crashed`, and
  `Routing.ServerHandler.Handle` shows that it can only come last.

## Model

| member | source | states |
|---|---|---|
| Wire.ForwardIsSplit | lib/proxy/client.go:80-113 | For every order of bytes, expired deadlines and failures, the payloads passed on are the complete packets of the bytes that arrive before the first item that ends the reading, up to the first closing packet; and how the loop ends. Incoming lengths play no part. |
| Wire.StopIsFirst | lib/protocol/dbgp-client.go:215-235 | `Stop` is the first item that ends the reading: a failure, a deadline expired at odd NUL parity (inside data), or one expired when the IDE is gone; so deadlines inside a length part end nothing. |
| Wire.UntilStops | lib/proxy/client.go:104-107 | What is passed on is exactly the packets before the first one that closes. |
| Wire.EngineToIde | lib/proxy/client.go:82-113 | Whatever text stands in the length fields and wherever harmless deadlines expire, the packets passed on are those sent, up to the first closing one; an incomplete tail is not passed on. |
| Wire.FramesRoundTrip | lib/protocol/dbgp-server.go:95-99 | Reading n responses from the frames of n NUL-free payloads gives each payload with its NUL and consumes exactly the frames. |
| Wire.ReframeIsFrame | lib/proxy/client.go:110 | Re-framing a packet that still has its NUL reproduces the canonical frame of its payload, byte for byte. |
| Wire.ByLengthIsFrames | lib/proxy/client.go:54-55 | A strict receiver, which reads a decimal length without zeros in front, exactly that many bytes and a NUL, accepts exactly the streams of frames and reads each as its payloads, with or without NULs in them: so the length sent is that of the payload. |
| Wire.ReadFieldShape | lib/protocol/dbgp-client.go:219-232 | What one read to the next NUL consumes: exactly the bytes it returns and at most one event; nothing is lost or duplicated. |
| Wire.PacketEndsInNul | lib/protocol/dbgp-client.go:227-234 | A packet returned holds exactly one NUL, at its end, so the forwarder's length is that of the payload. |
| Stream.Conn.Read | lib/protocol/dbgp-client.go:237-249 | One network read takes one chunk or one event off the schedule; without a deadline expiries do not happen. |
| Stream.BufReader.ReadBytes | lib/protocol/dbgp-client.go:217-232 | The buffered reader's loop over arbitrary chunks has the outcome and the remainder of reading the same items one by one. |
| Client.DbgpClient.ReadRaw | lib/protocol/dbgp-client.go:215-235 | `readResponse` returns and consumes what the item-by-item reader says: expiry in the length is a timeout, expiry in the data an error. |
| Client.DbgpClient.ReadResponseWithTimeout | lib/protocol/dbgp-client.go:245-249 | The same, on the schedule with deadlines. |
| Client.DbgpClient.ReadResponse | lib/protocol/dbgp-client.go:237-243 | The same, on the schedule without deadlines; then it never times out. |
| Forwarder.SetupForwarder | lib/proxy/client.go:44-114 | A receiver that goes by the lengths reads what the IDE is sent as the init packet followed by the complete packets before the first closing packet or end of reading; an error is returned exactly if the dial or first write failed or the IDE went away; the engine's connection is closed exactly on a read failure; the IDE socket always. |
| Forwarder.ForwardMeans | lib/proxy/client.go:82-112 | The same on the packets themselves: none of those passed on closes, the next one does if there is one; without one, how the forward ends and whether it closes the engine's connection follow from the item at which the reading stops. |
| Xml.ClosesTable | lib/proxy/client.go:104-107 | A packet ends the forward exactly if its root is `cloudstop`, or it is a `response` to `detach` or `stop`. |
| Forwarder.PumpOnce | lib/proxy/client.go:82-112 | One turn of the read loop: what it writes and whether it ends, as a function of one response. |
| Forwarder.Pump | lib/proxy/client.go:80-113 | The whole loop writes exactly the frames of the forwarded payloads and leaves exactly the rest of the stream. |
| Forwarder.ForwardUnfolds | lib/proxy/client.go:82-113 | One turn of the loop followed by the rest of it is the whole of it. |
| Forwarder.HandoffHarmless | lib/proxy/client.go:81 | If the first reader holds no NUL, the forwarder passes on what one reader would have. |
| Forwarder.HandoffLoses | lib/proxy/client.go:134 | If it holds a NUL, there is a stream of which other packets are passed on. |
| ForwarderChannel.ChannelSafety | lib/proxy/client.go:62-78 | In no interleaving is there a send on or a second close of a closed channel; each of at most one sends is received. |
| ForwarderChannel.NoDeadlock | lib/proxy/client.go:62-94 | A reachable state has no obliged step left if and only if the call has returned and the copier has finished. |
| ForwarderChannel.ReturnWindsUp | lib/proxy/client.go:85-107 | After the loop is left by any way, at most five more steps happen, and when none is left the receive is satisfied, the copier past its send and the channel closed once. |
| Registry.TableIsHistory | lib/connections/connections.go:81-121 | In every interleaving the entry of a key is the one last registered and not removed since; it is present exactly if registrations exceed removals by one; the two alternate; stored connections carry their own key. |
| Registry.NothingDisplaced | lib/connections/connections.go:88-93 | Without forceAdd no registration ever removes an entry. |
| Registry.ClaimsAlternate | lib/connections/connections.go:132-164 | In every interleaving and for every connection, removed ones too: claims and unclaims alternate, a claim first; `claimed` is their difference; at most one close message is sent, only to a connection claimed when removed. |
| Registry.RemovalDisturbs | lib/connections/connections.go:103-114 | A removal by key takes away an entry other than the one found earlier exactly if, at the locked step, the key is held by another connection. |
| Registry.LateRemovalDisturbs | lib/proxy/client.go:170-177 | A run in which the removal after a failed forward takes away an entry registered during the forward. |
| Registry.PendingIsStable | lib/connections/connections.go:103-121 | Between the two parts of a removal no step of anybody else changes the removed connection's `claimed`. |
| Registry.RemovalSeesClaimAtDeletion | lib/connections/connections.go:116-118 | With any steps between deletion and the unlocked read, a close message is sent exactly if the connection was claimed at deletion. |
| Connections.Connection.constructor | lib/connections/connections.go:35-49 | A new connection has the fields given, is unclaimed and has been sent nothing. |
| Connections.ConnectionList.Add | lib/connections/connections.go:81-101 | One registration step of the transition system, with the invariants kept; when it succeeds. |
| Connections.ConnectionList.FindByKey | lib/connections/connections.go:123-130 | The entry of the key if there is one; it carries that key. |
| Connections.ConnectionList.ClaimConnection | lib/connections/connections.go:132-147 | One claim step; it succeeds exactly on an unclaimed entry. |
| Connections.ConnectionList.UnclaimConnection | lib/connections/connections.go:149-164 | One unclaim step; it succeeds exactly on a claimed entry. |
| Connections.ConnectionList.TakeOut | lib/connections/connections.go:104-114 | The locked part of a removal is one step. |
| Connections.ConnectionList.TellIfClaimed | lib/connections/connections.go:116-120 | The unlocked part: one close message if and only if the connection is claimed. |
| Connections.ConnectionList.Interfere | lib/connections/connections.go:81-164 | Any number of steps of other goroutines form a run of the transition system, keep the invariants and do not touch what this one holds. |
| Connections.ConnectionList.ClaimIsStable | lib/connections/connections.go:116-118 | The field read after unlocking is what it was at deletion. |
| Connections.ConnectionList.RemoveByKey | lib/connections/connections.go:103-121 | The whole removal, with interference: deletion, others' steps, notification, and that is the whole new state; one close message exactly if claimed at deletion; the connection is never stored again; a missing key changes nothing. |
| Sessions.NoEntryOutlivesItsSession | lib/command/cloudinit.go:31-56 | In every run, with foreign removals and either forceAdd, an entry of a session's connection sits under the session's key and the session registered it and has not begun to close. |
| Sessions.SessionsExact | lib/command/cloudinit.go:31-68 | With forceAdd off and no foreign removals, key maps to connection if and only if its session registered successfully and has not begun to close; no `Close` takes away another's entry. |
| Sessions.CloseDisturbs | lib/command/cloudinit.go:45-50 | A `Close` takes away somebody else's entry exactly if the session still means to remove and its key is held by another connection. |
| Sessions.ForceAddLosesBoth | lib/connections/connections.go:88-91 | A run with forceAdd in which two registrations succeed and neither connection is stored. |
| Sessions.UnregisteredCloseDisturbs | lib/command/cloudinit.go:19-21 | A run in which closing a session that never registered removes another's entry. |
| Sessions.StopThenCloseDisturbs | lib/command/cloudstop.go:31-41 | A run in which a cloudstop makes a later `Close` remove another session's entry. |
| Arguments.CreateProxyInit | lib/command/proxyinit.go:51-98 | The parser's loop with its expect-a-value state reads the arguments two by two. |
| Arguments.CreateKeyed | lib/command/proxystop.go:41-72 | The same for the loop the other three parsers share. |
| Arguments.ParseInitAccepts | lib/command/proxyinit.go:56-95 | Accepted exactly: whole pairs, known flags, numbers that parse, a last key that is not empty. The result: last `-k`, `-p` and `-s`, any `-m 1`. |
| Arguments.ParseInitTakesLists | lib/command/proxyinit.go:56-95 | The same acceptance, on the elements of the list. |
| Arguments.ParseInitTakesPort | lib/command/proxyinit.go:64-69 | The port is the number behind the last `-p`, or 9003. |
| Arguments.ParseInitTakesSsl | lib/command/proxyinit.go:76-81 | SSL is on exactly if the last `-s` says 1. |
| Arguments.ParseInitTakesKey | lib/command/proxyinit.go:70-75 | The key is the one behind the last `-k`; multiple sessions are on exactly if any `-m` says 1. |
| Arguments.ParseInitErrors | lib/command/proxyinit.go:60-95 | The first pair that is no good is the one reported, with the error of its flag; without one, a part left over. |
| Arguments.OddListIsRefused | lib/command/proxyinit.go:90-92 | A list with a part left over is refused by every parser. |
| Arguments.BadNumberIsRefused | lib/command/proxyinit.go:64-81 | A port or SSL value with a character that is neither a digit nor a leading sign, or without digits, is refused wherever it stands. |
| Decimal.AtoiAccepts | lib/command/proxyinit.go:65 | A text is read as a number exactly if it is an optional sign, any zeros and the decimal digits of a number in the 64-bit range, a minus for negatives only. |
| Decimal.NoNumber | lib/command/proxyinit.go:65-68 | A text with a character that is neither a digit nor a leading sign, or without digits, is no number. |
| Arguments.ParseKeyAccepts | lib/command/cloudinit.go:71-102 | Accepted exactly: whole pairs of `-i` and the key flag with a last key that is not empty; the result is that key. |
| Arguments.ParseKeyMeans | lib/command/cloudstop.go:63-94 | The same on the elements of the list. |
| Arguments.InitIgnoresIds | lib/command/proxyinit.go:60-85 | A transaction id between any pairs changes neither result nor error. |
| Arguments.KeyIgnoresIds | lib/command/cloudstop.go:63-94 | The same for the other parsers. |
| Client.DbgpClient.InjectIIfNeeded | lib/protocol/dbgp-client.go:251-266 | With an `-i` anywhere among the parts nothing changes; otherwise one pair with the counter goes behind the name and the counter moves by one. |
| Client.DbgpClient.StoreSourceBeginIfPresent | lib/protocol/dbgp-client.go:268-287 | The forward scan with its flag leaves the start that the backward search for the last window finds. |
| Client.DbgpClient.ProcessLine | lib/protocol/dbgp-client.go:289-296 | A line with an `-i` among its tokens keeps them and the counter; any other gets one pair behind the name and moves the counter by one; the window is that of the line as rewritten. |
| Client.DbgpClient.SendCommand | lib/protocol/dbgp-client.go:298-307 | Exactly the rewritten line and one NUL are written. |
| Client.DbgpClient.RunCommand | lib/protocol/dbgp-client.go:369-397 | One line sent, one response read and judged, the nil dereference included. |
| Client.JudgeMeans | lib/protocol/dbgp-client.go:380-394 | What a response means for a command, by its root tag, command and success attribute. |
| CommandLine.WindowStartIsLast | lib/protocol/dbgp-client.go:268-287 | The window start is the last positive number that directly follows a `-b`, or 1 if there is none, on the tokens themselves. |
| CommandLine.RewriteKeepsTokens | lib/protocol/dbgp-client.go:251-296 | The tokens of the trimmed line in order, with at most one `-i n` straight after the first; every line leaves with an `-i`. |
| CommandLine.RewriteInserts | lib/protocol/dbgp-client.go:251-296 | A trimmed line with an `-i` among its tokens is sent with exactly those; any other holds exactly one `-i`, as its second token, with the counter behind it. |
| Text.TrimSpaceCuts | lib/protocol/dbgp-client.go:290 | Trimming takes away the white space at both ends and nothing else. |
| CommandLine.RewriteTwice | lib/protocol/dbgp-client.go:251-296 | A rewritten line is left as it is by rewriting if and only if the line was not blank. |
| CommandLine.SecondTakesNone | lib/protocol/dbgp-client.go:251-266 | Rewriting a rewritten line never moves the counter, blank or not. |
| CommandLine.Numbering | lib/protocol/dbgp-client.go:251-266 | Over any sequence of lines, a line without an `-i` gets the start plus the number of earlier lines without one, so without gap or repeat; a line with one keeps it; the counter ends at its start plus the number of lines without one. |
| CommandLine.LineArrives | lib/protocol/dbgp-server.go:63-76 | A line sent with its NUL is received as it was, and nothing behind it is consumed. |
| CommandLine.PrintedLines | dbgpClient/proxy.go:57-61 | The four printed lines, typed out for one key and port. |
| CommandLine.RegisterRoundTrip | dbgpClient/proxy.go:50-63 | Printed, rewritten, sent, read and parsed, a registration arrives with exactly its key, port and SSL flag if and only if the key is non-empty without space and NUL. |
| CommandLine.UnregisterRoundTrip | dbgpClient/proxy.go:65-75 | The same for an unregistration, whose key must also not end in white space. |
| CommandLine.CloudInitRoundTrip | dbgpClient/main.go:249-298 | The same for a cloud session's first line. |
| CommandLine.CloudStopRoundTrip | lib/protocol/cloud.go:11-22 | The same for its last. |
| CommandLine.ReceivedTokenIsKey | lib/protocol/dbgp-server.go:35-77 | Whatever arrives, a non-empty token of a received line holds no space and no NUL. |
| Commands.HandleProxyInit | lib/command/proxyinit.go:29-48 | A new connection with the settings given is passed to `Add`; the reply carries the outcome and the settings. |
| Commands.HandleStop | lib/command/proxystop.go:24-38 | A whole removal of the key; success if and only if the key was there. |
| Commands.CloudInitCommand.constructor | lib/command/cloudinit.go:19-21 | A session starts out meaning to remove. |
| Commands.CloudInitCommand.ActUponConnection | lib/command/cloudinit.go:31-43 | One registration step; a refused session will not remove. |
| Commands.CloudInitCommand.Handle | lib/command/cloudinit.go:52-68 | The same, answered. |
| Commands.CloudInitCommand.Close | lib/command/cloudinit.go:45-50 | Nothing for a refused session, else a whole removal of the session's key. |
| Commands.FlagTellsOfChange | lib/command/proxystop.go:24-38 | The success flag of a proxyinit or proxystop agrees with whether its step changed the table, for either forceAdd; a successful registration leaves its key present exactly if it was absent. |
| Commands.Act | lib/proxy/server.go:20-35 | A command does its one registration or removal on the registry and is answered accordingly. |
| Commands.HandleClient | lib/proxy/server.go:20-35 | One line is read, the command it parses to is done on the registry as it is by then, with others' steps before and after, and its reply is sent in one frame; nothing is done or sent for a line that cannot be read or parsed. |
| Commands.ParseCommand | lib/protocol/dbgp-server.go:35-48 | The dispatch through the parsers' loops is the parser of the round trips. |
| Commands.ParseCloudCommand | lib/protocol/dbgp-server.go:50-61 | The same for cloud commands. |
| Commands.ReadCloudCommand | lib/protocol/dbgp-server.go:79-93 | Reads over arbitrary chunks what the item-by-item receiver says. |
| Commands.SendResponse | lib/protocol/dbgp-server.go:95-99 | One frame is written, which a receiver that goes by the length reads as the reply. |
| Xml.MessageTable | lib/dbgpxml/xml-response.go:265-290 | Which documents are understood, announce more, ask to close or report failure, by root tag, command and success attribute. |
| ClientSession.AfterPacket | dbgpClient/main.go:82-91 | Right after a packet is read it is shown, unless it is not XML or of no known kind, which ends the session. |
| ClientSession.AfterMore | dbgpClient/main.go:93-98 | After `notify`, `stream`, `cloudinit` or a `response` to `break` the session reads on and neither types nor sends; only a failure ends it. |
| ClientSession.ReadsOn | dbgpClient/main.go:93-98 | In a lawful history the next event after such a packet that is no signal is a read. |
| ClientSession.AfterClose | dbgpClient/main.go:100-103 | After `cloudstop` or a `response` to `detach` or `stop` nothing more happens and the session ends with that. |
| ClientSession.AfterFinal | dbgpClient/main.go:105-114 | Every other packet shown leads to the prompt. |
| ClientSession.SentIsLatest | dbgpClient/main.go:105-126 | A line sent is the latest one typed before that is neither empty nor a call for help; it is empty only if there is none. |
| ClientSession.AbortIs | dbgpClient/main.go:67-72 | A session is aborted exactly if the last thing that happened is a deadline expiring after an abort signal. |
| ClientSession.Lockstep | dbgpClient/main.go:54-130 | At every moment of a lawful history the commands sent equal the final responses shown, less the one that is due. |
| ClientSession.LockstepAt | dbgpClient/main.go:63-126 | At every read the counts are equal, and at every prompt and send one command is due. |
| ClientSession.SourceFollowsWindow | lib/protocol/dbgp-client.go:163-179 | In every lawful history a non-empty source response is listed with consecutive numbers from the window start that the last line sent left, as it went out; the listed lines joined are the right-trimmed source. |
| ClientSession.ShownFollowsRead | dbgpClient/main.go:63-93 | What is shown is what the packet just read decodes to, with that window start. |
| ClientSession.Session.Listen | dbgpClient/main.go:63-77 | The response read is the next one of those that arrive. |
| ClientSession.Session.Take | dbgpClient/main.go:105-114 | The line typed is the next one of the script. |
| ClientSession.Session.Send | lib/protocol/dbgp-client.go:298-307 | The wire, counter and window stay those of the lines sent so far. |
| ClientSession.Session.HearOne | dbgpClient/main.go:63-103 | A response leads to another read, the prompt or an end, as the rules of the history allow. |
| ClientSession.Session.Answer | dbgpClient/main.go:105-126 | What is sent is the latest non-empty line that is not a call for help, or the empty line if there is none. |
| ClientSession.Session.Run | dbgpClient/main.go:54-130 | For all responses and inputs the whole history is lawful, takes the arriving responses and the typed lines in order and skips none, the wire holds exactly the numbered lines sent, and the session ends only for an allowed reason; it reports an abort exactly if the last thing that happened was a deadline expiring after a signal. |
| Routing.RoutingConserves | lib/proxy/client.go:136-185 | In every run the init packets heard, counted by what arrives, equal clean forwards plus detach attempts, and every removal goes with an attempt. |
| Routing.RunHears | lib/proxy/client.go:137-166 | At every pass of a run, what is heard follows from the response that arrives as for `Interpret`, on the document's own fields, and whatever ends the run ends it there. |
| Routing.RunRoutes | lib/proxy/client.go:168-184 | The turn of a pass looks its key up; a connection found is the one forwarded to, without one the engine is detached; a failed forward, and only that, is followed by a removal of the same key. |
| Routing.FailedForwardRemoves | lib/proxy/client.go:170-177 | After the locked step of the removal that follows a failed forward the key is absent; that step takes away another connection's entry exactly if another one has come to hold the key since the lookup. |
| Routing.PassShrinks | lib/proxy/client.go:136-185 | A pass that does not end the loop leaves less to be seen than there was. |
| Routing.ServerHandler.SendDetach | lib/proxy/client.go:116-122 | One detach command, numbered 1, is sent; the result is a write failure or what the next response, awaited without a deadline, means; what that reader leaves of the stream. |
| Routing.ServerHandler.RemoveFailed | lib/proxy/client.go:175-176 | A whole removal of the key, on the registry as it is by then; the connection that failed is stored no more. |
| Routing.ServerHandler.TryForward | lib/proxy/client.go:168-178 | The forward goes to the connection found under the key, with all that `setupForwarder` promises; a failed one, and only that, is followed by the removal of that key and a detach. |
| Routing.ServerHandler.Route | lib/proxy/client.go:168-184 | The lookup on the registry of that moment decides: a forward to the entry of the key, or, if there is none, a detach. |
| Routing.ServerHandler.Hear | lib/proxy/client.go:137 | The read of a pass takes the next response and nothing else off the stream. |
| Routing.ServerHandler.Interpret | lib/proxy/client.go:138-166 | A signal first, then expiry, end of file and errors; of a document with root `init` a non-empty user id is the key, whatever the IDE key, else a non-empty IDE key is; anything else ends the loop. |
| Routing.ServerHandler.Step | lib/proxy/client.go:136-185 | One pass of the loop: what is heard is what arrives, there is a turn exactly for an init packet, and what the turn does on the stream, on the registry, to the IDE and to the engine. |
| Routing.ServerHandler.Handle | lib/proxy/client.go:126-188 | For every schedule of packets, signals and dials, a whole run is a chain of such passes from the first byte on, none skipped; it ends with the first pass that ends it and for its reason; the engine is sent exactly one detach command for each turn that is no clean forward; every socket to an IDE was sent what its turn says and is closed. A crash can only come last. |
| Printing.FormatProperty | lib/dbgpxml/xml-response.go:171-230 | The recursive printer gives the text of the pieces in which brackets are told apart from data. |
| Printing.LeafText | lib/dbgpxml/xml-response.go:174-229 | The line of a property without children to show, on its own fields: decoded names, class and value, for each kind. |
| Printing.ExpandedText | lib/dbgpxml/xml-response.go:187-206 | The lines of a property with children: title, opening bracket, children, closing bracket of the same kind. |
| Printing.BracketsAreNested | lib/dbgpxml/xml-response.go:192-206 | For every finite tree the brackets printed for expanded properties are well nested with matching kinds. |
| Printing.PropertyLines | lib/dbgpxml/xml-response.go:171-230 | Line ends printed: one per node, one more per expanded node, plus the newlines in the data. |
| Printing.FormatSource | lib/dbgpxml/xml-response.go:232-251 | The listing of the decoded value of a response, or the notice that it is empty. |
| Printing.SourceIsListed | lib/dbgpxml/xml-response.go:232-251 | One line per line of the right-trimmed source with consecutive numbers from the window start; those lines joined by newlines are that source. |
| Printing.ListsMeans | lib/dbgpxml/xml-response.go:244-248 | A listing is of the value cut after its last character that is no space and no newline, each line behind its number. |
| Printing.Pad4Is | lib/dbgpxml/xml-response.go:247 | A line number is padded with spaces in front to four characters. |

## Left out

- Sockets, TLS, dialling, signals and clocks: they enter as schedules of events and choices.
- The bytes the copying goroutine moves from IDE to engine: `io.Copy` is library code.
- `bufio`'s buffer size and its error after a hundred empty reads: the buffer here is unbounded.
- XML decoding and encoding, charsets and base64: arbitrary functions over documents.
- Integer overflow of the transaction counter: it would take 2^63 lines. The 64-bit range of `Atoi` is modelled.
- ClientSession.Session.Run: an abort signal is recorded before the read it arrives in; later ones are recorded at the next read. The deadline test that follows a read sees no difference.
- Connections.ConnectionList.TellIfClaimed: progress of the send on the control channel is not claimed; it blocks until somebody receives.
- Registry.TableIsHistory: connections are assumed new at each `Add`, as at every call in these files.
- Wire.EngineToIde: for bytes delivered to the forwarder's own reader; the handoff theorems say when that is all of them.
- Printing.PropertyLines: colours are left out; they add no newline.
- The other printers of `xml-response.go` (breakpoints, contexts, features, stack frames, type maps, errors) and the first line of a printed response: one formatted line each, without state.
- The accept loops of `lib/server/server.go`: how connections are accepted and waited for at shutdown, which happens around the handlers modelled here.
- `xdebugctl`: a separate program that finds control sockets and sends each one command; it uses neither the registry nor the forwarder.
- Options, help texts, completion and logging.
