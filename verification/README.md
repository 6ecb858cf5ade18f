# go-esl-app, modelled in Dafny

A model of the sequential logic of go-esl-app, a FreeSWITCH Event Socket
(ESL) client written in Go. Beneath its goroutines and channels the
program does six things, and each has a module here:

- **Wire** (`wire.dfy`) covers how goesl's `SocketConnection` frames outbound requests:
  - `Send`, `SendMany`, `SendEvent`, `SendMsg`, `Execute` and `ExecuteUUID`;
  - their refusal of CRLF before anything is written;
  - the omission of empty-valued headers and the condition for appending a body;
  - the `Handle` loop that sorts parsed messages into the event and reply streams by content type.
- **WireParse** (`wire_parse.dfy`) reads the frames back the way the server does. Each writer is paired with its reader by a round-trip lemma.
- **Connector** (`connector.dfy`) is the per-session dispatcher of the later revision, as a state machine:
  - its state is `closed`, the outstanding application and job uuids, and the handler map;
  - one dispatch step takes an event or a connection error and returns the new state together with what reached the exec waiter, what reached the job waiter, which handler was started, and whether the loop ended;
  - `exec` and `bgapi` are modelled as a closed-check, a header map, bookkeeping of the outstanding id, and a wait over the items the dispatcher handles.
- **Facade** (`facade.dfy`) holds the session methods of the later revision, which build the application name and argument text handed to `exec`:
  - `Set`, `Unset`, `MultiSet`, `MultiUnset` and `Hangup`;
  - `Hangup` also stands for the earlier revision's `hangup` in `session.go`, which builds the same call;
  - `PlayAndGetDigits` and `PlayAndGetOneDigit`;
  - `SendEvent` and `AddEventHandler`.
- **EarlyExec** (`early_exec.dfy`) is the `exec` of the earlier revision. It appears identically in `eslsession/eslsession.go` and in the top-level `session.go` and is modelled once. It is a fold over the items it receives: the first matching completion wins, a hangup fails it, and everything else is skipped.
- **Router** (`router.dfy`) is that revision's connection handler `EslConnectionHandler`. It is a step function over the registry that maps a channel's `Unique-ID` to its session. The module also holds the command forwarding of `eslSessionHandler`.
- **Logger** (`logger.dfy`) is the namespaced logger:
  - the threshold test and the tag selection;
  - the child namespace;
  - the level cell a parent shares with its children, which is the one class in the model.

Supporting modules:
- **Base** holds `Option`, `Result` and the error kinds.
- **Text** holds the Go string functions the code uses, `strings.Contains` and `strings.TrimSpace`, and decimal formatting. It also holds `Cut`, `Split` and `Join`, which only the model's read-back lemmas use.
- **Numbers** holds `strconv.ParseUint(s, 10, 32)`.
- **Message** holds an event as a list of header pairs together with `GetHeader`.

Several inputs are parameters of the model:
- The uuid generator and the clock (`uuid.New`, `time.Now`).
- The order in which a Go map hands out its entries. Header maps are sequences of pairs with distinct keys, and the order-independence of sendmsg is proved. The map literals of `Execute` and `ExecuteUUID` are taken as any listing of their four entries.
- A socket is a `Wire.Link`: how many write calls succeed, and which reply arrives afterwards.
- A non-blocking channel send is delivered exactly when a receiver is waiting. That fact is a boolean input (`Connector.Waiters`, the `receiving` flag of `Router.Step`).
- A blocking receive takes the next item of a given sequence.

Behaviours of the code a reader may not expect:
- `Handle` sends a read error to one error channel only: the one chosen by the type of the message read with it.
- On `CHANNEL_DESTROY` the dispatcher returns before looking up a handler.
- A second `CHANNEL_PARK` for the same channel overwrites the registry entry, and the router never forwards a `CHANNEL_DESTROY`.
- Nothing in these files writes to the job-event channel, so `bgapi` can only return an error, and a destroy leaves it blocked.
- `SendEvent` on the connection does not check its headers for CRLF.
- The session handler of the earlier revision sends through an external goesl client. It is modelled with the `SendMsg` of `goesl/connection.go`.
- The earlier revision registers a session inside a goroutine. The model registers it within the router step.
- Nothing in the earlier revision ever sets its `closed` flag. The model keeps the flag as an input.

## Model

| member | source | states |
|---|---|---|
| `Wire.Send` | goesl/connection.go:45-72 | A command holding CRLF fails with the invalid-command error and writes nothing. Otherwise the text written is always a prefix of `cmd + "\r\n\r\n"`, and a failed write gives the write error. The call succeeds exactly when both writes go through and a reply (not a reply error) arrives; then all of it was written and the reply is returned. When both writes pass and the reply error arrives instead, all of it was written and that error is returned. |
| `Wire.Deliver` | goesl/connection.go:55-71 | The text written is a prefix of all the chunks. A write failure gives the write error; when every write passes, all of it is written and the reply or reply error is returned. The call succeeds exactly when every write passes and a reply arrives. |
| `WireParse.SendFrameRoundTrip` | goesl/connection.go:55-63 | For a CRLF-free command, cutting the frame at the first CRLF gives back the command itself. |
| `Wire.SendMany` | goesl/connection.go:75-84 | Succeeds exactly when every command's Send would succeed. On success everything written is the frames of all commands in order, and the returned message is absent, as the code is written. |
| `Wire.SendManyStopsAtFirstFailure` | goesl/connection.go:77-80 | When command k is the first to fail, the written text is the frames of the commands before it plus whatever command k wrote, and its error is returned. |
| `Wire.SendManyLastReply` | goesl/connection.go:75-84 | The intended SendMany: it writes the same text, succeeds and fails exactly when SendMany does, with the same error, and on success returns the reply to the last command. |
| `Wire.SendManyDropsLastReply` | goesl/connection.go:76-83 | For a non-empty run in which every Send succeeds, SendMany returns no message while the corrected version returns one. |
| `Wire.SendEvent` | goesl/connection.go:87-125 | An empty header list fails with the could-not-send-event error (count 0) and writes nothing. Otherwise the call succeeds exactly when all 2n+2 writes pass and a reply arrives. The text written is a prefix of `"sendevent "` followed by the headers, each ended by CRLF, and a final CRLF. A failed write gives the write error. On success it is all of it; when all writes pass and a reply error arrives, it is all of it and that error is returned. |
| `WireParse.SendEventLines` | goesl/connection.go:96-117 | A successful sendevent of CRLF-free headers, split at CRLF, reads back as `"sendevent " + h0`, the other headers in order, and the two empty lines of the terminating blank line. |
| `Wire.SendMsgFrame` | goesl/connection.go:150-180 | The frame is refused with the invalid-message error exactly when the uuid contains CRLF, or some header name does, or some non-empty value does. |
| `Wire.SendMsg` | goesl/connection.go:148-199 | A refused frame writes nothing. Otherwise the text written is a prefix of the frame, and the call succeeds exactly when the one write passes and a reply arrives; then the whole frame was written. A failed write gives the write error with nothing written. When the write passes and a reply error arrives, the whole frame was written and that error is returned. |
| `WireParse.SendMsgRoundTrip` | goesl/connection.go:150-180 | Take headers and a uuid without newlines, and names without ": ". The frame is accepted, and parsing it gives back the uuid, exactly the headers with non-empty values in the order given, and the body. The body is `data` only when both the content-length header and `data` are non-empty. |
| `WireParse.HeaderBlockRoundTrip` | goesl/connection.go:162-176 | The `name: value` lines followed by a blank line parse back into the same header list, and the rest of the text is left as the body. |
| `WireParse.CommandLineRoundTrip` | goesl/connection.go:150-160 | The command line `sendmsg`, with ` uuid` only when the uuid is non-empty, parses back to the uuid. |
| `Wire.SendMsgOrderIndependent` | goesl/connection.go:162-178 | For two listings of the same Go map, acceptance, the multiset of header lines kept and the body agree. |
| `Wire.KeptCount` | goesl/connection.go:167-173 | A header occurs among the written ones as often as in the map when its value is non-empty, and never when it is empty. |
| `Wire.ExecuteHeadersAccepted` | goesl/connection.go:128-145 | The execute map is accepted by sendmsg exactly when neither the application name nor its argument holds CRLF, and it never carries a content-length. |
| `Wire.ExecuteUuid` | goesl/connection.go:138-145 | For any listing of the four-entry map literal: a CRLF in the uuid, the application or its argument refuses the call with nothing written. Otherwise the call succeeds exactly when the write passes and a reply arrives, writing the sendmsg frame for that uuid with the listing's non-empty headers and no body; a failed write gives the write error with nothing written; a reply error after the write is returned with the same text written. The headers written are, as a multiset, the same for every listing. |
| `Wire.ExecuteListingAccepted` | goesl/connection.go:128-145 | Any listing of the execute map is accepted by sendmsg exactly when neither the application nor its argument holds CRLF, and it carries no content-length. |
| `Wire.Execute` | goesl/connection.go:128-135 | ExecuteUUID without a uuid: refused with nothing written exactly on a CRLF in the application or its argument; succeeds exactly when that is absent, the write passes and a reply arrives, writing the frame with the bare `sendmsg` line; a failed write gives the write error with nothing written; a reply error is returned with the same text written. |
| `Wire.Handle` | goesl/connection.go:221-258 | Messages read before the first error go, in order, to the event stream when their type is text/event-plain or text/event-json, and to the reply stream otherwise. The first error goes to exactly one error channel, chosen by the type of its message. Without an error neither channel gets one. |
| `Wire.HandleLosesNothing` | goesl/connection.go:233-248 | Every message read lands on exactly one of the two streams. |
| `Connector.Close` | eslsession/connector.go:36-39 | The connector is marked closed and nothing else about it changes. |
| `Connector.Dispatch` | eslsession/connector.go:42-83 | The loop ends exactly on a connection error or a CHANNEL_DESTROY, and the state is closed exactly then. The exec waiter gets the event exactly when it is waiting and the event is a CHANNEL_EXECUTE_COMPLETE whose Application-UUID is the current one. It gets an error exactly when it is waiting and the item ends the loop: the connection's error, or the closed-channel error on a destroy. The job waiter gets only connection errors. A handler is started exactly when the loop goes on and one is registered under the event's name. |
| `Connector.Run` | eslsession/connector.go:42-83 | The loop dispatches each item against the unchanged state and stops right after the first terminating item. No earlier step ends the loop or closes the connector, so close is reached at most once. Without a terminating item every item is handled. |
| `Connector.ExecHeadersFields` | eslsession/connector.go:97-101 | The exec map has distinct keys and holds call-command=execute, the application, its argument and the fresh Event-UUID. |
| `Connector.ExecWait` | eslsession/connector.go:108-116 | While exec waits, it returns on the first item that settles it: its own completion, the closed-channel error of a destroy, or a connection error. Earlier items leave it waiting. The connector is closed exactly when that item ends the loop. The handlers started are those of every item handled until then. |
| `Connector.Exec` | eslsession/connector.go:93-117 | A closed connector returns the closed-channel error and sends nothing. Otherwise exec sends the execute map with the fresh uuid and returns what the wait under that uuid returns; the connector is closed, and the handlers started are, exactly as that wait leaves them. A returned event is its own completion. The outstanding application uuid is cleared once exec returns, on success and on error alike, and stays set while it waits. |
| `Connector.ExecFirstSettling` | eslsession/connector.go:110-116 | The result is exactly what the first settling item gives, whatever follows it, and exec consumes exactly that many items. |
| `Connector.ExecIgnoresStale` | eslsession/connector.go:49-54 | A completion of another application, or any non-terminating event, leaves exec's result to the items after it. |
| `Connector.ExecDestroyed` | eslsession/connector.go:55-63 | A destroy while exec waits returns the closed-channel error, leaves the connector closed and starts no handler. |
| `Connector.BgapiWait` | eslsession/connector.go:134-141 | bgapi returns exactly when the item that ended the dispatcher is a connection error, and it returns that error. Every item before the last one handled is non-terminating, and the wait stops at the first terminating item. The handlers started are those of every item handled until then. |
| `Connector.Bgapi` | eslsession/connector.go:119-142 | A closed connector returns the closed-channel error and sends nothing. Otherwise bgapi sends the bgapi map with the fresh Job-UUID and returns what the wait under that job returns, which is only ever an error; the connector is closed, and the handlers started are, exactly as that wait leaves them. The job uuid is cleared once it returns and stays set while it waits. |
| `Connector.BgapiStrandedByDestroy` | eslsession/connector.go:55-63 | A destroy before any connection error ends the dispatcher, closes the connector and leaves bgapi without a result. |
| `Facade.Set` | eslsession/session.go:18-20 | Runs `set` with an argument that is the name, then '=', then the value. For a name without '=', cutting the argument at the first '=' gives back the name and the value. |
| `Facade.Unset` | eslsession/session.go:23-25 | Runs the application spelled `unseset`, not `unset`, with the bare name as its argument; for a name without '=' there is no '=' to cut at. |
| `Facade.MultiArg` | eslsession/session.go:28-43 | The argument starts with `^^:` and always ends in ':'. For an empty map it is exactly `^^:`. |
| `Facade.MultiArgSplit` | eslsession/session.go:29-32 | For colon-free entries, the argument after `^^:` splits at ':' into the `k=v` entries in order, followed by one empty field. |
| `Facade.TerminatedJoin` | eslsession/session.go:30-32 | The loop's `k=v:` pieces equal the entries joined by ':' with a trailing ':'. |
| `Facade.MultiSet` | eslsession/session.go:28-34 | Runs `multiset`. The argument starts with `^^:`, and for colon-free entries it splits into the entries in order. |
| `Facade.MultiUnset` | eslsession/session.go:37-43 | Runs `multiunset`, with the same argument MultiSet builds. |
| `Facade.Hangup` | eslsession/session.go:56-62 | Runs `hangup` with the first cause given, or NORMAL_CLEARING when none is. The earlier revision's `hangup` (session.go:30-36) builds the same call. |
| `Facade.HangupDefault` | eslsession/session.go:57-60 | Causes after the first are ignored, and giving none is the same as giving NORMAL_CLEARING. |
| `Facade.PlayAndGetDigits` | eslsession/session.go:70-76 | Runs `play_and_get_digits` with an argument that has no white space at either end. |
| `Facade.PlayAndGetDigitsFields` | eslsession/session.go:73-75 | When the text fields hold no spaces and the last one is non-empty, the argument splits at single spaces back into the eleven fields, the numbers in decimal. |
| `Facade.PlayAndGetDigitsNoTransfer` | eslsession/session.go:73-75 | With an empty last field, trimming removes the trailing separator, so the argument is the first ten fields joined by spaces. |
| `Facade.OneDigitNamesVariable` | eslsession/session.go:80-81 | For a path without spaces, the call PlayAndGetOneDigit makes has eleven fields, and the eighth names the variable `pagd-<unix time>`. |
| `Facade.PlayAndGetOneDigit` | eslsession/session.go:79-86 | A closed session gives 0 with the closed-channel error. An exec error gives 0 with that error. When exec returns its completion, the result is the 32-bit parse of that event's `variable_pagd-<unix time>` header. The result is pending exactly while exec is, and a value returned never exceeds 2^32-1. |
| `Facade.OneDigitReadsBack` | eslsession/session.go:82-85 | When the first settling item is exec's own completion and the collected variable holds a 32-bit number in decimal, that number is returned without error. |
| `Numbers.ParseUint32` | eslsession/session.go:85 | Succeeds exactly on a non-empty all-digit string whose value fits in 32 bits, and then returns that value. Any failure is a syntax error with value 0 or a range error with value 2^32-1, as `strconv.ParseUint(s, 10, 32)` returns them. The empty string is a syntax error. The error is the range error exactly when some all-digit prefix already exceeds 2^32-1, that is, when the left-to-right scan meets an overflowing digit before any non-digit. |
| `Numbers.ParseFormatted` | eslsession/session.go:85 | Every value up to 2^32-1, formatted in decimal, parses back to itself without error. |
| `Facade.EventData` | eslsession/session.go:99-109 | Empty for no headers. For comma-free entries, splitting at ',' gives back the `k=v` entries in order, so n entries carry n-1 commas and none trails. |
| `Facade.BuildEventData` | eslsession/session.go:100-108 | The loop as written, appending a ',' while entries remain, builds exactly EventData. |
| `Facade.SendEvent` | eslsession/session.go:99-111 | Runs the `event` application with EventData. |
| `Facade.AddEventHandler` | eslsession/session.go:124-126 | The name now maps to the new handler, replacing any earlier one. Every other name keeps its handler or its absence, and the rest of the state is unchanged. |
| `Facade.AddedHandlerRuns` | eslsession/session.go:124-126 | After registration, the next non-destroy event of that name starts the new handler. |
| `EarlyExec.Await` | eslsession/eslsession.go:107-120 | The receive loop returns on the first item that settles it and reports where that item is. Every item before it settles nothing, and without a result no item settles. |
| `EarlyExec.AwaitLoop` | session.go:71-85 | The loop as written agrees with Await: the same result, after consuming up to and including the settling item. |
| `EarlyExec.AwaitFirst` | eslsession/eslsession.go:107-119 | The first settling item decides the result, whatever follows it. |
| `EarlyExec.Exec` | eslsession/eslsession.go:96-122 | A closed session fails with the hangup error and sends nothing. Otherwise exec sends the execute map with the fresh uuid and returns what the first settling item gives, as Await finds it: its own completion, the hangup error, or a connection error. It stays waiting exactly when no item settles it. |
| `EarlyExec.HangupBeforeCompletion` | eslsession/eslsession.go:112-115 | A CHANNEL_HANGUP or CHANNEL_HANGUP_COMPLETE ahead of the own completion fails exec with the hangup error. |
| `EarlyExec.SkipsOthers` | session.go:73-80 | Events that settle nothing, such as completions of other uuids, are passed over until the own completion, which is returned. |
| `EarlyExec.RevisionsDiffer` | eslsession/eslsession.go:112-118 | The earlier exec fails on CHANNEL_HANGUP and skips CHANNEL_DESTROY. The connector's exec does the opposite, returning the closed-channel error on the destroy. |
| `EarlyExec.Set` | session.go:23-25 | The earlier set runs the application named by the variable, with the value as its argument. For a name without '=', the later Set's argument cut at '=' gives back exactly this pair. |
| `Router.Step` | eslsession/eslsession.go:166-204 | The loop ends exactly on a read error mentioning EOF or equal to the JSON decoder's truncated-input error; then the error goes to every registered session. Other read errors are skipped. A park registers a new session under its Unique-ID, overwriting any earlier one. For any other event: an empty or unregistered uuid leaves everything as it was; a destroy of a registered uuid removes it and is not forwarded; any other event of a registered uuid is forwarded to its session when it receives and dropped otherwise. Id freshness is kept. |
| `Router.FatalExamples` | eslsession/eslsession.go:173 | "EOF", "unexpected EOF" and the JSON truncation error end the loop; "connection reset by peer" does not. |
| `Router.ParkTwiceOrphans` | eslsession/eslsession.go:186-187 | A second park of the same channel replaces the first session, which is then unreachable from the registry. |
| `Router.Run` | eslsession/eslsession.go:168-206 | Each action is what Step does on that read from the registry the earlier reads left. The loop stops right after the first fatal read error and handles every read when there is none. The final registry is the one reached, id freshness is kept, and a broadcast can only be the last action. |
| `Router.RunRegistry` | eslsession/eslsession.go:186-195 | After a run a uuid is registered exactly when its own history of parks and destroys, cut off at a fatal error, leaves it registered. |
| `Router.Forward` | session.go:118-124 | The text written is, command by command in queue order, what each command's sendmsg writes on its own link; a refused or failed command contributes only what it wrote and does not stop the rest. |
| `Router.ForwardAppend` | session.go:118-124 | Forwarding two batches of commands writes the first batch's text, then the second's. |
| `Router.ForwardPastRefused` | session.go:123 | A command that sendmsg refuses writes nothing, and forwarding goes on with the next. |
| `Router.ForwardWritesFrames` | eslsession/eslsession.go:155-161 | When every command is accepted and every write passes, the socket sees exactly the sendmsg frames of the commands, in order, whatever the replies. |
| `Logger.NewLogger` | logger/logger.go:99-105 | The namespace is the name in brackets, and the level is DEBUG, so every method's lines are printed. The level cell is a new one, shared with no existing logger. |
| `Logger.IndependentRoots` | logger/logger.go:99-105 | Two root loggers have different cells: setting the level of one leaves the other at DEBUG. |
| `Logger.SetLevel` | logger/logger.go:93-96 | The threshold in the logger's cell becomes the given level. |
| `Logger.CreateChild` | logger/logger.go:86-91 | The child shares the parent's level cell. Its namespace is the parent's followed by ` [ns]`. |
| `Logger.DescendShares` | logger/logger.go:86-91 | Any descendant shares the root's cell, and its namespace is the root's followed by one ` [name]` per generation. |
| `Logger.SetThroughChild` | logger/logger.go:93-96 | Setting the level through a child changes the threshold of the parent. |
| `Logger.LevelsOrdered` | logger/logger.go:24-30 | The five levels are distinct and ordered DEBUG < INFO < NOTICE < WARNING < ERROR. |
| `Logger.Tag` | logger/logger.go:68-81 | The five levels get their own tag, and any other level gets [CONSOLE]. |
| `Logger.TagsDistinct` | logger/logger.go:68-81 | Two different levels get different tags unless both lie outside the five. |
| `Logger.Line` | logger/logger.go:63-83 | A line is produced exactly when the configured level is not above the message's level, and it starts with the level's colour and tag. |
| `Logger.MethodsUseOwnTag` | logger/logger.go:39-61 | Each of the five methods logs at its own level, so an admitted line is printed and never carries [CONSOLE]. |

## Left out

- Goroutines, channel blocking, the `sync.Mutex` and `select` scheduling are replaced by data:
  - a non-blocking send succeeds exactly when a waiter is present, which is given as input;
  - a blocked call takes the items it receives as a sequence;
  - the races between exec sending its command and starting to wait are not modelled.
- The socket reads of `Handle` and the message parser `newMessage` are not part of this model. `Wire.Handle` takes the parser's results as a sequence.
- `Dial`, `Close`, `OriginatorAddr` and `ReadEvent` of the connection are socket plumbing with no logic beyond the call.
- A write call that fails may have put part of its chunk on the socket before failing. The model counts only whole write calls, so a failed call contributes nothing to the text written. The contracts of the writers claim only a prefix of the frame, which holds either way.
- The replies of `Send`, `SendEvent` and `SendMsg` come from the reader goroutine. Each call takes the reply or reply error it would receive as a parameter.
- In the earlier revision, the `events json …` subscription that `EslConnectionHandler` sends first, and the starting of the user application in `eslSessionHandler`, are I/O and foreign code. The registration itself is part of `Router.Step`.
- `fmt.Printf` output and its argument substitution are not modelled. Only the decision to print and the text before substitution are.
- `Connector.Close`: Go's `close` also closes the command channel `fs.cmds`. The model has no command channel, so it only marks the connector closed.
- `uuid.New` and `time.Now` are parameters (`newId`, `now`).
- `Session.ExecAPI` returns nil without doing anything and has no model. `ExecBgAPI` is `Connector.Bgapi` itself.
- `Facade.Answer`, `Facade.PreAnswer`, `Facade.Playback`, `Facade.Bridge` and `Facade.Voicemail` are modelled as the application calls they make. There is nothing to state about them beyond their text.
- The later revision's `Set`, `Hangup` and `PlayAndGetDigits` run through `Connector.Exec`. Their models are the application calls they pass to it, and only `Facade.PlayAndGetOneDigit` composes a call with `Connector.Exec`.
- The logger's level cell is a Go `*int`. It is modelled as a small class, so the contracts of `Logger.NewLogger` and `Logger.SetThroughChild` speak about heap state.
- `Facade.MultiSet`: the parse-back holds only for names and values without ':'. With a ':' in an entry the argument is still built as written, but it cannot be split back.
- `Facade.Set`: the read-back by cutting at '=' holds only for names without '='. For any name the argument's parts are stated by position.
- `EarlyExec.Set`: the correspondence with the later Set holds only for names without '='.
- `Facade.PlayAndGetDigits`: for all inputs only the trimmed ends are stated. The eleven fields are recovered only when the text fields hold no spaces and the last one is non-empty, by `Facade.PlayAndGetDigitsFields`.
- `Facade.EventData`: the parse-back holds only for names and values without ','. For any other entries only the construction is stated, through `Facade.BuildEventData`.
- `Wire.SendMsgFrame`: Go's error text formats the header map with `%v`. The model carries the header list in the error instead.
- `WireParse.SendMsgRoundTrip`: holds only for header names without ": " and for names, values and uuids without a newline. Such text is accepted by sendmsg but cannot be read back unambiguously.
- `Router.Step`: the fatal-error broadcast is a blocking send on each session's unbuffered error channel. The model delivers it to every registered session and ends the loop, which is the run in which every session eventually receives. A session that never receives would block the router at that send for good, and that run is not modelled.
- `Router.Step`: the model does not resolve which session wins when two goroutines register the same uuid concurrently. It registers on the park itself.
- `EarlyExec.Exec`: the two copies of the earlier exec are one model. The session's `closed` flag, which that code never sets, is an input.

## Findings

| source | as written | input that shows it | evidently intended | confidence | as-written member | corrected member |
|---|---|---|---|---|---|---|
| goesl/connection.go:75-84 | On success `SendMany` returns `msg`, the outer variable. Each reply is assigned to a `msg` declared by `:=` inside the `if`, which shadows the outer one, so the outer `msg` stays nil. | Any non-empty run of commands that all succeed, e.g. one command `"api status"` whose write passes and whose reply arrives | Return the reply to the last command, as the declared `(*Message, error)` result suggests | not executed | `Wire.SendManyDropsLastReply` | `Wire.SendManyLastReply` |
