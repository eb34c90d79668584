# asyncirc, modelled in Dafny

A model of the core of asyncirc, an IRC client library written for Python's
`tulip` (later `asyncio`) event loop, together with proofs about it. The model
covers four parts:

- **The line framer** (`LineBuffer`, module `LineBuffering`). The client
  pushes received text onto it. It hands back the complete lines, split on
  `\r?\n`, and keeps the unterminated tail.
- **The message parser** (`parse`, module `Protocol`, with its older copy in
  module `Parser`). Both copies are methods proved to compute the
  `Grammar.ParseLine` specification, which is then related to the wire
  grammar of a line. It reads a line as space-split tokens: an optional
  `@k=v,...` tag block, an optional `:prefix`, the verb, and the arguments,
  where the first argument starting with `:` swallows the rest of the line.
- **The prefix resolver and composer** (`parse_prefix`, `create_prefix`).
- **The client object** (`IRCClient`, module `Client`). Its session fields
  (`nickname`, `connected`, `reconnect`, `reconnect_count`) change in place
  as the transport calls back (`connection_made`, `connection_lost`,
  `eof_received`), as lines are handled (`data_received`, `_handle_line`,
  `_on_message`, `_on_ctcp`) and as the user acts (`_send` and the command
  builders, `ctcp`, `quit`).

Each method of the class is proved against a specification function:

- `Dispatch.Handle` and `Dispatch.HandleAll` give what a line, or a run of
  lines, does to the session state, the frames written and the handlers
  called.
- `Session.Lose` and its relatives give the session state transitions.
- `Outbound.Frame` gives the bytes `_send` writes.

The properties are stated about those functions.

The client's surroundings become explicit data:

- The transport is the sequence of frames written.
- The `on_<command>` handlers are a map from attribute names to functions,
  and each call is logged.
- The numeric-reply table of the `events` module is a parameter.
- The text encoder is a parameter.
- The event loop is the list of reconnection delays slept, the number of
  connections requested and whether the loop was stopped.
- Exceptions are `Fail` outcomes:
  - `InvalidCharacters` and `NotConnected` for `_send`;
  - `ParseFailed` for a line `parse` rejects;
  - `IndexError` for a missing `args[0]` or `args[1]`;
  - `MissingAttribute` for the `feed` call described under Findings.

Where the library's design notes and its code disagree, the model follows the
code:

- `parse_prefix` strips the leading `~` run from the whole prefix, not from the
  user part. So `nick!~user@host` resolves to user `~user`
  (`Protocol.TildeOnUserKept`), and only `~nick!user@host` loses its `~`
  (`Protocol.TildeOnNickStripped`).
- `parse_prefix` needs exactly one `!`, and exactly one `@` after it. Any
  other count raises, since the unpack fails (`Protocol.PrefixTooManyBangs`,
  `Protocol.PrefixOneBang`).
- A prefix without `!` gives no identity. It does not give back the server
  name.
- `_send` truncates a message longer than 510 bytes to 510 bytes plus CRLF. It
  does not reject it (`Outbound.Frame`).
- `parse` returns tag keys without the `@`, the prefix without the `:`, and a
  trailing argument without its `:`. The docstring example shows all three
  kept; the code removes them (`Grammar.ParseRender`).
- A malformed tag piece (one without `=`) makes `parse` raise.

## Model

| member | source | states |
|---|---|---|
| Text.Split | asyncirc/protocol.py:19 | `str.split(sep)` gives at least one piece |
| Text.Join | asyncirc/protocol.py:49 | `' '.join(parts)`; `JoinSplit` and `SplitJoin` prove it and `Split` undo each other |
| Text.SplitOnce | asyncirc/protocol.py:30 | `split('=', 1)` on text holding `=`: the text is the key, `=`, then the value, and the key holds no `=` |
| Text.IndexOf | asyncirc/protocol.py:30 | the first occurrence, where `split('=', 1)` cuts: the position holds the character, and no earlier position does |
| Text.Count | asyncirc/protocol.py:67 | the count is at most the length, and is zero exactly when the character is absent |
| Text.LStrip | asyncirc/protocol.py:67 | `lstrip('~')` removes exactly the leading run of `~`: a suffix that does not start with `~`, with only `~` before it |
| Text.RStrip | asyncirc/client.py:220 | the trailing half of `strip('\x01')`: a prefix that does not end with the marker, with only markers after it |
| Text.Strip | asyncirc/client.py:220 | `strip(c)`; `StripBothEnds` proves it is `lstrip` then `rstrip`, and `Outbound.StripMarkers` that it removes exactly the two markers around a CTCP body |
| Text.StripBothEnds | asyncirc/client.py:220 | `strip` drops the leading run of the character and then the trailing run, as `lstrip` followed by `rstrip` |
| Text.JoinSplit | asyncirc/protocol.py:49 | joining the pieces of a split with the separator gives back the text |
| Text.SplitJoin | asyncirc/protocol.py:49 | splitting the join of separator-free parts gives back the parts |
| Text.SplitJoinLast | asyncirc/protocol.py:49 | splitting the join of separator-free parts and one last part gives the parts, then the split of the last |
| Text.SplitAround | asyncirc/protocol.py:67 | text cut at one separator splits as its two sides split |
| Text.SplitPiecesFree | asyncirc/protocol.py:19 | no piece of a split holds the separator |
| Text.SplitWithoutSeparator | asyncirc/protocol.py:68 | text without the separator splits into itself alone |
| Text.SplitCount | asyncirc/protocol.py:67-68 | a split has one more piece than the text has separators |
| Text.SplitOne | asyncirc/protocol.py:67 | text with exactly one separator splits into the text before and after it |
| Text.LStripCount | asyncirc/protocol.py:67 | stripping `~` keeps the number of `!` |
| Text.Lower | asyncirc/client.py:132 | ASCII `lower()`; `LowerChars` gives it letter by letter, `LowerIsLower` and `LowerKeeps` that it leaves lower-case text as it is |
| Text.LowerChars | asyncirc/client.py:132 | `lower()` maps `A`..`Z` to `a`..`z` and keeps every other character |
| Text.LowerKeeps | asyncirc/client.py:132 | text already in lower case is its own `lower()` |
| Text.Upper | asyncirc/client.py:261 | ASCII `upper()`; `UpperFree` proves a character that is no lower-case letter stays absent, which `Outbound.CtcpRoundTrip` needs |
| Text.LowerIsLower | asyncirc/client.py:132 | `lower()` leaves no upper-case letter |
| LineBuffering.LineSplit | asyncirc/buffer.py:8 | the split of `\r?\n` has at least one piece |
| LineBuffering.CompleteLines | asyncirc/buffer.py:23-25 | the lines `lines()` returns: all pieces of the split but the last; `LineCount`, `Reassembly` and `LineSplitIsLineCut` give their number, their freedom from `\n` and how they rebuild the buffer |
| LineBuffering.Pending | asyncirc/buffer.py:23-24 | the last piece of the split, kept in the buffer; `PendingFree` shows it holds no `\n` |
| LineBuffering.LineBuffer.constructor | asyncirc/buffer.py:10-11 | a new buffer is empty |
| LineBuffering.LineBuffer.Length | asyncirc/buffer.py:16-17 | `len()` is the number of pending characters |
| LineBuffering.LineBuffer.Push | asyncirc/buffer.py:19-20 | the data is appended to the pending text |
| LineBuffering.LineBuffer.Lines | asyncirc/buffer.py:22-25 | the lines returned and the new buffer are the complete lines and the tail of the old buffer. There are as many lines as `\n` characters. No line and not the tail holds `\n`. Lines, separators and tail form a valid line cut of the old buffer |
| LineBuffering.LineSplitIsLineCut | asyncirc/buffer.py:23 | the split is a valid line cut: no piece holds `\n`; each separator is `\n` or `\r\n`; a `\r` before `\n` belongs to the separator; pieces and separators rejoin to the text |
| LineBuffering.LineCutUnique | asyncirc/buffer.py:23 | any valid line cut of a text is the split, so the split is fully determined by that description |
| LineBuffering.Reassembly | asyncirc/buffer.py:22-25 | the lines, each followed by its separator, then the new buffer give back the old buffer |
| LineBuffering.LineCount | asyncirc/buffer.py:23 | the number of lines returned is the number of `\n` in the buffer, empty lines included |
| LineBuffering.NoBreak | asyncirc/buffer.py:22-25 | text without `\n` yields no line and stays pending whole |
| LineBuffering.PendingFree | asyncirc/buffer.py:23-24 | the text `lines()` leaves in the buffer never holds a `\n` |
| LineBuffering.LineSplitAppend | asyncirc/buffer.py:19-25 | the split of `a + b` is the complete lines of `a`, then the split of `a`'s tail followed by `b` |
| LineBuffering.SplitAppend | asyncirc/buffer.py:19-25 | pushing `a` and draining, then pushing `b` and draining, gives the lines and tail of pushing `a + b` once |
| LineBuffering.ChunkInvariance | asyncirc/buffer.py:19-25 | for any chunking of the input, draining after every push gives the same lines and tail as one push of the whole |
| Grammar.AddTagsSucceeds | asyncirc/protocol.py:29-31 | the tag loop succeeds exactly when every piece holds `=` |
| Grammar.AddTags | asyncirc/protocol.py:26-31 | the tag loop over the `,` pieces; the `AddTags…` lemmas state when it fails, which value wins and which keys it stores |
| Grammar.FoldTrailing | asyncirc/protocol.py:46-55 | the argument loop; `FoldTrailingNone`, `FoldTrailingAt` and `FoldTrailingSpaces` state its result |
| Grammar.ParseLine | asyncirc/protocol.py:10-57 | `parse`; `ParseRender` proves it reads back every well-formed line, and `TagWithoutValueFails` and `TagBlockOnlyFails` name its failures |
| Grammar.AddTagsLastWins | asyncirc/protocol.py:29-31 | a key is bound to the value of the last piece naming it |
| Grammar.AddTagsKeeps | asyncirc/protocol.py:29-31 | an entry that no piece names is kept unchanged |
| Grammar.AddTagsKeysFrom | asyncirc/protocol.py:29-31 | every key afterwards was already present or comes from some piece |
| Grammar.AddTagsSnoc | asyncirc/protocol.py:29-31 | one more piece at the end overrides what the others stored under its key |
| Grammar.TagPieceParts | asyncirc/protocol.py:30 | the piece `k=v` with `=`-free `k` cuts into key `k` and value `v` |
| Grammar.TagsRoundTrip | asyncirc/protocol.py:26-31 | the pieces of a list of pairs with `=`-free keys are read back as the map the pairs denote, with later keys winning |
| Grammar.FoldTrailingNone | asyncirc/protocol.py:46-55 | with no argument starting with `:`, the arguments are the tokens unchanged |
| Grammar.FoldTrailingAt | asyncirc/protocol.py:46-55 | with the first `:` argument at `idx`, the arguments before it are kept. It and all after it, joined by spaces and without the `:`, become the last argument |
| Grammar.FoldTrailingSpaces | asyncirc/protocol.py:46-55 | of the folded arguments, only the last can hold a space |
| Grammar.OnlyLastArgHasSpace | asyncirc/protocol.py:19-57 | of the arguments `parse` returns, only the last can hold a space |
| Grammar.TagBlockOnlyFails | asyncirc/protocol.py:22-36 | a line that is only a tag block raises: no token is left for `string[0]` |
| Grammar.TagWithoutValueFails | asyncirc/protocol.py:29-30 | a tag piece without `=` makes `parse` raise |
| Grammar.HeadsFree | asyncirc/protocol.py:19 | the tokens a well-formed line has before its trailing argument hold no space |
| Grammar.TagBlockSplits | asyncirc/protocol.py:23-26 | a written tag block splits on `,` back into its pieces |
| Grammar.RenderTokens | asyncirc/protocol.py:19 | a rendered line splits into its head tokens, then the words of its trailing argument |
| Grammar.FoldWireArgs | asyncirc/protocol.py:46-55 | the tokens after the verb fold back into the middle arguments and the trailing one |
| Grammar.ParseHeads | asyncirc/protocol.py:22-40 | the head tokens yield the tag map and the prefix |
| Grammar.ParseTokensTagged | asyncirc/protocol.py:22-31 | a well-formed tag block is consumed before the prefix is looked for |
| Grammar.ParseRestAfterPrefix | asyncirc/protocol.py:36-57 | after the prefix token, the verb is the next token and the rest fold into the arguments |
| Grammar.ParseRender | asyncirc/protocol.py:10-57 | parsing a well-formed line gives back its tag map, prefix, verb and arguments, the trailing one with its spaces kept |
| Protocol.Parse | asyncirc/protocol.py:10-57 | the tag loop and the argument loop compute `ParseLine`, raising on a tag piece without `=` and on a missing prefix or verb token |
| Protocol.ReadTags | asyncirc/protocol.py:26-31 | the tag loop over the `,` pieces computes `AddTags` from an empty map, failing at the first piece without `=` |
| Protocol.FoldArguments | asyncirc/protocol.py:46-55 | the argument loop computes `FoldTrailing`: the first `:` argument and all after it become one last argument |
| Protocol.ParsePrefix | asyncirc/protocol.py:60-70 | `parse_prefix`; `ServerPrefix`, `PrefixTooManyBangs` and `PrefixOneBang` state each outcome, and `ResolveCompose` and `ComposeResolve` relate it to `create_prefix` |
| Protocol.CreatePrefix | asyncirc/protocol.py:73-75 | `create_prefix`; `ResolveCompose` proves `parse_prefix` gives its parts back |
| Parser.Parse | asyncirc/parser.py:3-47 | the older copy computes the same `ParseLine`, so the two copies agree on every line |
| Parser.ReadTags | asyncirc/parser.py:18-23 | the older copy's tag loop computes the same `AddTags` |
| Parser.FoldArguments | asyncirc/parser.py:36-45 | the older copy's argument loop computes the same `FoldTrailing` |
| Protocol.ServerPrefix | asyncirc/protocol.py:63-65 | `parse_prefix` finds no identity exactly when the prefix has no `!` |
| Protocol.BangPieces | asyncirc/protocol.py:67 | the stripped prefix splits at `!` into one more piece than the prefix has `!` |
| Protocol.PrefixTooManyBangs | asyncirc/protocol.py:67 | with a `!`, the `!` unpack fails exactly when the prefix has more than one `!` |
| Protocol.StrippedCut | asyncirc/protocol.py:67 | with one `!`, the stripped prefix splits into the stripped nick part and the text after the `!` |
| Protocol.PrefixOneBang | asyncirc/protocol.py:67-70 | with one `!`, it fails exactly when the rest has not exactly one `@`. Otherwise the nick is the part before `!`, less its leading `~` run, and the rest is cut into user and host |
| Protocol.ResolveCompose | asyncirc/protocol.py:60-75 | resolving a composed prefix gives back nick, user and host, when each can be told apart |
| Protocol.ComposeResolve | asyncirc/protocol.py:60-75 | composing a resolved prefix gives back the prefix, less its leading `~` run |
| Protocol.TildeOnUserKept | asyncirc/protocol.py:67 | `nick!~user@host` resolves to user `~user` |
| Protocol.TildeOnNickStripped | asyncirc/protocol.py:67 | `~nick!user@host` resolves to nick `nick` |
| Outbound.Frame | asyncirc/client.py:183-194 | the frame ends in CRLF and is at most 512 bytes. It holds a prefix of the message, all of it exactly when the message has at most 510 bytes, and is 512 bytes long otherwise |
| Outbound.CtcpText | asyncirc/client.py:260-266 | the text `ctcp` and `ctcp_reply` wrap; `CtcpRoundTrip` proves `_on_ctcp` decodes it back to the upper-cased type and the parameter |
| Outbound.PrivmsgLine | asyncirc/client.py:313-314 | the line `privmsg` sends; `PrivmsgParses` proves it parses back to target and text |
| Outbound.NoticeLine | asyncirc/client.py:290-292 | the line `notice` sends; `NoticeParses` proves it parses back to target and text |
| Outbound.PongLine | asyncirc/client.py:310-311 | the line `pong` sends; `PongParses` proves it parses back to its targets |
| Outbound.QuitLine | asyncirc/client.py:316-318 | the line `quit` sends; `QuitParses` proves it parses back to its message |
| Outbound.NickLine | asyncirc/client.py:286-287 | the line `nick` sends from `connection_made` |
| Outbound.UserLine | asyncirc/client.py:329-330 | the line `user` sends from `connection_made` |
| Outbound.CtcpDecode | asyncirc/client.py:220-226 | the CTCP command holds no space |
| Outbound.StripMarkers | asyncirc/client.py:220 | stripping the two markers from wrapped text gives back the text, when it neither starts nor ends with a marker |
| Outbound.CtcpRoundTrip | asyncirc/client.py:260-266 | unwrapping what `ctcp` and `ctcp_reply` wrap gives back the upper-cased type and the parameter |
| Outbound.TextLineJoin | asyncirc/client.py:290-314 | a `VERB target :text` line is the join of its three tokens |
| Outbound.TextLineParses | asyncirc/client.py:290-314 | a `VERB target :text` line parses back to verb, target and text |
| Outbound.PlainLineParses | asyncirc/client.py:290-318 | an untagged, unprefixed line the client writes parses back to its verb, its middle arguments and its trailing text |
| Outbound.PrivmsgParses | asyncirc/client.py:313-314 | what `privmsg` sends parses back to a PRIVMSG to the target with the text |
| Outbound.NoticeParses | asyncirc/client.py:290-292 | what `notice` sends parses back to a NOTICE to the target with the text |
| Outbound.PongParses | asyncirc/client.py:310-311 | what `pong` sends for a PING parses back to a PONG to that target |
| Outbound.QuitParses | asyncirc/client.py:316-318 | what `quit` sends parses back to a QUIT with the message, or with no argument for an empty one |
| Session.Connect | asyncirc/client.py:81-83 | `connection_made` sets `connected` and changes nothing else of the session |
| Session.Lose | asyncirc/client.py:95-112 | a lost connection clears `connected` and keeps nickname and `reconnect`. It stops the loop exactly when reconnection is off |
| Session.Welcome | asyncirc/client.py:138-143 | a `welcome` records the nickname and resets the attempts count, keeping `connected` and `reconnect` |
| Session.Quit | asyncirc/client.py:316-317 | `quit` switches reconnection off and changes nothing else |
| Session.BackoffGrows | asyncirc/client.py:56-62 | with reconnection on, the k-th of n losses in a row waits 5·(c+k) seconds. The count ends at c+n and the nickname is kept. Connecting does not reset the count; only a `welcome` does |
| Session.BackoffAfterWelcome | asyncirc/client.py:138-143 | after a `welcome`, the k-th loss in a row waits 5·k seconds |
| Session.QuitStops | asyncirc/client.py:95-102 | after `quit`, every loss stops the loop and only `connected` changes |
| Dispatch.Translate | asyncirc/client.py:131-134 | the dispatched command is the numeric's name when the table has one, else the command, lower-cased; it holds no upper-case letter, and a lower-case command outside the table is kept as it is |
| Dispatch.Route | asyncirc/client.py:146-165 | the branch `_handle_line` takes; `EmptyCommandIgnored`, `PingAnswered`, `CtcpOnlyToCtcpHandler`, `PlainMessageToPlainHandler` and `GenericReplySent` state each one |
| Dispatch.MessageRoute | asyncirc/client.py:198-213 | `_on_message`; `CtcpOnlyToCtcpHandler` and `PlainMessageToPlainHandler` state where a message goes |
| Dispatch.SendTo | asyncirc/client.py:171-194 | `_send`; `SendWritesOnce` states its outcome in every case and the one frame it writes |
| Dispatch.Perform | asyncirc/client.py:146-165 | carrying out a branch; `QuietDelivery` and `GenericReplySent` state what is called and written |
| Dispatch.Handle | asyncirc/client.py:126-165 | `_handle_line`; the routing lemmas and `WelcomeRecorded` state its effect, and `Client.IRCClient.HandleLine` is proved to act as it says |
| Dispatch.HandleMessage | asyncirc/client.py:131-165 | `_handle_line` after parsing; `Client.IRCClient.HandleMessage` is proved to act as it says |
| Dispatch.HandleAll | asyncirc/client.py:120-123 | the loop over the drained lines; `HandleAllAppend` and `Client.TwoPiecesAsOne` relate it to splitting the input |
| Dispatch.CtcpRoute | asyncirc/client.py:216-231 | `_on_ctcp` delivers a CTCP event whose second argument is the CTCP argument, all other arguments kept |
| Dispatch.CtcpTextRouted | asyncirc/client.py:205-231 | a PRIVMSG whose text holds a marker is delivered to `on_ctcp_<command>` with the CTCP argument in place of the text |
| Dispatch.SendCheck | asyncirc/client.py:174-179 | `_send` goes ahead exactly when there is no newline and there is a connection. A newline raises `InvalidCharacters` first; otherwise a missing connection raises `NotConnected` |
| Dispatch.EmptyCommandIgnored | asyncirc/client.py:132-134 | a line whose command translates to nothing changes nothing |
| Dispatch.WelcomeRecorded | asyncirc/client.py:138-143 | a `welcome` stores its first argument as nickname and resets the count. Without an argument it raises and changes nothing |
| Dispatch.PingAnswered | asyncirc/client.py:151-152 | a `ping` writes exactly `PONG <first argument>` when connected and calls no handler. Without an argument it raises |
| Dispatch.CtcpOnlyToCtcpHandler | asyncirc/client.py:198-231 | a message with a CTCP marker reaches only `on_ctcp_<command>`, with the text replaced by the CTCP argument, and writes nothing |
| Dispatch.PlainMessageToPlainHandler | asyncirc/client.py:208-213 | a message without a marker reaches `on_<command>` with its arguments unchanged |
| Dispatch.QuietDelivery | asyncirc/client.py:210-231 | delivering a message or CTCP event calls the handler if present and writes nothing |
| Dispatch.GenericReplySent | asyncirc/client.py:155-165 | any other command calls `on_<command>` when the client has it, and its non-empty reply is sent; without that handler nothing happens |
| Dispatch.SendWritesOnce | asyncirc/client.py:171-194 | `_send` writes exactly one frame when its checks pass and none otherwise; it fails with `InvalidCharacters` on a newline, with `NotConnected` without a connection, and passes otherwise |
| Dispatch.CtcpRequestDelivered | asyncirc/client.py:260-262 | a CTCP request sent by `ctcp`, parsed and dispatched, reaches `on_ctcp_<type>` with the upper-cased type and the parameter |
| Dispatch.HandleAllAppend | asyncirc/client.py:120-123 | handling two runs of lines in turn is handling them as one run, and a failure in the first ends it |
| Client.IRCClient.constructor | asyncirc/client.py:25-49 | a new client is disconnected with reconnection on and count 1. User and real name fall back to the nickname. Buffer and logs are empty |
| Client.IRCClient.Send | asyncirc/client.py:171-194 | `_send` acts as `SendTo`: the checks, then one frame appended, nothing else changed |
| Client.IRCClient.Privmsg | asyncirc/client.py:313-314 | sends the PRIVMSG line |
| Client.IRCClient.Notice | asyncirc/client.py:290-292 | sends the NOTICE line |
| Client.IRCClient.Ctcp | asyncirc/client.py:260-262 | sends the wrapped CTCP text as a PRIVMSG |
| Client.IRCClient.CtcpReply | asyncirc/client.py:264-266 | sends the wrapped CTCP text as a NOTICE |
| Client.IRCClient.Pong | asyncirc/client.py:310-311 | sends the PONG line |
| Client.IRCClient.Quit | asyncirc/client.py:316-318 | reconnection is off afterwards even if the QUIT cannot be sent |
| Client.IRCClient.ConnectionMade | asyncirc/client.py:81-88 | connected with a transport, then NICK and, unless NICK fails, USER |
| Client.IRCClient.Reconnect | asyncirc/client.py:56-62 | sleeps 5·count seconds, counts one more attempt and requests one connection |
| Client.IRCClient.ConnectionLost | asyncirc/client.py:95-102 | the session moves as `Session.Lose` says, then one reconnection or the loop stopped |
| Client.IRCClient.EofReceived | asyncirc/client.py:105-112 | the same as a lost connection |
| Client.IRCClient.OnCtcp | asyncirc/client.py:216-231 | acts as `Perform` of `CtcpRoute`: the CTCP handler only, nothing written |
| Client.IRCClient.OnMessage | asyncirc/client.py:198-213 | acts as `Perform` of `MessageRoute` |
| Client.IRCClient.HandleLine | asyncirc/client.py:126-165 | `_handle_line` acts as `Handle`: session state, frames and handler calls as the line's dispatch says |
| Client.IRCClient.HandleMessage | asyncirc/client.py:131-165 | after parsing, `_handle_line` acts as `HandleMessage`: translation, the `welcome` record and the routing |
| Client.IRCClient.OnEvent | asyncirc/client.py:155-165 | the last branch calls `on_<command>` when present and sends its non-empty reply, as `Perform` of `Deliver` says |
| Client.IRCClient.DataReceived | asyncirc/client.py:117-123 | the buffer keeps the tail of old buffer plus data. State, frames and calls are those of handling the complete lines in order, skipping empty ones and stopping at the first failure |
| Client.IRCClient.DataReceivedAsWritten | asyncirc/client.py:117-119 | the call to `feed` fails, and nothing changes |
| Client.TwoPiecesAsOne | asyncirc/client.py:117-123 | data received in two pieces acts as the same data received at once, when the first piece's lines do not fail |
| Client.OneLineLost | asyncirc/client.py:117-123 | one complete line received is a line to handle, and nothing stays pending |

## Left out

- The `events` module is not part of this model. Its numeric-reply table is a parameter (`Config.numeric`), and the three event classes are one `Event` datatype with a kind.
- Handlers are found with `getattr`. Here they are a map from attribute names to total functions. A handler's own effects, such as the default `on_ctcp_ping` replying through `ctcp_reply`, are not modelled. Only a generic handler's return value is sent.
- The default handlers of `IRCClient` are not modelled: `on_ctcp_ping`, `on_ctcp_version`, `on_ctcp_action`, `on_privmsg`, `on_notice`, `on_error`, `on_connect` and `on_disconnect`. `on_connect` and `on_disconnect` do nothing. The defaults `on_privmsg`, `on_notice`, `on_error` and `on_ctcp_action` take two arguments but are called with one event; that mismatch is not modelled.
- Logging is left out: it has no effect on state.
- UTF-8 is not modelled. `msg.encode()` is an abstract encoder parameter. `data.decode()` and the bytes branch of `parse` are left out: `DataReceived` and `Parse` take text.
- `time.sleep` is the delay value recorded. `_connect`, `run` and the event loop are a count of connection requests and a stopped flag. `connection_refused` only logs.
- The command builders other than `privmsg`, `notice`, `pong`, `quit`, `nick`, `user`, `ctcp` and `ctcp_reply` are not modelled: `action`, `admin`, `info`, `invite`, `join`, `kick`, `mode`, `names`, `oper`, `part`, `passwd`, `ping`, `time`, `topic`, `userhost`, `version`, `who` and `whois`. They are outside the modelled core, and each is a `_send` of a formatted line.
- The delayed sends (`privmsg_delayed`, `action_delayed`, `privmsg_at`, `action_at`) need the loop's timer and the clock, so they are not modelled.
- `lower()` and `upper()` are modelled on ASCII letters only.
- `_on_ctcp` overwrites `args[1]` in the caller's list. The model builds an updated sequence instead; the caller does not read the list afterwards.
- `parse_prefix` returns `(None, None, None)` for a server prefix. The model returns `None`.
- The `host`, `port`, `ssl`, `real_server_name` and `loop` fields are not modelled: only the connection code reads them. The unused `commands_without_target` list is left out too.
- Outbound.CtcpDecode: its contract states only that the command holds no space. Its value on wrapped text is stated by `Outbound.CtcpRoundTrip`.

## Findings

| source | as written | input that shows it | evidently intended | confidence | as-written member | corrected member |
|---|---|---|---|---|---|---|
| asyncirc/client.py:119 | `data_received` calls `self.buffer.feed`, which `LineBuffer` does not define (it has `push`), so every call raises `AttributeError` and the data is lost | any data, e.g. one line `s + "\n"` where `s` is non-empty, holds no line break and does not end in `\r` (a final `\r` would join the `\r\n` separator); `OneLineLost` shows it holds a line to handle | push the text onto the buffer, then handle each non-empty complete line | high; not executed | Client.IRCClient.DataReceivedAsWritten | Client.IRCClient.DataReceived |
