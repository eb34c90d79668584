/**
 * What asyncirc/client.py does with one incoming line, as functions: the
 * numeric translation, the routing of `_handle_line`, `_on_message` and
 * `_on_ctcp`, the checks and framing of `_send`, and the whole effect of a
 * line on the session state, the frames written and the handlers called.
 * The `IRCClient` class in the `Client` module is proved to act as these
 * functions say.
 */
module Dispatch {
  import opened Wrappers
  import opened Text
  import opened Grammar
  import opened Outbound
  import Session

  /** `events.Event`, `events.MessageEvent` and `events.CTCPEvent`. */
  datatype EventKind = GenericEvent | MessageEvent | CtcpEvent

  /** What a handler is called with: the kind of event, its source prefix, its command, its arguments and its tags. */
  datatype Event = Event(kind: EventKind, source: string, command: string, args: seq<string>, tags: map<string, string>)

  /**
   * What the client cannot do: a message with a newline, a send without a
   * connection, a line `parse` rejects, a missing argument (`args[0]` or
   * `args[1]`) and a missing attribute.
   */
  datatype ClientError = InvalidCharacters | NotConnected | ParseFailed(error: ParseError) | IndexError | MissingAttribute

  /**
   * The parts of a client fixed at construction: the numeric-reply table
   * (`events.numeric`), the `on_...` handlers it defines and the text encoder.
   */
  datatype Config = Config(numeric: map<string, string>, handlers: map<string, Event -> Option<string>>,
                           encode: string -> seq<byte>)

  /** The effects dispatch can have: the frames written to the transport and the handlers called, in order. */
  datatype Outputs = Outputs(written: seq<seq<byte>>, calls: seq<(string, Event)>)

  /** What `_handle_line` goes on to do once the command is known. */
  datatype Action =
    | Ignore                                // empty command
    | Broken                                // an argument the code reads is missing
    | Reply(target: string)                 // answer a PING
    | Deliver(handler: string, event: Event) // call the named handler if the client has it

  /** The command name `_handle_line` dispatches on: the numeric's name when the table has one, lower-cased. */
  function Translate(numeric: map<string, string>, command: string): (c: string)
    ensures IsLower(c)
    ensures c == Lower(if command in numeric then numeric[command] else command)
    ensures command !in numeric && IsLower(command) ==> c == command
  {
    var name := if command in numeric then numeric[command] else command;
    LowerIsLower(name);
    if IsLower(name) then LowerKeeps(name); Lower(name) else Lower(name)
  }

  /**
   * `_on_ctcp`: the CTCP command and argument are read from the message
   * text, the argument replaces the text, and `on_ctcp_<command>` is looked up.
   */
  function CtcpRoute(source: string, args: seq<string>, tags: map<string, string>): (a: Action)
    requires |args| >= 2
    ensures a.Deliver? && a.event.kind == CtcpEvent && |a.event.args| == |args|
    ensures a.event.args[1] == CtcpDecode(args[1]).1 && a.event.args[..1] == args[..1] && a.event.args[2..] == args[2..]
  {
    var (sub, payload) := CtcpDecode(args[1]);
    Deliver("on_ctcp_" + Lower(sub), Event(CtcpEvent, source, sub, args[1 := payload], tags))
  }

  /** `_on_message`: text holding a CTCP marker goes to `_on_ctcp`, any other to `on_<command>`. */
  function MessageRoute(source: string, command: string, args: seq<string>, tags: map<string, string>): Action
  {
    if |args| < 2 then Broken
    else if Marker in args[1] then CtcpRoute(source, args, tags)
    else Deliver("on_" + Lower(command), Event(MessageEvent, source, command, args, tags))
  }

  /**
   * The branches of `_handle_line` after translation: nothing for an empty
   * command, `_on_message` for `privmsg` and `notice`, a PONG for `ping`,
   * and `on_<command>` for anything else.
   */
  function Route(command: string, source: string, args: seq<string>, tags: map<string, string>): Action
  {
    if command == "" then Ignore
    else if command == "privmsg" || command == "notice" then MessageRoute(source, command, args, tags)
    else if command == "ping" then (if args == [] then Broken else Reply(args[0]))
    else Deliver("on_" + command, Event(GenericEvent, source, command, args, tags))
  }

  /** The checks of `_send`, in their order: a newline first, then the connection. */
  function SendCheck(msg: string, connected: bool, transport: bool): (o: Outcome<ClientError>)
    ensures o == Pass <==> '\n' !in msg && connected && transport
    ensures '\n' in msg ==> o == Fail(InvalidCharacters)
    ensures '\n' !in msg && !(connected && transport) ==> o == Fail(NotConnected)
  {
    if '\n' in msg then Fail(InvalidCharacters)
    else if !connected || !transport then Fail(NotConnected)
    else Pass
  }

  /** `_send`: when the checks pass, exactly one frame is written. */
  function SendTo(cfg: Config, connected: bool, transport: bool, out: Outputs, msg: string): (Outcome<ClientError>, Outputs)
  {
    var o := SendCheck(msg, connected, transport);
    (o, if o.Pass? then out.(written := out.written + [Frame(cfg.encode(msg))]) else out)
  }

  /**
   * Carrying out an action: a PONG is sent for a PING; a handler the client
   * has is called, and for a generic event a non-empty reply is sent.
   */
  function Perform(cfg: Config, connected: bool, transport: bool, out: Outputs, a: Action): (Outcome<ClientError>, Outputs)
  {
    match a
    case Ignore => (Pass, out)
    case Broken => (Fail(IndexError), out)
    case Reply(target) => SendTo(cfg, connected, transport, out, PongLine(target, ""))
    case Deliver(name, event) =>
      if name !in cfg.handlers then (Pass, out)
      else
        var called := out.(calls := out.calls + [(name, event)]);
        var response := cfg.handlers[name](event);
        if event.kind == GenericEvent && response.Some? && response.value != "" then
          SendTo(cfg, connected, transport, called, response.value)
        else (Pass, called)
  }

  /**
   * `_handle_line(line)`: parse, translate, record a `welcome`, then route.
   * The result is the outcome, the new session state and the new outputs.
   */
  function Handle(cfg: Config, s: Session.State, transport: bool, out: Outputs, line: string)
    : (Outcome<ClientError>, Session.State, Outputs)
  {
    match ParseLine(line)
    case Err(e) => (Fail(ParseFailed(e)), s, out)
    case Ok(m) => HandleMessage(cfg, s, transport, out, m)
  }

  /** What `_handle_line` does with a parsed message: translate, record a `welcome`, then route. */
  function HandleMessage(cfg: Config, s: Session.State, transport: bool, out: Outputs, m: Message)
    : (Outcome<ClientError>, Session.State, Outputs)
  {
    var command := Translate(cfg.numeric, m.command);
    if command == "welcome" && m.args == [] then (Fail(IndexError), s, out)
    else
      var s' := if command == "welcome" then Session.Welcome(s, m.args[0]) else s;
      var (o, out') := Perform(cfg, s'.connected, transport, out, Route(command, m.prefix, m.args, m.tags));
      (o, s', out')
  }

  /**
   * The lines of one `data_received`, handled in order: empty lines are
   * skipped, and the first failure ends the run with its outcome.
   */
  function HandleAll(cfg: Config, s: Session.State, transport: bool, out: Outputs, lines: seq<string>)
    : (Outcome<ClientError>, Session.State, Outputs)
    decreases |lines|
  {
    if lines == [] then (Pass, s, out)
    else if lines[0] == "" then HandleAll(cfg, s, transport, out, lines[1..])
    else
      var (o, s', out') := Handle(cfg, s, transport, out, lines[0]);
      if o.Fail? then (o, s', out')
      else HandleAll(cfg, s', transport, out', lines[1..])
  }

  // ---------------------------------------------------------------------
  // Lemmas

  /** A line whose command translates to nothing changes nothing. */
  lemma EmptyCommandIgnored(cfg: Config, s: Session.State, transport: bool, out: Outputs, line: string)
    requires ParseLine(line).Ok? && Translate(cfg.numeric, ParseLine(line).value.command) == ""
    ensures Handle(cfg, s, transport, out, line) == (Pass, s, out)
  {
  }

  /**
   * A `welcome` takes the nickname from its first argument and resets the
   * attempts count, leaving `connected` and `reconnect` as they were;
   * without an argument it fails and changes nothing.
   */
  lemma WelcomeRecorded(cfg: Config, s: Session.State, transport: bool, out: Outputs, line: string)
    requires ParseLine(line).Ok? && Translate(cfg.numeric, ParseLine(line).value.command) == "welcome"
    ensures var args := ParseLine(line).value.args;
      var r := Handle(cfg, s, transport, out, line);
      if args == [] then r == (Fail(IndexError), s, out)
      else r.1 == s.(nickname := args[0], reconnectCount := 1)
  {
  }

  /**
   * A `ping` is answered with exactly one frame, `PONG <first argument>`,
   * when connected, and calls no handler; without an argument it fails.
   */
  lemma PingAnswered(cfg: Config, s: Session.State, transport: bool, out: Outputs, line: string)
    requires ParseLine(line).Ok? && Translate(cfg.numeric, ParseLine(line).value.command) == "ping"
    ensures var args := ParseLine(line).value.args;
      var r := Handle(cfg, s, transport, out, line);
      && r.1 == s && r.2.calls == out.calls
      && (args == [] ==> r.0 == Fail(IndexError) && r.2 == out)
      && (args != [] ==>
            r.0 == SendCheck(PongLine(args[0], ""), s.connected, transport)
            && r.2.written == out.written + (if r.0.Pass? then [Frame(cfg.encode("PONG " + args[0]))] else []))
  {
    var args := ParseLine(line).value.args;
    if args != [] {
      assert PongLine(args[0], "") == "PONG " + args[0];
    }
  }

  /**
   * A `privmsg` or `notice` whose text holds a CTCP marker reaches only
   * `on_ctcp_<CTCP command, lower-cased>`, never the plain handler, with the
   * text replaced by the CTCP argument; nothing is written.
   */
  lemma CtcpOnlyToCtcpHandler(cfg: Config, connected: bool, transport: bool, out: Outputs,
                              command: string, source: string, args: seq<string>, tags: map<string, string>)
    requires command == "privmsg" || command == "notice"
    requires |args| >= 2 && Marker in args[1]
    ensures var (sub, payload) := CtcpDecode(args[1]);
      var name := "on_ctcp_" + Lower(sub);
      var r := Perform(cfg, connected, transport, out, Route(command, source, args, tags));
      && r.0 == Pass && r.1.written == out.written
      && r.1.calls == out.calls + (if name in cfg.handlers then [(name, Event(CtcpEvent, source, sub, args[1 := payload], tags))] else [])
  {
  }

  /** A `privmsg` or `notice` without a marker reaches `on_<command>` with its arguments unchanged. */
  lemma PlainMessageToPlainHandler(cfg: Config, connected: bool, transport: bool, out: Outputs,
                                   command: string, source: string, args: seq<string>, tags: map<string, string>)
    requires command == "privmsg" || command == "notice"
    requires |args| >= 2 && Marker !in args[1]
    ensures var name := "on_" + command;
      var r := Perform(cfg, connected, transport, out, Route(command, source, args, tags));
      && r.0 == Pass && r.1.written == out.written
      && r.1.calls == out.calls + (if name in cfg.handlers then [(name, Event(MessageEvent, source, command, args, tags))] else [])
  {
    assert Lower(command) == command;
  }

  /** Delivering a message or CTCP event calls the handler if the client has one, writes nothing and passes. */
  lemma QuietDelivery(cfg: Config, connected: bool, transport: bool, out: Outputs, name: string, event: Event)
    requires event.kind != GenericEvent
    ensures Perform(cfg, connected, transport, out, Deliver(name, event)) ==
      (Pass, if name in cfg.handlers then out.(calls := out.calls + [(name, event)]) else out)
  {
  }

  /**
   * Any other command goes to `on_<command>`; what that handler returns, if
   * it is not empty, is sent back out. A client without that handler does
   * nothing with the line.
   */
  lemma GenericReplySent(cfg: Config, connected: bool, transport: bool, out: Outputs,
                         command: string, source: string, args: seq<string>, tags: map<string, string>)
    requires command !in {"", "privmsg", "notice", "ping"}
    ensures var name := "on_" + command;
      var event := Event(GenericEvent, source, command, args, tags);
      Perform(cfg, connected, transport, out, Route(command, source, args, tags)) ==
        if name !in cfg.handlers then (Pass, out)
        else
          var response := cfg.handlers[name](event);
          var called := out.(calls := out.calls + [(name, event)]);
          if response.Some? && response.value != "" then SendTo(cfg, connected, transport, called, response.value)
          else (Pass, called)
  {
  }

  /** `_send` writes exactly one frame when its checks pass and nothing otherwise, and never calls a handler. */
  lemma SendWritesOnce(cfg: Config, connected: bool, transport: bool, out: Outputs, msg: string)
    ensures var r := SendTo(cfg, connected, transport, out, msg);
      && r.1.calls == out.calls
      && (r.0.Pass? ==> r.1.written == out.written + [Frame(cfg.encode(msg))])
      && (r.0.Fail? ==> r.1.written == out.written)
      && ('\n' in msg ==> r.0 == Fail(InvalidCharacters))
      && ('\n' !in msg && !(connected && transport) ==> r.0 == Fail(NotConnected))
      && ('\n' !in msg && connected && transport ==> r.0 == Pass)
  {
  }

  /** A `privmsg` whose text holds a marker and decodes to a command and an argument goes to that command's CTCP handler. */
  lemma CtcpTextRouted(target: string, text: string, sub: string, payload: string)
    requires Marker in text && CtcpDecode(text) == (sub, payload)
    ensures Route("privmsg", "", [target, text], map[])
         == Deliver("on_ctcp_" + Lower(sub), Event(CtcpEvent, "", sub, [target, payload], map[]))
  {
    var args := [target, text];
    assert args[1] == text;
    assert Route("privmsg", "", args, map[]) == CtcpRoute("", args, map[]);
    assert args[1 := payload] == [target, payload];
  }

  /**
   * End to end: a CTCP request sent with `ctcp` as a PRIVMSG, parsed and
   * routed, reaches `on_ctcp_<type, lower-cased>` with the upper-cased type
   * as its command and the parameter in place of the text.
   */
  lemma CtcpRequestDelivered(target: string, ctcpType: string, param: string, numeric: map<string, string>)
    requires ' ' !in target && !StartsWith(target, ':')
    requires ' ' !in ctcpType && Marker !in ctcpType
    requires !EndsWith(param, Marker)
    requires "PRIVMSG" !in numeric
    ensures var line := PrivmsgLine(target, CtcpText(ctcpType, param));
      && ParseLine(line).Ok?
      && Translate(numeric, ParseLine(line).value.command) == "privmsg"
      && Route("privmsg", "", ParseLine(line).value.args, map[])
         == Deliver("on_ctcp_" + Lower(Upper(ctcpType)), Event(CtcpEvent, "", Upper(ctcpType), [target, param], map[]))
  {
    var text := CtcpText(ctcpType, param);
    assert ParseLine(PrivmsgLine(target, text)) == Ok(Message(map[], "", "PRIVMSG", [target, text])) by {
      PrivmsgParses(target, text);
    }
    assert Translate(numeric, "PRIVMSG") == "privmsg" by {
      assert Lower("PRIVMSG") == "privmsg";
    }
    assert Marker in text by { assert text[0] == Marker; }
    assert CtcpDecode(text) == (Upper(ctcpType), param) by {
      CtcpRoundTrip(ctcpType, param);
    }
    CtcpTextRouted(target, text, Upper(ctcpType), param);
  }

  /**
   * Handling two runs of lines one after the other is handling them as one
   * run, when the first run ends without a failure; a failure in the first
   * run ends the whole run there.
   */
  lemma {:induction false} HandleAllAppend(cfg: Config, s: Session.State, transport: bool, out: Outputs,
                                           first: seq<string>, second: seq<string>)
    ensures var r := HandleAll(cfg, s, transport, out, first);
      HandleAll(cfg, s, transport, out, first + second) ==
        if r.0.Pass? then HandleAll(cfg, r.1, transport, r.2, second) else r
    decreases |first|
  {
    if first == [] {
      assert first + second == second;
    } else {
      assert (first + second)[0] == first[0];
      assert (first + second)[1..] == first[1..] + second;
      if first[0] == "" {
        HandleAllAppend(cfg, s, transport, out, first[1..], second);
      } else {
        var (o, s', out') := Handle(cfg, s, transport, out, first[0]);
        if o.Pass? {
          HandleAllAppend(cfg, s', transport, out', first[1..], second);
        }
      }
    }
  }
}
