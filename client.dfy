/**
 * asyncirc/client.py: the `IRCClient` object. Its session fields are
 * updated in place by the transport callbacks, by `_handle_line` and by
 * `quit`; the transport is the sequence of frames written to it, the event
 * loop is the sequence of reconnection delays slept, the count of connection
 * requests and whether it was stopped, and the `on_...` handlers are a map
 * from attribute names to functions whose calls are logged.
 */
module Client {
  import opened Wrappers
  import opened Text
  import opened Grammar
  import opened LineBuffering
  import opened Outbound
  import opened Dispatch
  import Session
  import Protocol

  /** What the event loop saw: the `time.sleep` delays of `_reconnect`, the `_connect` requests and `loop.stop()`. */
  datatype Loop = Loop(delays: seq<int>, connects: nat, stopped: bool)

  class IRCClient {
    const cfg: Config
    const username: string
    const ircname: string
    const buffer: LineBuffer

    var nickname: string
    var connected: bool
    var reconnect: bool
    var reconnectCount: int
    /** Whether `connection_made` has attached a transport. */
    var transport: bool
    var written: seq<seq<byte>>
    var calls: seq<(string, Event)>
    var delays: seq<int>
    var connects: nat
    var stopped: bool

    function State(): Session.State
      reads this
    {
      Session.State(nickname, connected, reconnect, reconnectCount)
    }

    function Out(): Outputs
      reads this
    {
      Outputs(written, calls)
    }

    function LoopLog(): Loop
      reads this
    {
      Loop(delays, connects, stopped)
    }

    /**
     * `IRCClient(host, port, ssl, nickname, username, ircname)`: an empty
     * user name or real name falls back to the nickname.
     */
    constructor (nickname: string, username: string, ircname: string, cfg: Config)
      ensures State() == Session.Initial(nickname)
      ensures this.username == (if username != "" then username else nickname)
      ensures this.ircname == (if ircname != "" then ircname else nickname)
      ensures this.cfg == cfg && !transport
      ensures Out() == Outputs([], []) && LoopLog() == Loop([], 0, false)
      ensures fresh(buffer) && buffer.buffer == ""
    {
      this.cfg := cfg;
      this.nickname := nickname;
      this.username := if username != "" then username else nickname;
      this.ircname := if ircname != "" then ircname else nickname;
      this.buffer := new LineBuffer();
      connected := false;
      reconnect := true;
      reconnectCount := 1;
      transport := false;
      written := [];
      calls := [];
      delays := [];
      connects := 0;
      stopped := false;
    }

    /**
     * `_send(msg)`: a message with a newline is refused, then one sent
     * without a connection; otherwise its frame is written.
     */
    method Send(msg: string) returns (outcome: Outcome<ClientError>)
      modifies this
      ensures (outcome, Out()) == SendTo(cfg, old(connected), old(transport), old(Out()), msg)
      ensures State() == old(State()) && transport == old(transport) && LoopLog() == old(LoopLog())
    {
      if '\n' in msg {
        return Fail(InvalidCharacters);
      }
      if !connected || !transport {
        return Fail(NotConnected);
      }
      written := written + [Frame(cfg.encode(msg))];
      outcome := Pass;
    }

    /** `privmsg(target, text)`. */
    method Privmsg(target: string, text: string) returns (outcome: Outcome<ClientError>)
      modifies this
      ensures (outcome, Out()) == SendTo(cfg, old(connected), old(transport), old(Out()), PrivmsgLine(target, text))
      ensures State() == old(State()) && transport == old(transport) && LoopLog() == old(LoopLog())
    {
      outcome := Send(PrivmsgLine(target, text));
    }

    /** `notice(target, text)`. */
    method Notice(target: string, text: string) returns (outcome: Outcome<ClientError>)
      modifies this
      ensures (outcome, Out()) == SendTo(cfg, old(connected), old(transport), old(Out()), NoticeLine(target, text))
      ensures State() == old(State()) && transport == old(transport) && LoopLog() == old(LoopLog())
    {
      outcome := Send(NoticeLine(target, text));
    }

    /** `ctcp(target, ctcptype, param)`: a CTCP request, sent as a PRIVMSG. */
    method Ctcp(target: string, ctcpType: string, param: string) returns (outcome: Outcome<ClientError>)
      modifies this
      ensures (outcome, Out()) ==
        SendTo(cfg, old(connected), old(transport), old(Out()), PrivmsgLine(target, CtcpText(ctcpType, param)))
      ensures State() == old(State()) && transport == old(transport) && LoopLog() == old(LoopLog())
    {
      outcome := Privmsg(target, CtcpText(ctcpType, param));
    }

    /** `ctcp_reply(target, ctcptype, param)`: a CTCP reply, sent as a NOTICE. */
    method CtcpReply(target: string, ctcpType: string, param: string) returns (outcome: Outcome<ClientError>)
      modifies this
      ensures (outcome, Out()) ==
        SendTo(cfg, old(connected), old(transport), old(Out()), NoticeLine(target, CtcpText(ctcpType, param)))
      ensures State() == old(State()) && transport == old(transport) && LoopLog() == old(LoopLog())
    {
      outcome := Notice(target, CtcpText(ctcpType, param));
    }

    /** `pong(target, target2)`. */
    method Pong(target: string, target2: string) returns (outcome: Outcome<ClientError>)
      modifies this
      ensures (outcome, Out()) == SendTo(cfg, old(connected), old(transport), old(Out()), PongLine(target, target2))
      ensures State() == old(State()) && transport == old(transport) && LoopLog() == old(LoopLog())
    {
      outcome := Send(PongLine(target, target2));
    }

    /** `quit(message)`: reconnection is switched off before the QUIT is sent, so it stays off if the send fails. */
    method Quit(message: string) returns (outcome: Outcome<ClientError>)
      modifies this
      ensures State() == Session.Quit(old(State()))
      ensures (outcome, Out()) == SendTo(cfg, old(connected), old(transport), old(Out()), QuitLine(message))
      ensures transport == old(transport) && LoopLog() == old(LoopLog())
    {
      reconnect := false;
      outcome := Send(QuitLine(message));
    }

    /**
     * `connection_made(transport)`: the transport is attached, the client is
     * connected, and it logs on with NICK and then USER; a failed NICK ends
     * the logon there.
     */
    method ConnectionMade() returns (outcome: Outcome<ClientError>)
      modifies this
      ensures State() == Session.Connect(old(State())) && transport
      ensures var (o1, out1) := SendTo(cfg, true, true, old(Out()), NickLine(old(nickname)));
        (outcome, Out()) == if o1.Fail? then (o1, out1) else SendTo(cfg, true, true, out1, UserLine(username, ircname))
      ensures LoopLog() == old(LoopLog())
    {
      transport := true;
      connected := true;
      outcome := Send(NickLine(nickname));
      if outcome.Fail? {
        return;
      }
      outcome := Send(UserLine(username, ircname));
    }

    /** `_reconnect`: sleeps five seconds per attempt so far, counts one more attempt and asks for a connection. */
    method Reconnect()
      modifies this
      ensures delays == old(delays) + [5 * old(reconnectCount)] && reconnectCount == old(reconnectCount) + 1
      ensures connects == old(connects) + 1 && stopped == old(stopped)
      ensures nickname == old(nickname) && connected == old(connected) && reconnect == old(reconnect)
      ensures transport == old(transport) && Out() == old(Out())
    {
      var rctime := 5 * reconnectCount;
      delays := delays + [rctime];
      reconnectCount := reconnectCount + 1;
      connects := connects + 1;
    }

    /** `connection_lost(exc)` and `eof_received()`: disconnected, then reconnect or stop as `Session.Lose` says. */
    method ConnectionLost()
      modifies this
      ensures State() == Session.Lose(old(State())).0
      ensures LoopLog() == match Session.Lose(old(State())).1
        case Retry(delay) => old(LoopLog()).(delays := old(delays) + [delay], connects := old(connects) + 1)
        case Stop => old(LoopLog()).(stopped := true)
      ensures transport == old(transport) && Out() == old(Out())
    {
      connected := false;
      if reconnect {
        Reconnect();
      } else {
        stopped := true;
      }
    }

    /** `eof_received()`: the same as a lost connection. */
    method EofReceived()
      modifies this
      ensures State() == Session.Lose(old(State())).0
      ensures LoopLog() == match Session.Lose(old(State())).1
        case Retry(delay) => old(LoopLog()).(delays := old(delays) + [delay], connects := old(connects) + 1)
        case Stop => old(LoopLog()).(stopped := true)
      ensures transport == old(transport) && Out() == old(Out())
    {
      connected := false;
      if reconnect {
        Reconnect();
      } else {
        stopped := true;
      }
    }

    /** `_on_ctcp`: the CTCP command and argument are read from `args[1]`, which the argument replaces. */
    method OnCtcp(source: string, args: seq<string>, tags: map<string, string>) returns (outcome: Outcome<ClientError>)
      requires |args| >= 2
      modifies this
      ensures (outcome, Out()) == Perform(cfg, old(connected), old(transport), old(Out()), CtcpRoute(source, args, tags))
      ensures State() == old(State()) && transport == old(transport) && LoopLog() == old(LoopLog())
    {
      var cut := CtcpDecode(args[1]);
      var name := "on_ctcp_" + Lower(cut.0);
      var event := Event(CtcpEvent, source, cut.0, args[1 := cut.1], tags);
      assert CtcpRoute(source, args, tags) == Deliver(name, event);
      QuietDelivery(cfg, connected, transport, Out(), name, event);
      if name in cfg.handlers {
        var _ := cfg.handlers[name](event);
        calls := calls + [(name, event)];
      }
      outcome := Pass;
    }

    /** `_on_message`: CTCP text goes to `_on_ctcp`, other text to `on_<command>`. */
    method OnMessage(source: string, command: string, args: seq<string>, tags: map<string, string>)
      returns (outcome: Outcome<ClientError>)
      modifies this
      ensures (outcome, Out()) ==
        Perform(cfg, old(connected), old(transport), old(Out()), MessageRoute(source, command, args, tags))
      ensures State() == old(State()) && transport == old(transport) && LoopLog() == old(LoopLog())
    {
      if |args| < 2 {
        return Fail(IndexError);
      }
      if Marker in args[1] {
        outcome := OnCtcp(source, args, tags);
      } else {
        var name := "on_" + Lower(command);
        if name in cfg.handlers {
          var event := Event(MessageEvent, source, command, args, tags);
          var _ := cfg.handlers[name](event);
          calls := calls + [(name, event)];
        }
        outcome := Pass;
      }
    }

    /** `_handle_line(line)`, as `Dispatch.Handle` describes it. */
    method HandleLine(line: string) returns (outcome: Outcome<ClientError>)
      modifies this
      ensures (outcome, State(), Out()) == Handle(cfg, old(State()), old(transport), old(Out()), line)
      ensures transport == old(transport) && LoopLog() == old(LoopLog())
    {
      var parsed := Protocol.Parse(line);
      if parsed.Err? {
        return Fail(ParseFailed(parsed.error));
      }
      outcome := HandleMessage(parsed.value);
    }

    /** The part of `_handle_line` after parsing: translation, the `welcome` record and the routing. */
    method HandleMessage(m: Message) returns (outcome: Outcome<ClientError>)
      modifies this
      ensures (outcome, State(), Out()) == Dispatch.HandleMessage(cfg, old(State()), old(transport), old(Out()), m)
      ensures transport == old(transport) && LoopLog() == old(LoopLog())
    {
      var command := Translate(cfg.numeric, m.command);
      if command == "" {
        return Pass;
      }
      if command == "welcome" {
        if m.args == [] {
          return Fail(IndexError);
        }
        nickname := m.args[0];
        reconnectCount := 1;
      }
      if command == "privmsg" || command == "notice" {
        outcome := OnMessage(m.prefix, command, m.args, m.tags);
      } else if command == "ping" {
        if m.args == [] {
          return Fail(IndexError);
        }
        outcome := Pong(m.args[0], "");
      } else {
        outcome := OnEvent(m.prefix, command, m.args, m.tags);
      }
    }

    /**
     * The last branch of `_handle_line`: `on_<command>` is called when the
     * client has it, and a non-empty reply is sent.
     */
    method OnEvent(source: string, command: string, args: seq<string>, tags: map<string, string>)
      returns (outcome: Outcome<ClientError>)
      modifies this
      ensures (outcome, Out()) == Perform(cfg, old(connected), old(transport), old(Out()),
                                          Deliver("on_" + command, Event(GenericEvent, source, command, args, tags)))
      ensures State() == old(State()) && transport == old(transport) && LoopLog() == old(LoopLog())
    {
      outcome := Pass;
      var name := "on_" + command;
      if name in cfg.handlers {
        var event := Event(GenericEvent, source, command, args, tags);
        var response := cfg.handlers[name](event);
        calls := calls + [(name, event)];
        if response.Some? && response.value != "" {
          outcome := Send(response.value);
        }
      }
    }

    /**
     * `data_received(data)` as evidently meant: the text is pushed onto the
     * line buffer, the complete lines are drained, and each non-empty line is
     * handled in order until one fails.
     */
    method DataReceived(data: string) returns (outcome: Outcome<ClientError>)
      modifies this, buffer
      ensures buffer.buffer == Pending(old(buffer.buffer) + data)
      ensures (outcome, State(), Out()) ==
        HandleAll(cfg, old(State()), old(transport), old(Out()), CompleteLines(old(buffer.buffer) + data))
      ensures transport == old(transport) && LoopLog() == old(LoopLog())
    {
      buffer.Push(data);
      var lines := buffer.Lines();
      var i := 0;
      while i < |lines|
        invariant 0 <= i <= |lines|
        invariant buffer.buffer == Pending(old(buffer.buffer) + data)
        invariant transport == old(transport) && LoopLog() == old(LoopLog())
        invariant HandleAll(cfg, old(State()), old(transport), old(Out()), lines) ==
                  HandleAll(cfg, State(), transport, Out(), lines[i..])
      {
        assert lines[i..][1..] == lines[i + 1..];
        if lines[i] == "" {
          i := i + 1;
          continue;
        }
        var o := HandleLine(lines[i]);
        if o.Fail? {
          return o;
        }
        i := i + 1;
      }
      outcome := Pass;
    }

    /**
     * `data_received(data)` as written: it calls `self.buffer.feed`, which
     * `LineBuffer` does not define, so it raises before touching anything
     * and the data is lost.
     */
    method DataReceivedAsWritten(data: string) returns (outcome: Outcome<ClientError>)
      ensures outcome == Fail(MissingAttribute)
    {
      outcome := Fail(MissingAttribute);
    }
  }

  // ---------------------------------------------------------------------
  // Lemmas

  /**
   * Data received in two pieces has the effect of receiving it at once, when
   * the lines of the first piece are handled without a failure: the lines are
   * the same and so is the text left pending.
   */
  lemma TwoPiecesAsOne(cfg: Config, s: Session.State, transport: bool, out: Outputs,
                       pending: string, first: string, second: string)
    ensures var r := HandleAll(cfg, s, transport, out, CompleteLines(pending + first));
      r.0.Pass? ==>
        && HandleAll(cfg, r.1, transport, r.2, CompleteLines(Pending(pending + first) + second))
           == HandleAll(cfg, s, transport, out, CompleteLines(pending + first + second))
        && Pending(Pending(pending + first) + second) == Pending(pending + first + second)
  {
    SplitAppend(pending + first, second);
    HandleAllAppend(cfg, s, transport, out, CompleteLines(pending + first),
                    CompleteLines(Pending(pending + first) + second));
  }

  /**
   * What the written `data_received` loses: a single complete line, which
   * the evident meaning hands to `_handle_line`, is dropped with the data.
   */
  lemma OneLineLost(line: string)
    requires line != "" && '\n' !in line && !EndsWith(line, '\r')
    ensures CompleteLines(line + "\n") == [line] && Pending(line + "\n") == ""
  {
    assert Rejoin([line, ""], ["\n"]) == line + "\n";
    LineCutUnique([line, ""], ["\n"], line + "\n");
  }
}
