/**
 * The text and bytes asyncirc/client.py sends: the frame `_send` writes for
 * an encoded message, the CTCP wrapping of `ctcp` / `ctcp_reply` with the
 * unwrapping `_on_ctcp` applies on receipt, and the command lines built by
 * `privmsg`, `notice`, `pong`, `quit`, `nick` and `user`.
 */
module Outbound {
  import opened Wrappers
  import opened Text
  import opened Grammar

  newtype byte = x: int | 0 <= x < 256

  /** The line terminator `_send` appends. */
  const CRLF: seq<byte> := [13, 10]

  /** The longest frame `_send` writes, terminator included. */
  const MaxFrame: nat := 512

  /**
   * The bytes `_send` writes for an encoded message: the message and CRLF,
   * or, when that is longer than 512 bytes, its first 510 bytes and CRLF.
   */
  function Frame(msg: seq<byte>): (f: seq<byte>)
    ensures 2 <= |f| <= MaxFrame
    ensures f[|f| - 2..] == CRLF
    ensures f[..|f| - 2] <= msg
    ensures f[..|f| - 2] == msg <==> |msg| <= MaxFrame - 2
    ensures |msg| > MaxFrame - 2 ==> |f| == MaxFrame
  {
    var framed := msg + CRLF;
    if |framed| > MaxFrame then
      assert framed[..MaxFrame - 2] == msg[..MaxFrame - 2];
      framed[..MaxFrame - 2] + CRLF
    else framed
  }

  /** The CTCP marker byte, `\001`. */
  const Marker: char := '\U{1}'

  /**
   * The message text `ctcp` and `ctcp_reply` send: the upper-cased CTCP type
   * and, when there is one, a space and the parameter, between two markers.
   */
  function CtcpText(ctcpType: string, param: string): string {
    [Marker] + Upper(ctcpType) + (if param != "" then " " + param else "") + [Marker]
  }

  /**
   * The CTCP command and argument `_on_ctcp` reads from a message text: the
   * markers are stripped from both ends and the rest is cut at its first
   * space; without a space the argument is empty.
   */
  function CtcpDecode(text: string): (r: (string, string))
    ensures ' ' !in r.0
  {
    var line := Strip(text, Marker);
    if ' ' in line then SplitOnce(line, ' ') else (line, "")
  }

  /** `privmsg(target, text)`. */
  function PrivmsgLine(target: string, text: string): string {
    "PRIVMSG " + target + " :" + text
  }

  /** `notice(target, text)`. */
  function NoticeLine(target: string, text: string): string {
    "NOTICE " + target + " :" + text
  }

  /** `pong(target, target2)`; the second target is added only when it is not empty. */
  function PongLine(target: string, target2: string): string {
    "PONG " + target + (if target2 != "" then " " + target2 else "")
  }

  /** `quit(message)`; the message is added as a trailing argument only when it is not empty. */
  function QuitLine(message: string): string {
    "QUIT" + (if message != "" then " :" + message else "")
  }

  /** `nick(newnick)`. */
  function NickLine(newNick: string): string {
    "NICK " + newNick
  }

  /** `user(username, realname)`. */
  function UserLine(userName: string, realName: string): string {
    "USER " + userName + " 0 * :" + realName
  }

  // ---------------------------------------------------------------------
  // Lemmas

  /** Markers around text that neither starts nor ends with one strip off to exactly that text. */
  lemma StripMarkers(body: string)
    requires !StartsWith(body, Marker) && !EndsWith(body, Marker)
    ensures Strip([Marker] + body + [Marker], Marker) == body
  {
    var framed := [Marker] + body + [Marker];
    var tail := body + [Marker];
    assert framed[1..] == tail;
    assert Strip(framed, Marker) == Strip(tail, Marker);
    if body == [] {
      assert tail[1..] == [];
    } else {
      assert tail[0] == body[0] && tail[..|body|] == body;
      assert Strip(tail, Marker) == RStrip(tail, Marker);
    }
  }

  /**
   * Unwrapping what `ctcp` / `ctcp_reply` wrap gives back the upper-cased
   * CTCP type and the parameter, when the type holds no space and no marker
   * and the parameter does not end with a marker.
   */
  lemma CtcpRoundTrip(ctcpType: string, param: string)
    requires ' ' !in ctcpType && Marker !in ctcpType
    requires !EndsWith(param, Marker)
    ensures CtcpDecode(CtcpText(ctcpType, param)) == (Upper(ctcpType), param)
  {
    var kind := Upper(ctcpType);
    UpperFree(ctcpType, ' ');
    UpperFree(ctcpType, Marker);
    var body := kind + (if param != "" then " " + param else "");
    assert CtcpText(ctcpType, param) == [Marker] + body + [Marker];
    assert !StartsWith(body, Marker) by {
      if kind != [] { assert body[0] == kind[0]; }
    }
    assert !EndsWith(body, Marker) by {
      if param != "" { assert body[|body| - 1] == param[|param| - 1]; }
      else if kind != [] { assert body == kind; }
    }
    StripMarkers(body);
    if param != "" {
      assert body == kind + [' '] + param;
      SplitOnceAt(kind, param, ' ');
    } else {
      assert body == kind;
    }
  }

  /** The text a `VERB target :text` line is joined from. */
  lemma TextLineJoin(verb: string, target: string, text: string)
    ensures Join([verb, target, ":" + text], ' ') == verb + " " + target + " :" + text
  {
    var parts := [verb, target, ":" + text];
    JoinCons(verb, parts[1..], ' ');
    JoinTwo(parts[1..], ' ');
    assert parts == [verb] + parts[1..];
  }

  /** A `VERB target :text` line parses back to its verb, its target and its text. */
  lemma TextLineParses(verb: string, target: string, text: string)
    requires ' ' !in verb && !StartsWith(verb, ':') && !StartsWith(verb, '@')
    requires ' ' !in target && !StartsWith(target, ':')
    ensures ParseLine(verb + " " + target + " :" + text) == Ok(Message(map[], "", verb, [target, text]))
  {
    var w := Wire([], "", verb, [target], Some(text));
    assert Heads(w) == [verb, target] by {
      assert PrefixTokens("") == [];
    }
    assert Heads(w) + [":" + text] == [verb, target, ":" + text];
    TextLineJoin(verb, target, text);
    assert Render(w) == verb + " " + target + " :" + text;
    assert WireArgs(w) == [target, text];
    assert TagMap(w.tags) == map[];
    ParseRender(w);
  }

  /** What `privmsg` sends is read back as a PRIVMSG to the target with the text as its last argument. */
  lemma PrivmsgParses(target: string, text: string)
    requires ' ' !in target && !StartsWith(target, ':')
    ensures ParseLine(PrivmsgLine(target, text)) == Ok(Message(map[], "", "PRIVMSG", [target, text]))
  {
    assert PrivmsgLine(target, text) == "PRIVMSG" + " " + target + " :" + text;
    TextLineParses("PRIVMSG", target, text);
  }

  /** What `notice` sends is read back as a NOTICE to the target with the text as its last argument. */
  lemma NoticeParses(target: string, text: string)
    requires ' ' !in target && !StartsWith(target, ':')
    ensures ParseLine(NoticeLine(target, text)) == Ok(Message(map[], "", "NOTICE", [target, text]))
  {
    assert NoticeLine(target, text) == "NOTICE" + " " + target + " :" + text;
    TextLineParses("NOTICE", target, text);
  }

  /** The PONG sent for a PING is read back as a PONG with the single target. */
  lemma PongParses(target: string)
    requires ' ' !in target && !StartsWith(target, ':')
    ensures ParseLine(PongLine(target, "")) == Ok(Message(map[], "", "PONG", [target]))
  {
    var w := Wire([], "", "PONG", [target], None);
    assert Heads(w) == ["PONG", target] by {
      assert PrefixTokens("") == [];
    }
    assert Heads(w) + [] == ["PONG", target];
    JoinTwo(["PONG", target], ' ');
    assert Render(w) == PongLine(target, "");
    assert WireArgs(w) == [target];
    assert TagMap(w.tags) == map[];
    ParseRender(w);
  }

  /** A line of a bare verb and its words, with no tags and no prefix, parses back to them. */
  lemma PlainLineParses(line: string, verb: string, middle: seq<string>, trailing: Option<string>)
    requires WellFormed(Wire([], "", verb, middle, trailing))
    requires line == Join([verb] + middle + (if trailing.Some? then [":" + trailing.value] else []), ' ')
    ensures ParseLine(line) == Ok(Message(map[], "", verb, middle + (if trailing.Some? then [trailing.value] else [])))
  {
    var w := Wire([], "", verb, middle, trailing);
    ParseRender(w);
    assert Heads(w) == [verb] + middle by {
      assert PrefixTokens("") == [];
    }
    assert TagMap(w.tags) == map[];
  }

  /** What `quit` sends is read back as a QUIT carrying the message, or no argument for an empty one. */
  lemma QuitParses(message: string)
    ensures ParseLine(QuitLine(message)) ==
      Ok(Message(map[], "", "QUIT", if message != "" then [message] else []))
  {
    var line := QuitLine(message);
    if message != "" {
      assert line == Join(["QUIT"] + [] + [":" + message], ' ') by {
        assert ["QUIT"] + [] + [":" + message] == ["QUIT", ":" + message];
        JoinTwo(["QUIT", ":" + message], ' ');
      }
      PlainLineParses(line, "QUIT", [], Some(message));
      assert [] + [message] == [message];
    } else {
      assert line == Join(["QUIT"] + [] + [], ' ') by {
        assert ["QUIT"] + [] + [] == ["QUIT"];
      }
      PlainLineParses(line, "QUIT", [], None);
    }
  }
}
