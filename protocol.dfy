/**
 * asyncirc/protocol.py: the message parser as written there (a tag loop and
 * an argument loop over the space-split line), and the prefix resolver and
 * composer `parse_prefix` / `create_prefix`.
 */
module Protocol {
  import opened Wrappers
  import opened Text
  import opened Grammar

  /**
   * `parse(input)` on text. Raises (here: returns `Err`) on a tag piece
   * without `=` and when no token is left for the prefix or the verb.
   */
  method Parse(line: string) returns (r: Result<Message, ParseError>)
    ensures r == ParseLine(line)
  {
    var tokens := Split(line, ' ');
    ghost var all := tokens;
    var tags: map<string, string> := map[];
    if StartsWith(tokens[0], '@') {
      var read := ReadTags(tokens[0][1..]);
      if read.Err? {
        return Err(read.error);
      }
      tags := read.value;
      tokens := tokens[1..];
    }
    assert ParseTokens(all) == ParseRest(tags, tokens);

    if tokens == [] {
      return Err(MissingToken);
    }
    var prefix := "";
    if StartsWith(tokens[0], ':') {
      prefix := tokens[0][1..];
      tokens := tokens[1..];
    }
    if tokens == [] {
      return Err(MissingToken);
    }
    assert ParseTokens(all) == ParseCommand(tags, prefix, tokens);
    var args := FoldArguments(tokens[1..]);
    r := Ok(Message(tags, prefix, tokens[0], args));
  }

  /** The tag loop: the tag block split on `,`, each piece cut at its first `=` and stored, later pieces overriding. */
  method ReadTags(block: string) returns (r: Result<map<string, string>, ParseError>)
    ensures r == AddTags(map[], Split(block, ','))
  {
    var pieces := Split(block, ',');
    var tags: map<string, string> := map[];
    var i := 0;
    while i < |pieces|
      invariant 0 <= i <= |pieces|
      invariant AddTags(tags, pieces[i..]) == AddTags(map[], pieces)
    {
      if '=' !in pieces[i] {
        return Err(TagWithoutValue(pieces[i]));
      }
      assert pieces[i..][1..] == pieces[i + 1..];
      tags := tags[TagKey(pieces[i]) := TagValue(pieces[i])];
      i := i + 1;
    }
    assert pieces[i..] == [];
    r := Ok(tags);
  }

  /** The argument loop: at the first argument starting with `:`, it and all after it become one argument. */
  method FoldArguments(words: seq<string>) returns (args: seq<string>)
    ensures args == FoldTrailing(words)
  {
    args := words;
    var j := 0;
    while j < |args|
      invariant 0 <= j <= |args| && args == words
      invariant forall k :: 0 <= k < j ==> !StartsWith(args[k], ':')
    {
      if StartsWith(args[j], ':') {
        FoldTrailingAt(args, j);
        var trailing := Join(args[j..], ' ')[1..];
        args := args[..j] + [trailing];
        return;
      }
      j := j + 1;
    }
    FoldTrailingNone(args);
  }

  /** The three parts of a `nick!user@host` prefix. */
  datatype Identity = Identity(nick: string, user: string, host: string)

  /** The unpacking failures of `parse_prefix`: not exactly one `!`, or not exactly one `@` after it. */
  datatype PrefixError = NotOneBang | NotOneAt

  /**
   * `parse_prefix(prefix)`: `None` for a server prefix (empty or without
   * `!`); otherwise the prefix without its leading `~` run is cut at `!` and
   * the rest at `@`, each cut having to give exactly two parts.
   */
  function ParsePrefix(p: string): Result<Option<Identity>, PrefixError>
  {
    if p == "" || '!' !in p then Ok(None)
    else
      var nickUser := Split(LStrip(p, '~'), '!');
      if |nickUser| != 2 then Err(NotOneBang)
      else
        var userHost := Split(nickUser[1], '@');
        if |userHost| != 2 then Err(NotOneAt)
        else Ok(Some(Identity(nickUser[0], userHost[0], userHost[1])))
  }

  /** `create_prefix(nick, user, host)`. */
  function CreatePrefix(nick: string, user: string, host: string): string {
    nick + "!" + user + "@" + host
  }

  // ---------------------------------------------------------------------
  // Lemmas

  /** A prefix is a server prefix exactly when it has no `!`. */
  lemma ServerPrefix(p: string)
    ensures ParsePrefix(p) == Ok(None) <==> '!' !in p
  {
    if '!' in p {
      var nickUser := Split(LStrip(p, '~'), '!');
      if |nickUser| == 2 {
        var userHost := Split(nickUser[1], '@');
        if |userHost| == 2 {
          assert ParsePrefix(p).value.Some?;
        }
      }
    }
  }

  /** The stripped prefix has one piece more than the prefix has `!`s. */
  lemma BangPieces(p: string)
    ensures |Split(LStrip(p, '~'), '!')| == Count(p, '!') + 1
  {
    LStripCount(p, '~', '!');
    SplitCount(LStrip(p, '~'), '!');
  }

  /** `parse_prefix` fails on an unpack of the `!` cut exactly when the prefix has more than one `!`. */
  lemma PrefixTooManyBangs(p: string)
    requires '!' in p
    ensures ParsePrefix(p) == Err(NotOneBang) <==> Count(p, '!') != 1
  {
    assert ParsePrefix(p) == Err(NotOneBang) <==> |Split(LStrip(p, '~'), '!')| != 2;
    BangPieces(p);
  }

  /** With a single `!`, the stripped prefix cuts into the stripped text before the `!` and the text after it. */
  lemma {:induction false} StrippedCut(p: string)
    requires Count(p, '!') == 1
    ensures '!' in p
    ensures Split(LStrip(p, '~'), '!') == [LStrip(SplitOnce(p, '!').0, '~'), SplitOnce(p, '!').1]
    decreases |p|
  {
    if StartsWith(p, '~') {
      StrippedCut(p[1..]);
      SplitOnceTail(p, '!');
      var a := SplitOnce(p[1..], '!').0;
      assert LStrip([p[0]] + a, '~') == LStrip(a, '~') by {
        assert ([p[0]] + a)[1..] == a;
      }
    } else {
      SplitOne(p, '!');
      var a := SplitOnce(p, '!').0;
      assert !StartsWith(a, '~') by {
        if a != [] { assert a[0] == p[0]; }
      }
    }
  }

  /**
   * With a single `!`, `parse_prefix` fails exactly when the text after the
   * `!` does not hold exactly one `@`; otherwise the nick is the text before
   * the `!` less its leading `~` run, and the text after it is cut at the
   * `@` into user and host.
   */
  lemma PrefixOneBang(p: string)
    requires Count(p, '!') == 1
    ensures '!' in p
    ensures var after := SplitOnce(p, '!').1;
      && (ParsePrefix(p).Err? <==> Count(after, '@') != 1)
      && (Count(after, '@') == 1 ==>
            ParsePrefix(p) == Ok(Some(Identity(LStrip(SplitOnce(p, '!').0, '~'),
                                               SplitOnce(after, '@').0, SplitOnce(after, '@').1))))
  {
    StrippedCut(p);
    var after := SplitOnce(p, '!').1;
    SplitCount(after, '@');
    if Count(after, '@') == 1 {
      SplitOne(after, '@');
    }
  }

  /** Composing then resolving gives the parts back, when each part can be told apart. */
  lemma ResolveCompose(nick: string, user: string, host: string)
    requires !StartsWith(nick, '~')
    requires '!' !in nick && '!' !in user && '!' !in host
    requires '@' !in user && '@' !in host
    ensures ParsePrefix(CreatePrefix(nick, user, host)) == Ok(Some(Identity(nick, user, host)))
  {
    var userHost := user + "@" + host;
    var p := CreatePrefix(nick, user, host);
    assert p == nick + ['!'] + userHost;
    assert '!' in p by { assert p[|nick|] == '!'; }
    assert LStrip(p, '~') == p by {
      if nick == "" { assert p[0] == '!'; } else { assert p[0] == nick[0]; }
    }
    assert Split(p, '!') == [nick, userHost] by {
      assert '!' !in userHost;
      SplitAround(nick, userHost, '!');
      SplitWithoutSeparator(nick, '!');
      SplitWithoutSeparator(userHost, '!');
    }
    assert Split(userHost, '@') == [user, host] by {
      assert userHost == user + ['@'] + host;
      SplitAround(user, host, '@');
      SplitWithoutSeparator(user, '@');
      SplitWithoutSeparator(host, '@');
    }
  }

  /** Resolving then composing gives the prefix back, less its leading `~` run. */
  lemma ComposeResolve(p: string)
    requires ParsePrefix(p).Ok? && ParsePrefix(p).value.Some?
    ensures var id := ParsePrefix(p).value.value;
      CreatePrefix(id.nick, id.user, id.host) == LStrip(p, '~')
  {
    var nickUser := Split(LStrip(p, '~'), '!');
    var userHost := Split(nickUser[1], '@');
    JoinSplit(LStrip(p, '~'), '!');
    JoinSplit(nickUser[1], '@');
    JoinTwo(nickUser, '!');
    JoinTwo(userHost, '@');
  }

  /** A `~` in front of the user part is kept: only the front of the whole prefix is stripped. */
  lemma TildeOnUserKept(nick: string, user: string, host: string)
    requires !StartsWith(nick, '~')
    requires '!' !in nick && '!' !in user && '!' !in host
    requires '@' !in user && '@' !in host
    ensures ParsePrefix(nick + "!~" + user + "@" + host) == Ok(Some(Identity(nick, "~" + user, host)))
  {
    var tilded := "~" + user;
    assert '!' !in tilded && '@' !in tilded;
    assert CreatePrefix(nick, tilded, host) == nick + "!~" + user + "@" + host by {
      assert "!" + tilded == "!~" + user;
    }
    ResolveCompose(nick, tilded, host);
  }

  /** A leading `~` run in front of the whole prefix is dropped from the nick. */
  lemma TildeOnNickStripped(nick: string, user: string, host: string)
    requires !StartsWith(nick, '~')
    requires '!' !in nick && '!' !in user && '!' !in host
    requires '@' !in user && '@' !in host
    ensures ParsePrefix("~" + CreatePrefix(nick, user, host)) == Ok(Some(Identity(nick, user, host)))
  {
    var p := CreatePrefix(nick, user, host);
    ResolveCompose(nick, user, host);
    assert ("~" + p)[1..] == p;
    assert '!' in "~" + p by { assert p[|nick|] == '!'; assert ("~" + p)[|nick| + 1] == '!'; }
  }
}
