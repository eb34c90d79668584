/**
 * What `parse` computes from one IRC line, as functions. The two copies of
 * the parser (asyncirc/protocol.py and asyncirc/parser.py) are each proved
 * to compute `ParseLine`. The line is split on single spaces; an `@` first
 * token is a tag block, a `:` token next is the prefix, the next token is
 * the verb and the first argument that starts with `:` swallows the rest of
 * the line as one trailing argument.
 */
module Grammar {
  import opened Wrappers
  import opened Text

  /** `(tags, prefix, verb, args)`, the tuple `parse` returns. */
  datatype Message = Message(tags: map<string, string>, prefix: string, command: string, args: seq<string>)

  /**
   * What makes `parse` raise: a tag piece without `=` (the unpack of
   * `tag.split('=', 1)` fails) or no token left where the prefix or the verb
   * should be (`string[0]` on an empty list).
   */
  datatype ParseError = TagWithoutValue(piece: string) | MissingToken

  /** The key of a tag piece: the text before its first `=`. */
  function TagKey(piece: string): string
    requires '=' in piece
  {
    SplitOnce(piece, '=').0
  }

  /** The value of a tag piece: the text after its first `=`. */
  function TagValue(piece: string): string
    requires '=' in piece
  {
    SplitOnce(piece, '=').1
  }

  /** The tag loop: each piece in order is stored into `tags`, or the first piece without `=` fails. */
  function AddTags(tags: map<string, string>, pieces: seq<string>): Result<map<string, string>, ParseError>
    decreases |pieces|
  {
    if pieces == [] then Ok(tags)
    else if '=' !in pieces[0] then Err(TagWithoutValue(pieces[0]))
    else AddTags(tags[TagKey(pieces[0]) := TagValue(pieces[0])], pieces[1..])
  }

  /** The argument loop: the first argument starting with `:` and all after it become one argument, `:` removed. */
  function FoldTrailing(args: seq<string>): seq<string>
  {
    if args == [] then []
    else if StartsWith(args[0], ':') then [Join(args, ' ')[1..]]
    else [args[0]] + FoldTrailing(args[1..])
  }

  /** `parse(line)`: the line split on single spaces, then read token by token. */
  function ParseLine(line: string): Result<Message, ParseError>
  {
    ParseTokens(Split(line, ' '))
  }

  /** The tag block, when the first token starts with `@`; an error in it is raised before anything else. */
  function ParseTokens(tokens: seq<string>): Result<Message, ParseError>
    requires |tokens| >= 1
  {
    if StartsWith(tokens[0], '@') then
      match AddTags(map[], Split(tokens[0][1..], ','))
      case Err(e) => Err(e)
      case Ok(tags) => ParseRest(tags, tokens[1..])
    else ParseRest(map[], tokens)
  }

  /** The prefix, when the next token starts with `:`; no token left is an error. */
  function ParseRest(tags: map<string, string>, rest: seq<string>): Result<Message, ParseError>
  {
    if rest == [] then Err(MissingToken)
    else if StartsWith(rest[0], ':') then ParseCommand(tags, rest[0][1..], rest[1..])
    else ParseCommand(tags, "", rest)
  }

  /** The verb and its arguments; no token left is an error. */
  function ParseCommand(tags: map<string, string>, prefix: string, words: seq<string>): Result<Message, ParseError>
  {
    if words == [] then Err(MissingToken)
    else Ok(Message(tags, prefix, words[0], FoldTrailing(words[1..])))
  }

  // ---------------------------------------------------------------------
  // The wire format, as a reference for what `parse` recovers

  /**
   * The parts of a line as a sender writes them:
   * `["@" k=v,... " "] [":" prefix " "] command {" " middle} [" :" trailing]`.
   */
  datatype Wire = Wire(tags: seq<(string, string)>, prefix: string, command: string,
                       middle: seq<string>, trailing: Option<string>)

  function TagPieces(tags: seq<(string, string)>): seq<string> {
    seq(|tags|, i requires 0 <= i < |tags| => tags[i].0 + "=" + tags[i].1)
  }

  /** The map the pairs denote when a later key overrides an earlier one. */
  function TagMap(tags: seq<(string, string)>): map<string, string> {
    if tags == [] then map[]
    else
      var last := tags[|tags| - 1];
      TagMap(tags[..|tags| - 1])[last.0 := last.1]
  }

  /** The space-free tokens before the trailing argument. */
  function Heads(w: Wire): seq<string> {
    (if w.tags == [] then [] else ["@" + Join(TagPieces(w.tags), ',')])
    + PrefixTokens(w.prefix)
    + [w.command] + w.middle
  }

  function Render(w: Wire): string {
    Join(Heads(w) + (if w.trailing.Some? then [":" + w.trailing.value] else []), ' ')
  }

  /** The arguments a receiver should see. */
  function WireArgs(w: Wire): seq<string> {
    w.middle + (if w.trailing.Some? then [w.trailing.value] else [])
  }

  /**
   * A line a sender can write unambiguously: no space inside a tag, the
   * prefix, the command or a middle argument; no `,` in a tag and no `=` in
   * a tag key; the command and middle arguments do not start with `:` and
   * the command does not start with `@`.
   */
  predicate WellFormed(w: Wire) {
    && (forall i :: 0 <= i < |w.tags| ==>
          && ' ' !in w.tags[i].0 && ',' !in w.tags[i].0 && '=' !in w.tags[i].0
          && ' ' !in w.tags[i].1 && ',' !in w.tags[i].1)
    && ' ' !in w.prefix
    && ' ' !in w.command && !StartsWith(w.command, ':') && !StartsWith(w.command, '@')
    && (forall i :: 0 <= i < |w.middle| ==> ' ' !in w.middle[i] && !StartsWith(w.middle[i], ':'))
  }

  // ---------------------------------------------------------------------
  // Lemmas

  /** No tag piece with a key among `pieces[j+1..]` equal to that of `pieces[j]`: the last word on that key. */
  ghost predicate LastWithKey(pieces: seq<string>, j: int)
    requires 0 <= j < |pieces|
    requires forall i :: 0 <= i < |pieces| ==> '=' in pieces[i]
  {
    forall i :: j < i < |pieces| ==> TagKey(pieces[i]) != TagKey(pieces[j])
  }

  /** The tag loop succeeds exactly when every piece holds a `=`. */
  lemma {:induction false} AddTagsSucceeds(tags: map<string, string>, pieces: seq<string>)
    ensures AddTags(tags, pieces).Ok? <==> forall j :: 0 <= j < |pieces| ==> '=' in pieces[j]
    decreases |pieces|
  {
    if pieces != [] {
      if '=' in pieces[0] {
        AddTagsSucceeds(tags[TagKey(pieces[0]) := TagValue(pieces[0])], pieces[1..]);
        if forall j :: 0 <= j < |pieces| - 1 ==> '=' in pieces[1..][j] {
          forall j | 0 <= j < |pieces| ensures '=' in pieces[j] {
            if j > 0 { assert pieces[j] == pieces[1..][j - 1]; }
          }
        }
      }
    }
  }

  /** All pieces hold `=`. */
  ghost predicate AllTagged(pieces: seq<string>) {
    forall j :: 0 <= j < |pieces| ==> '=' in pieces[j]
  }

  /** The tag loop stores the value of the last piece naming a key under that key. */
  lemma {:induction false} AddTagsLastWins(tags: map<string, string>, pieces: seq<string>, j: nat)
    requires AllTagged(pieces)
    requires j < |pieces| && LastWithKey(pieces, j)
    ensures AddTags(tags, pieces).Ok?
    ensures TagKey(pieces[j]) in AddTags(tags, pieces).value
    ensures AddTags(tags, pieces).value[TagKey(pieces[j])] == TagValue(pieces[j])
    decreases |pieces|
  {
    AddTagsSucceeds(tags, pieces);
    var p, rest := pieces[0], pieces[1..];
    var tags' := tags[TagKey(p) := TagValue(p)];
    assert AllTagged(rest) by {
      forall i | 0 <= i < |rest| ensures '=' in rest[i] { assert rest[i] == pieces[i + 1]; }
    }
    if j > 0 {
      assert pieces[j] == rest[j - 1];
      assert LastWithKey(rest, j - 1) by {
        forall i | j - 1 < i < |rest| ensures TagKey(rest[i]) != TagKey(rest[j - 1]) {
          assert rest[i] == pieces[i + 1];
        }
      }
      AddTagsLastWins(tags', rest, j - 1);
    } else {
      assert forall i :: 0 <= i < |rest| ==> TagKey(rest[i]) != TagKey(p) by {
        forall i | 0 <= i < |rest| ensures TagKey(rest[i]) != TagKey(p) {
          assert rest[i] == pieces[i + 1];
        }
      }
      AddTagsKeeps(tags', rest, TagKey(p));
    }
  }

  /** An entry already present that no piece names survives the tag loop unchanged. */
  lemma {:induction false} AddTagsKeeps(tags: map<string, string>, pieces: seq<string>, k: string)
    requires AllTagged(pieces)
    requires k in tags
    requires forall j :: 0 <= j < |pieces| ==> TagKey(pieces[j]) != k
    ensures AddTags(tags, pieces).Ok?
    ensures k in AddTags(tags, pieces).value && AddTags(tags, pieces).value[k] == tags[k]
    decreases |pieces|
  {
    AddTagsSucceeds(tags, pieces);
    if pieces != [] {
      var rest := pieces[1..];
      assert TagKey(pieces[0]) != k;
      assert AllTagged(rest) by {
        forall i | 0 <= i < |rest| ensures '=' in rest[i] { assert rest[i] == pieces[i + 1]; }
      }
      forall i | 0 <= i < |rest| ensures TagKey(rest[i]) != k {
        assert rest[i] == pieces[i + 1];
      }
      AddTagsKeeps(tags[TagKey(pieces[0]) := TagValue(pieces[0])], rest, k);
    }
  }

  /** Every key after the tag loop was already present or is the key of some piece. */
  lemma {:induction false} AddTagsKeysFrom(tags: map<string, string>, pieces: seq<string>, k: string)
    requires AddTags(tags, pieces).Ok? && k in AddTags(tags, pieces).value
    ensures k in tags || exists j :: 0 <= j < |pieces| && '=' in pieces[j] && TagKey(pieces[j]) == k
    decreases |pieces|
  {
    if pieces != [] {
      var p, rest := pieces[0], pieces[1..];
      if k !in tags && k != TagKey(p) {
        AddTagsKeysFrom(tags[TagKey(p) := TagValue(p)], rest, k);
        var j :| 0 <= j < |rest| && '=' in rest[j] && TagKey(rest[j]) == k;
        assert pieces[j + 1] == rest[j];
      }
    }
  }

  /** With no argument starting with `:`, the arguments are the tokens as they are. */
  lemma {:induction false} FoldTrailingNone(args: seq<string>)
    requires forall j :: 0 <= j < |args| ==> !StartsWith(args[j], ':')
    ensures FoldTrailing(args) == args
  {
    if args != [] {
      FoldTrailingNone(args[1..]);
      assert args == [args[0]] + args[1..];
    }
  }

  /**
   * With the first `:` argument at `idx`, the arguments before it are kept
   * and it and everything after it, joined by single spaces and without
   * the `:`, become the last argument.
   */
  lemma {:induction false} FoldTrailingAt(args: seq<string>, idx: nat)
    requires idx < |args| && StartsWith(args[idx], ':')
    requires forall j :: 0 <= j < idx ==> !StartsWith(args[j], ':')
    ensures |Join(args[idx..], ' ')| >= 1
    ensures FoldTrailing(args) == args[..idx] + [Join(args[idx..], ' ')[1..]]
  {
    if idx == 0 {
      assert args[idx..] == args;
    } else {
      FoldTrailingAt(args[1..], idx - 1);
      assert args[1..][idx - 1..] == args[idx..];
      assert args[..idx] == [args[0]] + args[1..][..idx - 1];
    }
  }

  /** Only the last argument can hold a space: the tokens it is made of hold none. */
  lemma {:induction false} FoldTrailingSpaces(args: seq<string>)
    requires forall j :: 0 <= j < |args| ==> ' ' !in args[j]
    ensures forall k :: 0 <= k < |FoldTrailing(args)| - 1 ==> ' ' !in FoldTrailing(args)[k]
  {
    if args != [] && !StartsWith(args[0], ':') {
      FoldTrailingSpaces(args[1..]);
      var r := FoldTrailing(args[1..]);
      forall k | 0 <= k < |FoldTrailing(args)| - 1 ensures ' ' !in FoldTrailing(args)[k] {
        if k > 0 { assert FoldTrailing(args)[k] == r[k - 1]; }
      }
    }
  }

  /** Of the arguments `parse` returns, only the last can contain a space. */
  lemma OnlyLastArgHasSpace(line: string)
    requires ParseLine(line).Ok?
    ensures var args := ParseLine(line).value.args;
      forall k :: 0 <= k < |args| - 1 ==> ' ' !in args[k]
  {
    var tokens := Split(line, ' ');
    SplitPiecesFree(line, ' ');
    var rest := if StartsWith(tokens[0], '@') then tokens[1..] else tokens;
    var words := if StartsWith(rest[0], ':') then rest[1..] else rest;
    assert forall j :: 0 <= j < |words| ==> words[j] in tokens;
    FoldTrailingSpaces(words[1..]);
  }

  /** A line that is only a tag block fails: nothing is left for the prefix check. */
  lemma TagBlockOnlyFails(line: string)
    requires StartsWith(line, '@') && ' ' !in line
    ensures ParseLine(line).Err?
  {
    SplitWithoutSeparator(line, ' ');
  }

  /** A tag piece without `=` makes `parse` fail. */
  lemma TagWithoutValueFails(line: string, j: nat)
    requires var first := Split(line, ' ')[0];
      StartsWith(first, '@') && j < |Split(first[1..], ',')| && '=' !in Split(first[1..], ',')[j]
    ensures ParseLine(line).Err?
  {
    var first := Split(line, ' ')[0];
    AddTagsSucceeds(map[], Split(first[1..], ','));
  }

  // ---------------------------------------------------------------------
  // Round trip through the wire format

  /** A piece `k=v` with no `=` in `k` has key `k` and value `v`. */
  lemma TagPieceParts(k: string, v: string)
    requires '=' !in k
    ensures '=' in k + "=" + v
    ensures TagKey(k + "=" + v) == k && TagValue(k + "=" + v) == v
  {
    IndexOfAfter(k, v, '=');
    var s := k + "=" + v;
    assert s[..|k|] == k && s[|k| + 1..] == v;
  }

  /** Adding one more well-formed piece at the end stores it over what the others built. */
  lemma {:induction false} AddTagsSnoc(tags: map<string, string>, pieces: seq<string>, p: string)
    requires AllTagged(pieces) && '=' in p
    ensures AddTags(tags, pieces).Ok?
    ensures AddTags(tags, pieces + [p]) == Ok(AddTags(tags, pieces).value[TagKey(p) := TagValue(p)])
    decreases |pieces|
  {
    AddTagsSucceeds(tags, pieces);
    if pieces == [] {
      assert pieces + [p] == [p];
    } else {
      var rest := pieces[1..];
      assert (pieces + [p])[1..] == rest + [p];
      assert AllTagged(rest) by {
        forall i | 0 <= i < |rest| ensures '=' in rest[i] { assert rest[i] == pieces[i + 1]; }
      }
      AddTagsSnoc(tags[TagKey(pieces[0]) := TagValue(pieces[0])], rest, p);
    }
  }

  /** The tag block a sender writes is read back as the map its pairs denote. */
  lemma {:induction false} TagsRoundTrip(pairs: seq<(string, string)>)
    requires forall i :: 0 <= i < |pairs| ==> '=' !in pairs[i].0
    ensures AddTags(map[], TagPieces(pairs)) == Ok(TagMap(pairs))
  {
    if pairs != [] {
      var n := |pairs| - 1;
      var init, last := pairs[..n], pairs[n];
      TagsRoundTrip(init);
      assert TagPieces(pairs) == TagPieces(init) + [last.0 + "=" + last.1];
      TagPieceParts(last.0, last.1);
      assert AllTagged(TagPieces(init)) by {
        forall i | 0 <= i < |init| ensures '=' in TagPieces(init)[i] {
          TagPieceParts(init[i].0, init[i].1);
        }
      }
      AddTagsSnoc(map[], TagPieces(init), last.0 + "=" + last.1);
    }
  }

  /** The tokens before the trailing argument hold no space. */
  lemma HeadsFree(w: Wire)
    requires WellFormed(w)
    ensures forall k :: 0 <= k < |Heads(w)| ==> ' ' !in Heads(w)[k]
  {
    if w.tags != [] {
      var pieces := TagPieces(w.tags);
      forall k | 0 <= k < |pieces| ensures ' ' !in pieces[k] {
        assert pieces[k] == w.tags[k].0 + "=" + w.tags[k].1;
      }
      JoinFree(pieces, ',', ' ');
    }
  }

  /** The tag block splits on `,` back into its pieces. */
  lemma TagBlockSplits(w: Wire)
    requires WellFormed(w) && w.tags != []
    ensures Split(("@" + Join(TagPieces(w.tags), ','))[1..], ',') == TagPieces(w.tags)
  {
    var pieces := TagPieces(w.tags);
    forall k | 0 <= k < |pieces| ensures ',' !in pieces[k] {
      assert pieces[k] == w.tags[k].0 + "=" + w.tags[k].1;
    }
    assert ("@" + Join(pieces, ','))[1..] == Join(pieces, ',');
    SplitJoin(pieces, ',');
  }

  /** The tokens a rendered line splits into: the heads, then the words of the trailing argument. */
  lemma RenderTokens(w: Wire)
    requires WellFormed(w)
    ensures Split(Render(w), ' ') ==
      Heads(w) + (if w.trailing.Some? then Split(":" + w.trailing.value, ' ') else [])
  {
    HeadsFree(w);
    if w.trailing.Some? {
      SplitJoinLast(Heads(w), ":" + w.trailing.value, ' ');
    } else {
      assert Heads(w) + [] == Heads(w);
      SplitJoin(Heads(w), ' ');
    }
  }

  /** The arguments after the verb fold back into the middle arguments and the trailing one. */
  lemma FoldWireArgs(w: Wire)
    requires WellFormed(w)
    ensures FoldTrailing(w.middle + (if w.trailing.Some? then Split(":" + w.trailing.value, ' ') else []))
            == WireArgs(w)
  {
    if w.trailing.Some? {
      var t := w.trailing.value;
      var words := Split(":" + t, ' ');
      var args := w.middle + words;
      assert StartsWith(words[0], ':') by { assert (":" + t)[0] == ':'; }
      assert args[|w.middle|] == words[0];
      assert args[|w.middle|..] == words && args[..|w.middle|] == w.middle;
      FoldTrailingAt(args, |w.middle|);
      JoinSplit(":" + t, ' ');
    } else {
      assert w.middle + [] == w.middle;
      FoldTrailingNone(w.middle);
    }
  }

  /**
   * Parsing a line written by the wire grammar gives back its tags (later
   * keys overriding earlier ones), its prefix, its verb and its arguments,
   * the trailing one with its spaces kept.
   */
  lemma ParseRender(w: Wire)
    requires WellFormed(w)
    ensures ParseLine(Render(w)) == Ok(Message(TagMap(w.tags), w.prefix, w.command, WireArgs(w)))
  {
    var tail := if w.trailing.Some? then Split(":" + w.trailing.value, ' ') else [];
    RenderTokens(w);
    ParseHeads(w, tail);
    ParseRestAfterPrefix(TagMap(w.tags), w.prefix, w.command, w.middle + tail);
    FoldWireArgs(w);
  }

  /** The heads of a line yield its tag map and leave the prefix and verb tokens to read. */
  lemma ParseHeads(w: Wire, tail: seq<string>)
    requires WellFormed(w)
    ensures ParseTokens(Heads(w) + tail) ==
            ParseRest(TagMap(w.tags), PrefixTokens(w.prefix) + ([w.command] + (w.middle + tail)))
  {
    var afterTags := PrefixTokens(w.prefix) + ([w.command] + (w.middle + tail));
    if w.tags != [] {
      var block := "@" + Join(TagPieces(w.tags), ',');
      assert Heads(w) + tail == [block] + afterTags;
      assert AddTags(map[], Split(block[1..], ',')) == Ok(TagMap(w.tags)) by {
        TagBlockSplits(w);
        TagsRoundTrip(w.tags);
      }
      ParseTokensTagged(block, afterTags);
    } else {
      assert Heads(w) + tail == afterTags;
      assert !StartsWith(afterTags[0], '@');
    }
  }

  /** The prefix token a sender writes: none for an empty prefix. */
  function PrefixTokens(prefix: string): seq<string> {
    if prefix == "" then [] else [":" + prefix]
  }

  lemma ParseTokensTagged(block: string, rest: seq<string>)
    requires StartsWith(block, '@')
    requires AddTags(map[], Split(block[1..], ',')).Ok?
    ensures ParseTokens([block] + rest) == ParseRest(AddTags(map[], Split(block[1..], ',')).value, rest)
  {
    assert ([block] + rest)[1..] == rest;
  }

  lemma ParseRestAfterPrefix(tags: map<string, string>, prefix: string, command: string, args: seq<string>)
    requires !StartsWith(command, ':')
    ensures ParseRest(tags, PrefixTokens(prefix) + ([command] + args)) == Ok(Message(tags, prefix, command, FoldTrailing(args)))
  {
    var words := [command] + args;
    assert words[1..] == args;
    if prefix != "" {
      assert (PrefixTokens(prefix) + words)[1..] == words;
      assert (":" + prefix)[1..] == prefix;
    } else {
      assert PrefixTokens(prefix) + words == words;
    }
  }
}
