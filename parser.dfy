/**
 * asyncirc/parser.py: the older copy of the message parser. Its code is the
 * same as the one in asyncirc/protocol.py, and it is proved against the
 * same specification, so the two copies agree on every line.
 */
module Parser {
  import opened Wrappers
  import opened Text
  import opened Grammar

  /**
   * `parse(input)` on text. Raises (here: returns `Err`) on a tag piece
   * without `=` and when no token is left for the prefix or the verb.
   */
  method Parse(line: string) returns (r: Result<Message, ParseError>)
    ensures r == ParseLine(line)
  {
    var tokens := Split(line, ' ');
    ghost var all := tokens;
    var tags: map<string, string> := map[];
    if StartsWith(tokens[0], '@') {
      var read := ReadTags(tokens[0][1..]);
      if read.Err? {
        return Err(read.error);
      }
      tags := read.value;
      tokens := tokens[1..];
    }
    assert ParseTokens(all) == ParseRest(tags, tokens);

    if tokens == [] {
      return Err(MissingToken);
    }
    var prefix := "";
    if StartsWith(tokens[0], ':') {
      prefix := tokens[0][1..];
      tokens := tokens[1..];
    }
    if tokens == [] {
      return Err(MissingToken);
    }
    assert ParseTokens(all) == ParseCommand(tags, prefix, tokens);
    var args := FoldArguments(tokens[1..]);
    r := Ok(Message(tags, prefix, tokens[0], args));
  }

  /** The tag loop: the tag block split on `,`, each piece cut at its first `=` and stored, later pieces overriding. */
  method ReadTags(block: string) returns (r: Result<map<string, string>, ParseError>)
    ensures r == AddTags(map[], Split(block, ','))
  {
    var pieces := Split(block, ',');
    var tags: map<string, string> := map[];
    var i := 0;
    while i < |pieces|
      invariant 0 <= i <= |pieces|
      invariant AddTags(tags, pieces[i..]) == AddTags(map[], pieces)
    {
      if '=' !in pieces[i] {
        return Err(TagWithoutValue(pieces[i]));
      }
      assert pieces[i..][1..] == pieces[i + 1..];
      tags := tags[TagKey(pieces[i]) := TagValue(pieces[i])];
      i := i + 1;
    }
    assert pieces[i..] == [];
    r := Ok(tags);
  }

  /** The argument loop: at the first argument starting with `:`, it and all after it become one argument. */
  method FoldArguments(words: seq<string>) returns (args: seq<string>)
    ensures args == FoldTrailing(words)
  {
    args := words;
    var j := 0;
    while j < |args|
      invariant 0 <= j <= |args| && args == words
      invariant forall k :: 0 <= k < j ==> !StartsWith(args[k], ':')
    {
      if StartsWith(args[j], ':') {
        FoldTrailingAt(args, j);
        var trailing := Join(args[j..], ' ')[1..];
        args := args[..j] + [trailing];
        return;
      }
      j := j + 1;
    }
    FoldTrailingNone(args);
  }
}
