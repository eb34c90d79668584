/**
 * The line framer of asyncirc/buffer.py: a `LineBuffer` accumulates decoded
 * text and hands out the complete lines, split on `\r?\n`, keeping the
 * unterminated tail for the next round.
 */
module LineBuffering {
  import opened Text

  /** A line break `\r\n` starts the text. */
  predicate StartsWithCRLF(s: string) {
    |s| >= 2 && s[0] == '\r' && s[1] == '\n'
  }

  /** Puts `c` in front of the first piece. */
  function Extend(c: char, pieces: seq<string>): seq<string>
    requires |pieces| >= 1
  {
    [[c] + pieces[0]] + pieces[1..]
  }

  /**
   * `re.split('\r?\n', s)`, scanning as the regular-expression engine does:
   * at each position a match is `\r\n` or `\n`; any other character,
   * a `\r` not followed by `\n` included, belongs to the current piece.
   */
  function LineSplit(s: string): (pieces: seq<string>)
    ensures |pieces| >= 1
  {
    if s == [] then [""]
    else if s[0] == '\n' then [""] + LineSplit(s[1..])
    else if StartsWithCRLF(s) then [""] + LineSplit(s[2..])
    else Extend(s[0], LineSplit(s[1..]))
  }

  /** The separator (`"\r\n"` or `"\n"`) each split of `LineSplit(s)` was made on. */
  function Separators(s: string): seq<string>
  {
    if s == [] then []
    else if s[0] == '\n' then ["\n"] + Separators(s[1..])
    else if StartsWithCRLF(s) then ["\r\n"] + Separators(s[2..])
    else Separators(s[1..])
  }

  /** The lines `lines()` returns for buffer `s`: every piece but the last. */
  function CompleteLines(s: string): seq<string> {
    var pieces := LineSplit(s);
    pieces[..|pieces| - 1]
  }

  /** The text `lines()` leaves in the buffer: the last piece (`lines.pop()`). */
  function Pending(s: string): string {
    var pieces := LineSplit(s);
    pieces[|pieces| - 1]
  }

  /** `pieces[0] + seps[0] + pieces[1] + ... + pieces[n]`: each piece followed by its separator. */
  function Rejoin(pieces: seq<string>, seps: seq<string>): string
    requires |pieces| == |seps| + 1
  {
    if seps == [] then pieces[0]
    else pieces[0] + seps[0] + Rejoin(pieces[1..], seps[1..])
  }

  /**
   * A valid way to cut `s` into lines: no piece holds a `\n`, each separator
   * is `\n` or `\r\n`, and a bare `\n` never follows a piece ending in `\r`
   * (that `\r` belongs to the separator).
   */
  ghost predicate IsLineCut(pieces: seq<string>, seps: seq<string>, s: string) {
    && |pieces| == |seps| + 1
    && (forall k :: 0 <= k < |pieces| ==> '\n' !in pieces[k])
    && (forall k :: 0 <= k < |seps| ==> seps[k] == "\n" || seps[k] == "\r\n")
    && (forall k :: 0 <= k < |seps| && seps[k] == "\n" ==> !EndsWith(pieces[k], '\r'))
    && Rejoin(pieces, seps) == s
  }

  /** Lines and pending text after pushing each chunk in turn and draining after every push. */
  function DrainEach(pending: string, chunks: seq<string>): (seq<string>, string)
    decreases |chunks|
  {
    if chunks == [] then ([], pending)
    else
      var text := pending + chunks[0];
      var after := DrainEach(Pending(text), chunks[1..]);
      (CompleteLines(text) + after.0, after.1)
  }

  /** All chunks concatenated. */
  function Concat(chunks: seq<string>): string {
    if chunks == [] then "" else chunks[0] + Concat(chunks[1..])
  }

  // ---------------------------------------------------------------------
  // The buffer object

  class LineBuffer {
    /** The pending, not yet terminated text (`_buffer`). */
    var buffer: string

    constructor ()
      ensures buffer == ""
    {
      buffer := "";
    }

    /** `__len__`: the number of pending characters. */
    function Length(): (n: nat)
      reads this
      ensures n == |buffer|
    {
      |buffer|
    }

    /** `push`: append decoded text. */
    method Push(data: string)
      modifies this
      ensures buffer == old(buffer) + data
    {
      buffer := buffer + data;
    }

    /**
     * `lines()` (and `__iter__`, which returns it): split the buffer, keep the
     * last piece as the new buffer and return the others.
     */
    method Lines() returns (lines: seq<string>)
      modifies this
      ensures lines == CompleteLines(old(buffer)) && buffer == Pending(old(buffer))
      ensures |lines| == Count(old(buffer), '\n')
      ensures forall k :: 0 <= k < |lines| ==> '\n' !in lines[k]
      ensures '\n' !in buffer
      ensures IsLineCut(lines + [buffer], Separators(old(buffer)), old(buffer))
    {
      var pieces := LineSplit(buffer);
      LineSplitIsLineCut(buffer);
      LineCount(buffer);
      buffer := pieces[|pieces| - 1];
      lines := pieces[..|pieces| - 1];
      assert lines + [buffer] == pieces;
    }
  }

  // ---------------------------------------------------------------------
  // Lemmas

  /** The split of text without `\n` is the text itself. */
  lemma {:induction false} NoBreak(s: string)
    requires '\n' !in s
    ensures LineSplit(s) == [s] && Separators(s) == []
    ensures CompleteLines(s) == [] && Pending(s) == s
  {
    if s != [] {
      assert '\n' !in s[1..];
      NoBreak(s[1..]);
      assert [s[0]] + s[1..] == s;
    }
  }

  lemma RejoinExtend(c: char, pieces: seq<string>, seps: seq<string>)
    requires |pieces| == |seps| + 1
    ensures Rejoin(Extend(c, pieces), seps) == [c] + Rejoin(pieces, seps)
  {
    assert Extend(c, pieces)[1..] == pieces[1..];
  }

  /** The pieces and separators of `LineSplit` cut `s` validly. */
  lemma {:induction false} LineSplitIsLineCut(s: string)
    ensures IsLineCut(LineSplit(s), Separators(s), s)
  {
    if s == [] {
    } else if s[0] == '\n' {
      LineSplitIsLineCut(s[1..]);
      CutAfterBreak(s, 1);
    } else if StartsWithCRLF(s) {
      LineSplitIsLineCut(s[2..]);
      CutAfterBreak(s, 2);
    } else {
      LineSplitIsLineCut(s[1..]);
      CutExtend(s);
    }
  }

  /** An empty piece and one more separator in front of a valid line cut give a valid line cut. */
  lemma CutPrepend(sep: string, pieces: seq<string>, seps: seq<string>, t: string)
    requires sep == "\n" || sep == "\r\n"
    requires IsLineCut(pieces, seps, t)
    ensures IsLineCut([""] + pieces, [sep] + seps, sep + t)
  {
    var pieces', seps' := [""] + pieces, [sep] + seps;
    forall k | 0 <= k < |pieces'| ensures '\n' !in pieces'[k] {
      if k > 0 { assert pieces'[k] == pieces[k - 1]; }
    }
    forall k | 0 <= k < |seps'| ensures seps'[k] == "\n" || seps'[k] == "\r\n" {
      if k > 0 { assert seps'[k] == seps[k - 1]; }
    }
    forall k | 0 <= k < |seps'| && seps'[k] == "\n" ensures !EndsWith(pieces'[k], '\r') {
      if k > 0 { assert seps'[k] == seps[k - 1] && pieces'[k] == pieces[k - 1]; }
    }
    assert pieces'[1..] == pieces && seps'[1..] == seps;
  }

  lemma CutAfterBreak(s: string, n: nat)
    requires (n == 1 && s != [] && s[0] == '\n') || (n == 2 && StartsWithCRLF(s))
    requires IsLineCut(LineSplit(s[n..]), Separators(s[n..]), s[n..])
    ensures IsLineCut(LineSplit(s), Separators(s), s)
  {
    var sep := if n == 1 then "\n" else "\r\n";
    assert LineSplit(s) == [""] + LineSplit(s[n..]) && Separators(s) == [sep] + Separators(s[n..]);
    assert s == sep + s[n..];
    CutPrepend(sep, LineSplit(s[n..]), Separators(s[n..]), s[n..]);
  }

  /**
   * A character in front of the first piece of a valid line cut gives a
   * valid line cut, unless it is a line break or a `\r` that would join the
   * `\n` after it.
   */
  lemma CutCons(c: char, pieces: seq<string>, seps: seq<string>, t: string)
    requires c != '\n' && !(c == '\r' && StartsWith(t, '\n'))
    requires IsLineCut(pieces, seps, t)
    ensures IsLineCut(Extend(c, pieces), seps, [c] + t)
  {
    var pieces' := Extend(c, pieces);
    forall k | 0 <= k < |pieces'| ensures '\n' !in pieces'[k] {
      if k > 0 { assert pieces'[k] == pieces[k]; }
    }
    forall k | 0 <= k < |seps| && seps[k] == "\n" ensures !EndsWith(pieces'[k], '\r') {
      if k > 0 {
        assert pieces'[k] == pieces[k];
      } else if pieces[0] == "" {
        assert t == "\n" + Rejoin(pieces[1..], seps[1..]);
      } else {
        assert pieces'[0][|pieces'[0]| - 1] == pieces[0][|pieces[0]| - 1];
      }
    }
    RejoinExtend(c, pieces, seps);
  }

  lemma CutExtend(s: string)
    requires s != [] && s[0] != '\n' && !StartsWithCRLF(s)
    requires IsLineCut(LineSplit(s[1..]), Separators(s[1..]), s[1..])
    ensures IsLineCut(LineSplit(s), Separators(s), s)
  {
    var c, t := s[0], s[1..];
    assert !(c == '\r' && StartsWith(t, '\n'));
    CutCons(c, LineSplit(t), Separators(t), t);
    assert s == [c] + t;
    assert LineSplit(s) == Extend(c, LineSplit(t));
    assert Separators(s) == Separators(t);
  }

  /** Reassembly: the returned lines, each followed by its separator, then the new buffer, give back the old buffer. */
  lemma Reassembly(s: string)
    ensures |Separators(s)| == |CompleteLines(s)|
    ensures Rejoin(CompleteLines(s) + [Pending(s)], Separators(s)) == s
  {
    LineSplitIsLineCut(s);
    assert CompleteLines(s) + [Pending(s)] == LineSplit(s);
  }

  /**
   * A valid line cut is unique: `LineSplit` and `Separators` are the only
   * way to cut a text into `\n`-free pieces separated by `\n` or `\r\n`
   * with every `\r` before a `\n` taken into the separator. Together with
   * `LineSplitIsLineCut` this says exactly what `lines()` returns: a `\r`
   * directly before a `\n` is consumed and every other `\r` is kept.
   */
  lemma {:induction false} LineCutUnique(pieces: seq<string>, seps: seq<string>, s: string)
    requires IsLineCut(pieces, seps, s)
    ensures pieces == LineSplit(s) && seps == Separators(s)
    decreases |s|
  {
    if seps == [] {
      NoBreak(s);
    } else if pieces[0] == "" {
      var r := Rejoin(pieces[1..], seps[1..]);
      CutTail(pieces, seps, s);
      LineCutUnique(pieces[1..], seps[1..], r);
      if seps[0] == "\n" {
        assert s[1..] == r;
      } else {
        assert s[2..] == r;
      }
      assert pieces == [""] + pieces[1..] && seps == [seps[0]] + seps[1..];
    } else {
      var pieces' := [pieces[0][1..]] + pieces[1..];
      CutShift(pieces, seps, s);
      LineCutUnique(pieces', seps, s[1..]);
    }
  }

  /** Dropping a leading empty piece and its separator leaves a valid cut of the rest of the text. */
  lemma CutTail(pieces: seq<string>, seps: seq<string>, s: string)
    requires IsLineCut(pieces, seps, s) && seps != [] && pieces[0] == ""
    ensures s == seps[0] + Rejoin(pieces[1..], seps[1..])
    ensures IsLineCut(pieces[1..], seps[1..], Rejoin(pieces[1..], seps[1..]))
  {
    forall k | 0 <= k < |seps| - 1 && seps[1..][k] == "\n"
      ensures !EndsWith(pieces[1..][k], '\r')
    {
      assert seps[k + 1] == "\n";
    }
  }

  /**
   * Moving the first character of a non-empty first piece out leaves a
   * valid cut of the rest of the text, and that character is not a line
   * break.
   */
  lemma CutShift(pieces: seq<string>, seps: seq<string>, s: string)
    requires IsLineCut(pieces, seps, s) && pieces[0] != ""
    ensures s != [] && s[0] == pieces[0][0] && s[0] != '\n' && !StartsWithCRLF(s)
    ensures IsLineCut([pieces[0][1..]] + pieces[1..], seps, s[1..])
    ensures Extend(s[0], [pieces[0][1..]] + pieces[1..]) == pieces
  {
    var p := pieces[0];
    var c := p[0];
    var pieces' := [p[1..]] + pieces[1..];
    assert [c] + p[1..] == p;
    assert pieces == [p] + pieces[1..];
    assert Extend(c, pieces') == pieces;
    RejoinExtend(c, pieces', seps);
    assert s == [c] + Rejoin(pieces', seps);
    assert '\n' !in p;
    forall k | 0 <= k < |pieces'| ensures '\n' !in pieces'[k] {
      if k > 0 { assert pieces'[k] == pieces[k]; }
    }
    forall k | 0 <= k < |seps| && seps[k] == "\n" ensures !EndsWith(pieces'[k], '\r') {
      if k == 0 {
        assert !EndsWith(p, '\r');
      } else {
        assert pieces'[k] == pieces[k];
      }
    }
    assert s[1..] == Rejoin(pieces', seps);
    if c == '\r' && |s| >= 2 {
      if |p| >= 2 {
        assert s[1] == p[1];
      } else {
        assert pieces'[0] == "";
        assert s[1..] == seps[0] + Rejoin(pieces'[1..], seps[1..]);
        assert seps[0] == "\r\n";
      }
    }
  }

  /** The number of lines returned is the number of `\n` in the buffer; empty lines are kept. */
  lemma {:induction false} LineCount(s: string)
    ensures |LineSplit(s)| == Count(s, '\n') + 1
    ensures |CompleteLines(s)| == Count(s, '\n')
  {
    if s == [] {
    } else if s[0] == '\n' {
      LineCount(s[1..]);
    } else if StartsWithCRLF(s) {
      LineCount(s[2..]);
      assert s[1..][1..] == s[2..];
    } else {
      LineCount(s[1..]);
    }
  }

  lemma ExtendAppend(c: char, x: seq<string>, y: seq<string>)
    requires |x| >= 1
    ensures Extend(c, x + y) == Extend(c, x) + y
  {
    assert (x + y)[1..] == x[1..] + y;
  }

  /** `lines()` on `a + b` returns the complete lines of `a`, then splits what `a` leaves pending followed by `b`. */
  lemma {:induction false} LineSplitAppend(a: string, b: string)
    ensures LineSplit(a + b) == CompleteLines(a) + LineSplit(Pending(a) + b)
  {
    if '\n' !in a {
      NoBreak(a);
    } else if a[0] == '\n' {
      assert (a + b)[1..] == a[1..] + b;
      LineSplitAppend(a[1..], b);
    } else if StartsWithCRLF(a) {
      assert (a + b)[2..] == a[2..] + b;
      LineSplitAppend(a[2..], b);
    } else {
      LineSplitAppend(a[1..], b);
      AppendExtend(a, b);
    }
  }

  /** The step of `LineSplitAppend` for text starting with an ordinary character. */
  lemma AppendExtend(a: string, b: string)
    requires '\n' in a && a[0] != '\n' && !StartsWithCRLF(a)
    requires LineSplit(a[1..] + b) == CompleteLines(a[1..]) + LineSplit(Pending(a[1..]) + b)
    ensures LineSplit(a + b) == CompleteLines(a) + LineSplit(Pending(a) + b)
  {
    var c, a' := a[0], a[1..];
    assert '\n' in a' by {
      var j :| 0 <= j < |a| && a[j] == '\n';
      assert a'[j - 1] == '\n';
    }
    var l := LineSplit(a');
    assert |l| >= 2 by {
      LineCount(a');
    }
    assert CompleteLines(a) == Extend(c, CompleteLines(a')) && Pending(a) == Pending(a') by {
      assert LineSplit(a) == Extend(c, l);
      ExtendLast(c, l);
    }
    assert LineSplit(a + b) == Extend(c, LineSplit(a' + b)) by {
      assert (a + b)[1..] == a' + b;
      assert (a + b)[0] == c && (a + b)[1] == a[1];
    }
    ExtendAppend(c, CompleteLines(a'), LineSplit(Pending(a') + b));
  }

  /** Putting a character in front of the first piece changes neither the number of pieces nor the last one. */
  lemma ExtendLast(c: char, l: seq<string>)
    requires |l| >= 2
    ensures |Extend(c, l)| == |l|
    ensures Extend(c, l)[..|l| - 1] == Extend(c, l[..|l| - 1])
    ensures Extend(c, l)[|l| - 1] == l[|l| - 1]
  {
  }

  /** The same, for what `lines()` returns and what it leaves pending. */
  lemma SplitAppend(a: string, b: string)
    ensures CompleteLines(a + b) == CompleteLines(a) + CompleteLines(Pending(a) + b)
    ensures Pending(a + b) == Pending(Pending(a) + b)
  {
    LineSplitAppend(a, b);
  }

  /** What `lines()` leaves in the buffer holds no `\n`. */
  lemma PendingFree(s: string)
    ensures '\n' !in Pending(s)
  {
    LineSplitIsLineCut(s);
    assert Pending(s) == LineSplit(s)[|LineSplit(s)| - 1];
  }

  /**
   * Chunk invariance: starting from a drained buffer, pushing chunks one at
   * a time and draining after each push yields the same lines, and leaves the same pending text, as pushing
   * their concatenation and draining once.
   */
  lemma {:induction false} ChunkInvariance(pending: string, chunks: seq<string>)
    requires '\n' !in pending
    decreases |chunks|
    ensures DrainEach(pending, chunks)
         == (CompleteLines(pending + Concat(chunks)), Pending(pending + Concat(chunks)))
  {
    if chunks == [] {
      NoBreak(pending);
      assert pending + Concat(chunks) == pending;
    } else {
      var text := pending + chunks[0];
      PendingFree(text);
      ChunkInvariance(Pending(text), chunks[1..]);
      ChunkStep(pending, chunks);
    }
  }

  /** One push and drain, followed by the drains of the other chunks, is one drain of them all. */
  lemma ChunkStep(pending: string, chunks: seq<string>)
    requires chunks != []
    requires var text := pending + chunks[0];
      DrainEach(Pending(text), chunks[1..])
      == (CompleteLines(Pending(text) + Concat(chunks[1..])), Pending(Pending(text) + Concat(chunks[1..])))
    ensures DrainEach(pending, chunks)
         == (CompleteLines(pending + Concat(chunks)), Pending(pending + Concat(chunks)))
  {
    var after := DrainEach(Pending(pending + chunks[0]), chunks[1..]);
    assert DrainEach(pending, chunks) == (CompleteLines(pending + chunks[0]) + after.0, after.1);
    DrainStep(pending, chunks[0], Concat(chunks[1..]), after);
  }

  /** Splitting `pending + first`, then the rest after its pending text, is splitting all of it. */
  lemma DrainStep(pending: string, first: string, rest: string, after: (seq<string>, string))
    requires after == (CompleteLines(Pending(pending + first) + rest), Pending(Pending(pending + first) + rest))
    ensures (CompleteLines(pending + first) + after.0, after.1)
         == (CompleteLines(pending + (first + rest)), Pending(pending + (first + rest)))
  {
    SplitAppend(pending + first, rest);
    assert pending + (first + rest) == (pending + first) + rest;
  }

}
