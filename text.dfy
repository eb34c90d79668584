/**
 * The handful of Python `str` operations the library relies on, stated on
 * `string` (a sequence of characters): `startswith`, `in`, `index`,
 * `split(sep)`, `sep.join`, `lstrip`/`rstrip`/`strip` of one character and
 * `lower`/`upper` (ASCII letters only).
 */
module Text {

  /** `s.startswith(c)` for a one-character argument. */
  predicate StartsWith(s: string, c: char) {
    |s| > 0 && s[0] == c
  }

  /** `s.endswith(c)` for a one-character argument. */
  predicate EndsWith(s: string, c: char) {
    |s| > 0 && s[|s| - 1] == c
  }

  /** `s.count(c)`: the number of occurrences of `c` in `s`. */
  function Count(s: string, c: char): (n: nat)
    ensures n <= |s|
    ensures n == 0 <==> c !in s
  {
    if s == [] then 0
    else (if s[0] == c then 1 else 0) + Count(s[1..], c)
  }

  /** `s.index(c)`: the position of the first `c` in `s`. */
  function IndexOf(s: string, c: char): (i: nat)
    requires c in s
    ensures i < |s| && s[i] == c
    ensures c !in s[..i]
  {
    if s[0] == c then 0
    else
      assert c in s[1..] by { var j :| 0 <= j < |s| && s[j] == c; assert s[1..][j - 1] == c; }
      var k := IndexOf(s[1..], c);
      assert s[..k + 1] == [s[0]] + s[1..][..k];
      k + 1
  }

  /** `s.split(sep)`: the pieces between the occurrences of `sep`, always at least one. */
  function Split(s: string, sep: char): (parts: seq<string>)
    ensures |parts| >= 1
  {
    if s == [] then [""]
    else if s[0] == sep then [""] + Split(s[1..], sep)
    else
      var rest := Split(s[1..], sep);
      [[s[0]] + rest[0]] + rest[1..]
  }

  /** `sep.join(parts)`. */
  function Join(parts: seq<string>, sep: char): string
  {
    if |parts| == 0 then ""
    else if |parts| == 1 then parts[0]
    else parts[0] + [sep] + Join(parts[1..], sep)
  }

  /** `s.split(sep, 1)` when `sep` occurs: the text before and after the first `sep`. */
  function SplitOnce(s: string, sep: char): (r: (string, string))
    requires sep in s
    ensures sep !in r.0
    ensures s == r.0 + [sep] + r.1
  {
    var i := IndexOf(s, sep);
    assert s == s[..i] + [sep] + s[i + 1..];
    (s[..i], s[i + 1..])
  }

  /** `s.lstrip(c)`: `s` without its leading run of `c`. */
  function LStrip(s: string, c: char): (r: string)
    ensures |r| <= |s| && r == s[|s| - |r|..]
    ensures !StartsWith(r, c)
    ensures forall i :: 0 <= i < |s| - |r| ==> s[i] == c
  {
    if StartsWith(s, c) then LStrip(s[1..], c) else s
  }

  /** `s.rstrip(c)`: `s` without its trailing run of `c`. */
  function RStrip(s: string, c: char): (r: string)
    ensures |r| <= |s| && r == s[..|r|]
    ensures !EndsWith(r, c)
    ensures forall i :: |r| <= i < |s| ==> s[i] == c
  {
    if EndsWith(s, c) then RStrip(s[..|s| - 1], c) else s
  }

  /** `s.strip(c)`: the leading run of `c` dropped one character at a time, then the trailing run. */
  function Strip(s: string, c: char): string {
    if StartsWith(s, c) then Strip(s[1..], c) else RStrip(s, c)
  }

  function LowerChar(ch: char): char {
    if 'A' <= ch <= 'Z' then (ch as int + 32) as char else ch
  }

  function UpperChar(ch: char): char {
    if 'a' <= ch <= 'z' then (ch as int - 32) as char else ch
  }

  /** `s.lower()`, restricted to ASCII letters. */
  function Lower(s: string): string {
    seq(|s|, i requires 0 <= i < |s| => LowerChar(s[i]))
  }

  /** `s.upper()`, restricted to ASCII letters. */
  function Upper(s: string): string {
    seq(|s|, i requires 0 <= i < |s| => UpperChar(s[i]))
  }

  /** A string with no upper-case ASCII letter. */
  predicate IsLower(s: string) {
    forall i :: 0 <= i < |s| ==> !('A' <= s[i] <= 'Z')
  }

  // ---------------------------------------------------------------------
  // Lemmas

  lemma {:induction false} CountAppend(a: string, b: string, c: char)
    ensures Count(a + b, c) == Count(a, c) + Count(b, c)
  {
    if a == [] {
      assert a + b == b;
    } else {
      assert (a + b)[1..] == a[1..] + b;
      CountAppend(a[1..], b, c);
    }
  }

  /** The first `sep` of `a + [sep] + b` is the one just after `a` when `a` has none. */
  lemma IndexOfAfter(a: string, b: string, sep: char)
    requires sep !in a
    ensures sep in a + [sep] + b
    ensures IndexOf(a + [sep] + b, sep) == |a|
  {
    var s := a + [sep] + b;
    assert s[|a|] == sep;
  }

  lemma JoinCons(x: string, rest: seq<string>, sep: char)
    ensures Join([x] + rest, sep) == if rest == [] then x else x + [sep] + Join(rest, sep)
  {
    assert ([x] + rest)[1..] == rest;
  }

  /** Splitting undoes joining: `sep.join(s.split(sep)) == s`. */
  lemma {:induction false} JoinSplit(s: string, sep: char)
    ensures Join(Split(s, sep), sep) == s
  {
    if s != [] {
      var rest := Split(s[1..], sep);
      JoinSplit(s[1..], sep);
      if s[0] == sep {
        JoinCons("", rest, sep);
      } else {
        JoinExtend(s[0], rest, sep);
      }
      assert s == [s[0]] + s[1..];
    }
  }

  lemma JoinExtend(c: char, parts: seq<string>, sep: char)
    requires |parts| >= 1
    ensures Join([[c] + parts[0]] + parts[1..], sep) == [c] + Join(parts, sep)
  {
    JoinCons([c] + parts[0], parts[1..], sep);
    JoinCons(parts[0], parts[1..], sep);
    assert parts == [parts[0]] + parts[1..];
  }

  /** A separator splits its two sides independently. */
  lemma {:induction false} SplitAround(a: string, b: string, sep: char)
    ensures Split(a + [sep] + b, sep) == Split(a, sep) + Split(b, sep)
  {
    if a == [] {
      assert a + [sep] + b == [sep] + b;
      SplitCons(sep, b, sep);
    } else {
      var c, t := a[0], a[1..];
      assert a + [sep] + b == [c] + (t + [sep] + b) && a == [c] + t;
      SplitAround(t, b, sep);
      SplitAroundStep(c, t, t + [sep] + b, b, sep);
    }
  }

  /** The inductive step of `SplitAround`: one more character in front of `u`, the text around the separator. */
  lemma SplitAroundStep(c: char, t: string, u: string, b: string, sep: char)
    requires Split(u, sep) == Split(t, sep) + Split(b, sep)
    ensures Split([c] + u, sep) == Split([c] + t, sep) + Split(b, sep)
  {
    SplitCons(c, u, sep);
    SplitCons(c, t, sep);
    if c != sep {
      GlueFirst([c], Split(t, sep), Split(b, sep));
    }
  }

  /** How `Split` takes the first character. */
  lemma SplitCons(c: char, t: string, sep: char)
    ensures Split([c] + t, sep)
         == if c == sep then [""] + Split(t, sep) else [[c] + Split(t, sep)[0]] + Split(t, sep)[1..]
  {
    assert ([c] + t)[1..] == t;
  }

  /** Gluing text onto the first piece of `p + q` glues it onto the first piece of `p`. */
  lemma GlueFirst(x: string, p: seq<string>, q: seq<string>)
    requires |p| >= 1
    ensures [x + (p + q)[0]] + (p + q)[1..] == ([x + p[0]] + p[1..]) + q
  {
    assert (p + q)[1..] == p[1..] + q;
  }

  /** No piece of a split holds the separator. */
  lemma {:induction false} SplitPiecesFree(s: string, sep: char)
    ensures forall k :: 0 <= k < |Split(s, sep)| ==> sep !in Split(s, sep)[k]
  {
    if s != [] {
      SplitPiecesFree(s[1..], sep);
      var rest := Split(s[1..], sep);
      if s[0] != sep {
        assert Split(s, sep)[1..] == rest[1..];
      }
    }
  }

  /** Text without the separator splits into itself alone. */
  lemma {:induction false} SplitWithoutSeparator(s: string, sep: char)
    requires sep !in s
    ensures Split(s, sep) == [s]
  {
    if s != [] {
      assert s[0] != sep && sep !in s[1..];
      SplitWithoutSeparator(s[1..], sep);
      assert [s[0]] + s[1..] == s;
    }
  }

  /** Joining undoes splitting when no part holds the separator. */
  lemma {:induction false} SplitJoin(parts: seq<string>, sep: char)
    requires |parts| >= 1
    requires forall k :: 0 <= k < |parts| ==> sep !in parts[k]
    ensures Split(Join(parts, sep), sep) == parts
  {
    SplitWithoutSeparator(parts[0], sep);
    if |parts| > 1 {
      SplitJoin(parts[1..], sep);
      SplitAround(parts[0], Join(parts[1..], sep), sep);
    }
  }

  /** Joining parts that hold no separator, then a free last part, splits back into the parts and the split of the last. */
  lemma {:induction false} SplitJoinLast(parts: seq<string>, last: string, sep: char)
    requires forall k :: 0 <= k < |parts| ==> sep !in parts[k]
    ensures Split(Join(parts + [last], sep), sep) == parts + Split(last, sep)
  {
    if parts != [] {
      var p, tail := parts[0], parts[1..];
      var joined := Join(tail + [last], sep);
      assert Join(parts + [last], sep) == p + [sep] + joined by {
        assert parts + [last] == [p] + (tail + [last]);
        JoinCons(p, tail + [last], sep);
      }
      assert Split(joined, sep) == tail + Split(last, sep) by {
        SplitJoinLast(tail, last, sep);
      }
      assert Split(p + [sep] + joined, sep) == [p] + Split(joined, sep) by {
        SplitAround(p, joined, sep);
        SplitWithoutSeparator(p, sep);
      }
      assert parts == [p] + tail;
    }
  }

  /** A character that is neither the separator nor in any part is not in the join. */
  lemma {:induction false} JoinFree(parts: seq<string>, sep: char, c: char)
    requires c != sep
    requires forall k :: 0 <= k < |parts| ==> c !in parts[k]
    ensures c !in Join(parts, sep)
  {
    if |parts| > 1 {
      JoinFree(parts[1..], sep, c);
    }
  }

  lemma JoinTwo(parts: seq<string>, sep: char)
    requires |parts| == 2
    ensures Join(parts, sep) == parts[0] + [sep] + parts[1]
  {
    assert parts[1..] == [parts[1]];
  }

  /** Text with exactly one separator splits into the text before it and the text after it. */
  lemma SplitOne(s: string, sep: char)
    requires Count(s, sep) == 1
    ensures sep in s
    ensures Split(s, sep) == [SplitOnce(s, sep).0, SplitOnce(s, sep).1]
  {
    var (a, b) := SplitOnce(s, sep);
    CountAppend(a + [sep], b, sep);
    CountAppend(a, [sep], sep);
    SplitAround(a, b, sep);
    SplitWithoutSeparator(a, sep);
    SplitWithoutSeparator(b, sep);
  }

  /** Stripping a leading run of `c` keeps every other character's count. */
  lemma LStripCount(s: string, c: char, d: char)
    requires c != d
    ensures Count(LStrip(s, c), d) == Count(s, d)
  {
    var r := LStrip(s, c);
    var pre := s[..|s| - |r|];
    assert s == pre + r;
    CountAppend(pre, r, d);
    assert d !in pre;
  }

  /** Cutting at the first separator finds the one placed after separator-free text. */
  lemma SplitOnceAt(x: string, y: string, sep: char)
    requires sep !in x
    ensures sep in x + [sep] + y
    ensures SplitOnce(x + [sep] + y, sep) == (x, y)
  {
    IndexOfAfter(x, y, sep);
    var s := x + [sep] + y;
    assert s[..|x|] == x && s[|x| + 1..] == y;
  }

  /** `upper()` brings in no character that is not an upper-case ASCII letter. */
  lemma UpperFree(s: string, c: char)
    requires c !in s && !('A' <= c <= 'Z')
    ensures c !in Upper(s)
  {
    forall i | 0 <= i < |s| ensures Upper(s)[i] != c {
      if 'a' <= s[i] <= 'z' {
        assert Upper(s)[i] == (s[i] as int - 32) as char;
      }
    }
  }

  /** The first separator of text that does not start with it is the first separator of its tail. */
  lemma SplitOnceTail(s: string, sep: char)
    requires |s| > 0 && s[0] != sep && sep in s
    ensures sep in s[1..]
    ensures SplitOnce(s, sep) == ([s[0]] + SplitOnce(s[1..], sep).0, SplitOnce(s[1..], sep).1)
  {
    assert sep in s[1..] by { var j :| 0 <= j < |s| && s[j] == sep; assert s[1..][j - 1] == sep; }
    var k := IndexOf(s[1..], sep);
    assert IndexOf(s, sep) == k + 1;
    assert s[..k + 1] == [s[0]] + s[1..][..k];
  }

  /** `strip` removes both runs: it is `lstrip` followed by `rstrip`. */
  lemma {:induction false} StripBothEnds(s: string, c: char)
    ensures Strip(s, c) == RStrip(LStrip(s, c), c)
  {
    if StartsWith(s, c) {
      StripBothEnds(s[1..], c);
    }
  }

  /** `s.split(sep)` has one more piece than `s` has separators. */
  lemma {:induction false} SplitCount(s: string, sep: char)
    ensures |Split(s, sep)| == Count(s, sep) + 1
  {
    if s != [] {
      SplitCount(s[1..], sep);
    }
  }

  /** `lower()` leaves no upper-case ASCII letter behind. */
  /** `lower()` letter by letter: `A`..`Z` become `a`..`z`, every other character is kept. */
  lemma LowerChars(s: string)
    ensures |Lower(s)| == |s|
    ensures forall i :: 0 <= i < |s| && 'A' <= s[i] <= 'Z' ==> Lower(s)[i] as int == s[i] as int + 32
    ensures forall i :: 0 <= i < |s| && !('A' <= s[i] <= 'Z') ==> Lower(s)[i] == s[i]
  {
  }

  /** Text already in lower case is its own `lower()`. */
  lemma LowerKeeps(s: string)
    requires IsLower(s)
    ensures Lower(s) == s
  {
    LowerChars(s);
  }

  lemma LowerIsLower(s: string)
    ensures IsLower(Lower(s))
  {
    forall i | 0 <= i < |s| ensures !('A' <= Lower(s)[i] <= 'Z') {
      var ch := s[i];
      if 'A' <= ch <= 'Z' {
        assert Lower(s)[i] == (ch as int + 32) as char;
      }
    }
  }
}
