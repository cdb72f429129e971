/**
 * Python's `str.split()` with no separator, which the host applies to every
 * chunk it reads (src/loadcell_liveplot.py:54): the maximal runs of
 * non-whitespace characters, in order, with runs of whitespace of any length
 * (and leading or trailing whitespace) producing no empty tokens.
 */
module Tokens {

  /** The characters Python's `str.isspace()` accepts, which is the set `str.split()` splits on. */
  predicate IsSpace(c: char) {
    || c == ' '
    || ('\t' <= c <= '\r')
    || ('\U{1c}' <= c <= '\U{1f}')
    || c == '\U{85}' || c == '\U{a0}' || c == '\U{1680}'
    || ('\U{2000}' <= c <= '\U{200a}')
    || c == '\U{2028}' || c == '\U{2029}' || c == '\U{202f}' || c == '\U{205f}' || c == '\U{3000}'
  }

  /** A word `str.split()` can return: non-empty and free of whitespace. */
  predicate IsToken(w: string) {
    |w| > 0 && forall i | 0 <= i < |w| :: !IsSpace(w[i])
  }

  /** A sequence of words `str.split()` can return. */
  predicate AllTokens(ws: seq<string>) {
    forall i | 0 <= i < |ws| :: IsToken(ws[i])
  }

  /** What is left once the leading whitespace is dropped. */
  function SkipSpaces(s: string): (r: string)
    ensures |r| <= |s|
    ensures r == [] || !IsSpace(r[0])
  {
    if s != [] && IsSpace(s[0]) then SkipSpaces(s[1..]) else s
  }

  /** The length of the leading run of non-whitespace characters. */
  function WordLength(s: string): (n: nat)
    ensures n <= |s|
    ensures s != [] && !IsSpace(s[0]) ==> n > 0
  {
    if s == [] || IsSpace(s[0]) then 0 else 1 + WordLength(s[1..])
  }

  /** `s.split()`. */
  function Split(s: string): (r: seq<string>)
    // every token takes at least one character
    ensures |r| <= |s|
    decreases |s|
  {
    var t := SkipSpaces(s);
    if t == [] then []
    else
      var n := WordLength(t);
      [t[..n]] + Split(t[n..])
  }

  /** The leading run `WordLength` measures holds no whitespace. */
  lemma {:induction false} WordLengthNoSpace(s: string)
    ensures forall i | 0 <= i < WordLength(s) :: !IsSpace(s[i])
    decreases |s|
  {
    if s != [] && !IsSpace(s[0]) {
      WordLengthNoSpace(s[1..]);
      forall i | 0 <= i < WordLength(s) ensures !IsSpace(s[i]) {
        if i > 0 {
          assert s[i] == s[1..][i - 1];
        }
      }
    }
  }

  /** Every token of a split is non-empty and free of whitespace. */
  lemma {:induction false} SplitTokens(s: string)
    ensures AllTokens(Split(s))
    decreases |s|
  {
    var t := SkipSpaces(s);
    if t != [] {
      var n := WordLength(t);
      WordLengthNoSpace(t);
      SplitTokens(t[n..]);
      var r := Split(t[n..]);
      assert Split(s) == [t[..n]] + r;
      forall i | 0 <= i < |Split(s)| ensures IsToken(Split(s)[i]) {
        if i > 0 {
          assert Split(s)[i] == r[i - 1];
        }
      }
    }
  }

  /** Whitespace in front of a string changes nothing in its split. */
  lemma SplitAfterSpace(c: char, s: string)
    requires IsSpace(c)
    ensures Split([c] + s) == Split(s)
  {
    assert ([c] + s)[1..] == s;
  }

  /** A word followed by whitespace (or by nothing) is split off as one token. */
  lemma SplitAfterWord(w: string, rest: string)
    requires IsToken(w)
    requires rest == [] || IsSpace(rest[0])
    ensures Split(w + rest) == [w] + Split(rest)
  {
    var s := w + rest;
    assert SkipSpaces(s) == s;
    WordLengthOfWord(w, rest);
    assert s[..|w|] == w && s[|w|..] == rest;
  }

  /** A word and the single space after it. */
  lemma SplitWordSpace(w: string, rest: string)
    requires IsToken(w)
    ensures Split(w + ([' '] + rest)) == [w] + Split(rest)
  {
    SplitAfterWord(w, [' '] + rest);
    SplitAfterSpace(' ', rest);
  }

  /** A word at the end of a line: the CR LF that `println` writes after it. */
  lemma SplitWordEol(w: string, rest: string)
    requires IsToken(w)
    ensures Split(w + ("\r\n" + rest)) == [w] + Split(rest)
  {
    SplitAfterWord(w, "\r\n" + rest);
    assert "\r\n" + rest == ['\r'] + (['\n'] + rest);
    SplitAfterSpace('\r', ['\n'] + rest);
    SplitAfterSpace('\n', rest);
  }

  lemma {:induction false} WordLengthOfWord(w: string, rest: string)
    requires forall i | 0 <= i < |w| :: !IsSpace(w[i])
    requires rest == [] || IsSpace(rest[0])
    ensures WordLength(w + rest) == |w|
    decreases |w|
  {
    if w == [] {
      assert w + rest == rest;
    } else {
      assert (w + rest)[1..] == w[1..] + rest;
      WordLengthOfWord(w[1..], rest);
    }
  }

  /** Words separated by single spaces: the text a writer of space-separated tokens produces. */
  function Join(ws: seq<string>): string
    decreases |ws|
  {
    if ws == [] then [] else if |ws| == 1 then ws[0] else ws[0] + ([' '] + Join(ws[1..]))
  }

  /**
   * Splitting words joined by single spaces gives the words back, also when
   * more text follows after whitespace.  This is the general inverse of
   * `Join`; the line protocol proves its two- and four-word instances
   * directly (`Protocol.SplitTwoWords`, `Protocol.SplitFourWords`), which
   * keeps those proofs small.
   */
  lemma {:induction false} SplitJoin(ws: seq<string>, rest: string)
    requires AllTokens(ws)
    requires rest == [] || IsSpace(rest[0])
    ensures Split(Join(ws) + rest) == ws + Split(rest)
    decreases |ws|
  {
    if ws == [] {
      JoinNone(rest);
    } else if |ws| == 1 {
      JoinOne(ws, rest);
    } else {
      SplitJoinStep(ws, rest);
      assert AllTokens(ws[1..]) by {
        forall i | 0 <= i < |ws| - 1 ensures IsToken(ws[1..][i]) {
          assert ws[1..][i] == ws[i + 1];
        }
      }
      SplitJoin(ws[1..], rest);
      ConsAppend(ws, Split(rest));
    }
  }

  lemma JoinNone(rest: string)
    ensures Split(Join([]) + rest) == [] + Split(rest)
  {
    assert Join([]) + rest == rest;
  }

  lemma JoinOne(ws: seq<string>, rest: string)
    requires |ws| == 1 && IsToken(ws[0])
    requires rest == [] || IsSpace(rest[0])
    ensures Split(Join(ws) + rest) == ws + Split(rest)
  {
    SplitAfterWord(ws[0], rest);
    assert [ws[0]] == ws;
  }

  /** The first word of a join of two or more words is split off, with the separating space. */
  lemma SplitJoinStep(ws: seq<string>, rest: string)
    requires |ws| > 1 && IsToken(ws[0])
    ensures Split(Join(ws) + rest) == [ws[0]] + Split(Join(ws[1..]) + rest)
  {
    var tail := Join(ws[1..]) + rest;
    assert Join(ws) + rest == ws[0] + ([' '] + tail);
    SplitAfterWord(ws[0], [' '] + tail);
    SplitAfterSpace(' ', tail);
  }

  lemma ConsAppend<T>(s: seq<T>, t: seq<T>)
    requires s != []
    ensures [s[0]] + (s[1..] + t) == s + t
  {
    assert [s[0]] + s[1..] == s;
  }
}
