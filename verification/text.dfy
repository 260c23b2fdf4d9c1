/**
 * The handful of Python string operations the program relies on: `str.strip()`,
 * `str.split()`, `' '.join(...)`, `in` on strings, `str.startswith` and `str.lower()`.
 * Python's notion of whitespace and of letter case covers all of Unicode; here both are
 * restricted to ASCII.
 */
module Text {

  /**
   * The ASCII characters that `str.strip()` and `str.split()` treat as whitespace: tab, line
   * feed, vertical tab, form feed, carriage return, the four separators U+001C to U+001F,
   * and space.
   */
  predicate IsSpace(c: char) {
    ('\t' <= c <= '\r') || ('\U{001C}' <= c <= ' ')
  }

  predicate AllSpace(s: string) {
    forall i :: 0 <= i < |s| ==> IsSpace(s[i])
  }

  predicate NoSpace(s: string) {
    forall i :: 0 <= i < |s| ==> !IsSpace(s[i])
  }

  /** `s.startswith(p)` */
  predicate StartsWith(s: string, p: string) {
    |p| <= |s| && s[..|p|] == p
  }

  /** `sub in s` */
  predicate Contains(s: string, sub: string)
    decreases |s|
  {
    StartsWith(s, sub) || (|s| > 0 && Contains(s[1..], sub))
  }

  /** `s.lower()` on ASCII letters. */
  function Lower(s: string): (r: string)
    ensures |r| == |s|
    ensures forall i :: 0 <= i < |s| ==> ('A' <= s[i] <= 'Z' ==> r[i] as int == s[i] as int + 32)
    ensures forall i :: 0 <= i < |s| ==> (!('A' <= s[i] <= 'Z') ==> r[i] == s[i])
  {
    seq(|s|, i requires 0 <= i < |s| => if 'A' <= s[i] <= 'Z' then (s[i] as int + 32) as char else s[i])
  }

  /** Number of whitespace characters at the front of `s`. */
  function LeadingSpaces(s: string): (n: nat)
    ensures n <= |s|
    ensures AllSpace(s[..n])
    ensures n < |s| ==> !IsSpace(s[n])
  {
    if |s| > 0 && IsSpace(s[0]) then
      var n := 1 + LeadingSpaces(s[1..]);
      assert s[..n] == [s[0]] + s[1..][..n - 1];
      n
    else 0
  }

  /** Length of `s` once its trailing whitespace is dropped. */
  function TrailingStart(s: string): (n: nat)
    ensures n <= |s|
    ensures AllSpace(s[n..])
    ensures n > 0 ==> !IsSpace(s[n - 1])
  {
    if |s| > 0 && IsSpace(s[|s| - 1]) then
      var n := TrailingStart(s[..|s| - 1]);
      assert s[n..] == s[..|s| - 1][n..] + [s[|s| - 1]];
      n
    else |s|
  }

  /** `s.strip()`: `s` without its leading and trailing whitespace (see `StripIsTrim`). */
  function Strip(s: string): (r: string)
    ensures (r == []) <==> AllSpace(s)
    ensures r != [] ==> !IsSpace(r[0]) && !IsSpace(r[|r| - 1])
  {
    var a := LeadingSpaces(s);
    var t := s[a..];
    var b := TrailingStart(t);
    StripWitness(s, a, b);
    t[..b]
  }

  /** `s.strip()` is a piece of `s` with only whitespace on either side of it. */
  lemma StripIsTrim(s: string)
    ensures var r := Strip(s);
      exists a :: 0 <= a <= |s| - |r| && s[a..a + |r|] == r && AllSpace(s[..a]) && AllSpace(s[a + |r|..])
  {
    var a := LeadingSpaces(s);
    StripWitness(s, a, TrailingStart(s[a..]));
    var r := Strip(s);
    assert 0 <= a <= |s| - |r| && s[a..a + |r|] == r && AllSpace(s[..a]) && AllSpace(s[a + |r|..]);
  }

  lemma StripWitness(s: string, a: nat, b: nat)
    requires a == LeadingSpaces(s) && b == TrailingStart(s[a..])
    ensures var r := s[a..][..b];
      && ((r == []) <==> AllSpace(s))
      && (r != [] ==> !IsSpace(r[0]) && !IsSpace(r[|r| - 1]))
      && s[a..a + |r|] == r && AllSpace(s[..a]) && AllSpace(s[a + |r|..])
  {
    var t := s[a..];
    var r := t[..b];
    assert s[a..a + |r|] == r;
    assert s[a + |r|..] == t[b..];
    if r == [] {
      forall i | 0 <= i < |s| ensures IsSpace(s[i]) {
        assert s[..a][i] == s[i];
      }
    } else {
      assert r[0] == s[a];
    }
  }

  /** Length of the first word of `s`, which starts with a non-space character. */
  function WordLength(s: string): (n: nat)
    ensures n <= |s|
    ensures NoSpace(s[..n])
    ensures n < |s| ==> IsSpace(s[n])
  {
    if |s| > 0 && !IsSpace(s[0]) then
      var n := 1 + WordLength(s[1..]);
      assert s[..n] == [s[0]] + s[1..][..n - 1];
      n
    else 0
  }

  /** `s.split()`: the maximal runs of non-whitespace characters, in order. */
  function Words(s: string): (ws: seq<string>)
    ensures forall i :: 0 <= i < |ws| ==> ws[i] != [] && NoSpace(ws[i])
    ensures AllSpace(s) <==> ws == []
    decreases |s|
  {
    if s == [] then []
    else if IsSpace(s[0]) then
      var ws := Words(s[1..]);
      assert AllSpace(s) <==> AllSpace(s[1..]) by {
        if AllSpace(s[1..]) {
          forall i | 0 <= i < |s| ensures IsSpace(s[i]) { if i > 0 { assert s[1..][i - 1] == s[i]; } }
        }
      }
      ws
    else
      var n := WordLength(s);
      [s[..n]] + Words(s[n..])
  }

  /** A word followed by a space or by nothing has exactly its own length as first word. */
  lemma {:induction false} WordLengthOf(w: string, rest: string)
    requires NoSpace(w) && (rest == [] || IsSpace(rest[0]))
    ensures WordLength(w + rest) == |w|
    decreases |w|
  {
    if w != [] {
      assert (w + rest)[1..] == w[1..] + rest;
      WordLengthOf(w[1..], rest);
    } else {
      assert w + rest == rest;
    }
  }

  /** Splitting a word, a space and more text gives the word, then the words of the rest. */
  lemma WordsCons(w: string, rest: string)
    requires w != [] && NoSpace(w)
    ensures Words(w + " " + rest) == [w] + Words(rest)
  {
    var s := w + " " + rest;
    assert s == w + (" " + rest);
    WordLengthOf(w, " " + rest);
    assert s[..|w|] == w;
    assert s[|w|..] == " " + rest;
    assert (" " + rest)[1..] == rest;
  }

  /** Splitting a single word gives that word. */
  lemma WordsSingle(w: string)
    requires w != [] && NoSpace(w)
    ensures Words(w) == [w]
  {
    WordLengthOf(w, []);
    assert w + [] == w;
    assert w[|w|..] == [];
  }

  /** `' '.join(ws)` */
  function Join(ws: seq<string>): string {
    if ws == [] then []
    else if |ws| == 1 then ws[0]
    else ws[0] + " " + Join(ws[1..])
  }

  /** Joining two non-empty groups of words is joining each and putting one space between. */
  lemma {:induction false} JoinAppend(a: seq<string>, b: seq<string>)
    requires a != [] && b != []
    ensures Join(a + b) == Join(a) + " " + Join(b)
    decreases |a|
  {
    if |a| == 1 {
      assert a + b == [a[0]] + b;
      assert (a + b)[1..] == b;
    } else {
      assert (a + b)[1..] == a[1..] + b;
      JoinAppend(a[1..], b);
    }
  }

  /** `' '.join` then `split()` gives back words that are non-empty and free of whitespace. */
  lemma {:induction false} WordsOfJoin(ws: seq<string>)
    requires forall i :: 0 <= i < |ws| ==> ws[i] != [] && NoSpace(ws[i])
    ensures Words(Join(ws)) == ws
  {
    if |ws| == 1 {
      WordsSingle(ws[0]);
    } else if |ws| > 1 {
      WordsOfJoin(ws[1..]);
      WordsCons(ws[0], Join(ws[1..]));
      assert [ws[0]] + ws[1..] == ws;
    }
  }

  /** Index of the first occurrence of `x` in `s`. */
  function FirstIndex(s: seq<string>, x: string): (k: nat)
    requires x in s
    ensures k < |s| && s[k] == x && x !in s[..k]
  {
    if s[0] == x then 0 else 1 + FirstIndex(s[1..], x)
  }

  lemma {:induction false} FirstIndexOfPrefix(init: seq<string>, c: string, x: string)
    requires x in init
    ensures FirstIndex(init + [c], x) == FirstIndex(init, x)
    decreases |init|
  {
    if init[0] != x {
      assert (init + [c])[1..] == init[1..] + [c];
      FirstIndexOfPrefix(init[1..], c, x);
    }
  }

  lemma {:induction false} FirstIndexAtEnd(init: seq<string>, c: string)
    requires c !in init
    ensures FirstIndex(init + [c], c) == |init|
    decreases |init|
  {
    if init != [] {
      assert (init + [c])[1..] == init[1..] + [c];
      FirstIndexAtEnd(init[1..], c);
    }
  }
}
