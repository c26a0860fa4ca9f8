/**
 * String primitives the Python code relies on: the whitespace class used by
 * `\s`, `str.strip()` and `str.split()`, slicing with a clamped upper bound,
 * `" ".join(...)` and decimal formatting of a natural number.
 */
module Text {

  /** Python's `str.isspace()` set, which is also what `\s` matches in a `str` pattern. */
  predicate IsSpace(c: char) {
    var n := c as int;
    (9 <= n <= 13) || (28 <= n <= 32) || n == 0x85 || n == 0xA0 || n == 0x1680
    || (0x2000 <= n <= 0x200A) || n == 0x2028 || n == 0x2029 || n == 0x202F
    || n == 0x205F || n == 0x3000
  }

  predicate AllSpace(s: string) {
    forall k :: 0 <= k < |s| ==> IsSpace(s[k])
  }

  predicate NoSpace(s: string) {
    forall k :: 0 <= k < |s| ==> !IsSpace(s[k])
  }

  /** A string with no whitespace at either end: what `strip()` produces. */
  predicate Stripped(s: string) {
    s == [] || (!IsSpace(s[0]) && !IsSpace(s[|s| - 1]))
  }

  /** Words separated by single spaces: no whitespace at the ends, and every gap one ' '. */
  predicate SingleSpaced(s: string) {
    && Stripped(s)
    && (forall k :: 0 <= k < |s| && IsSpace(s[k]) ==> s[k] == ' ')
    && (forall k :: 0 < k < |s| && IsSpace(s[k]) ==> !IsSpace(s[k - 1]))
  }

  /** Length of the whitespace run at the start of `s`. */
  function LeadingSpaces(s: string): (n: nat)
    ensures n <= |s|
    ensures AllSpace(s[..n])
    ensures n < |s| ==> !IsSpace(s[n])
  {
    if s == [] || !IsSpace(s[0]) then 0 else 1 + LeadingSpaces(s[1..])
  }

  /** Length of the whitespace run at the end of `s`. */
  function TrailingSpaces(s: string): (n: nat)
    ensures n <= |s|
    ensures AllSpace(s[|s| - n..])
    ensures n < |s| ==> !IsSpace(s[|s| - 1 - n])
  {
    if s == [] || !IsSpace(s[|s| - 1]) then 0 else 1 + TrailingSpaces(s[..|s| - 1])
  }

  /** `s.strip()`: the slice of `s` left once whitespace is removed from both ends. */
  function Strip(s: string): (r: string)
    ensures Stripped(r)
    ensures LeadingSpaces(s) + |r| <= |s|
    ensures r == s[LeadingSpaces(s)..LeadingSpaces(s) + |r|]
    ensures AllSpace(s[LeadingSpaces(s) + |r|..])
    ensures r == [] <==> AllSpace(s)
  {
    var n := LeadingSpaces(s);
    if n == |s| then
      assert s[..n] == s;
      []
    else
      var m := TrailingSpaces(s);
      TrailingAfterLeading(s, n, m);
      s[n..|s| - m]
  }

  /** The trailing whitespace run cannot reach back to a character that is not whitespace. */
  lemma TrailingAfterLeading(s: string, n: nat, m: nat)
    requires n < |s| && !IsSpace(s[n])
    requires m <= |s| && AllSpace(s[|s| - m..])
    ensures n < |s| - m
  {
  }

  lemma {:induction false} LeadingSpacesOfPadded(front: string, u: string)
    requires AllSpace(front) && (u == [] || !IsSpace(u[0]))
    ensures LeadingSpaces(front + u) == |front|
  {
    if front != [] {
      assert (front + u)[1..] == front[1..] + u;
      LeadingSpacesOfPadded(front[1..], u);
    }
  }

  lemma {:induction false} TrailingSpacesOfPadded(u: string, back: string)
    requires AllSpace(back) && (u == [] || !IsSpace(u[|u| - 1]))
    ensures TrailingSpaces(u + back) == |back|
  {
    if back != [] {
      assert (u + back)[..|u + back| - 1] == u + back[..|back| - 1];
      TrailingSpacesOfPadded(u, back[..|back| - 1]);
    }
  }

  /** Stripping undoes any whitespace padding around an already stripped text. */
  lemma StripPadded(front: string, t: string, back: string)
    requires AllSpace(front) && AllSpace(back) && Stripped(t)
    ensures Strip(front + t + back) == t
  {
    var s := front + t + back;
    if t == [] {
      assert s == front + back;
      assert AllSpace(s) by {
        forall k | 0 <= k < |s| ensures IsSpace(s[k]) {
          if k < |front| { assert s[k] == front[k]; } else { assert s[k] == back[k - |front|]; }
        }
      }
    } else {
      assert s == front + (t + back);
      LeadingSpacesOfPadded(front, t + back);
      assert s == (front + t) + back;
      TrailingSpacesOfPadded(front + t, back);
      assert s[|front|..|s| - |back|] == t;
    }
  }

  /** Length of the run of non-whitespace characters at the start of `s`. */
  function WordLength(s: string): (n: nat)
    ensures n <= |s|
    ensures NoSpace(s[..n])
    ensures n < |s| ==> IsSpace(s[n])
  {
    if s == [] || IsSpace(s[0]) then 0 else 1 + WordLength(s[1..])
  }

  /** `s.split()`: the maximal runs of non-whitespace characters, in order. */
  function Words(s: string): (ws: seq<string>)
    ensures forall i :: 0 <= i < |ws| ==> ws[i] != [] && NoSpace(ws[i])
    ensures ws == [] <==> AllSpace(s)
    decreases |s|
  {
    var t := s[LeadingSpaces(s)..];
    if t == [] then []
    else
      var w := WordLength(t);
      [t[..w]] + Words(t[w..])
  }

  /** `sep.join(ws)`. */
  function Join(ws: seq<string>, sep: string): (r: string)
    ensures ws != [] ==> ws[0] <= r
    ensures |ws| == 1 ==> r == ws[0]
  {
    if ws == [] then []
    else if |ws| == 1 then ws[0]
    else ws[0] + sep + Join(ws[1..], sep)
  }

  /** Leading whitespace is invisible to `split()`. */
  lemma WordsAfterSpace(c: char, s: string)
    requires IsSpace(c)
    ensures Words([c] + s) == Words(s)
  {
    var u := [c] + s;
    assert u[1..] == s;
    assert LeadingSpaces(u) == 1 + LeadingSpaces(s);
    assert u[LeadingSpaces(u)..] == s[LeadingSpaces(s)..];
  }

  lemma {:induction false} WordLengthOfWord(w: string, rest: string)
    requires NoSpace(w) && (rest == [] || IsSpace(rest[0]))
    ensures WordLength(w + rest) == |w|
  {
    if w != [] {
      assert (w + rest)[1..] == w[1..] + rest;
      WordLengthOfWord(w[1..], rest);
    }
  }

  /** A word followed by whitespace or nothing is the first word of the text. */
  lemma WordThenRest(w: string, rest: string)
    requires w != [] && NoSpace(w) && (rest == [] || IsSpace(rest[0]))
    ensures Words(w + rest) == [w] + Words(rest)
  {
    var s := w + rest;
    assert s[0] == w[0];
    assert LeadingSpaces(s) == 0;
    assert s[0..] == s;
    WordLengthOfWord(w, rest);
    assert s[..|w|] == w;
    assert s[|w|..] == rest;
  }

  lemma WordThenSpace(w: string, tail: string)
    requires w != [] && NoSpace(w)
    ensures Words(w + ([' '] + tail)) == [w] + Words(tail)
  {
    WordThenRest(w, [' '] + tail);
    WordsAfterSpace(' ', tail);
  }

  /** Splitting words that were joined by single spaces gives the words back. */
  lemma {:induction false} WordsOfJoin(ws: seq<string>)
    requires forall i :: 0 <= i < |ws| ==> ws[i] != [] && NoSpace(ws[i])
    ensures Words(Join(ws, " ")) == ws
  {
    if ws != [] {
      var w := ws[0];
      if |ws| == 1 {
        WordThenRest(w, []);
        assert w + [] == w;
      } else {
        var more := ws[1..];
        var tail := Join(more, " ");
        assert Join(ws, " ") == w + ([' '] + tail);
        WordThenSpace(w, tail);
        assert forall i :: 0 <= i < |more| ==> more[i] == ws[i + 1];
        WordsOfJoin(more);
        assert [w] + more == ws;
      }
    }
  }

  /** `" ".join(ws)` of non-empty words is single-spaced. */
  lemma {:induction false} JoinSingleSpaced(ws: seq<string>)
    requires ws != []
    requires forall i :: 0 <= i < |ws| ==> ws[i] != [] && NoSpace(ws[i])
    ensures SingleSpaced(Join(ws, " "))
  {
    var w := ws[0];
    if |ws| > 1 {
      var more := ws[1..];
      var tail := Join(more, " ");
      assert forall i :: 0 <= i < |more| ==> more[i] == ws[i + 1];
      JoinSingleSpaced(more);
      assert more[0] <= tail;
      var s := w + " " + tail;
      assert Join(ws, " ") == s;
      forall k | 0 <= k < |s|
        ensures IsSpace(s[k]) ==> s[k] == ' '
        ensures 0 < k && IsSpace(s[k]) ==> !IsSpace(s[k - 1])
      {
        if k < |w| {
          assert s[k] == w[k];
        } else if k == |w| {
          assert s[k - 1] == w[|w| - 1];
        } else if k == |w| + 1 {
          assert s[k] == tail[0];
        } else {
          assert s[k] == tail[k - |w| - 1];
          assert s[k - 1] == tail[k - 1 - |w| - 1];
        }
      }
      assert s[|s| - 1] == tail[|tail| - 1];
    }
  }

  /** `s[:n]` in Python: the first `n` elements, or all of `s` when it is shorter. */
  function Take<T>(s: seq<T>, n: nat): (r: seq<T>)
    ensures |r| == if n < |s| then n else |s|
    ensures r <= s
  {
    if n < |s| then s[..n] else s
  }

  function DigitChar(d: nat): char
    requires d < 10
  {
    "0123456789"[d]
  }

  /** `str(n)` for a natural number: its decimal digits, without leading zeros. */
  function NatToString(n: nat): (r: string)
    ensures r != []
    ensures forall k :: 0 <= k < |r| ==> '0' <= r[k] <= '9'
    ensures |r| > 1 ==> r[0] != '0'
  {
    if n < 10 then [DigitChar(n)] else NatToString(n / 10) + [DigitChar(n % 10)]
  }

  /** The value of a string of decimal digits. */
  function DecimalValue(s: string): nat
    requires forall k :: 0 <= k < |s| ==> '0' <= s[k] <= '9'
  {
    if s == [] then 0 else 10 * DecimalValue(s[..|s| - 1]) + (s[|s| - 1] as int - '0' as int)
  }

  /** Reading back the decimal form of `n` gives `n`. */
  lemma {:induction false} DecimalRoundTrip(n: nat)
    ensures DecimalValue(NatToString(n)) == n
  {
    if n >= 10 {
      DecimalRoundTrip(n / 10);
      var s := NatToString(n);
      assert s[..|s| - 1] == NatToString(n / 10);
    }
  }
}
