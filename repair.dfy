/**
 * The three string repairs applied to generator output before it is decoded:
 * trailing-comma removal, option-prefix stripping and greedy object extraction.
 */
module Repair {
  import opened Wrappers
  import opened Text

  // ---------------------------------------------------------------------
  // clean_json_trailing_commas: re.sub(r',\s*([}\]])', r'\1', s)
  // ---------------------------------------------------------------------

  predicate IsCloser(c: char) {
    c == '}' || c == ']'
  }

  /** The comma at `i` is followed by whitespace and then a closing bracket: the regex matches there. */
  predicate CommaCloses(s: string, i: nat)
    requires i < |s|
  {
    var k := i + 1 + LeadingSpaces(s[i + 1..]);
    s[i] == ',' && k < |s| && IsCloser(s[k])
  }

  predicate HasTrailingComma(s: string) {
    exists i :: 0 <= i < |s| && CommaCloses(s, i)
  }

  /**
   * Left-to-right, non-overlapping replacement: at a matching comma the comma and
   * the whitespace after it are dropped and scanning resumes after the bracket;
   * anywhere else one character is copied.
   */
  function CleanTrailingCommas(s: string): (r: string)
    ensures |r| <= |s|
    ensures ',' !in s ==> r == s
    decreases |s|
  {
    if s == [] then []
    else if CommaCloses(s, 0) then
      var k := 1 + LeadingSpaces(s[1..]);
      [s[k]] + CleanTrailingCommas(s[k + 1..])
    else
      [s[0]] + CleanTrailingCommas(s[1..])
  }

  /** The characters the repair may never touch: everything except commas and whitespace. */
  function Significant(s: string): (r: string)
    ensures |r| <= |s|
  {
    if s == [] then []
    else if s[0] == ',' || IsSpace(s[0]) then Significant(s[1..])
    else [s[0]] + Significant(s[1..])
  }

  /** `a` is obtained from `b` by deleting characters. */
  predicate IsSubsequence(a: string, b: string)
    decreases |b|
  {
    if a == [] then true
    else if b == [] then false
    else (a[0] == b[0] && IsSubsequence(a[1..], b[1..])) || IsSubsequence(a, b[1..])
  }

  lemma {:induction false} SubsequenceAfterPrefix(a: string, p: string, b: string)
    requires IsSubsequence(a, b)
    ensures IsSubsequence(a, p + b)
  {
    if p == [] {
      assert p + b == b;
    } else {
      SubsequenceAfterPrefix(a, p[1..], b);
      assert (p + b)[1..] == p[1..] + b;
    }
  }

  /** Every kept character is kept in order: the output is a subsequence of the input. */
  lemma {:induction false} CleanIsSubsequence(s: string)
    ensures IsSubsequence(CleanTrailingCommas(s), s)
  {
    if s != [] {
      if CommaCloses(s, 0) {
        var k := 1 + LeadingSpaces(s[1..]);
        CleanIsSubsequence(s[k + 1..]);
        assert s[k..] == [s[k]] + s[k + 1..];
        assert IsSubsequence([s[k]] + CleanTrailingCommas(s[k + 1..]), s[k..]);
        assert s == s[..k] + s[k..];
        SubsequenceAfterPrefix(CleanTrailingCommas(s), s[..k], s[k..]);
      } else {
        CleanIsSubsequence(s[1..]);
      }
    }
  }

  /** Dropping a prefix made only of commas and whitespace keeps the significant characters. */
  lemma {:induction false} SignificantDropsPrefix(s: string, k: nat)
    requires k <= |s| && forall i :: 0 <= i < k ==> s[i] == ',' || IsSpace(s[i])
    ensures Significant(s) == Significant(s[k..])
  {
    if k > 0 {
      SignificantDropsPrefix(s[1..], k - 1);
      assert s[1..][k - 1..] == s[k..];
    }
  }

  /** At a matching head comma, the significant characters are the bracket's and those after it. */
  lemma SignificantAtHeadComma(s: string)
    requires s != [] && CommaCloses(s, 0)
    ensures var k := 1 + LeadingSpaces(s[1..]);
      k < |s| && Significant(s) == [s[k]] + Significant(s[k + 1..])
  {
    var n := LeadingSpaces(s[1..]);
    forall i | 1 <= i < 1 + n
      ensures IsSpace(s[i])
    {
      assert s[i] == s[1..][..n][i - 1];
    }
    SignificantDropsPrefix(s, 1 + n);
    assert s[1 + n..][1..] == s[1 + n + 1..];
  }

  /** Only commas and whitespace are ever deleted; in particular every `}` and `]` survives. */
  lemma {:induction false} CleanKeepsSignificant(s: string)
    ensures Significant(CleanTrailingCommas(s)) == Significant(s)
  {
    if s != [] {
      if CommaCloses(s, 0) {
        var k := 1 + LeadingSpaces(s[1..]);
        var rest := s[k + 1..];
        CleanKeepsSignificant(rest);
        SignificantAtHeadComma(s);
        var r := CleanTrailingCommas(rest);
        assert CleanTrailingCommas(s) == [s[k]] + r;
        assert ([s[k]] + r)[1..] == r;
      } else {
        CleanKeepsSignificant(s[1..]);
        var r := CleanTrailingCommas(s[1..]);
        assert CleanTrailingCommas(s) == [s[0]] + r;
        assert ([s[0]] + r)[1..] == r;
      }
    }
  }

  lemma CommaClosesShift(s: string, i: nat)
    requires 1 <= i < |s|
    ensures CommaCloses(s, i) <==> CommaCloses(s[1..], i - 1)
  {
    assert s[1..][i - 1 + 1..] == s[i + 1..];
  }

  /** Without a matching comma at the head, the matches of `s` are those of its tail. */
  lemma NoCommaAtHeadShift(s: string)
    requires s != [] && !CommaCloses(s, 0)
    ensures HasTrailingComma(s) <==> HasTrailingComma(s[1..])
  {
    if HasTrailingComma(s) {
      var i :| 0 <= i < |s| && CommaCloses(s, i);
      CommaClosesShift(s, i);
    }
    if HasTrailingComma(s[1..]) {
      var i :| 0 <= i < |s[1..]| && CommaCloses(s[1..], i);
      CommaClosesShift(s, i + 1);
    }
  }

  /** The repair changes the text exactly when some comma is followed (after whitespace) by a closer. */
  lemma {:induction false} CleanChangesIff(s: string)
    ensures CleanTrailingCommas(s) == s <==> !HasTrailingComma(s)
    ensures HasTrailingComma(s) ==> |CleanTrailingCommas(s)| < |s|
  {
    if s != [] {
      if CommaCloses(s, 0) {
        CleanHeadComma(s);
      } else {
        CleanChangesIff(s[1..]);
        NoCommaAtHeadShift(s);
        var r := CleanTrailingCommas(s[1..]);
        assert CleanTrailingCommas(s) == [s[0]] + r;
        assert s == [s[0]] + s[1..];
        assert [s[0]] + r == [s[0]] + s[1..] <==> r == s[1..];
      }
    }
  }

  /** A matching comma at the head is a trailing comma, and removing it shortens the text. */
  lemma CleanHeadComma(s: string)
    requires s != [] && CommaCloses(s, 0)
    ensures HasTrailingComma(s) && |CleanTrailingCommas(s)| < |s|
  {
    var k := 1 + LeadingSpaces(s[1..]);
    assert |CleanTrailingCommas(s[k + 1..])| <= |s| - k - 1;
  }

  /** A character that does not start a match is copied. */
  lemma CleanCopiesHead(s: string)
    requires s != [] && s[0] != ','
    ensures CleanTrailingCommas(s) == [s[0]] + CleanTrailingCommas(s[1..])
  {
  }

  /** A comma directly before a bracket is dropped. */
  lemma CleanDropsComma(s: string)
    requires |s| >= 2 && s[0] == ',' && IsCloser(s[1])
    ensures CleanTrailingCommas(s) == [s[1]] + CleanTrailingCommas(s[2..])
  {
    assert LeadingSpaces(s[1..]) == 0;
  }

  lemma CleanExampleList()
    ensures CleanTrailingCommas("[1,2,]") == "[1,2]"
  {
    var s := "[1,2,]";
    CleanDropsComma(s[4..]);
    assert s[4..][2..] == [];
    CleanCopiesHead(s[3..]);
    assert s[3..][1..] == s[4..];
    assert !CommaCloses(s[2..], 0) by { assert LeadingSpaces(s[2..][1..]) == 0; }
    assert s[2..][1..] == s[3..];
    CleanCopiesHead(s[1..]);
    assert s[1..][1..] == s[2..];
    CleanCopiesHead(s);
    assert [s[0]] + ([s[1]] + ([s[2]] + ([s[3]] + [s[5]]))) == "[1,2]";
  }

  /** The repair is not idempotent: one pass over ",,]" leaves ",]". */
  lemma CleanNotIdempotent()
    ensures CleanTrailingCommas(",,]") == ",]"
    ensures CleanTrailingCommas(",]") == "]"
  {
    assert !CommaCloses(",,]", 0);
    assert ",,]"[1..] == ",]";
  }

  // An independent description of the substitution: position by position, which
  // characters the pattern's matches cover, and the text left once they are deleted.

  /** Position `p` lies in a match: it is a matching comma or whitespace between such a comma and its bracket. */
  predicate InMatch(s: string, p: nat) {
    exists i :: 0 <= i <= p < |s| && CommaCloses(s, i) && p < i + 1 + LeadingSpaces(s[i + 1..])
  }

  /** The characters of `s` from position `p` on that no match covers, in their order. */
  function KeptFrom(s: string, p: nat): (r: string)
    requires p <= |s|
    ensures |r| <= |s| - p
    decreases |s| - p
  {
    if p == |s| then [] else (if InMatch(s, p) then [] else [s[p]]) + KeptFrom(s, p + 1)
  }

  function Kept(s: string): (r: string)
    ensures |r| <= |s|
  {
    KeptFrom(s, 0)
  }

  lemma CommaClosesDrop(s: string, j: nat, i: nat)
    requires j <= i < |s|
    ensures CommaCloses(s, i) <==> CommaCloses(s[j..], i - j)
    ensures LeadingSpaces(s[i + 1..]) == LeadingSpaces(s[j..][i - j + 1..])
  {
    assert s[j..][i - j + 1..] == s[i + 1..];
  }

  /**
   * When no match that starts before `j` reaches `j`, the matches from `j` on are
   * exactly those of the suffix `s[j..]`.
   */
  lemma InMatchDrop(s: string, j: nat, q: nat)
    requires j <= q < |s|
    requires forall i :: 0 <= i < j && CommaCloses(s, i) ==> i + 1 + LeadingSpaces(s[i + 1..]) <= j
    ensures InMatch(s, q) <==> InMatch(s[j..], q - j)
  {
    if InMatch(s, q) {
      var i :| 0 <= i <= q < |s| && CommaCloses(s, i) && q < i + 1 + LeadingSpaces(s[i + 1..]);
      assert j <= i;
      CommaClosesDrop(s, j, i);
      assert CommaCloses(s[j..], i - j) && q - j < i - j + 1 + LeadingSpaces(s[j..][i - j + 1..]);
    }
    if InMatch(s[j..], q - j) {
      var i :| 0 <= i <= q - j < |s[j..]| && CommaCloses(s[j..], i) && q - j < i + 1 + LeadingSpaces(s[j..][i + 1..]);
      CommaClosesDrop(s, j, i + j);
      assert CommaCloses(s, i + j) && q < i + j + 1 + LeadingSpaces(s[i + j + 1..]);
    }
  }

  lemma {:induction false} KeptFromDrop(s: string, j: nat, p: nat)
    requires j <= p <= |s|
    requires forall i :: 0 <= i < j && CommaCloses(s, i) ==> i + 1 + LeadingSpaces(s[i + 1..]) <= j
    ensures KeptFrom(s, p) == KeptFrom(s[j..], p - j)
    decreases |s| - p
  {
    if p < |s| {
      InMatchDrop(s, j, p);
      KeptFromDrop(s, j, p + 1);
    }
  }

  lemma {:induction false} KeptFromSkips(s: string, p: nat, k: nat)
    requires p <= k <= |s|
    requires forall q :: p <= q < k ==> InMatch(s, q)
    ensures KeptFrom(s, p) == KeptFrom(s, k)
    decreases k - p
  {
    if p < k {
      assert InMatch(s, p);
      assert KeptFrom(s, p) == [] + KeptFrom(s, p + 1);
      KeptFromSkips(s, p + 1, k);
    }
  }

  /** The whitespace after a matching head comma contains no comma. */
  lemma HeadGapHasNoComma(s: string, i: nat)
    requires s != [] && CommaCloses(s, 0)
    requires 1 <= i <= LeadingSpaces(s[1..]) 
    ensures !CommaCloses(s, i)
  {
    var n := LeadingSpaces(s[1..]);
    if i < 1 + n {
      assert s[i] == s[1..][..n][i - 1];
      assert IsSpace(s[i]);
    }
  }

  /** No match other than the head one starts at or before its bracket. */
  lemma HeadMatchAlone(s: string, i: nat)
    requires s != [] && CommaCloses(s, 0)
    requires i <= 1 + LeadingSpaces(s[1..]) && CommaCloses(s, i)
    ensures i == 0
  {
    if 1 <= i <= LeadingSpaces(s[1..]) {
      HeadGapHasNoComma(s, i);
    }
  }

  /** At a matching head comma, the comma and the whitespace after it are covered and the bracket is not. */
  lemma KeptAtHeadComma(s: string)
    requires s != [] && CommaCloses(s, 0)
    ensures var k := 1 + LeadingSpaces(s[1..]);
      k < |s| && Kept(s) == [s[k]] + Kept(s[k + 1..])
  {
    var k := 1 + LeadingSpaces(s[1..]);
    forall q | 0 <= q < k
      ensures InMatch(s, q)
    {
      assert CommaCloses(s, 0);
    }
    KeptFromSkips(s, 0, k);
    forall i | 0 <= i <= k && CommaCloses(s, i)
      ensures i + 1 + LeadingSpaces(s[i + 1..]) <= k
    {
      HeadMatchAlone(s, i);
    }
    assert !InMatch(s, k);
    KeptFromDrop(s, k + 1, k + 1);
  }

  /** Without a matching comma at the head, the head is kept and the rest is the tail's. */
  lemma KeptWithoutHeadComma(s: string)
    requires s != [] && !CommaCloses(s, 0)
    ensures Kept(s) == [s[0]] + Kept(s[1..])
  {
    assert !InMatch(s, 0);
    KeptFromDrop(s, 1, 1);
  }

  /**
   * The repair is exactly the deletion of every position some match covers: what
   * `re.sub` leaves of its non-overlapping, left-to-right matches.
   */
  lemma {:induction false} CleanIsKept(s: string)
    ensures CleanTrailingCommas(s) == Kept(s)
    decreases |s|
  {
    if s != [] {
      if CommaCloses(s, 0) {
        var k := 1 + LeadingSpaces(s[1..]);
        KeptAtHeadComma(s);
        CleanIsKept(s[k + 1..]);
        assert CleanTrailingCommas(s) == [s[k]] + CleanTrailingCommas(s[k + 1..]);
      } else {
        KeptWithoutHeadComma(s);
        CleanIsKept(s[1..]);
        assert CleanTrailingCommas(s) == [s[0]] + CleanTrailingCommas(s[1..]);
      }
    }
  }

  // ---------------------------------------------------------------------
  // strip_option_prefix: re.sub(r'^(Option [A-D]:|[A-D][\.|\)|:])\s*', '', s).strip()
  // ---------------------------------------------------------------------

  predicate IsChoiceLetter(c: char) {
    'A' <= c <= 'D'
  }

  /** The character class `[\.|\)|:]`, which holds `.`, `|`, `)` and `:`. */
  predicate IsChoicePunct(c: char) {
    c == '.' || c == '|' || c == ')' || c == ':'
  }

  /** Length of the enumerator prefix anchored at index 0, or 0 if there is none. */
  function OptionPrefixLength(s: string): (n: nat)
    ensures n == 0 || n == 2 || n == 9
    ensures n <= |s|
    ensures n == 9 <==> |s| >= 9 && s[..7] == "Option " && IsChoiceLetter(s[7]) && s[8] == ':'
    ensures n == 2 <==> |s| >= 2 && IsChoiceLetter(s[0]) && IsChoicePunct(s[1])
  {
    if |s| >= 9 && s[..7] == "Option " && IsChoiceLetter(s[7]) && s[8] == ':' then 9
    else if |s| >= 2 && IsChoiceLetter(s[0]) && IsChoicePunct(s[1]) then 2
    else 0
  }

  /**
   * Removes one prefix, then trims. The `\s*` of the pattern is subsumed by the
   * final `strip()`, which removes that whitespace anyway.
   */
  function StripOptionPrefix(s: string): (r: string)
    ensures Stripped(r)
    ensures |r| <= |s|
    ensures OptionPrefixLength(s) == 0 ==> r == Strip(s)
  {
    Strip(s[OptionPrefixLength(s)..])
  }

  /** "A. text", "B) text", "C: text", "D| text" lose their letter and the following whitespace. */
  lemma StripLetterPrefix(x: char, p: char, ws: string, t: string, back: string)
    requires IsChoiceLetter(x) && IsChoicePunct(p)
    requires AllSpace(ws) && AllSpace(back) && Stripped(t)
    ensures StripOptionPrefix([x, p] + ws + t + back) == t
  {
    var s := [x, p] + ws + t + back;
    assert s[2..] == ws + t + back;
    StripPadded(ws, t, back);
  }

  /** "Option X: text" loses "Option X:" and the following whitespace. */
  lemma StripOptionWordPrefix(x: char, ws: string, t: string, back: string)
    requires IsChoiceLetter(x)
    requires AllSpace(ws) && AllSpace(back) && Stripped(t)
    ensures StripOptionPrefix("Option " + ([x, ':'] + ws + t + back)) == t
  {
    var rest := [x, ':'] + ws + t + back;
    var s := "Option " + rest;
    assert s[..7] == "Option ";
    assert s[7] == x && s[8] == ':';
    assert s[9..] == ws + t + back;
    StripPadded(ws, t, back);
  }

  /** A stripped text without a prefix is returned unchanged. */
  lemma StripOptionPrefixKeepsPlain(t: string)
    requires Stripped(t) && OptionPrefixLength(t) == 0
    ensures StripOptionPrefix(t) == t
  {
    StripPadded([], t, []);
    assert [] + t + [] == t;
  }

  lemma StripExampleLetter()
    ensures StripOptionPrefix("A. Paris") == "Paris"
  {
    var s := "A. Paris";
    assert OptionPrefixLength(s) == 2;
    assert s[2..] == " Paris";
    StripPadded(" ", "Paris", []);
    assert " " + "Paris" + [] == " Paris";
  }

  lemma StripExampleWord()
    ensures StripOptionPrefix("Option B: London") == "London"
  {
    var s := "Option B: London";
    assert s[..7] == "Option ";
    assert OptionPrefixLength(s) == 9;
    assert s[9..] == " London";
    StripPadded(" ", "London", []);
    assert " " + "London" + [] == " London";
  }

  /** Only one prefix goes. */
  lemma StripExampleOnce()
    ensures StripOptionPrefix("A. B. x") == "B. x"
  {
    var s := "A. B. x";
    assert OptionPrefixLength(s) == 2;
    assert s[2..] == " B. x";
    StripPadded(" ", "B. x", []);
    assert " " + "B. x" + [] == " B. x";
  }

  /** The prefix must start at index 0: a leading space blocks it. */
  lemma StripExampleIndented()
    ensures StripOptionPrefix(" A. x") == "A. x"
  {
    StripPadded(" ", "A. x", []);
    assert " " + "A. x" + [] == " A. x";
  }

  /** Lower-case letters and letters after D are not enumerators. */
  lemma StripExampleNotLetter()
    ensures StripOptionPrefix("a. x") == "a. x"
    ensures StripOptionPrefix("E. x") == "E. x"
  {
    StripOptionPrefixKeepsPlain("a. x");
    StripOptionPrefixKeepsPlain("E. x");
  }

  // ---------------------------------------------------------------------
  // re.search(r'\{.*\}', s, re.DOTALL)
  // ---------------------------------------------------------------------

  function FirstIndexOf(s: string, c: char): (r: Option<nat>)
    ensures r.Some? ==> r.value < |s| && s[r.value] == c && c !in s[..r.value]
    ensures r.None? ==> c !in s
  {
    if s == [] then None
    else if s[0] == c then Some(0)
    else match FirstIndexOf(s[1..], c)
      case None => None
      case Some(i) => Some(i + 1)
  }

  function LastIndexOf(s: string, c: char): (r: Option<nat>)
    ensures r.Some? ==> r.value < |s| && s[r.value] == c && c !in s[r.value + 1..]
    ensures r.None? ==> c !in s
  {
    if s == [] then None
    else if s[|s| - 1] == c then Some(|s| - 1)
    else LastIndexOf(s[..|s| - 1], c)
  }

  /** No `{` comes before the first one and no `}` after the last one. */
  lemma BraceBounds(s: string, i: nat, j: nat)
    requires i < |s| && '{' !in s[..i]
    requires j < |s| && '}' !in s[j + 1..]
    ensures forall a :: 0 <= a < |s| && s[a] == '{' ==> i <= a
    ensures forall b :: 0 <= b < |s| && s[b] == '}' ==> b <= j
  {
    forall a | 0 <= a < i ensures s[a] != '{' {
      assert s[..i][a] == s[a];
    }
    forall b | j < b < |s| ensures s[b] != '}' {
      assert s[j + 1..][b - j - 1] == s[b];
    }
  }

  /**
   * The greedy match: the slice from the first `{` to the last `}`, both included.
   * The leftmost start is the first `{`; from there `.*` runs to the end and backs
   * off to the last `}`. If that `}` does not come after the first `{`, no later `{`
   * has a `}` after it either, so there is no match at all.
   */
  function ExtractObject(s: string): (r: Option<string>)
    ensures r.Some? <==> exists i, j :: 0 <= i < j < |s| && s[i] == '{' && s[j] == '}'
    ensures r.Some? ==> exists i, j ::
      0 <= i < j < |s| && s[i] == '{' && s[j] == '}' && '{' !in s[..i] && '}' !in s[j + 1..]
      && r.value == s[i..j + 1]
  {
    match (FirstIndexOf(s, '{'), LastIndexOf(s, '}'))
    case (Some(i), Some(j)) =>
      BraceBounds(s, i, j);
      if i < j then Some(s[i..j + 1]) else None
    case _ => None
  }

  /** A match always starts with `{` and ends with `}`. */
  lemma ExtractObjectBraces(s: string)
    requires ExtractObject(s).Some?
    ensures var m := ExtractObject(s).value; |m| >= 2 && m[0] == '{' && m[|m| - 1] == '}'
  {
  }

  /** The first occurrence is the one with no earlier copy of the character. */
  lemma FirstIndexAt(s: string, c: char, i: nat)
    requires i < |s| && s[i] == c && c !in s[..i]
    ensures FirstIndexOf(s, c) == Some(i)
  {
  }

  /** The last occurrence is the one with no later copy of the character. */
  lemma LastIndexAt(s: string, c: char, j: nat)
    requires j < |s| && s[j] == c && c !in s[j + 1..]
    ensures LastIndexOf(s, c) == Some(j)
  {
  }

  /** Prose around the object is dropped. */
  lemma ExtractExampleProse(s: string)
    requires s == "x {\"a\": {}} y"
    ensures ExtractObject(s) == Some("{\"a\": {}}")
  {
    assert s[..2] == "x ";
    FirstIndexAt(s, '{', 2);
    assert s[11..] == " y";
    LastIndexAt(s, '}', 10);
    assert s[2..11] == "{\"a\": {}}";
  }

  /** A `}` before the only `{` gives no match. */
  lemma ExtractExampleReversed(s: string)
    requires s == "} {"
    ensures ExtractObject(s) == None
  {
    assert s[..2] == "} ";
    FirstIndexAt(s, '{', 2);
    assert s[1..] == " {";
    LastIndexAt(s, '}', 0);
  }
}
