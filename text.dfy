/** The string operations the metric extractors are built from: `strip()`,
    `split("\n\n")`, `split()`, `str()` of an integer and `int()` of a
    decimal string, over the whitespace set of Python's `str.isspace()`. */
module Text {
  import opened Sequences

  /** Python's `str.isspace()`: tab through carriage return, the four
      information separators 0x1C-0x1F, space, next line, no-break space,
      and the Unicode space separators, line separator and paragraph
      separator. `strip()` and `split()` use this set. */
  predicate IsSpace(c: char) {
    || ('\t' <= c <= '\r')
    || ('\U{1C}' <= c <= ' ')
    || c == '\U{85}' || c == '\U{A0}' || c == '\U{1680}'
    || ('\U{2000}' <= c <= '\U{200A}')
    || c == '\U{2028}' || c == '\U{2029}' || c == '\U{202F}' || c == '\U{205F}' || c == '\U{3000}'
  }

  predicate AllSpace(s: string) {
    forall i :: 0 <= i < |s| ==> IsSpace(s[i])
  }

  predicate NoSpace(s: string) {
    forall i :: 0 <= i < |s| ==> !IsSpace(s[i])
  }

  // ---------------------------------------------------------------------
  // strip()
  // ---------------------------------------------------------------------

  /** The number of whitespace characters `s` starts with. */
  function LeadingSpace(s: string): (n: nat)
    ensures n <= |s|
    ensures forall k :: 0 <= k < n ==> IsSpace(s[k])
    ensures n < |s| ==> !IsSpace(s[n])
  {
    if s == [] || !IsSpace(s[0]) then 0
    else
      assert forall k :: 1 <= k < |s| ==> s[k] == s[1..][k - 1];
      1 + LeadingSpace(s[1..])
  }

  /** The number of whitespace characters `s` ends with. */
  function TrailingSpace(s: string): (n: nat)
    ensures n <= |s|
    ensures forall k :: |s| - n <= k < |s| ==> IsSpace(s[k])
    ensures n < |s| ==> !IsSpace(s[|s| - 1 - n])
  {
    if s == [] || !IsSpace(s[|s| - 1]) then 0
    else 1 + TrailingSpace(s[..|s| - 1])
  }

  /** Python's `s.strip()`: `s` without its leading and trailing
      whitespace. */
  function Strip(s: string): (r: string)
    ensures |r| <= |s|
    ensures r != [] ==> !IsSpace(r[0]) && !IsSpace(r[|r| - 1])
    ensures r == [] <==> AllSpace(s)
  {
    var i := LeadingSpace(s);
    if i == |s| then [] else s[i..|s| - TrailingSpace(s)]
  }

  /** `Strip(s)` is the slice of `s` between a whitespace-only prefix of
      length `i` and a whitespace-only suffix. */
  lemma StripBounds(s: string) returns (i: nat)
    ensures i + |Strip(s)| <= |s|
    ensures Strip(s) == s[i..i + |Strip(s)|]
    ensures AllSpace(s[..i]) && AllSpace(s[i + |Strip(s)|..])
  {
    i := LeadingSpace(s);
    if i < |s| {
      var j := |s| - TrailingSpace(s);
      assert i + |Strip(s)| == j;
      assert forall k :: 0 <= k < |s| - j ==> s[j..][k] == s[j + k];
    }
  }

  /** Stripping twice is stripping once. */
  lemma StripIdempotent(s: string)
    ensures Strip(Strip(s)) == Strip(s)
  {
    var r := Strip(s);
    if r != [] {
      assert LeadingSpace(r) == 0 && TrailingSpace(r) == 0;
      assert r[0..|r|] == r;
    }
  }

  /** Whitespace before a non-blank start is exactly the leading
      whitespace. */
  lemma LeadingSpaceOfPadded(w: string, x: string)
    requires AllSpace(w) && (x == [] || !IsSpace(x[0]))
    ensures LeadingSpace(w + x) == |w|
  {
    var s := w + x;
    assert forall k :: 0 <= k < |w| ==> s[k] == w[k];
    assert |w| < |s| ==> s[|w|] == x[0];
  }

  /** Whitespace after a non-blank end is exactly the trailing whitespace. */
  lemma TrailingSpaceOfPadded(x: string, w: string)
    requires AllSpace(w) && (x == [] || !IsSpace(x[|x| - 1]))
    ensures TrailingSpace(x + w) == |w|
  {
    var s := x + w;
    assert forall k :: |x| <= k < |s| ==> s[k] == w[k - |x|];
    assert |w| < |s| ==> s[|x| - 1] == x[|x| - 1];
  }

  /** `strip()` undoes padding: text with non-blank ends, padded with
      whitespace on both sides, strips back to itself. */
  lemma StripOfPadded(w1: string, t: string, w2: string)
    requires AllSpace(w1) && AllSpace(w2)
    requires t != [] && !IsSpace(t[0]) && !IsSpace(t[|t| - 1])
    ensures Strip(w1 + t + w2) == t
  {
    var s := w1 + t + w2;
    assert s == w1 + (t + w2);
    LeadingSpaceOfPadded(w1, t + w2);
    TrailingSpaceOfPadded(w1 + t, w2);
    assert s[|w1|..|s| - |w2|] == t;
  }

  // ---------------------------------------------------------------------
  // split("\n\n")
  // ---------------------------------------------------------------------

  /** True when `p` holds no two consecutive line feeds. */
  predicate NoDelimiter(p: string) {
    forall i :: 0 <= i < |p| - 1 ==> !(p[i] == '\n' && p[i + 1] == '\n')
  }

  predicate EndsWithLineFeed(p: string) {
    p != [] && p[|p| - 1] == '\n'
  }

  /** Python's `s.split("\n\n")`: the pieces between the non-overlapping
      occurrences of the delimiter, found left to right. The first piece is
      a prefix of `s`, and when there is a second piece the delimiter
      follows the first one. */
  function SplitParagraphs(s: string): (r: seq<string>)
    ensures |r| >= 1
    ensures |r[0]| <= |s| && r[0] == s[..|r[0]|]
    ensures |r| > 1 ==> |r[0]| + 2 <= |s| && s[|r[0]|] == '\n' && s[|r[0]| + 1] == '\n'
    decreases |s|
  {
    if |s| < 2 then [s]
    else if s[0] == '\n' && s[1] == '\n' then [""] + SplitParagraphs(s[2..])
    else
      var rest := SplitParagraphs(s[1..]);
      [[s[0]] + rest[0]] + rest[1..]
  }

  /** The inverse of `SplitParagraphs`: the pieces glued back with "\n\n". */
  function JoinParagraphs(pieces: seq<string>): string
    requires |pieces| >= 1
  {
    if |pieces| == 1 then pieces[0] else pieces[0] + "\n\n" + JoinParagraphs(pieces[1..])
  }

  /** The left-to-right, non-overlapping number of "\n\n" occurrences. */
  function DelimiterCount(s: string): nat
    decreases |s|
  {
    if |s| < 2 then 0
    else if s[0] == '\n' && s[1] == '\n' then 1 + DelimiterCount(s[2..])
    else DelimiterCount(s[1..])
  }

  /** Gluing the pieces back with the delimiter gives the input again. */
  lemma {:induction false} SplitJoin(s: string)
    ensures JoinParagraphs(SplitParagraphs(s)) == s
    decreases |s|
  {
    if |s| < 2 {
    } else if s[0] == '\n' && s[1] == '\n' {
      SplitJoin(s[2..]);
      JoinAfterEmpty(SplitParagraphs(s[2..]));
      assert "\n\n" + s[2..] == s;
    } else {
      SplitJoin(s[1..]);
      JoinExtendFirst(s[0], SplitParagraphs(s[1..]));
      assert [s[0]] + s[1..] == s;
    }
  }

  lemma JoinCons(x: string, rest: seq<string>)
    requires rest != []
    ensures JoinParagraphs([x] + rest) == x + "\n\n" + JoinParagraphs(rest)
  {
    ConsTail(x, rest);
  }

  /** An empty first piece contributes only the delimiter. */
  lemma JoinAfterEmpty(pieces: seq<string>)
    requires |pieces| >= 1
    ensures JoinParagraphs([""] + pieces) == "\n\n" + JoinParagraphs(pieces)
  {
    JoinCons("", pieces);
  }

  /** Prepending a character to the first piece prepends it to the joined
      text. */
  lemma JoinExtendFirst(c: char, pieces: seq<string>)
    requires |pieces| >= 1
    ensures JoinParagraphs([[c] + pieces[0]] + pieces[1..]) == [c] + JoinParagraphs(pieces)
  {
    var p0, rest := pieces[0], pieces[1..];
    var head := [c] + p0;
    if rest == [] {
      assert JoinParagraphs([head] + rest) == head by {
        assert [head] + rest == [head];
      }
      assert JoinParagraphs(pieces) == p0;
    } else {
      var d, j := "\n\n", JoinParagraphs(rest);
      assert JoinParagraphs([head] + rest) == (head + d) + j by {
        JoinCons(head, rest);
      }
      assert JoinParagraphs(pieces) == (p0 + d) + j;
      assert (head + d) + j == [c] + ((p0 + d) + j) by {
        ConcatAssoc([c], p0, d);
        ConcatAssoc([c], p0 + d, j);
      }
    }
  }

  /** No piece contains the delimiter, and no piece but the last ends with a
      line feed (otherwise the delimiter would have been found one place
      earlier). */
  lemma {:induction false} SplitPiecesWellFormed(s: string)
    ensures forall k :: 0 <= k < |SplitParagraphs(s)| ==> NoDelimiter(SplitParagraphs(s)[k])
    ensures forall k :: 0 <= k < |SplitParagraphs(s)| - 1 ==> !EndsWithLineFeed(SplitParagraphs(s)[k])
    decreases |s|
  {
    var r := SplitParagraphs(s);
    if |s| < 2 {
    } else if s[0] == '\n' && s[1] == '\n' {
      SplitPiecesWellFormed(s[2..]);
      assert r[1..] == SplitParagraphs(s[2..]);
      forall k | 1 <= k < |r| ensures NoDelimiter(r[k]) && (k < |r| - 1 ==> !EndsWithLineFeed(r[k])) {
        assert r[k] == r[1..][k - 1];
      }
    } else {
      var rest := SplitParagraphs(s[1..]);
      SplitPiecesWellFormed(s[1..]);
      assert r[0] == [s[0]] + rest[0];
      assert r[1..] == rest[1..];
      assert NoDelimiter(rest[0]);
      assert rest[0] != [] ==> rest[0][0] == s[1];
      forall i | 0 <= i < |r[0]| - 1 ensures !(r[0][i] == '\n' && r[0][i + 1] == '\n') {
        if i > 0 {
          assert r[0][i] == rest[0][i - 1] && r[0][i + 1] == rest[0][i];
        }
      }
      if |r| > 1 {
        assert !EndsWithLineFeed(rest[0]);
        if rest[0] == [] {
          assert s[1] == '\n';
        }
      }
      forall k | 1 <= k < |r| ensures NoDelimiter(r[k]) && (k < |r| - 1 ==> !EndsWithLineFeed(r[k])) {
        assert r[k] == rest[k];
      }
    }
  }

  /** A string without the delimiter is split into itself alone. */
  lemma {:induction false} SplitWithoutDelimiter(s: string)
    requires NoDelimiter(s)
    ensures SplitParagraphs(s) == [s]
    decreases |s|
  {
    if |s| >= 2 {
      assert !(s[0] == '\n' && s[1] == '\n');
      assert NoDelimiter(s[1..]) by {
        forall i | 0 <= i < |s[1..]| - 1 ensures !(s[1..][i] == '\n' && s[1..][i + 1] == '\n') {
          assert s[1..][i] == s[i + 1] && s[1..][i + 1] == s[i + 2];
        }
      }
      SplitWithoutDelimiter(s[1..]);
      assert [s[0]] + s[1..] == s;
    }
  }

  /** The split is the ONLY way to cut `s` into pieces that glue back to
      `s`, hold no delimiter, and (all but the last) do not end with a line
      feed: an independent characterisation of `split("\n\n")`. */
  lemma {:induction false} SplitUnique(s: string, p: seq<string>)
    requires |p| >= 1 && JoinParagraphs(p) == s
    requires forall k :: 0 <= k < |p| ==> NoDelimiter(p[k])
    requires forall k :: 0 <= k < |p| - 1 ==> !EndsWithLineFeed(p[k])
    ensures SplitParagraphs(s) == p
    decreases |s|
  {
    if |p| == 1 {
      SplitWithoutDelimiter(s);
    } else if p[0] == [] {
      DropEmptyFirst(s, p);
      SplitUnique(s[2..], p[1..]);
      assert SplitParagraphs(s) == [""] + p[1..];
      assert p == [p[0]] + p[1..];
    } else {
      var h := p[0];
      var q := DropFirstChar(s, p);
      SplitUnique(s[1..], q);
      var rest := SplitParagraphs(s[1..]);
      assert SplitParagraphs(s) == [[s[0]] + rest[0]] + rest[1..];
      assert [s[0]] + h[1..] == h;
      assert p == [h] + p[1..];
    }
  }

  /** A text whose first piece is empty starts with the delimiter, followed
      by the text of the remaining, still well formed, pieces. */
  lemma DropEmptyFirst(s: string, p: seq<string>)
    requires |p| >= 2 && p[0] == [] && JoinParagraphs(p) == s
    requires forall k :: 0 <= k < |p| ==> NoDelimiter(p[k])
    requires forall k :: 0 <= k < |p| - 1 ==> !EndsWithLineFeed(p[k])
    ensures |s| >= 2 && s[0] == '\n' && s[1] == '\n'
    ensures s[2..] == JoinParagraphs(p[1..])
    ensures forall k :: 0 <= k < |p[1..]| ==> NoDelimiter(p[1..][k])
    ensures forall k :: 0 <= k < |p[1..]| - 1 ==> !EndsWithLineFeed(p[1..][k])
  {
    var tail := JoinParagraphs(p[1..]);
    assert s == p[0] + "\n\n" + tail;
    forall k | 0 <= k < |p[1..]| ensures NoDelimiter(p[1..][k]) {
      assert p[1..][k] == p[k + 1];
    }
    forall k | 0 <= k < |p[1..]| - 1 ensures !EndsWithLineFeed(p[1..][k]) {
      assert p[1..][k] == p[k + 1];
    }
    assert s[2..] == tail;
  }

  /** Removing the first character of a text whose first piece is not empty
      removes the first character of that piece, and keeps the pieces well
      formed. */
  lemma DropFirstChar(s: string, p: seq<string>) returns (q: seq<string>)
    requires |p| >= 2 && p[0] != [] && JoinParagraphs(p) == s
    requires forall k :: 0 <= k < |p| ==> NoDelimiter(p[k])
    requires forall k :: 0 <= k < |p| - 1 ==> !EndsWithLineFeed(p[k])
    ensures q == [p[0][1..]] + p[1..]
    ensures |s| >= 2 && s[0] == p[0][0] && !(s[0] == '\n' && s[1] == '\n')
    ensures JoinParagraphs(q) == s[1..]
    ensures forall k :: 0 <= k < |q| ==> NoDelimiter(q[k])
    ensures forall k :: 0 <= k < |q| - 1 ==> !EndsWithLineFeed(q[k])
  {
    var h, tail := p[0], JoinParagraphs(p[1..]);
    assert s == h + "\n\n" + tail;
    assert s[0] == h[0];
    if |h| == 1 {
      assert s[1] == '\n' && h[0] != '\n';
    } else {
      assert s[1] == h[1];
    }
    q := [h[1..]] + p[1..];
    assert JoinParagraphs(q) == s[1..] by {
      if |q| == 1 {
      } else {
        assert q[1..] == p[1..];
        assert s[1..] == h[1..] + "\n\n" + tail;
      }
    }
    forall k | 0 <= k < |q| ensures NoDelimiter(q[k]) {
      if k == 0 {
        forall i | 0 <= i < |h[1..]| - 1 ensures !(h[1..][i] == '\n' && h[1..][i + 1] == '\n') {
          assert h[1..][i] == h[i + 1] && h[1..][i + 1] == h[i + 2];
        }
      } else {
        assert q[k] == p[k];
      }
    }
    forall k | 0 <= k < |q| - 1 ensures !EndsWithLineFeed(q[k]) {
      if k == 0 {
        assert h[1..] != [] ==> h[1..][|h[1..]| - 1] == h[|h| - 1];
      } else {
        assert q[k] == p[k];
      }
    }
  }

  /** The number of pieces is one more than the number of delimiters. */
  lemma {:induction false} SplitCount(s: string)
    ensures |SplitParagraphs(s)| == 1 + DelimiterCount(s)
    decreases |s|
  {
    if |s| < 2 {
    } else if s[0] == '\n' && s[1] == '\n' {
      SplitCount(s[2..]);
    } else {
      SplitCount(s[1..]);
    }
  }

  // ---------------------------------------------------------------------
  // split()
  // ---------------------------------------------------------------------

  /** Length of the run of non-whitespace characters that starts `s`. */
  function RunLength(s: string): (n: nat)
    ensures n <= |s|
    ensures NoSpace(s[..n])
    ensures n < |s| ==> IsSpace(s[n])
  {
    if s == [] || IsSpace(s[0]) then 0 else 1 + RunLength(s[1..])
  }

  /** Python's `s.split()` with no separator: the maximal runs of
      non-whitespace characters of `s`, in order. */
  function Tokens(s: string): (r: seq<string>)
    ensures forall k :: 0 <= k < |r| ==> r[k] != [] && NoSpace(r[k])
    decreases |s|
  {
    if s == [] then []
    else if IsSpace(s[0]) then Tokens(s[1..])
    else
      var n := RunLength(s);
      [s[..n]] + Tokens(s[n..])
  }

  /** There are no tokens exactly when the string is all whitespace. */
  lemma {:induction false} TokensEmpty(s: string)
    ensures Tokens(s) == [] <==> AllSpace(s)
    decreases |s|
  {
    if s != [] && IsSpace(s[0]) {
      TokensEmpty(s[1..]);
      assert forall i :: 1 <= i < |s| ==> s[i] == s[1..][i - 1];
    }
  }

  /** A non-empty run of non-whitespace is a single token. */
  lemma TokensOfWord(w: string)
    requires w != [] && NoSpace(w)
    ensures Tokens(w) == [w]
  {
    var n := RunLength(w);
    assert n == |w|;
    assert w[..n] == w;
  }

  /** Words joined by single spaces. */
  function Sentence(words: seq<string>): string {
    if |words| <= 1 then (if words == [] then [] else words[0])
    else words[0] + [' '] + Sentence(words[1..])
  }

  lemma SentenceCons(w: string, rest: seq<string>)
    requires rest != []
    ensures Sentence([w] + rest) == w + [' '] + Sentence(rest)
  {
    assert ([w] + rest)[1..] == rest;
  }

  /** Splitting on whitespace undoes joining non-empty, space-free words
      with single spaces. */
  lemma {:induction false} TokensOfSentence(words: seq<string>)
    requires forall k :: 0 <= k < |words| ==> words[k] != [] && NoSpace(words[k])
    ensures Tokens(Sentence(words)) == words
  {
    if |words| == 1 {
      TokensOfWord(words[0]);
    } else if |words| > 1 {
      TokensOfSentence(words[1..]);
      TokensSplitAtSpace(words[0], ' ', Sentence(words[1..]));
      TokensOfWord(words[0]);
    }
  }

  /** A run that starts a string stops at the first whitespace. */
  lemma RunLengthBeforeSpace(a: string, c: char, b: string)
    requires IsSpace(c)
    ensures RunLength(a + [c] + b) == RunLength(a)
  {
    var x := a + [c] + b;
    var k := RunLength(a);
    var m := RunLength(x);
    assert forall i :: 0 <= i < |a| ==> x[i] == a[i];
    assert IsSpace(x[k]);
    assert forall i :: 0 <= i < k ==> !IsSpace(x[i]);
  }

  /** A whitespace character separates tokens: the tokens of `a c b` are
      those of `a` followed by those of `b`. */
  lemma {:induction false} TokensSplitAtSpace(a: string, c: char, b: string)
    requires IsSpace(c)
    ensures Tokens(a + [c] + b) == Tokens(a) + Tokens(b)
    decreases |a|
  {
    var x := a + [c] + b;
    if a == [] {
      assert x[1..] == b;
    } else if IsSpace(a[0]) {
      assert x[1..] == a[1..] + [c] + b;
      TokensSplitAtSpace(a[1..], c, b);
    } else {
      RunLengthBeforeSpace(a, c, b);
      var n := RunLength(a);
      assert x[..n] == a[..n];
      assert x[n..] == a[n..] + [c] + b;
      TokensSplitAtSpace(a[n..], c, b);
    }
  }

  /** Leading whitespace contributes no token. */
  lemma {:induction false} TokensSkipLeadingSpace(w: string, t: string)
    requires AllSpace(w)
    ensures Tokens(w + t) == Tokens(t)
    decreases |w|
  {
    if w != [] {
      assert (w + t)[0] == w[0];
      assert (w + t)[1..] == w[1..] + t;
      assert AllSpace(w[1..]) by {
        forall i | 0 <= i < |w[1..]| ensures IsSpace(w[1..][i]) {
          assert w[1..][i] == w[i + 1];
        }
      }
      TokensSkipLeadingSpace(w[1..], t);
    } else {
      assert w + t == t;
    }
  }

  /** Trailing whitespace contributes no token. */
  lemma TokensSkipTrailingSpace(t: string, w: string)
    requires AllSpace(w)
    ensures Tokens(t + w) == Tokens(t)
  {
    if w != [] {
      assert t + w == t + [w[0]] + w[1..];
      TokensSplitAtSpace(t, w[0], w[1..]);
      assert AllSpace(w[1..]) by {
        forall i | 0 <= i < |w[1..]| ensures IsSpace(w[1..][i]) {
          assert w[1..][i] == w[i + 1];
        }
      }
      TokensEmpty(w[1..]);
    } else {
      assert t + w == t;
    }
  }

  /** Stripping before `split()` changes nothing. */
  lemma TokensOfStrip(s: string)
    ensures Tokens(Strip(s)) == Tokens(s)
  {
    var i := StripBounds(s);
    var t := Strip(s);
    var j := i + |t|;
    var lead, trail := s[..i], s[j..];
    assert s == lead + (t + trail);
    TokensSkipLeadingSpace(lead, t + trail);
    TokensSkipTrailingSpace(t, trail);
  }

  // ---------------------------------------------------------------------
  // str() and int()
  // ---------------------------------------------------------------------

  predicate IsDigits(s: string) {
    forall i :: 0 <= i < |s| ==> '0' <= s[i] <= '9'
  }

  function DigitChar(d: nat): (c: char)
    requires d < 10
    ensures '0' <= c <= '9'
  {
    ('0' as int + d) as char
  }

  function DigitValue(c: char): (d: nat)
    requires '0' <= c <= '9'
    ensures d < 10 && DigitChar(d) == c
  {
    c as int - '0' as int
  }

  /** Python's `str(n)` for a non-negative integer: decimal digits with no
      leading zero. */
  function DecimalString(n: nat): (r: string)
    ensures r != [] && IsDigits(r)
    ensures r[0] == '0' ==> n == 0 && r == "0"
  {
    if n < 10 then [DigitChar(n)] else DecimalString(n / 10) + [DigitChar(n % 10)]
  }

  /** Python's `int(s)` for a non-empty string of decimal digits. */
  function ParseDecimal(s: string): (n: nat)
    requires s != [] && IsDigits(s)
    ensures n % 10 == DigitValue(s[|s| - 1])
  {
    if |s| == 1 then DigitValue(s[0])
    else 10 * ParseDecimal(s[..|s| - 1]) + DigitValue(s[|s| - 1])
  }

  /** `int(s)` is zero exactly when every digit of `s` is '0'. */
  lemma {:induction false} ParseDecimalZeroIff(s: string)
    requires s != [] && IsDigits(s)
    ensures ParseDecimal(s) == 0 <==> forall k :: 0 <= k < |s| ==> s[k] == '0'
  {
    if |s| > 1 {
      var init := s[..|s| - 1];
      ParseDecimalZeroIff(init);
      assert forall k :: 0 <= k < |init| ==> init[k] == s[k];
    }
  }

  /** `int(str(n)) == n`. */
  lemma {:induction false} DecimalRoundTrip(n: nat)
    ensures ParseDecimal(DecimalString(n)) == n
  {
    if n >= 10 {
      DecimalRoundTrip(n / 10);
      var s := DecimalString(n);
      assert s[..|s| - 1] == DecimalString(n / 10);
      assert DigitValue(s[|s| - 1]) == n % 10;
    }
  }

  /** A single digit is written as itself. */
  lemma OneDigitString(d: nat)
    requires d < 10
    ensures DecimalString(d) == [DigitChar(d)]
  {
  }

  /** A two-digit number is written as its two digits. */
  lemma TwoDigitString(a: nat, b: nat)
    requires 1 <= a < 10 && b < 10
    ensures DecimalString(10 * a + b) == [DigitChar(a), DigitChar(b)]
  {
    var n := 10 * a + b;
    assert n / 10 == a && n % 10 == b;
  }

  /** Python's `str(i)` for any integer: a minus sign before the digits of
      a negative value. */
  function IntString(i: int): (r: string)
    ensures r != [] && (r[0] == '-' <==> i < 0)
    ensures i >= 0 ==> IsDigits(r)
    ensures i < 0 ==> IsDigits(r[1..]) && r[1..] != []
  {
    if i < 0 then "-" + DecimalString(-i) else DecimalString(i)
  }

  /** Python's `int(s)` on what `IntString` produces. */
  function ParseInt(s: string): int
    requires s != []
    requires if s[0] == '-' then s[1..] != [] && IsDigits(s[1..]) else IsDigits(s)
  {
    if s[0] == '-' then -(ParseDecimal(s[1..]) as int) else ParseDecimal(s)
  }

  /** `int(str(i)) == i`, so `str` loses nothing. */
  lemma IntRoundTrip(i: int)
    ensures ParseInt(IntString(i)) == i
  {
    if i < 0 {
      DecimalRoundTrip(-i);
      assert IntString(i)[1..] == DecimalString(-i);
    } else {
      DecimalRoundTrip(i);
    }
  }
}
