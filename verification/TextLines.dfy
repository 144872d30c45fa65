/** The text operations of the standard library that the checkpoint parser uses. */
module TextLines {
  import opened Prelude
  import opened Decimal

  /** char::is_whitespace. */
  predicate IsWhitespace(c: char) {
    || 9 as char <= c <= 13 as char || c == ' ' || c == 0x85 as char || c == 0xA0 as char || c == 0x1680 as char
    || 0x2000 as char <= c <= 0x200A as char || c == 0x2028 as char || c == 0x2029 as char
    || c == 0x202F as char || c == 0x205F as char || c == 0x3000 as char
  }

  // ----- Trimming

  predicate Trimmed(s: string) {
    s != "" ==> !IsWhitespace(s[0]) && !IsWhitespace(s[|s| - 1])
  }

  /** The first character from `i` on that is not white space, or the end of the text. */
  function InkFrom(s: string, i: nat): (k: nat)
    requires i <= |s|
    ensures i <= k <= |s| && (k < |s| ==> !IsWhitespace(s[k]))
    decreases |s| - i
  {
    if i == |s| || !IsWhitespace(s[i]) then i else InkFrom(s, i + 1)
  }

  /** The end of the last character before `n`, and not before `low`, that is not white space. */
  function InkUpTo(s: string, low: nat, n: nat): (k: nat)
    requires low <= n <= |s|
    ensures low <= k <= n && (k > low ==> !IsWhitespace(s[k - 1]))
  {
    if n == low || !IsWhitespace(s[n - 1]) then n else InkUpTo(s, low, n - 1)
  }

  /** str::trim. */
  function Trim(s: string): (t: string) {
    var low := InkFrom(s, 0);
    s[low..InkUpTo(s, low, |s|)]
  }

  lemma {:induction false} TrimTrims(s: string)
    ensures Trimmed(Trim(s)) && (Trimmed(s) ==> Trim(s) == s)
  {
  }

  predicate Blank(s: string) {
    forall i :: 0 <= i < |s| ==> IsWhitespace(s[i])
  }

  lemma {:induction false} InkAfter(s: string, i: nat, k: nat)
    requires i <= k <= |s| && (forall j :: i <= j < k ==> IsWhitespace(s[j])) && (k < |s| ==> !IsWhitespace(s[k]))
    ensures InkFrom(s, i) == k
    decreases k - i
  {
    if i < k { InkAfter(s, i + 1, k); }
  }

  lemma {:induction false} InkBefore(s: string, low: nat, n: nat, k: nat)
    requires low <= k <= n <= |s| && (forall j :: k <= j < n ==> IsWhitespace(s[j]))
    requires k > low ==> !IsWhitespace(s[k - 1])
    ensures InkUpTo(s, low, n) == k
  {
    if k < n { InkBefore(s, low, n - 1, k); }
  }

  /** Trimming takes away the white space around the text, and nothing else. */
  lemma {:induction false} TrimRemovesPadding(p: string, s: string, q: string)
    requires Blank(p) && Blank(q) && Trimmed(s)
    ensures Trim(p + s + q) == s
  {
    var text := p + s + q;
    assert forall j :: 0 <= j < |p| ==> text[j] == p[j];
    assert forall j :: 0 <= j < |s| ==> text[|p| + j] == s[j];
    assert forall j :: 0 <= j < |q| ==> text[|p| + |s| + j] == q[j];
    if s == "" {
      InkAfter(text, 0, |text|);
    } else {
      InkAfter(text, 0, |p|);
      InkBefore(text, |p|, |text|, |p| + |s|);
      assert text[|p|..|p| + |s|] == s;
    }
  }

  lemma {:induction false} InkFound(s: string, i: nat)
    requires i <= |s|
    ensures InkFrom(s, i) == |s| ==> forall k :: i <= k < |s| ==> IsWhitespace(s[k])
    decreases |s| - i
  {
    if i < |s| { InkFound(s, i + 1); }
  }

  lemma {:induction false} InkKept(s: string, low: nat, n: nat)
    requires low < n <= |s| && !IsWhitespace(s[low])
    ensures InkUpTo(s, low, n) > low
  {
    if n > low + 1 { InkKept(s, low, n - 1); }
  }

  lemma {:induction false} BlankTrims(s: string)
    ensures Trim(s) == "" <==> Blank(s)
  {
    InkFound(s, 0);
    if Blank(s) {
      TrimRemovesPadding(s, "", "");
      assert s + "" + "" == s;
    } else {
      InkKept(s, InkFrom(s, 0), |s|);
    }
  }

  // ----- Lines

  /** The first end of a line from `i` on, or the end of the text. */
  function EndOfLine(s: string, i: nat): (e: nat)
    requires i <= |s|
    ensures i <= e <= |s| && (forall j :: i <= j < e ==> s[j] != '\n') && (e < |s| ==> s[e] == '\n')
    decreases |s| - i
  {
    if i == |s| || s[i] == '\n' then i else EndOfLine(s, i + 1)
  }

  /** str::lines, up to a carriage return at the end of a line, which trimming removes as well. */
  function Lines(s: string): (lines: seq<string>) {
    if s == "" then []
    else
      var e := EndOfLine(s, 0);
      if e == |s| then [s] else [s[..e]] + Lines(s[e + 1..])
  }

  lemma {:induction false} LinesCons(line: string, rest: string)
    requires '\n' !in line
    ensures Lines(line + "\n" + rest) == [line] + Lines(rest)
  {
    var s := line + "\n" + rest;
    assert s[|line|] == '\n' && forall j :: 0 <= j < |line| ==> s[j] == line[j] && line[j] in line;
    assert EndOfLine(s, 0) == |line|;
    assert s[..|line|] == line && s[|line| + 1..] == rest;
  }

  lemma {:induction false} LastLine(line: string)
    requires '\n' !in line && line != ""
    ensures Lines(line) == [line]
  {
    assert forall j :: 0 <= j < |line| ==> line[j] in line;
    assert EndOfLine(line, 0) == |line|;
  }

  lemma {:induction false} LinesHaveNoNewline(s: string)
    ensures forall line :: line in Lines(s) ==> '\n' !in line
  {
    if s != "" {
      var e := EndOfLine(s, 0);
      if e < |s| { LinesHaveNoNewline(s[e + 1..]); }
    }
  }

  /** Each line, from the `i`-th on, ended by a newline. */
  function Unlines(lines: seq<string>, i: nat): string
    requires i <= |lines|
    decreases |lines| - i
  {
    if i == |lines| then "" else lines[i] + "\n" + Unlines(lines, i + 1)
  }

  /** The lines from the `i`-th on, separated by newlines. */
  function Joined(lines: seq<string>, i: nat): string
    requires i < |lines|
    decreases |lines| - i
  {
    if i + 1 == |lines| then lines[i] else lines[i] + "\n" + Joined(lines, i + 1)
  }

  lemma {:induction false} UnlinesJoined(lines: seq<string>, i: nat)
    requires i < |lines|
    ensures Unlines(lines, i) == Joined(lines, i) + "\n"
    decreases |lines| - i
  {
    if i + 1 < |lines| {
      UnlinesJoined(lines, i + 1);
      assert lines[i] + "\n" + (Joined(lines, i + 1) + "\n") == lines[i] + "\n" + Joined(lines, i + 1) + "\n";
    } else {
      assert lines[i] + "\n" + "" == lines[i] + "\n";
    }
  }

  /** A line of text with something on it. */
  predicate Line(s: string) {
    s != "" && '\n' !in s
  }

  predicate AreLines(lines: seq<string>) {
    forall i :: 0 <= i < |lines| ==> Line(lines[i])
  }

  lemma {:induction false} LinesOfJoined(lines: seq<string>, i: nat)
    requires AreLines(lines) && i < |lines|
    ensures Lines(Joined(lines, i)) == lines[i..]
    decreases |lines| - i
  {
    hide Lines;
    if i + 1 == |lines| {
      LastLine(lines[i]);
    } else {
      LinesOfJoined(lines, i + 1);
      LinesCons(lines[i], Joined(lines, i + 1));
      assert lines[i..] == [lines[i]] + lines[i + 1..];
    }
  }

  lemma {:induction false} NoLines()
    ensures Lines("") == []
  {
  }

  lemma {:induction false} LinesOfUnlines(lines: seq<string>, i: nat)
    requires AreLines(lines) && i <= |lines|
    ensures Lines(Unlines(lines, i)) == lines[i..]
    decreases |lines| - i
  {
    hide Lines;
    if i == |lines| {
      NoLines();
    } else {
      LinesOfUnlines(lines, i + 1);
      LinesCons(lines[i], Unlines(lines, i + 1));
      assert lines[i..] == [lines[i]] + lines[i + 1..];
    }
  }

  // ----- The first blank line

  predicate BlankAt(s: string, k: nat) {
    k + 1 < |s| && s[k] == '\n' && s[k + 1] == '\n'
  }

  /** Where the first two newlines in a row start, from `i` on, or the end of the text. */
  function FirstBlank(s: string, i: nat): (k: nat)
    requires i <= |s|
    ensures i <= k <= |s| && (k < |s| ==> BlankAt(s, k))
    ensures forall j :: i <= j < k ==> !BlankAt(s, j)
    decreases |s| - i
  {
    if i == |s| || BlankAt(s, i) then i else FirstBlank(s, i + 1)
  }

  /** Text without blank lines, that neither starts nor ends with a newline. */
  predicate Paragraph(s: string) {
    s != "" && s[0] != '\n' && s[|s| - 1] != '\n' && forall k :: 0 <= k < |s| ==> !BlankAt(s, k)
  }

  lemma {:induction false} JoinedIsParagraph(lines: seq<string>, i: nat)
    requires AreLines(lines) && i < |lines|
    ensures Paragraph(Joined(lines, i))
    decreases |lines| - i
  {
    LineIsParagraph(lines[i]);
    if i + 1 < |lines| {
      JoinedIsParagraph(lines, i + 1);
      ParagraphCons(lines[i], Joined(lines, i + 1));
    }
  }

  lemma {:induction false} LineIsParagraph(line: string)
    requires Line(line)
    ensures Paragraph(line)
  {
    forall k | 0 <= k < |line| ensures line[k] != '\n' {
      assert line[k] in line;
    }
  }

  lemma {:induction false} ParagraphCons(a: string, b: string)
    requires Paragraph(a) && Paragraph(b)
    ensures Paragraph(a + "\n" + b)
  {
    var s := a + "\n" + b;
    assert s[|s| - 1] == b[|b| - 1] && s[|a|] == '\n' && s[|a| + 1] == b[0] && s[|a| - 1] == a[|a| - 1];
    forall k | 0 <= k < |s| && k + 1 < |s| ensures !BlankAt(s, k) {
      if k + 1 < |a| {
        assert s[k] == a[k] && s[k + 1] == a[k + 1] && !BlankAt(a, k);
      } else if k > |a| {
        assert s[k] == b[k - |a| - 1] && s[k + 1] == b[k - |a|] && !BlankAt(b, k - |a| - 1);
      }
    }
  }

  /** A paragraph ends at the blank line that follows it. */
  lemma {:induction false} ParagraphEnds(p: string, rest: string)
    requires Paragraph(p)
    ensures FirstBlank(p + "\n\n" + rest, 0) == |p|
  {
    var s := p + "\n\n" + rest;
    assert s[|p|] == '\n' && s[|p| + 1] == '\n' && BlankAt(s, |p|);
    forall k | 0 <= k < |p| ensures !BlankAt(s, k) {
      assert s[k] == p[k] && !BlankAt(p, k);
      if k + 1 < |p| { assert s[k + 1] == p[k + 1]; }
    }
  }

  lemma {:induction false} ParagraphAlone(p: string)
    requires Paragraph(p)
    ensures FirstBlank(p + "\n", 0) == |p| + 1
  {
    var s := p + "\n";
    forall k | 0 <= k < |s| ensures !BlankAt(s, k) {
      if k < |p| {
        assert s[k] == p[k] && !BlankAt(p, k);
        if k + 1 < |p| { assert s[k + 1] == p[k + 1]; }
      }
    }
  }

  // ----- Words

  predicate Word(s: string) {
    s != "" && forall i :: 0 <= i < |s| ==> !IsWhitespace(s[i])
  }

  function EndOfWord(s: string, i: nat): (e: nat)
    requires i <= |s|
    ensures i <= e <= |s| && (forall j :: i <= j < e ==> !IsWhitespace(s[j])) && (e < |s| ==> IsWhitespace(s[e]))
    decreases |s| - i
  {
    if i == |s| || IsWhitespace(s[i]) then i else EndOfWord(s, i + 1)
  }

  /** str::split_whitespace. */
  function Words(s: string): (words: seq<string>)
    ensures forall i :: 0 <= i < |words| ==> Word(words[i])
  {
    if s == "" then []
    else if IsWhitespace(s[0]) then Words(s[1..])
    else
      var e := EndOfWord(s, 0);
      [s[..e]] + Words(s[e..])
  }

  lemma {:induction false} WordsCons(w: string, rest: string)
    requires Word(w)
    ensures Words(w + " " + rest) == [w] + Words(rest)
  {
    var s := w + " " + rest;
    var e := EndOfWord(s, 0);
    assert s[|w|] == ' ' && forall j :: 0 <= j < |w| ==> s[j] == w[j];
    assert e == |w|;
    assert s[..e] == w && s[e..][1..] == rest && s[e..][0] == ' ';
  }

  lemma {:induction false} LastWord(w: string)
    requires Word(w)
    ensures Words(w) == [w]
  {
    assert EndOfWord(w, 0) == |w|;
    assert w[..|w|] == w && w[|w|..] == "";
  }

  // ----- Numbers

  /** str::parse for u64: digits, possibly after a plus sign. */
  function ParseU64(s: string): Option<U64> {
    var digits := if s != "" && s[0] == '+' then s[1..] else s;
    if digits == "" || !AreDigits(digits) then None
    else
      var n := Value(Digits(digits));
      if n < U64_LIMIT then Some(n) else None
  }

  lemma {:induction false} ParseNumeral(n: U64)
    ensures ParseU64(Numeral(n)) == Some(n)
  {
    NumeralDigits(n);
    ValueOfDec(n);
    assert Numeral(n)[0] != '+';
  }

  /** A plus sign and leading zeros make no difference. */
  lemma {:induction false} ParseSpelledOut(plus: bool, zeros: string, n: U64)
    requires forall i :: 0 <= i < |zeros| ==> zeros[i] == '0'
    ensures ParseU64((if plus then "+" else "") + zeros + Numeral(n)) == Some(n)
  {
    hide Numeral;
    NumeralDigits(n);
    ValueOfDec(n);
    var digits := zeros + Numeral(n);
    var s := (if plus then "+" else "") + digits;
    assert (if plus then "+" else "") + zeros + Numeral(n) == s;
    assert plus ==> s[1..] == digits;
    assert !plus ==> s == digits && s[0] != '+';
    LeadingZeros(zeros, Numeral(n));
  }

  lemma {:induction false} LeadingZeros(zeros: string, digits: string)
    requires AreDigits(digits) && forall i :: 0 <= i < |zeros| ==> zeros[i] == '0'
    ensures AreDigits(zeros + digits) && Value(Digits(zeros + digits)) == Value(Digits(digits))
    decreases |zeros| + |digits|
  {
    var all := zeros + digits;
    if digits != "" {
      var last := digits[|digits| - 1];
      LeadingZeros(zeros, digits[..|digits| - 1]);
      assert Digits(all)[..|all| - 1] == Digits(zeros + digits[..|digits| - 1]);
      assert Digits(digits)[..|digits| - 1] == Digits(digits[..|digits| - 1]);
    } else if zeros != "" {
      LeadingZeros(zeros[..|zeros| - 1], "");
      assert Digits(all)[..|all| - 1] == Digits(zeros[..|zeros| - 1] + "");
    } else {
      assert all == digits;
    }
  }

  // ----- Any white space separates words

  lemma {:induction false} WordsAfterBlank(gap: string, rest: string)
    requires Blank(gap)
    ensures Words(gap + rest) == Words(rest)
    decreases |gap|
  {
    if gap == "" {
      assert gap + rest == rest;
    } else {
      WordsAfterBlank(gap[1..], rest);
      assert (gap + rest)[1..] == gap[1..] + rest && (gap + rest)[0] == gap[0];
    }
  }

  lemma {:induction false} WordsGap(w: string, gap: string, rest: string)
    requires Word(w) && Blank(gap) && gap != ""
    ensures Words(w + gap + rest) == [w] + Words(rest)
  {
    var s := w + gap + rest;
    assert s[|w|] == gap[0] && forall j :: 0 <= j < |w| ==> s[j] == w[j];
    assert EndOfWord(s, 0) == |w|;
    assert s[..|w|] == w && s[|w|..] == gap + rest;
    WordsAfterBlank(gap, rest);
  }
}
