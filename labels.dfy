/**
 * Elevation labels (TopoBuilder/TopoCommands.cs, CleanText and
 * ParseElevation): MText formatting is stripped from the label text and the
 * elevation is read from its leftmost number.
 *
 * Both regular expressions are modelled as left-to-right scanners. Digits
 * are the ASCII digits '0'..'9', and the number is read as an exact real.
 */
module Labels {
  import opened Wrappers

  // ---------------------------------------------------------------------
  // CleanText
  // ---------------------------------------------------------------------

  /** The first occurrence of c in s at or after position from. */
  function IndexOf(s: string, c: char, from: nat): (r: Option<nat>)
    ensures r.Some? ==> from <= r.value < |s| && s[r.value] == c
    ensures r.Some? ==> forall k :: from <= k < r.value ==> s[k] != c
    ensures r.None? ==> forall k :: from <= k < |s| ==> s[k] != c
    decreases |s| - from
  {
    if from >= |s| then None
    else if s[from] == c then Some(from)
    else IndexOf(s, c, from + 1)
  }

  predicate IsLineBreak(c: char) {
    c == '\r' || c == '\n'
  }

  /** The length of the run of line breaks starting at i. */
  function LineBreakRun(s: string, i: nat): (n: nat)
    requires i <= |s|
    ensures i + n <= |s|
    ensures forall k :: i <= k < i + n ==> IsLineBreak(s[k])
    ensures i + n < |s| ==> !IsLineBreak(s[i + n])
    decreases |s| - i
  {
    if i < |s| && IsLineBreak(s[i]) then 1 + LineBreakRun(s, i + 1) else 0
  }

  /** An opener, at least one character other than the closer, then the closer. */
  function EnclosedAt(s: string, i: nat, closer: char): (n: nat)
    requires i < |s|
    ensures n == 0 || (n >= 3 && i + n <= |s| && s[i + n - 1] == closer)
    ensures n > 0 ==> forall k :: i + 1 <= k < i + n - 1 ==> s[k] != closer
  {
    match IndexOf(s, closer, i + 1)
    case Some(j) => if j >= i + 2 then j + 1 - i else 0
    case None => 0
  }

  /**
   * The length of the match of \\[^;]+;|\{[^\}]+\}|[\r\n]+ at position i,
   * or 0 when none of the three alternatives matches there.
   */
  function FormatCodeAt(s: string, i: nat): (n: nat)
    requires i < |s|
    ensures i + n <= |s|
    ensures IsLineBreak(s[i]) ==> n > 0
  {
    if s[i] == '\\' then EnclosedAt(s, i, ';')
    else if s[i] == '{' then EnclosedAt(s, i, '}')
    else LineBreakRun(s, i)
  }

  /** Regex.Replace(s, ..., " ") from position i on. */
  function ReplaceCodes(s: string, i: nat): (r: string)
    requires i <= |s|
    decreases |s| - i
  {
    if i == |s| then []
    else
      var n := FormatCodeAt(s, i);
      if n > 0 then " " + ReplaceCodes(s, i + n) else [s[i]] + ReplaceCodes(s, i + 1)
  }

  /** .Replace("\\P", " "): ordinal, left to right, without overlaps. */
  function ReplaceParagraphs(s: string): (r: string)
    decreases |s|
  {
    if |s| >= 2 && s[0] == '\\' && s[1] == 'P' then " " + ReplaceParagraphs(s[2..])
    else if s == [] then []
    else [s[0]] + ReplaceParagraphs(s[1..])
  }

  /** char.IsWhiteSpace. */
  predicate IsWhiteSpace(c: char) {
    || ('\U{0009}' <= c <= '\U{000D}') || c == ' ' || c == '\U{0085}' || c == '\U{00A0}'
    || c == '\U{1680}' || ('\U{2000}' <= c <= '\U{200A}') || c == '\U{2028}' || c == '\U{2029}'
    || c == '\U{202F}' || c == '\U{205F}' || c == '\U{3000}'
  }

  /** Drops the leading white space: what remains does not start with it. */
  function TrimStart(s: string): (r: string)
    ensures |r| <= |s|
    ensures forall k :: 0 <= k < |s| - |r| ==> IsWhiteSpace(s[k])
    ensures r != [] ==> !IsWhiteSpace(r[0])
    decreases |s|
  {
    if s != [] && IsWhiteSpace(s[0]) then TrimStart(s[1..]) else s
  }

  /** Drops the trailing white space: what remains does not end with it. */
  function TrimEnd(s: string): (r: string)
    ensures |r| <= |s|
    ensures forall k :: |r| <= k < |s| ==> IsWhiteSpace(s[k])
    ensures r != [] ==> !IsWhiteSpace(r[|r| - 1])
    decreases |s|
  {
    if s != [] && IsWhiteSpace(s[|s| - 1]) then TrimEnd(s[..|s| - 1]) else s
  }

  /** What TrimStart leaves is a suffix of its input. */
  lemma {:induction false} TrimStartIsSuffix(s: string)
    ensures TrimStart(s) == s[|s| - |TrimStart(s)|..]
    decreases |s|
  {
    if s != [] && IsWhiteSpace(s[0]) {
      TrimStartIsSuffix(s[1..]);
      assert s[1..][|s| - 1 - |TrimStart(s)|..] == s[|s| - |TrimStart(s)|..];
    }
  }

  /** What TrimEnd leaves is a prefix of its input. */
  lemma {:induction false} TrimEndIsPrefix(s: string)
    ensures TrimEnd(s) == s[..|TrimEnd(s)|]
    decreases |s|
  {
    if s != [] && IsWhiteSpace(s[|s| - 1]) {
      TrimEndIsPrefix(s[..|s| - 1]);
      assert s[..|s| - 1][..|TrimEnd(s)|] == s[..|TrimEnd(s)|];
    }
  }

  /** string.Trim(). */
  function Trim(s: string): string {
    TrimEnd(TrimStart(s))
  }

  /** CleanText: strip format codes and line breaks, then \P, then trim. */
  function CleanText(input: string): string {
    Trim(ReplaceParagraphs(ReplaceCodes(input, 0)))
  }

  predicate NoLineBreaks(s: string) {
    forall k :: 0 <= k < |s| ==> !IsLineBreak(s[k])
  }

  predicate NoParagraphCode(s: string) {
    forall k :: 0 <= k < |s| - 1 ==> !(s[k] == '\\' && s[k + 1] == 'P')
  }

  /** Every line break is consumed by a match and replaced by a space. */
  lemma {:induction false} ReplaceCodesRemovesLineBreaks(s: string, i: nat)
    requires i <= |s|
    ensures NoLineBreaks(ReplaceCodes(s, i))
    decreases |s| - i
  {
    if i < |s| {
      var n := FormatCodeAt(s, i);
      var head := if n > 0 then " " else [s[i]];
      var next := if n > 0 then i + n else i + 1;
      ReplaceCodesRemovesLineBreaks(s, next);
      assert ReplaceCodes(s, i) == head + ReplaceCodes(s, next);
      ConcatKeepsNoLineBreaks(head, ReplaceCodes(s, next));
    }
  }

  lemma ConcatKeepsNoLineBreaks(a: string, b: string)
    requires NoLineBreaks(a) && NoLineBreaks(b)
    ensures NoLineBreaks(a + b)
  {
    assert forall k :: |a| <= k < |a + b| ==> (a + b)[k] == b[k - |a|];
  }

  /** The first character of the replacement is a space or the first character itself. */
  lemma ReplaceParagraphsHead(s: string)
    requires s != []
    ensures ReplaceParagraphs(s) != []
    ensures ReplaceParagraphs(s)[0] == ' ' || ReplaceParagraphs(s)[0] == s[0]
  {
  }

  /** Replacing \P keeps the text free of line breaks and leaves no \P behind. */
  lemma {:induction false} ReplaceParagraphsClean(s: string)
    requires NoLineBreaks(s)
    ensures NoLineBreaks(ReplaceParagraphs(s)) && NoParagraphCode(ReplaceParagraphs(s))
    decreases |s|
  {
    var r := ReplaceParagraphs(s);
    if |s| >= 2 && s[0] == '\\' && s[1] == 'P' {
      ReplaceParagraphsClean(s[2..]);
      assert r == " " + ReplaceParagraphs(s[2..]);
    } else if s != [] {
      var rest := ReplaceParagraphs(s[1..]);
      ReplaceParagraphsClean(s[1..]);
      assert r == [s[0]] + rest;
      if s[0] == '\\' && rest != [] {
        ReplaceParagraphsHead(s[1..]);
      }
    }
  }

  /** The characters of a slice come from the whole. */
  lemma SliceKeepsProperty(s: string, lo: int, hi: int)
    requires 0 <= lo <= hi <= |s|
    requires NoLineBreaks(s) && NoParagraphCode(s)
    ensures NoLineBreaks(s[lo..hi]) && NoParagraphCode(s[lo..hi])
  {
    assert forall k :: 0 <= k < hi - lo ==> s[lo..hi][k] == s[lo + k];
  }

  /**
   * The cleaned text has no line break, no \P code, and no leading or
   * trailing white space.
   */
  lemma CleanTextIsClean(input: string)
    ensures var r := CleanText(input);
            && NoLineBreaks(r) && NoParagraphCode(r)
            && (r != [] ==> !IsWhiteSpace(r[0]) && !IsWhiteSpace(r[|r| - 1]))
  {
    var a := ReplaceCodes(input, 0);
    ReplaceCodesRemovesLineBreaks(input, 0);
    ReplaceParagraphsClean(a);
    TrimKeepsClean(ReplaceParagraphs(a));
  }

  /** Trimming keeps a clean text clean and leaves no white space at either end. */
  lemma TrimKeepsClean(b: string)
    requires NoLineBreaks(b) && NoParagraphCode(b)
    ensures var r := Trim(b);
            && NoLineBreaks(r) && NoParagraphCode(r)
            && (r != [] ==> !IsWhiteSpace(r[0]) && !IsWhiteSpace(r[|r| - 1]))
  {
    var c := TrimStart(b);
    TrimStartKeepsClean(b);
    TrimEndKeepsClean(c);
  }

  lemma TrimStartKeepsClean(b: string)
    requires NoLineBreaks(b) && NoParagraphCode(b)
    ensures NoLineBreaks(TrimStart(b)) && NoParagraphCode(TrimStart(b))
  {
    var c := TrimStart(b);
    TrimStartIsSuffix(b);
    SliceKeepsProperty(b, |b| - |c|, |b|);
    assert c == b[|b| - |c|..|b|];
  }

  lemma TrimEndKeepsClean(c: string)
    requires NoLineBreaks(c) && NoParagraphCode(c)
    requires c != [] ==> !IsWhiteSpace(c[0])
    ensures var r := TrimEnd(c);
            && NoLineBreaks(r) && NoParagraphCode(r)
            && (r != [] ==> !IsWhiteSpace(r[0]) && !IsWhiteSpace(r[|r| - 1]))
  {
    var r := TrimEnd(c);
    TrimEndIsPrefix(c);
    SliceKeepsProperty(c, 0, |r|);
    assert r == c[0..|r|];
    if r != [] {
      assert r[0] == c[0];
    }
  }

  /** A character no format code can start with. */
  predicate IsPlain(c: char) {
    c != '\\' && c != '{' && !IsLineBreak(c)
  }

  lemma {:induction false} ReplaceCodesOfPlain(s: string, i: nat)
    requires i <= |s| && forall k :: 0 <= k < |s| ==> IsPlain(s[k])
    ensures ReplaceCodes(s, i) == s[i..]
    decreases |s| - i
  {
    if i < |s| {
      ReplaceCodesOfPlain(s, i + 1);
      assert s[i..] == [s[i]] + s[i + 1..];
    }
  }

  lemma {:induction false} ReplaceParagraphsOfPlain(s: string)
    requires forall k :: 0 <= k < |s| ==> IsPlain(s[k])
    ensures ReplaceParagraphs(s) == s
    decreases |s|
  {
    if s != [] {
      ReplaceParagraphsOfPlain(s[1..]);
      assert s == [s[0]] + s[1..];
    }
  }

  /** Plain text that is already trimmed comes back unchanged. */
  lemma CleanTextKeepsPlainText(s: string)
    requires forall k :: 0 <= k < |s| ==> IsPlain(s[k])
    requires s != [] ==> !IsWhiteSpace(s[0]) && !IsWhiteSpace(s[|s| - 1])
    ensures CleanText(s) == s
  {
    ReplaceCodesOfPlain(s, 0);
    assert s[0..] == s;
    ReplaceParagraphsOfPlain(s);
  }

  /** The number after the alignment code of the example below is copied unchanged. */
  lemma ExampleNumberIsCopied()
    ensures ReplaceCodes("\\A1;12.5\\P", 4) == "12.5\\P"
  {
    var s := "\\A1;12.5\\P";
    assert ReplaceCodes(s, 10) == "";
    assert ReplaceCodes(s, 9) == "P";
    assert IndexOf(s, ';', 9) == None;
    assert ReplaceCodes(s, 8) == "\\P";
    assert ReplaceCodes(s, 7) == "5\\P";
    assert ReplaceCodes(s, 6) == ".5\\P";
    assert ReplaceCodes(s, 5) == "2.5\\P";
  }

  lemma ExampleCodes()
    ensures ReplaceCodes("\\A1;12.5\\P", 0) == " 12.5\\P"
  {
    var s := "\\A1;12.5\\P";
    ExampleNumberIsCopied();
    ExampleAlignmentCode();
    ReplaceCodesStep(s, 0);
    assert " " + "12.5\\P" == " 12.5\\P";
  }

  /** One step of ReplaceCodes. */
  lemma ReplaceCodesStep(s: string, i: nat)
    requires i < |s|
    ensures var n := FormatCodeAt(s, i);
            ReplaceCodes(s, i) == if n > 0 then " " + ReplaceCodes(s, i + n) else [s[i]] + ReplaceCodes(s, i + 1)
  {
  }

  lemma ExampleAlignmentCode()
    ensures FormatCodeAt("\\A1;12.5\\P", 0) == 4
  {
    var s := "\\A1;12.5\\P";
    assert IndexOf(s, ';', 3) == Some(3);
    assert IndexOf(s, ';', 1) == Some(3);
  }

  lemma ExampleParagraphs()
    ensures ReplaceParagraphs(" 12.5\\P") == " 12.5 "
  {
    ExampleParagraphAtEnd();
    assert ReplaceParagraphs("2.5\\P") == "2.5 ";
    assert ReplaceParagraphs("12.5\\P") == "12.5 ";
  }

  lemma ExampleParagraphAtEnd()
    ensures ReplaceParagraphs(".5\\P") == ".5 "
  {
    assert ReplaceParagraphs("\\P") == " ";
    assert ReplaceParagraphs("5\\P") == "5 ";
  }

  lemma ExampleTrim()
    ensures Trim(" 12.5 ") == "12.5"
  {
    ExampleTrimStart();
    ExampleTrimEnd();
  }

  lemma ExampleTrimStart()
    ensures TrimStart(" 12.5 ") == "12.5 "
  {
    TrimStartStep(" 12.5 ");
    assert " 12.5 "[1..] == "12.5 ";
    TrimStartStep("12.5 ");
  }

  /** One step of TrimStart. */
  lemma TrimStartStep(s: string)
    requires s != []
    ensures TrimStart(s) == if IsWhiteSpace(s[0]) then TrimStart(s[1..]) else s
  {
  }

  lemma ExampleTrimEnd()
    ensures TrimEnd("12.5 ") == "12.5"
  {
    var s := "12.5 ";
    assert IsWhiteSpace(s[4]) && s[..4] == "12.5";
    assert TrimEnd(s) == TrimEnd("12.5");
    assert !IsWhiteSpace("12.5"[3]);
  }

  /** A paragraph break and an alignment code around a number leave the number. */
  lemma CleanTextExample()
    ensures CleanText("\\A1;12.5\\P") == "12.5"
  {
    ExampleCodes();
    ExampleParagraphs();
    ExampleTrim();
  }

  /** A braced group is replaced as a whole, together with the text inside it. */
  lemma CleanTextDropsBracedGroup()
    ensures CleanText("{\\fArial;12.5}") == ""
  {
    var s := "{\\fArial;12.5}";
    assert IndexOf(s, '}', 1) == Some(13);
    assert ReplaceCodes(s, 0) == " ";
  }

  // ---------------------------------------------------------------------
  // ParseElevation
  // ---------------------------------------------------------------------

  predicate IsDigit(c: char) {
    '0' <= c <= '9'
  }

  predicate IsSign(c: char) {
    c == '-' || c == '+'
  }

  predicate IsSeparator(c: char) {
    c == '.' || c == ','
  }

  predicate AllDigits(s: string) {
    forall k :: 0 <= k < |s| ==> IsDigit(s[k])
  }

  /** The length of the run of digits starting at i. */
  function DigitRun(s: string, i: nat): (n: nat)
    requires i <= |s|
    ensures i + n <= |s|
    decreases |s| - i
  {
    if i < |s| && IsDigit(s[i]) then 1 + DigitRun(s, i + 1) else 0
  }

  /** The run is maximal: digits up to its end, and no digit right after it. */
  lemma {:induction false} DigitRunIsMaximal(s: string, i: nat)
    requires i <= |s|
    ensures forall k :: i <= k < i + DigitRun(s, i) ==> IsDigit(s[k])
    ensures i + DigitRun(s, i) < |s| ==> !IsDigit(s[i + DigitRun(s, i)])
    decreases |s| - i
  {
    if i < |s| && IsDigit(s[i]) {
      DigitRunIsMaximal(s, i + 1);
    }
  }

  /** A match of [-+]?\d+[.,]?\d* starts at i. */
  predicate MatchStartsAt(s: string, i: nat)
    requires i < |s|
  {
    IsDigit(s[i]) || (IsSign(s[i]) && i + 1 < |s| && IsDigit(s[i + 1]))
  }

  /** The leftmost position at or after i where a match starts. */
  function FindMatch(s: string, i: nat): (r: Option<nat>)
    requires i <= |s|
    ensures r.Some? ==> i <= r.value < |s| && MatchStartsAt(s, r.value)
    ensures r.Some? ==> forall k :: i <= k < r.value ==> !MatchStartsAt(s, k)
    ensures r.None? ==> forall k :: i <= k < |s| ==> !MatchStartsAt(s, k)
    decreases |s| - i
  {
    if i == |s| then None
    else if MatchStartsAt(s, i) then Some(i)
    else FindMatch(s, i + 1)
  }

  /** Where the digits of the match at i begin: after its sign, if any. */
  function DigitsStart(s: string, i: nat): (d: nat)
    requires i < |s| && MatchStartsAt(s, i)
    ensures i <= d < |s| && IsDigit(s[d])
  {
    if IsDigit(s[i]) then i else i + 1
  }

  /** The end of the optional separator and the fraction digits at e. */
  function FractionEnd(s: string, e: nat): (f: nat)
    requires e <= |s|
    ensures e <= f <= |s|
  {
    if e < |s| && IsSeparator(s[e]) then e + 1 + DigitRun(s, e + 1) else e
  }

  /** The end of the greedy match that starts at i. */
  function MatchEnd(s: string, i: nat): (e: nat)
    requires i < |s| && MatchStartsAt(s, i)
    ensures i < e <= |s|
  {
    var d := DigitsStart(s, i);
    FractionEnd(s, d + DigitRun(s, d))
  }

  function Normalize(c: char): char {
    if c == ',' then '.' else c
  }

  /** match.Value.Replace(',', '.'). */
  function CommaToPoint(s: string): (r: string)
    ensures |r| == |s| && forall k :: 0 <= k < |s| ==> r[k] == Normalize(s[k])
  {
    seq(|s|, k requires 0 <= k < |s| => Normalize(s[k]))
  }

  /** The value of a digit character. */
  function DigitValue(c: char): int {
    c as int - '0' as int
  }

  /** The value of a string of digits, read in base ten. */
  function DigitsValue(ds: string): int
    decreases |ds|
  {
    if ds == [] then 0 else 10 * DigitsValue(ds[..|ds| - 1]) + DigitValue(ds[|ds| - 1])
  }

  function Pow10(n: nat): (p: nat)
    ensures p >= 1
  {
    if n == 0 then 1 else 10 * Pow10(n - 1)
  }

  /** The value of integer digits ip and fraction digits fp. */
  function DecimalValue(ip: string, fp: string): real {
    DigitsValue(ip) as real + FractionDigits(fp)
  }

  /** The value of the digits fp written after a decimal point. */
  function FractionDigits(fp: string): real {
    DigitsValue(fp) as real / Pow10(|fp|) as real
  }

  function SignLength(t: string): nat {
    if |t| > 0 && IsSign(t[0]) then 1 else 0
  }

  /** A written number is negative when it starts with "-". */
  predicate IsNegative(t: string) {
    |t| > 0 && t[0] == '-'
  }

  function Signed(negative: bool, v: real): real {
    if negative then -v else v
  }

  /** What may follow the integer digits: nothing, or a point and digits. */
  function FractionValue(rest: string): Option<real> {
    if rest == [] then Some(0.0)
    else if rest[0] == '.' && AllDigits(rest[1..]) then
      Some(FractionDigits(rest[1..]))
    else None
  }

  /**
   * double.TryParse on the strings the match can produce: an optional sign,
   * digits, and optionally a point followed by digits. Anything else fails.
   */
  function ParseDecimal(t: string): Option<real> {
    var start := SignLength(t);
    var d := DigitRun(t, start);
    if d == 0 then None
    else
      match FractionValue(t[start + d..])
      case None => None
      case Some(f) => Some(Signed(IsNegative(t), DigitsValue(t[start..start + d]) as real + f))
  }

  /** ParseElevation: the leftmost number, with a comma read as a decimal point. */
  function ParseElevation(text: string): Option<real> {
    match FindMatch(text, 0)
    case None => None
    case Some(i) => ParseDecimal(CommaToPoint(text[i..MatchEnd(text, i)]))
  }

  /** The text of a match always parses. */
  lemma MatchParses(text: string, i: nat)
    requires i < |text| && MatchStartsAt(text, i)
    ensures ParseDecimal(CommaToPoint(text[i..MatchEnd(text, i)])).Some?
  {
    var ds := DigitsStart(text, i);
    var e := ds + DigitRun(text, ds);
    var f := MatchEnd(text, i);
    var t := CommaToPoint(text[i..f]);
    NormalizedSlice(text, i, f);
    assert SignLength(t) == ds - i by {
      assert t[0] == Normalize(text[i]);
      assert ds > i ==> t[1] == Normalize(text[i + 1]);
    }
    DigitRunAgrees(text, i, t, ds - i);
    MatchFraction(text, i, e);
    NormalizedFraction(text, i, e, f, t);
  }

  /** Each character of a normalised slice is the normalised character of the text. */
  lemma NormalizedSlice(text: string, lo: nat, hi: nat)
    requires lo <= hi <= |text|
    ensures var t := CommaToPoint(text[lo..hi]);
            |t| == hi - lo && forall k :: 0 <= k < |t| ==> t[k] == Normalize(text[lo + k])
  {
  }

  /** After the integer digits, the match holds a separator and digits, or nothing. */
  lemma MatchFraction(text: string, i: nat, e: nat)
    requires i < |text| && MatchStartsAt(text, i)
    requires e == DigitsStart(text, i) + DigitRun(text, DigitsStart(text, i))
    ensures e <= MatchEnd(text, i)
    ensures e < MatchEnd(text, i) ==> IsSeparator(text[e]) && forall k :: e < k < MatchEnd(text, i) ==> IsDigit(text[k])
  {
    if e < |text| && IsSeparator(text[e]) {
      DigitRunIsMaximal(text, e + 1);
    }
  }

  lemma NormalizedFraction(text: string, i: nat, e: nat, f: nat, t: string)
    requires i <= e <= f <= |text| && |t| == f - i
    requires forall k :: 0 <= k < |t| ==> t[k] == Normalize(text[i + k])
    requires e < f ==> IsSeparator(text[e]) && forall k :: e < k < f ==> IsDigit(text[k])
    ensures FractionValue(t[e - i..]).Some?
  {
    var rest := t[e - i..];
    if e < f {
      assert rest[0] == Normalize(text[e]);
      forall k | 1 <= k < |rest|
        ensures IsDigit(rest[k])
      {
        assert rest[k] == t[e - i + k] == Normalize(text[e + k]);
      }
      assert AllDigits(rest[1..]);
    }
  }

  /** Two texts that agree on which positions hold digits have the same digit runs. */
  lemma {:induction false} DigitRunAgrees(a: string, off: nat, b: string, j: nat)
    requires off + |b| <= |a| && j <= |b|
    requires forall k :: 0 <= k < |b| ==> (IsDigit(b[k]) <==> IsDigit(a[off + k]))
    requires j + DigitRun(a, off + j) <= |b|
    ensures DigitRun(b, j) == DigitRun(a, off + j)
    decreases |b| - j
  {
    if j < |b| && IsDigit(b[j]) {
      DigitRunAgrees(a, off, b, j + 1);
    }
  }

  /** ParseElevation fails exactly when the text holds no digit. */
  lemma ParseElevationFailsIffNoDigit(text: string)
    ensures ParseElevation(text).None? <==> forall k :: 0 <= k < |text| ==> !IsDigit(text[k])
  {
    match FindMatch(text, 0)
    case None =>
      forall k | 0 <= k < |text|
        ensures !IsDigit(text[k])
      {
        assert !MatchStartsAt(text, k);
      }
    case Some(i) =>
      MatchParses(text, i);
      assert IsDigit(text[DigitsStart(text, i)]);
  }

  /** Replacing commas by points first gives the same elevation: both separators read alike. */
  lemma CommaReadsAsPoint(text: string)
    ensures ParseElevation(CommaToPoint(text)) == ParseElevation(text)
  {
    var u := CommaToPoint(text);
    FindMatchNormalized(text, 0);
    match FindMatch(text, 0)
    case None =>
    case Some(i) =>
      MatchEndNormalized(text, i);
      var e := MatchEnd(text, i);
      assert CommaToPoint(u[i..e]) == CommaToPoint(text[i..e]);
  }

  lemma {:induction false} FindMatchNormalized(text: string, j: nat)
    requires j <= |text|
    ensures FindMatch(CommaToPoint(text), j) == FindMatch(text, j)
    decreases |text| - j
  {
    if j < |text| {
      var u := CommaToPoint(text);
      assert u[j] == Normalize(text[j]);
      if j + 1 < |text| {
        assert u[j + 1] == Normalize(text[j + 1]);
      }
      FindMatchNormalized(text, j + 1);
    }
  }

  lemma {:induction false} DigitRunNormalized(text: string, j: nat)
    requires j <= |text|
    ensures DigitRun(CommaToPoint(text), j) == DigitRun(text, j)
    decreases |text| - j
  {
    if j < |text| {
      assert CommaToPoint(text)[j] == Normalize(text[j]);
      DigitRunNormalized(text, j + 1);
    }
  }

  lemma MatchEndNormalized(text: string, i: nat)
    requires i < |text| && MatchStartsAt(text, i)
    ensures var u := CommaToPoint(text);
            MatchStartsAt(u, i) && MatchEnd(u, i) == MatchEnd(text, i)
  {
    var u := CommaToPoint(text);
    DigitsStartNormalized(text, i);
    var ds := DigitsStart(text, i);
    DigitRunNormalized(text, ds);
    FractionEndNormalized(text, ds + DigitRun(text, ds));
  }

  lemma DigitsStartNormalized(text: string, i: nat)
    requires i < |text| && MatchStartsAt(text, i)
    ensures var u := CommaToPoint(text);
            MatchStartsAt(u, i) && DigitsStart(u, i) == DigitsStart(text, i)
  {
    var u := CommaToPoint(text);
    assert u[i] == Normalize(text[i]);
    if i + 1 < |text| {
      assert u[i + 1] == Normalize(text[i + 1]);
    }
  }

  lemma FractionEndNormalized(text: string, e: nat)
    requires e <= |text|
    ensures FractionEnd(CommaToPoint(text), e) == FractionEnd(text, e)
  {
    if e < |text| {
      assert CommaToPoint(text)[e] == Normalize(text[e]);
      DigitRunNormalized(text, e + 1);
    }
  }

  /** The positions of sign, integer digits, separator and fraction digits of a number. */
  predicate NumberLayout(text: string, b0: nat, b1: nat, b2: nat, b3: nat, b4: nat) {
    && b0 <= b1 <= b2 <= b3 <= b4 <= |text|
    && b1 - b0 <= 1 && (b0 < b1 ==> IsSign(text[b0]))
    && b1 < b2 && (forall k :: b1 <= k < b2 ==> IsDigit(text[k]))
    && b3 - b2 <= 1 && (b2 < b3 ==> IsSeparator(text[b2]))
    && (forall k :: b3 <= k < b4 ==> IsDigit(text[k]))
    && (b2 == b3 ==> b3 == b4)
  }

  /** A number laid out at b0..b4, with no number start before it and nothing extending it after. */
  predicate WrittenLabel(text: string, b0: nat, b1: nat, b2: nat, b3: nat, b4: nat) {
    && NumberLayout(text, b0, b1, b2, b3, b4)
    && (forall k :: 0 <= k < b0 ==> !IsDigit(text[k]) && !IsSign(text[k]))
    && (b4 < |text| ==> !IsDigit(text[b4]) && (b2 == b3 ==> !IsSeparator(text[b4])))
  }

  /**
   * A label holding one written number, after text with no digit and no
   * sign, reads back as that number's value, whether its separator is a
   * point or a comma.
   */
  lemma ParsesWrittenNumber(text: string, b0: nat, b1: nat, b2: nat, b3: nat, b4: nat)
    requires WrittenLabel(text, b0, b1, b2, b3, b4)
    ensures ParseElevation(text) == Some(Signed(IsNegative(text[b0..b1]), DecimalValue(text[b1..b2], text[b3..b4])))
  {
    WrittenNumberMatch(text, b0, b1, b2, b3, b4);
    ParseDecimalOfLayout(text, b0, b1, b2, b3, b4);
  }

  /** The leftmost match of a written label spans exactly its number. */
  lemma WrittenNumberMatch(text: string, b0: nat, b1: nat, b2: nat, b3: nat, b4: nat)
    requires WrittenLabel(text, b0, b1, b2, b3, b4)
    ensures FindMatch(text, 0) == Some(b0) && MatchEnd(text, b0) == b4
  {
    FindMatchFrom(text, 0, b0);
    assert DigitsStart(text, b0) == b1;
    DigitRunIs(text, b1, b2 - b1);
    if b2 < b3 {
      DigitRunIs(text, b3, b4 - b3);
    }
  }

  /** double.TryParse of the normalised number gives its value. */
  lemma ParseDecimalOfLayout(text: string, b0: nat, b1: nat, b2: nat, b3: nat, b4: nat)
    requires NumberLayout(text, b0, b1, b2, b3, b4)
    ensures ParseDecimal(CommaToPoint(text[b0..b4]))
         == Some(Signed(IsNegative(text[b0..b1]), DecimalValue(text[b1..b2], text[b3..b4])))
  {
    NormalizedNumber(text, b0, b1, b2, b3, b4);
    ParseDecimalParts(CommaToPoint(text[b0..b4]), text, b0, b1, b2, b3, b4);
  }

  /** The parts ParseDecimal reads from the normalised number. */
  lemma NormalizedNumber(text: string, b0: nat, b1: nat, b2: nat, b3: nat, b4: nat)
    requires NumberLayout(text, b0, b1, b2, b3, b4)
    ensures var t := CommaToPoint(text[b0..b4]);
            && b1 < b2 && |t| == b4 - b0
            && SignLength(t) == b1 - b0 && IsNegative(t) == IsNegative(text[b0..b1])
            && DigitRun(t, b1 - b0) == b2 - b1 && t[b1 - b0..b2 - b0] == text[b1..b2]
            && FractionValue(t[b2 - b0..]) == Some(FractionDigits(text[b3..b4]))
  {
    NormalizedInteger(text, b0, b1, b2, b3, b4);
    NormalizedFractionPart(text, b0, b1, b2, b3, b4);
  }

  lemma NormalizedInteger(text: string, b0: nat, b1: nat, b2: nat, b3: nat, b4: nat)
    requires NumberLayout(text, b0, b1, b2, b3, b4)
    ensures var t := CommaToPoint(text[b0..b4]);
            && SignLength(t) == b1 - b0 && IsNegative(t) == IsNegative(text[b0..b1])
            && DigitRun(t, b1 - b0) == b2 - b1 && t[b1 - b0..b2 - b0] == text[b1..b2]
  {
    var t := CommaToPoint(text[b0..b4]);
    NormalizedSlice(text, b0, b4);
    NormalizedLayout(text, b0, b1, b2, b3, b4, t);
    NormalizedParts(text, b0, b1, b2, b3, b4, t);
    DigitRunIs(t, b1 - b0, b2 - b1);
  }

  lemma NormalizedFractionPart(text: string, b0: nat, b1: nat, b2: nat, b3: nat, b4: nat)
    requires NumberLayout(text, b0, b1, b2, b3, b4)
    ensures FractionValue(CommaToPoint(text[b0..b4])[b2 - b0..]) == Some(FractionDigits(text[b3..b4]))
  {
    var t := CommaToPoint(text[b0..b4]);
    var fp := text[b3..b4];
    NormalizedSlice(text, b0, b4);
    NormalizedLayout(text, b0, b1, b2, b3, b4, t);
    NormalizedParts(text, b0, b1, b2, b3, b4, t);
    assert AllDigits(fp) by {
      assert forall k :: 0 <= k < |fp| ==> fp[k] == text[b3 + k];
    }
    FractionOfLayout(t, b2 - b0, b3 - b0, fp);
  }

  /** ParseDecimal, read off from the sign, the integer digits and the fraction of t. */
  lemma ParseDecimalParts(t: string, text: string, b0: nat, b1: nat, b2: nat, b3: nat, b4: nat)
    requires b0 <= b1 < b2 <= b3 <= b4 <= |text| && b2 - b0 <= |t|
    requires SignLength(t) == b1 - b0 && IsNegative(t) == IsNegative(text[b0..b1])
    requires DigitRun(t, b1 - b0) == b2 - b1 && t[b1 - b0..b2 - b0] == text[b1..b2]
    requires FractionValue(t[b2 - b0..]) == Some(FractionDigits(text[b3..b4]))
    ensures ParseDecimal(t) == Some(Signed(IsNegative(text[b0..b1]), DecimalValue(text[b1..b2], text[b3..b4])))
  {
    assert t[b1 - b0..(b1 - b0) + (b2 - b1)] == text[b1..b2];
    ParseDecimalIs(t, b1 - b0, b2 - b1, IsNegative(text[b0..b1]), text[b1..b2], text[b3..b4]);
  }

  lemma ParseDecimalIs(t: string, start: nat, d: nat, negative: bool, ip: string, fp: string)
    requires SignLength(t) == start && 0 < d && start + d <= |t| && DigitRun(t, start) == d
    requires IsNegative(t) == negative && t[start..start + d] == ip
    requires FractionValue(t[start + d..]) == Some(FractionDigits(fp))
    ensures ParseDecimal(t) == Some(Signed(negative, DecimalValue(ip, fp)))
  {
  }

  /** Sign, separator and digits of the normalised number, position by position. */
  lemma NormalizedLayout(text: string, b0: nat, b1: nat, b2: nat, b3: nat, b4: nat, t: string)
    requires NumberLayout(text, b0, b1, b2, b3, b4)
    requires |t| == b4 - b0 && forall k :: 0 <= k < |t| ==> t[k] == Normalize(text[b0 + k])
    ensures SignLength(t) == b1 - b0
    ensures forall k :: b1 - b0 <= k < |t| && k != b2 - b0 ==> IsDigit(t[k])
    ensures b2 < b4 ==> t[b2 - b0] == '.'
  {
    assert t[b1 - b0] == Normalize(text[b1]);
    if b0 < b1 {
      assert t[0] == Normalize(text[b0]);
    }
    forall k | b1 - b0 <= k < |t| && k != b2 - b0
      ensures IsDigit(t[k])
    {
      assert t[k] == Normalize(text[b0 + k]);
    }
    if b2 < b4 {
      assert t[b2 - b0] == Normalize(text[b2]);
    }
  }

  /** The normalised number keeps the sign and the digits of the text. */
  lemma NormalizedParts(text: string, b0: nat, b1: nat, b2: nat, b3: nat, b4: nat, t: string)
    requires NumberLayout(text, b0, b1, b2, b3, b4)
    requires |t| == b4 - b0 && forall k :: 0 <= k < |t| ==> t[k] == Normalize(text[b0 + k])
    ensures t[b1 - b0..b2 - b0] == text[b1..b2] && t[b3 - b0..] == text[b3..b4]
    ensures IsNegative(t) == IsNegative(text[b0..b1])
  {
    NormalizedDigits(text, b0, t, b1, b2);
    NormalizedDigits(text, b0, t, b3, b4);
    assert t[b3 - b0..] == t[b3 - b0..b4 - b0];
    assert t[0] == Normalize(text[b0]);
    if b0 == b1 {
      assert IsDigit(text[b0]);
    }
  }

  /** Digits are left alone by the normalisation. */
  lemma NormalizedDigits(text: string, b0: nat, t: string, lo: nat, hi: nat)
    requires b0 <= lo <= hi <= b0 + |t| <= |text|
    requires forall k :: 0 <= k < |t| ==> t[k] == Normalize(text[b0 + k])
    requires forall k :: lo <= k < hi ==> IsDigit(text[k])
    ensures t[lo - b0..hi - b0] == text[lo..hi]
  {
    forall j | 0 <= j < hi - lo
      ensures t[lo - b0..hi - b0][j] == text[lo..hi][j]
    {
      assert t[lo - b0 + j] == Normalize(text[b0 + (lo - b0 + j)]);
    }
  }

  lemma FractionOfLayout(t: string, e: nat, f: nat, fp: string)
    requires e <= f <= |t| && f - e <= 1
    requires e < f ==> t[e] == '.'
    requires e == f ==> f == |t|
    requires t[f..] == fp && AllDigits(fp)
    ensures FractionValue(t[e..]) == Some(FractionDigits(fp))
  {
    if e < f {
      assert t[e..][1..] == t[f..];
    }
  }

  lemma {:induction false} FindMatchFrom(text: string, lo: nat, i: nat)
    requires lo <= i < |text| && MatchStartsAt(text, i)
    requires forall k :: lo <= k < i ==> !MatchStartsAt(text, k)
    ensures FindMatch(text, lo) == Some(i)
    decreases i - lo
  {
    if lo < i {
      FindMatchFrom(text, lo + 1, i);
    }
  }

  lemma {:induction false} DigitRunIs(text: string, j: nat, n: nat)
    requires j + n <= |text|
    requires forall k :: j <= k < j + n ==> IsDigit(text[k])
    requires j + n == |text| || !IsDigit(text[j + n])
    ensures DigitRun(text, j) == n
    decreases n
  {
    if n > 0 {
      DigitRunIs(text, j + 1, n - 1);
    }
  }
}
