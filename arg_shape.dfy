/** The shape classifier: a first-match table that maps an argument or option
    value to one of the five shapes url, path, number, addr and word. */
module ArgShape {
  import opened Text
  import opened Models

  /** Length of the run of ASCII digits at the start of `s`. */
  function DigitRun(s: string): (n: nat)
    ensures n <= |s|
  {
    if s != [] && IsAsciiDigit(s[0]) then 1 + DigitRun(s[1..]) else 0
  }

  predicate AllDigits(s: string) {
    |s| > 0 && forall i :: 0 <= i < |s| ==> IsAsciiDigit(s[i])
  }

  /** The run is exactly the digits before the first non-digit. */
  lemma {:induction false} DigitRunExact(s: string, k: nat)
    requires k <= |s| && forall i :: 0 <= i < k ==> IsAsciiDigit(s[i])
    requires k == |s| || !IsAsciiDigit(s[k])
    ensures DigitRun(s) == k
  {
    if k > 0 {
      DigitRunExact(s[1..], k - 1);
    }
  }

  lemma {:induction false} DigitRunDigits(s: string)
    ensures forall i :: 0 <= i < DigitRun(s) ==> IsAsciiDigit(s[i])
  {
    if s != [] && IsAsciiDigit(s[0]) {
      DigitRunDigits(s[1..]);
    }
  }

  /** The string after an optional leading minus sign. */
  function Unsigned(s: string): string {
    if s != [] && s[0] == '-' then s[1..] else s
  }

  /** What `-?\d+(\.\d+)?` describes, stated declaratively: an optional minus,
      digits, and optionally a dot followed by digits. */
  ghost predicate NumberText(s: string) {
    var b := Unsigned(s);
    AllDigits(b) || exists k :: 0 < k < |b| && b[k] == '.' && AllDigits(b[..k]) && AllDigits(b[k + 1..])
  }

  /** The left-to-right match of the number pattern between the anchors. */
  predicate ScanNumber(s: string) {
    var b := Unsigned(s);
    var n := DigitRun(b);
    n > 0 && (n == |b| || (b[n] == '.' && DigitRun(b[n + 1..]) > 0 && n + 1 + DigitRun(b[n + 1..]) == |b|))
  }

  /** The anchored match: the .NET `$` anchor also matches just before a final
      line feed. */
  predicate MatchesNumber(s: string) {
    ScanNumber(s) || (|s| > 0 && s[|s| - 1] == '\n' && ScanNumber(s[..|s| - 1]))
  }

  /** Every string the scanner accepts is described by the pattern. */
  lemma ScanNumberSound(s: string)
    requires ScanNumber(s)
    ensures NumberText(s)
  {
    var b := Unsigned(s);
    var n := DigitRun(b);
    DigitRunDigits(b);
    if n < |b| {
      var c := b[n + 1..];
      DigitRunDigits(c);
      assert AllDigits(b[..n]);
      assert AllDigits(c) by {
        assert DigitRun(c) == |c|;
      }
    }
  }

  /** Digits, a dot and digits are scanned as a whole. */
  lemma ScanDotted(b: string, k: nat)
    requires 0 < k < |b| && b[k] == '.' && AllDigits(b[..k]) && AllDigits(b[k + 1..])
    ensures DigitRun(b) == k && DigitRun(b[k + 1..]) == |b| - k - 1
  {
    assert forall i :: 0 <= i < k ==> b[i] == b[..k][i];
    DigitRunExact(b, k);
    DigitRunExact(b[k + 1..], |b| - k - 1);
  }

  /** Every string the pattern describes is accepted by the scanner. */
  lemma ScanNumberComplete(s: string)
    requires NumberText(s)
    ensures ScanNumber(s)
  {
    var b := Unsigned(s);
    if AllDigits(b) {
      DigitRunExact(b, |b|);
    } else {
      var k :| 0 < k < |b| && b[k] == '.' && AllDigits(b[..k]) && AllDigits(b[k + 1..]);
      ScanDotted(b, k);
    }
  }

  /** The scanner accepts exactly the strings the pattern describes. */
  lemma ScanNumberIff(s: string)
    ensures ScanNumber(s) <==> NumberText(s)
  {
    if ScanNumber(s) {
      ScanNumberSound(s);
    }
    if NumberText(s) {
      ScanNumberComplete(s);
    }
  }

  /** `ArgShapeClassifier.Classify`. */
  function Classify(token: string): Shape {
    if IsBlank(token) then Word
    else if StartsWithIgnoreCase(token, "http://") || StartsWithIgnoreCase(token, "https://") then Url
    else if '/' in token || StartsWith(token, "~") then Path
    else if MatchesNumber(token) then Number
    else if '@' in token then Addr
    else Word
  }

  predicate IsUrlPrefixed(token: string) {
    StartsWithIgnoreCase(token, "http://") || StartsWithIgnoreCase(token, "https://")
  }

  predicate IsPathLike(token: string) {
    '/' in token || StartsWith(token, "~")
  }

  /** What the number test accepts, in terms of the declarative pattern. */
  ghost predicate NumberLike(token: string) {
    NumberText(token) || (|token| > 0 && token[|token| - 1] == '\n' && NumberText(token[..|token| - 1]))
  }

  /** The classification table, first match wins: each shape is given exactly
      when its own test holds and no earlier test does. */
  lemma ClassifyTable(token: string)
    ensures Classify(token) == Url <==> !IsBlank(token) && IsUrlPrefixed(token)
    ensures Classify(token) == Path <==> !IsBlank(token) && !IsUrlPrefixed(token) && IsPathLike(token)
    ensures Classify(token) == Number
        <==> !IsBlank(token) && !IsUrlPrefixed(token) && !IsPathLike(token) && NumberLike(token)
    ensures Classify(token) == Addr
        <==> !IsBlank(token) && !IsUrlPrefixed(token) && !IsPathLike(token) && !NumberLike(token) && '@' in token
    ensures Classify(token) == Word
        <==> IsBlank(token) || (!IsUrlPrefixed(token) && !IsPathLike(token) && !NumberLike(token) && '@' !in token)
  {
    ScanNumberIff(token);
    if |token| > 0 {
      ScanNumberIff(token[..|token| - 1]);
    }
  }

  /** The shape names are exactly the five the entries and signatures use. */
  lemma ClassifyName(token: string)
    ensures ShapeName(Classify(token)) in {"url", "path", "number", "addr", "word"}
    ensures IsBlank(token) ==> ShapeName(Classify(token)) == "word"
  {
  }

  /** Digits, a dot and digits: only digits and that dot, a digit first. */
  lemma DottedChars(b: string, k: nat)
    requires 0 < k < |b| && b[k] == '.' && AllDigits(b[..k]) && AllDigits(b[k + 1..])
    ensures IsAsciiDigit(b[0])
    ensures forall i :: 0 <= i < |b| ==> IsAsciiDigit(b[i]) || b[i] == '.'
  {
    assert b[0] == b[..k][0];
    forall i | 0 <= i < |b| ensures IsAsciiDigit(b[i]) || b[i] == '.' {
      if i < k {
        assert b[i] == b[..k][i];
      } else if i > k {
        assert b[i] == b[k + 1..][i - k - 1];
      }
    }
  }

  /** A leading minus adds only that minus in front. */
  lemma UnsignedChars(s: string)
    requires var b := Unsigned(s);
             |b| > 0 && IsAsciiDigit(b[0]) && forall i :: 0 <= i < |b| ==> IsAsciiDigit(b[i]) || b[i] == '.'
    ensures |s| > 0 && (IsAsciiDigit(s[0]) || s[0] == '-')
    ensures forall i :: 0 <= i < |s| ==> IsAsciiDigit(s[i]) || s[i] == '-' || s[i] == '.'
  {
    if s != [] && s[0] == '-' {
      var b := s[1..];
      forall i | 0 < i < |s| ensures IsAsciiDigit(s[i]) || s[i] == '.' {
        assert s[i] == b[i - 1];
      }
    }
  }

  /** A string the number pattern describes starts with a digit or a minus and
      holds nothing but digits, minus signs and dots. */
  lemma NumberTextChars(s: string)
    requires NumberText(s)
    ensures |s| > 0 && (IsAsciiDigit(s[0]) || s[0] == '-')
    ensures forall i :: 0 <= i < |s| ==> IsAsciiDigit(s[i]) || s[i] == '-' || s[i] == '.'
  {
    var b := Unsigned(s);
    if !AllDigits(b) {
      var k :| 0 < k < |b| && b[k] == '.' && AllDigits(b[..k]) && AllDigits(b[k + 1..]);
      DottedChars(b, k);
    }
    UnsignedChars(s);
  }

  /** A string whose first letter is not `h` in either case has no URL prefix. */
  lemma NotUrl(s: string)
    requires |s| > 0 && LowerChar(s[0]) != 'h'
    ensures !IsUrlPrefixed(s)
  {
    assert "http://"[0] == 'h' && "https://"[0] == 'h';
  }

  lemma NotPath(s: string)
    requires |s| > 0 && s[0] != '~' && forall i :: 0 <= i < |s| ==> s[i] != '/'
    ensures !IsPathLike(s)
  {
    assert s[..1][0] == s[0];
  }

  /** Whatever the number pattern describes is classified as a number: none of
      the earlier tests can fire on it. */
  lemma NumberWins(s: string)
    requires NumberText(s)
    ensures Classify(s) == Number
  {
    NumberTextChars(s);
    ScanNumberIff(s);
    assert !IsWhiteSpace(s[0]);
    NotUrl(s);
    NotPath(s);
  }

  /** `123` and `-4.5` are numbers. */
  lemma NumberExamples()
    ensures Classify("123") == Number && Classify("-4.5") == Number
  {
    assert AllDigits("123");
    NumberWins("123");
    var b := Unsigned("-4.5");
    assert b == "4.5";
    assert b[..1] == "4" && b[2..] == "5";
    assert AllDigits(b[..1]) && AllDigits(b[2..]);
    NumberWins("-4.5");
  }

  /** A dot needs digits on both sides: `1.` and `.5` are words. */
  lemma DotNeedsDigits(d: string)
    requires AllDigits(d)
    ensures Classify(d + ".") == Word && Classify("." + d) == Word
  {
    TrailingDot(d);
    LeadingDot(d);
  }

  lemma TrailingDot(d: string)
    requires AllDigits(d)
    ensures Classify(d + ".") == Word
  {
    var s := d + ".";
    assert forall i :: 0 <= i < |s| ==> IsAsciiDigit(s[i]) || s[i] == '.';
    assert !IsWhiteSpace(s[0]);
    NotUrl(s);
    NotPath(s);
    DigitRunExact(s, |d|);
    assert s[|d| + 1..] == [];
    assert !MatchesNumber(s);
  }

  lemma LeadingDot(d: string)
    requires AllDigits(d)
    ensures Classify("." + d) == Word
  {
    var t := "." + d;
    assert forall i :: 0 <= i < |t| ==> IsAsciiDigit(t[i]) || t[i] == '.';
    assert !IsWhiteSpace(t[0]);
    NotUrl(t);
    NotPath(t);
    assert !MatchesNumber(t);
  }

  /** The .NET end anchor also matches before a final line feed, so a number
      followed by one line feed is still a number. */
  lemma NumberBeforeLineFeed(d: string)
    requires AllDigits(d)
    ensures Classify(d + "\n") == Number
  {
    var s := d + "\n";
    assert s[..|s| - 1] == d;
    DigitRunExact(d, |d|);
    assert !IsWhiteSpace(s[0]);
    assert forall i :: 0 <= i < |s| ==> IsAsciiDigit(s[i]) || s[i] == '\n';
    NotUrl(s);
    NotPath(s);
  }

  /** A URL prefix, in any letter case, wins over the slashes it contains. */
  lemma UrlWins(s: string)
    requires IsUrlPrefixed(s)
    ensures Classify(s) == Url
  {
    assert LowerChar(s[0]) == 'h' by {
      assert "http://"[0] == 'h' && "https://"[0] == 'h';
    }
    assert !IsWhiteSpace(s[0]);
  }

  lemma UrlExamples(rest: string)
    ensures Classify("https://" + rest) == Url && Classify("HTTP://" + rest) == Url
  {
    var s := "https://" + rest;
    var t := "HTTP://" + rest;
    assert s[..8] == "https://" && t[..7] == "HTTP://";
    UrlWins(s);
    UrlWins(t);
  }

  /** A slash wins over an at sign: `a@b/c` is a path. */
  lemma SlashBeatsAt()
    ensures Classify("a@b/c") == Path
  {
    assert "a@b/c"[3] == '/';
    assert !IsWhiteSpace("a@b/c"[0]);
  }

  /** `a@b.com` is an address. */
  lemma AtIsAddr()
    ensures Classify("a@b.com") == Addr
  {
    var s := "a@b.com";
    assert s[1] == '@';
    assert !IsWhiteSpace(s[0]);
    NotUrl(s);
    NotPath(s);
    assert DigitRun(s) == 0;
    assert s[|s| - 1] == 'm';
  }
}
