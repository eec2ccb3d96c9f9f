/** `Sanitizer.SanitizeLine`: trims a history line and then applies three
    whole-string regex replacements, in this order:
      home path   `/home/[^/]+/`                     becomes `~/`
      long token  `\b[a-zA-Z0-9]{24,}\b`             becomes `<TOKEN>`
      user@host   `([a-zA-Z0-9_.-]+)@[a-zA-Z0-9_.-]+` becomes the user part.
    Each replacement is a left-to-right scanner: at each position it tries
    the leftmost match there, rewrites it and resumes after it, or copies one
    character and moves on.  The scanners see the text before their own
    rewrites, as `Regex.Replace` does. */
module Sanitizer {
  import opened Text

  /** Length of the longest prefix of `s` whose characters satisfy `p`. */
  function Span(s: string, p: char -> bool): (n: nat)
    ensures n <= |s|
  {
    if s == [] || !p(s[0]) then 0 else 1 + Span(s[1..], p)
  }

  /** The span is the longest such prefix. */
  lemma {:induction false} SpanIsLongest(s: string, p: char -> bool)
    ensures forall k :: 0 <= k < Span(s, p) ==> p(s[k])
    ensures Span(s, p) < |s| ==> !p(s[Span(s, p)])
  {
    if s != [] && p(s[0]) {
      SpanIsLongest(s[1..], p);
    }
  }

  lemma {:induction false} SpanAppend(a: string, b: string, p: char -> bool)
    requires forall k :: 0 <= k < |a| ==> p(a[k])
    requires b == [] || !p(b[0])
    ensures Span(a + b, p) == |a|
  {
    if a != [] {
      assert (a + b)[1..] == a[1..] + b;
      SpanAppend(a[1..], b, p);
    }
  }

  function Last(s: string): char
    requires s != []
  {
    s[|s| - 1]
  }

  // ---------------------------------------------------------------- home path

  predicate NotSlash(c: char) { c != '/' }

  /** `/home/` occurs at position `i` of `s`. */
  predicate HomeWordAt(s: string, i: int)
    requires 0 <= i <= |s| - 6
  {
    s[i] == '/' && s[i + 1] == 'h' && s[i + 2] == 'o' && s[i + 3] == 'm' && s[i + 4] == 'e' && s[i + 5] == '/'
  }

  /** A match of `/home/[^/]+/` starts at the head of `s`. */
  predicate HomeAt(s: string) {
    |s| >= 6 && HomeWordAt(s, 0) && 0 < Span(s[6..], NotSlash) < |s| - 6
  }

  /** The length of that match. */
  function HomeLength(s: string): (n: nat)
    requires HomeAt(s)
    ensures 8 <= n <= |s| && s[n - 1] == '/'
  {
    SpanIsLongest(s[6..], NotSlash);
    6 + Span(s[6..], NotSlash) + 1
  }

  /** `HomePath().Replace(s, "~/")`. */
  function HomePass(s: string): string
    decreases |s|
  {
    if s == [] then []
    else if HomeAt(s) then "~/" + HomePass(s[HomeLength(s)..])
    else [s[0]] + HomePass(s[1..])
  }

  /** No `/home/` occurs in `s`. */
  predicate NoHome(s: string) {
    forall i :: 0 <= i <= |s| - 6 ==> !HomeWordAt(s, i)
  }

  /** Text without `/home/` passes the home rewrite unchanged. */
  lemma {:induction false} HomePassNoHome(s: string)
    requires NoHome(s)
    ensures HomePass(s) == s
  {
    if s != [] {
      assert !HomeAt(s) by {
        if |s| >= 6 { assert !HomeWordAt(s, 0); }
      }
      assert NoHome(s[1..]) by {
        forall i | 0 <= i <= |s[1..]| - 6 ensures !HomeWordAt(s[1..], i) {
          assert !HomeWordAt(s, i + 1);
        }
      }
      HomePassNoHome(s[1..]);
    }
  }

  /** `/home/<segment>/`, with a non-empty segment free of `/`, becomes `~/`. */
  lemma HomePassRewrites(segment: string, t: string)
    requires segment != [] && '/' !in segment
    ensures HomePass("/home/" + segment + "/" + t) == "~/" + HomePass(t)
  {
    var s := "/home/" + segment + "/" + t;
    assert s[6..] == segment + ("/" + t);
    SpanAppend(segment, "/" + t, NotSlash);
    assert HomeWordAt(s, 0);
    assert HomeAt(s);
    assert s[HomeLength(s)..] == t;
  }

  /** `/home/` followed by an empty segment, or by a segment that is not
      closed by `/`, is not rewritten there. */
  lemma HomePassNeedsSegment(segment: string)
    requires '/' !in segment
    ensures HomePass("/home/" + segment) == "/" + HomePass("home/" + segment)
    ensures HomePass("/home//" + segment) == "/" + HomePass("home//" + segment)
  {
    var s := "/home/" + segment;
    assert s[6..] == segment;
    SpanAppend(segment, [], NotSlash);
    assert segment + [] == segment;
    assert s[1..] == "home/" + segment;
    var s2 := "/home//" + segment;
    assert s2[6..] == "/" + segment;
    assert s2[1..] == "home//" + segment;
  }

  // --------------------------------------------------------------- long token

  /** `\w` restricted to ASCII. */
  predicate IsWordChar(c: char) { IsAsciiAlnum(c) || c == '_' }

  const TokenMark := "<TOKEN>"
  const TokenMinLength := 24

  /** A match of `\b[a-zA-Z0-9]{24,}\b` starts at the head of `s`, when the
      character before it was a word character exactly if `afterWord`. */
  predicate TokenAt(s: string, afterWord: bool) {
    var n := Span(s, IsAsciiAlnum);
    !afterWord && n >= TokenMinLength && (n == |s| || !IsWordChar(s[n]))
  }

  /** `TokenLike().Replace(s, "<TOKEN>")`; `afterWord` says whether the
      character before `s` in the whole line is a word character. */
  function TokenPass(s: string, afterWord: bool): string
    decreases |s|
  {
    if s == [] then []
    else if TokenAt(s, afterWord) then TokenMark + TokenPass(s[Span(s, IsAsciiAlnum)..], true)
    else [s[0]] + TokenPass(s[1..], IsWordChar(s[0]))
  }

  /** Some 24 consecutive characters from `i` on are ASCII letters or digits. */
  predicate AlnumWindow(s: string, i: int)
    requires 0 <= i <= |s| - TokenMinLength
  {
    forall k :: i <= k < i + TokenMinLength ==> IsAsciiAlnum(s[k])
  }

  /** No run of 24 or more ASCII letters and digits occurs in `s`. */
  predicate NoLongRun(s: string) {
    forall i :: 0 <= i <= |s| - TokenMinLength ==> !AlnumWindow(s, i)
  }

  lemma NoLongRunNoToken(s: string, afterWord: bool)
    requires s != [] && NoLongRun(s)
    ensures !TokenAt(s, afterWord)
  {
    SpanIsLongest(s, IsAsciiAlnum);
    assert |s| >= TokenMinLength ==> !AlnumWindow(s, 0);
  }

  lemma NoLongRunTail(s: string)
    requires s != [] && NoLongRun(s)
    ensures NoLongRun(s[1..])
  {
    var t := s[1..];
    forall i | 0 <= i <= |t| - TokenMinLength ensures !AlnumWindow(t, i) {
      assert !AlnumWindow(s, i + 1);
      var k :| i + 1 <= k < i + 1 + TokenMinLength && !IsAsciiAlnum(s[k]);
      assert t[k - 1] == s[k];
    }
  }

  /** Text without a long alphanumeric run passes the token rewrite unchanged. */
  lemma {:induction false} TokenPassNoLongRun(s: string, afterWord: bool)
    requires NoLongRun(s)
    ensures TokenPass(s, afterWord) == s
  {
    if s != [] {
      NoLongRunNoToken(s, afterWord);
      assert TokenPass(s, afterWord) == [s[0]] + TokenPass(s[1..], IsWordChar(s[0]));
      NoLongRunTail(s);
      TokenPassNoLongRun(s[1..], IsWordChar(s[0]));
      assert [s[0]] + s[1..] == s;
    }
  }

  predicate AllAlnum(s: string) { forall k :: 0 <= k < |s| ==> IsAsciiAlnum(s[k]) }

  /** A run of 24 or more letters and digits, at a word boundary on both sides,
      becomes `<TOKEN>`. */
  lemma TokenPassRewrites(run: string, t: string)
    requires |run| >= TokenMinLength && AllAlnum(run)
    requires t == [] || !IsWordChar(t[0])
    ensures TokenPass(run + t, false) == TokenMark + TokenPass(t, true)
  {
    SpanAppend(run, t, IsAsciiAlnum);
    assert (run + t)[|run|..] == t;
  }

  /** A shorter run between word boundaries is copied unchanged. */
  lemma {:induction false} TokenPassKeepsShortRun(run: string, t: string, afterWord: bool)
    requires |run| < TokenMinLength && AllAlnum(run)
    requires t == [] || !IsWordChar(t[0])
    ensures TokenPass(run + t, afterWord) == run + TokenPass(t, if run == [] then afterWord else true)
  {
    if run != [] {
      var s := run + t;
      SpanAppend(run, t, IsAsciiAlnum);
      assert !TokenAt(s, afterWord);
      assert s[0] == run[0] && IsWordChar(s[0]);
      assert s[1..] == run[1..] + t;
      assert TokenPass(s, afterWord) == [run[0]] + TokenPass(run[1..] + t, true);
      TokenPassKeepsShortRun(run[1..], t, true);
      assert [run[0]] + (run[1..] + TokenPass(t, true)) == run + TokenPass(t, true);
    } else {
      assert run + t == t;
    }
  }

  /** A long run glued to a word character (`_`) on either side has no word
      boundary there and is kept. */
  lemma TokenPassNeedsBoundary(run: string)
    requires |run| >= TokenMinLength && AllAlnum(run)
    ensures TokenPass(run + "_", false) == run + "_"
    ensures TokenPass("_" + run, false) == "_" + run
  {
    TokenPassGluedRun(run, "_", false);
    assert ("_" + run)[1..] == run;
    assert !TokenAt("_" + run, false);
    TokenPassGluedRun(run, [], true);
    assert run + [] == run;
  }

  /** A letter-and-digit run followed by `_`, or entered right after a word
      character, is copied. */
  lemma {:induction false} TokenPassGluedRun(run: string, t: string, afterWord: bool)
    requires AllAlnum(run)
    requires (t == "_" && !afterWord) || (t == [] && afterWord)
    ensures TokenPass(run + t, afterWord) == run + t
  {
    if run == [] {
      assert run + t == t;
      if t == "_" { assert Span(t, IsAsciiAlnum) == 0; }
    } else {
      var s := run + t;
      SpanAppend(run, t, IsAsciiAlnum);
      assert !TokenAt(s, afterWord);
      assert s[1..] == run[1..] + t;
      if t == [] {
        TokenPassGluedRun(run[1..], t, true);
      } else {
        TokenPassGluedSuffix(run[1..]);
      }
      assert [run[0]] + run[1..] == run;
    }
  }

  /** Inside a run (after a word character) nothing is rewritten. */
  lemma {:induction false} TokenPassGluedSuffix(run: string)
    requires AllAlnum(run)
    ensures TokenPass(run + "_", true) == run + "_"
  {
    var s := run + "_";
    if run == [] {
      assert s == "_";
    } else {
      assert s[1..] == run[1..] + "_";
      TokenPassGluedSuffix(run[1..]);
      assert [run[0]] + run[1..] == run;
    }
  }

  // ---------------------------------------------------------------- user@host

  /** The regex class `[a-zA-Z0-9_.-]`. */
  predicate IsHostChar(c: char) { IsAsciiAlnum(c) || c == '_' || c == '.' || c == '-' }

  /** A match of `([a-zA-Z0-9_.-]+)@[a-zA-Z0-9_.-]+` starts at the head of `s`. */
  predicate HostAt(s: string) {
    var u := Span(s, IsHostChar);
    0 < u && u + 1 < |s| && s[u] == '@' && IsHostChar(s[u + 1])
  }

  /** The length of that match. */
  function HostLength(s: string): (n: nat)
    requires HostAt(s)
    ensures Span(s, IsHostChar) + 2 <= n <= |s|
  {
    var u := Span(s, IsHostChar);
    u + 1 + Span(s[u + 1..], IsHostChar)
  }

  /** `HostUser().Replace(s, m => m.Groups[1].Value)`. */
  function HostPass(s: string): string
    decreases |s|
  {
    if s == [] then []
    else if HostAt(s) then s[..Span(s, IsHostChar)] + HostPass(s[HostLength(s)..])
    else [s[0]] + HostPass(s[1..])
  }

  predicate AllHost(s: string) { forall k :: 0 <= k < |s| ==> IsHostChar(s[k]) }

  /** Text without `@` passes the host rewrite unchanged. */
  lemma {:induction false} HostPassNoAt(s: string)
    requires '@' !in s
    ensures HostPass(s) == s
  {
    if s != [] {
      assert '@' !in s[1..];
      HostPassNoAt(s[1..]);
    }
  }

  /** `user@host` collapses to `user` when both sides are maximal runs. */
  lemma HostPassCollapses(user: string, host: string, t: string)
    requires user != [] && AllHost(user) && host != [] && AllHost(host)
    requires t == [] || !IsHostChar(t[0])
    ensures HostPass(user + "@" + host + t) == user + HostPass(t)
  {
    var r := host + t;
    var at := "@" + r;
    var s := user + at;
    assert user + "@" + host + t == s;
    SpanAppend(user, at, IsHostChar);
    assert s[|user|] == '@' && s[|user| + 1] == host[0];
    assert s[|user| + 1..] == r;
    SpanAppend(host, t, IsHostChar);
    assert HostLength(s) == |user| + 1 + |host|;
    assert s[..|user|] == user && s[HostLength(s)..] == t;
    assert HostPass(s) == user + HostPass(t);
  }

  /** The home rewrite maps the empty string to itself only, and starts and
      ends either where its input does or with a character of `~/`. */
  lemma {:induction false} HomePassEdges(s: string)
    ensures HomePass(s) == [] <==> s == []
    ensures HomePass(s) != [] ==> HomePass(s)[0] == s[0] || HomePass(s)[0] == '~'
    ensures HomePass(s) != [] ==> Last(HomePass(s)) == Last(s) || Last(HomePass(s)) == '/'
    decreases |s|
  {
    if s != [] {
      if HomeAt(s) {
        var rest := s[HomeLength(s)..];
        HomePassEdges(rest);
        if rest != [] { assert Last(rest) == Last(s); }
      } else {
        HomePassEdges(s[1..]);
        if s[1..] != [] { assert Last(s[1..]) == Last(s); }
      }
    }
  }

  /** The token rewrite, likewise, with the characters of `<TOKEN>`. */
  lemma {:induction false} TokenPassEdges(s: string, afterWord: bool)
    ensures TokenPass(s, afterWord) == [] <==> s == []
    ensures TokenPass(s, afterWord) != [] ==> TokenPass(s, afterWord)[0] == s[0] || TokenPass(s, afterWord)[0] == '<'
    ensures TokenPass(s, afterWord) != [] ==>
              Last(TokenPass(s, afterWord)) == Last(s) || Last(TokenPass(s, afterWord)) == '>'
    decreases |s|
  {
    if s != [] {
      if TokenAt(s, afterWord) {
        var rest := s[Span(s, IsAsciiAlnum)..];
        assert TokenPass(s, afterWord) == TokenMark + TokenPass(rest, true);
        TokenPassEdges(rest, true);
        assert TokenMark[0] == '<';
        if rest != [] {
          assert Last(rest) == Last(s);
          assert Last(TokenPass(s, afterWord)) == Last(TokenPass(rest, true));
        } else {
          assert TokenPass(s, afterWord) == TokenMark && Last(TokenMark) == '>';
        }
      } else {
        var rest := s[1..];
        assert TokenPass(s, afterWord) == [s[0]] + TokenPass(rest, IsWordChar(s[0]));
        TokenPassEdges(rest, IsWordChar(s[0]));
        if rest != [] {
          assert Last(rest) == Last(s);
          assert Last(TokenPass(s, afterWord)) == Last(TokenPass(rest, IsWordChar(s[0])));
        }
      }
    }
  }

  /** The host rewrite keeps the first character and ends where its input
      does or with a character of a kept user part. */
  lemma {:induction false} HostPassEdges(s: string)
    ensures HostPass(s) == [] <==> s == []
    ensures HostPass(s) != [] ==> HostPass(s)[0] == s[0]
    ensures HostPass(s) != [] ==> Last(HostPass(s)) == Last(s) || IsHostChar(Last(HostPass(s)))
    decreases |s|
  {
    if s != [] {
      if HostAt(s) {
        var u := Span(s, IsHostChar);
        var kept, rest := s[..u], s[HostLength(s)..];
        assert HostPass(s) == kept + HostPass(rest);
        HostPassEdges(rest);
        if rest != [] {
          assert Last(rest) == Last(s);
          assert Last(HostPass(s)) == Last(HostPass(rest));
        } else {
          SpanIsLongest(s, IsHostChar);
          assert HostPass(s) == kept && Last(kept) == s[u - 1];
        }
      } else {
        var rest := s[1..];
        assert HostPass(s) == [s[0]] + HostPass(rest);
        HostPassEdges(rest);
        if rest != [] {
          assert Last(rest) == Last(s);
          assert Last(HostPass(s)) == Last(HostPass(rest));
        }
      }
    }
  }

  // ------------------------------------------------------------ the whole line

  /** `SanitizeLine`. */
  function Sanitize(line: string): string {
    HostPass(TokenPass(HomePass(Trim(line)), false))
  }

  /** Neither empty-and-white nor padded: empty, or non-white at both ends. */
  predicate Unpadded(s: string) {
    s == [] || (!IsWhiteSpace(s[0]) && !IsWhiteSpace(s[|s| - 1]))
  }

  lemma HomePassUnpadded(s: string)
    requires Unpadded(s)
    ensures Unpadded(HomePass(s))
  {
    HomePassEdges(s);
  }

  lemma TokenPassUnpadded(s: string)
    requires Unpadded(s)
    ensures Unpadded(TokenPass(s, false))
  {
    TokenPassEdges(s, false);
  }

  lemma HostPassUnpadded(s: string)
    requires Unpadded(s)
    ensures Unpadded(HostPass(s))
  {
    HostPassEdges(s);
  }

  /** The sanitised line has no leading or trailing white space: trimming
      comes first and none of the rewrites introduces white space at an end. */
  lemma SanitizeUnpadded(line: string)
    ensures Unpadded(Sanitize(line))
  {
    var a, b := TrimIsSlice(line);
    HomePassUnpadded(Trim(line));
    TokenPassUnpadded(HomePass(Trim(line)));
    HostPassUnpadded(TokenPass(HomePass(Trim(line)), false));
  }

  /** The sanitised line is blank exactly when the input line is. */
  lemma SanitizeBlankIff(line: string)
    ensures IsBlank(Sanitize(line)) <==> IsBlank(line)
  {
    SanitizeUnpadded(line);
    TrimEmptyIffBlank(line);
    var s := Sanitize(line);
  }

  /** Leading and trailing white space go before any rewrite, so a line and
      its trimmed form sanitise alike. */
  lemma SanitizeTrimmed(line: string)
    ensures Sanitize(Trim(line)) == Sanitize(line)
  {
    var a, b := TrimIsSlice(line);
    TrimOfTrimmed(Trim(line));
  }

  lemma NoHomeSlice(s: string, a: nat, b: nat)
    requires a <= b <= |s| && NoHome(s)
    ensures NoHome(s[a..b])
  {
    forall i | 0 <= i <= |s[a..b]| - 6 ensures !HomeWordAt(s[a..b], i) {
      assert !HomeWordAt(s, a + i);
    }
  }

  lemma NoLongRunSlice(s: string, a: nat, b: nat)
    requires a <= b <= |s| && NoLongRun(s)
    ensures NoLongRun(s[a..b])
  {
    forall i | 0 <= i <= |s[a..b]| - TokenMinLength ensures !AlnumWindow(s[a..b], i) {
      assert !AlnumWindow(s, a + i);
      var k :| a + i <= k < a + i + TokenMinLength && !IsAsciiAlnum(s[k]);
      assert s[a..b][k - a] == s[k];
    }
  }

  /** A line with no `/home/`, no `@` and no run of 24 letters and digits
      comes back only trimmed. */
  lemma SanitizeOnlyTrims(line: string)
    requires NoHome(line) && '@' !in line && NoLongRun(line)
    ensures Sanitize(line) == Trim(line)
  {
    var a, b := TrimIsSlice(line);
    NoHomeSlice(line, a, b);
    NoLongRunSlice(line, a, b);
    HomePassNoHome(Trim(line));
    TokenPassNoLongRun(Trim(line), false);
    assert '@' !in Trim(line);
    HostPassNoAt(Trim(line));
  }

  lemma NoSlashNoHome(s: string)
    requires '/' !in s
    ensures NoHome(s)
  {
    forall i | 0 <= i <= |s| - 6 ensures !HomeWordAt(s, i) {
      assert s[i] in s;
    }
  }

  lemma AlnumIsHost(s: string)
    requires AllAlnum(s)
    ensures AllHost(s)
  {
  }

  /** `@` is no word character, so what follows it starts at a boundary. */
  lemma TokenPassAfterAt(t: string, afterWord: bool)
    ensures TokenPass("@" + t, afterWord) == "@" + TokenPass(t, false)
  {
    var s := "@" + t;
    assert Span(s, IsAsciiAlnum) == 0;
    assert s[1..] == t;
  }

  /** The token rule, applied to `user@<long token>`. */
  lemma TokenPassUserToken(user: string, token: string)
    requires |user| < TokenMinLength && AllAlnum(user)
    requires |token| >= TokenMinLength && AllAlnum(token)
    ensures TokenPass(user + "@" + token, false) == user + "@" + TokenMark
  {
    assert user + "@" + token == user + ("@" + token);
    TokenPassKeepsShortRun(user, "@" + token, false);
    TokenPassAfterAt(token, if user == [] then false else true);
    assert token == token + [];
    TokenPassRewrites(token, []);
  }

  /** `user@<TOKEN>` no longer matches the host rule. */
  lemma HostPassUserMark(user: string)
    requires AllAlnum(user)
    ensures HostPass(user + "@" + TokenMark) == user + "@" + TokenMark
  {
    AlnumIsHost(user);
    assert TokenMark[0] == '<';
    assert '@' !in TokenMark;
    HostPassUserText(user, TokenMark);
  }

  /** `user@` followed by text that starts outside the class and holds no
      further `@` is copied. */
  lemma HostPassUserText(user: string, m: string)
    requires AllHost(user) && m != [] && !IsHostChar(m[0]) && '@' !in m
    ensures HostPass(user + "@" + m) == user + "@" + m
  {
    var t := "@" + m;
    assert user + "@" + m == user + t;
    assert t[0] == '@' && t[1] == m[0] && t[1..] == m;
    HostPassUnmatchedAt(user, t);
    assert Span(t, IsHostChar) == 0;
    HostPassCopies(t);
    HostPassNoAt(m);
  }

  lemma UserTokenUnpadded(user: string, token: string)
    requires user != [] && AllAlnum(user)
    requires token != [] && AllAlnum(token)
    ensures Unpadded(user + "@" + token)
  {
    var s := user + "@" + token;
    assert s[0] == user[0] && s[|s| - 1] == token[|token| - 1];
  }

  lemma UserTokenNoSlash(user: string, token: string)
    requires AllAlnum(user) && AllAlnum(token)
    ensures '/' !in user + "@" + token
  {
    var s := user + "@" + token;
    assert forall k :: 0 <= k < |s| ==> s[k] == '@' || IsAsciiAlnum(s[k]);
  }

  /** The first three steps leave `user@<long token>` as the token rule makes it. */
  lemma TrimHomeUserToken(user: string, token: string)
    requires user != [] && AllAlnum(user)
    requires |token| >= TokenMinLength && AllAlnum(token)
    ensures HomePass(Trim(user + "@" + token)) == user + "@" + token
  {
    var s := user + "@" + token;
    UserTokenUnpadded(user, token);
    TrimOfTrimmed(s);
    UserTokenNoSlash(user, token);
    NoSlashNoHome(s);
    HomePassNoHome(s);
  }

  /** The rewrites run in a fixed order: in `user@<long token>` the token is
      replaced first, after which the host rule no longer matches; run alone,
      the host rule would have collapsed the whole thing to `user`. */
  lemma SanitizeOrder(user: string, token: string)
    requires user != [] && |user| < TokenMinLength && AllAlnum(user)
    requires |token| >= TokenMinLength && AllAlnum(token)
    ensures Sanitize(user + "@" + token) == user + "@" + TokenMark
    ensures HostPass(user + "@" + token) == user
  {
    TrimHomeUserToken(user, token);
    TokenPassUserToken(user, token);
    HostPassUserMark(user);
    AlnumIsHost(user);
    AlnumIsHost(token);
    assert user + "@" + token == user + "@" + token + [];
    HostPassCollapses(user, token, []);
  }

  lemma HostPassRunThenAt(run: string, t: string)
    requires AllHost(run)
    requires |t| >= 2 && t[0] == '@' && !IsHostChar(t[1])
    ensures !HostAt(run + t)
  {
    SpanAppend(run, t, IsHostChar);
    assert (run + t)[|run| + 1] == t[1];
  }

  /** Where no match starts, the host rule copies one character. */
  lemma HostPassCopies(s: string)
    requires s != [] && !HostAt(s)
    ensures HostPass(s) == [s[0]] + HostPass(s[1..])
  {
  }

  /** A host-character run followed by `@` and then a character outside the
      class is not a match, anywhere along the run. */
  lemma {:induction false} HostPassUnmatchedAt(run: string, t: string)
    requires AllHost(run)
    requires |t| >= 2 && t[0] == '@' && !IsHostChar(t[1])
    ensures HostPass(run + t) == run + HostPass(t)
  {
    if run != [] {
      var s := run + t;
      HostPassRunThenAt(run, t);
      HostPassCopies(s);
      assert s[1..] == run[1..] + t;
      HostPassUnmatchedAt(run[1..], t);
      assert [run[0]] + (run[1..] + HostPass(t)) == run + HostPass(t);
    } else {
      assert run + t == t;
    }
  }
}
