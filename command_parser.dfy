/** `CommandParser`: splits a sanitised history line into shell-like tokens
    and classifies them into command, subcommand, flags, options and
    positional arguments. */
module CommandParser {
  import opened Text
  import opened Ordering
  import opened Dict
  import opened Models
  import Sanitizer

  // ---------------------------------------------------------------- tokenizer

  predicate IsQuote(c: char) { c == '"' || c == '\'' }

  /** The tokens the character loop produces from the rest `s` of the line,
      given whether it is inside a quoted span opened by `q` and the token
      `cur` accumulated so far. */
  function Lex(s: string, inQuote: bool, q: char, cur: string): seq<string>
    decreases |s|
  {
    if s == [] then (if cur != [] then [cur] else [])
    else if inQuote then
      if s[0] == q then Lex(s[1..], false, q, cur)
      else if s[0] == '\\' && |s| > 1 then Lex(s[2..], true, q, cur + [s[1]])
      else Lex(s[1..], true, q, cur + [s[0]])
    else if IsQuote(s[0]) then Lex(s[1..], true, s[0], cur)
    else if IsWhiteSpace(s[0]) then
      (if cur != [] then [cur] else []) + Lex(s[1..], false, q, [])
    else if s[0] == '\\' && |s| > 1 then Lex(s[2..], false, q, cur + [s[1]])
    else Lex(s[1..], false, q, cur + [s[0]])
  }

  /** The token list of a whole line. */
  function Tokens(line: string): seq<string> {
    Lex(line, false, '\0', [])
  }

  /** `Tokenize`: the character loop with its string builder, quote state and
      look-ahead for backslash escapes. */
  method Tokenize(line: string) returns (tokens: seq<string>)
    ensures tokens == Tokens(line)
  {
    tokens := [];
    var sb: string := [];
    var inQuote := false;
    var quoteChar := '\0';
    var i := 0;
    while i < |line|
      invariant 0 <= i <= |line|
      invariant tokens + Lex(line[i..], inQuote, quoteChar, sb) == Tokens(line)
    {
      var c := line[i];
      assert line[i..][1..] == line[i + 1..];
      if inQuote {
        if c == quoteChar {
          inQuote := false;
        } else if c == '\\' && i + 1 < |line| {
          assert line[i..][2..] == line[i + 2..];
          i := i + 1;
          sb := sb + [line[i]];
        } else {
          sb := sb + [c];
        }
        i := i + 1;
        continue;
      }
      if IsQuote(c) {
        inQuote := true;
        quoteChar := c;
        i := i + 1;
        continue;
      }
      if IsWhiteSpace(c) {
        if sb != [] {
          tokens := tokens + [sb];
          sb := [];
        }
        i := i + 1;
        continue;
      }
      if c == '\\' && i + 1 < |line| {
        assert line[i..][2..] == line[i + 2..];
        i := i + 1;
        sb := sb + [line[i]];
        i := i + 1;
        continue;
      }
      sb := sb + [c];
      i := i + 1;
    }
    if sb != [] {
      tokens := tokens + [sb];
    }
  }

  /** No token is ever empty. */
  lemma {:induction false} LexNoEmpty(s: string, inQuote: bool, q: char, cur: string)
    ensures forall t :: t in Lex(s, inQuote, q, cur) ==> t != []
    decreases |s|
  {
    if s != [] {
      if inQuote {
        if s[0] == q { LexNoEmpty(s[1..], false, q, cur); }
        else if s[0] == '\\' && |s| > 1 { LexNoEmpty(s[2..], true, q, cur + [s[1]]); }
        else { LexNoEmpty(s[1..], true, q, cur + [s[0]]); }
      } else if IsQuote(s[0]) {
        LexNoEmpty(s[1..], true, s[0], cur);
      } else if IsWhiteSpace(s[0]) {
        LexNoEmpty(s[1..], false, q, []);
      } else if s[0] == '\\' && |s| > 1 {
        LexNoEmpty(s[2..], false, q, cur + [s[1]]);
      } else {
        LexNoEmpty(s[1..], false, q, cur + [s[0]]);
      }
    }
  }

  lemma TokensNoEmpty(line: string)
    ensures forall t :: t in Tokens(line) ==> t != []
  {
    LexNoEmpty(line, false, '\0', []);
  }

  /** A character with no special meaning outside quotes. */
  predicate Plain(c: char) { !IsWhiteSpace(c) && !IsQuote(c) && c != '\\' }

  predicate PlainWord(w: string) { w != [] && forall k :: 0 <= k < |w| ==> Plain(w[k]) }

  /** Plain characters are accumulated into the current token. */
  lemma {:induction false} LexPlainRun(w: string, rest: string, q: char, cur: string)
    requires forall k :: 0 <= k < |w| ==> Plain(w[k])
    ensures Lex(w + rest, false, q, cur) == Lex(rest, false, q, cur + w)
    decreases |w|
  {
    if w == [] {
      assert w + rest == rest && cur + w == cur;
    } else {
      assert (w + rest)[1..] == w[1..] + rest;
      LexPlainRun(w[1..], rest, q, cur + [w[0]]);
      assert cur + [w[0]] + w[1..] == cur + w;
    }
  }

  /** White space outside quotes separates tokens: plain words joined by any
      white-space character tokenize back to the same words. */
  lemma {:induction false} TokensOfJoin(words: seq<string>, sep: char)
    requires IsWhiteSpace(sep)
    requires forall i :: 0 <= i < |words| ==> PlainWord(words[i])
    ensures Tokens(Join([sep], words)) == words
  {
    LexJoin(words, sep, '\0');
  }

  lemma {:induction false} LexJoin(words: seq<string>, sep: char, q: char)
    requires IsWhiteSpace(sep)
    requires forall i :: 0 <= i < |words| ==> PlainWord(words[i])
    ensures Lex(Join([sep], words), false, q, []) == words
  {
    if words == [] {
    } else if |words| == 1 {
      LexPlainRun(words[0], [], q, []);
      assert words[0] + [] == words[0] && [] + words[0] == words[0];
    } else {
      var w := words[0];
      var rest := Join([sep], words[1..]);
      assert Join([sep], words) == w + ([sep] + rest);
      LexPlainRun(w, [sep] + rest, q, []);
      assert [] + w == w;
      assert ([sep] + rest)[1..] == rest;
      assert Lex([sep] + rest, false, q, w) == [w] + Lex(rest, false, q, []);
      assert forall i :: 0 <= i < |words[1..]| ==> PlainWord(words[1..][i]) by {
        forall i | 0 <= i < |words[1..]| ensures PlainWord(words[1..][i]) { assert words[1..][i] == words[i + 1]; }
      }
      LexJoin(words[1..], sep, q);
      assert [w] + words[1..] == words;
    }
  }

  /** Inside a span opened by `q`, characters other than `q` and `\` are
      accumulated literally, white space and the other quote included. */
  lemma {:induction false} LexQuotedRun(body: string, rest: string, q: char, cur: string)
    requires forall k :: 0 <= k < |body| ==> body[k] != q && body[k] != '\\'
    ensures Lex(body + rest, true, q, cur) == Lex(rest, true, q, cur + body)
    decreases |body|
  {
    if body == [] {
      assert body + rest == rest && cur + body == cur;
    } else {
      assert (body + rest)[1..] == body[1..] + rest;
      LexQuotedRun(body[1..], rest, q, cur + [body[0]]);
      assert cur + [body[0]] + body[1..] == cur + body;
    }
  }

  /** A closed quoted span contributes its body, without the delimiters, to
      the current token. */
  lemma LexQuotedSpan(q: char, body: string, rest: string, q0: char, cur: string)
    requires IsQuote(q)
    requires forall k :: 0 <= k < |body| ==> body[k] != q && body[k] != '\\'
    ensures Lex([q] + body + [q] + rest, false, q0, cur) == Lex(rest, false, q, cur + body)
  {
    var s := [q] + body + [q] + rest;
    assert s[1..] == body + ([q] + rest);
    LexQuotedRun(body, [q] + rest, q, cur);
    assert ([q] + rest)[1..] == rest;
  }

  /** A quote that is never closed flushes what it accumulated. */
  lemma LexUnterminatedQuote(q: char, body: string, q0: char, cur: string)
    requires IsQuote(q)
    requires forall k :: 0 <= k < |body| ==> body[k] != q && body[k] != '\\'
    ensures Lex([q] + body, false, q0, cur) == if cur + body == [] then [] else [cur + body]
  {
    assert ([q] + body)[1..] == body + [];
    LexQuotedRun(body, [], q, cur);
  }

  /** A backslash followed by a character contributes that character, inside
      quotes and outside. */
  lemma LexEscape(c: char, rest: string, inQuote: bool, q: char, cur: string)
    requires inQuote ==> q != '\\'
    ensures Lex(['\\', c] + rest, inQuote, q, cur) == Lex(rest, inQuote, q, cur + [c])
  {
    assert (['\\', c] + rest)[2..] == rest;
  }

  /** A backslash at the very end of the line is kept literally. */
  lemma LexTrailingBackslash(inQuote: bool, q: char, cur: string)
    requires inQuote ==> q != '\\'
    ensures Lex(['\\'], inQuote, q, cur) == [cur + ['\\']]
  {
  }

  /** An empty quoted pair alone yields no token at all. */
  lemma TokensEmptyQuotes()
    ensures Tokens("\"\"") == []
    ensures Tokens("''") == []
  {
    LexQuotedSpan('"', [], [], '\0', []);
    assert "\"\"" == ['"'] + [] + ['"'] + [];
    LexQuotedSpan('\'', [], [], '\0', []);
    assert "''" == ['\''] + [] + ['\''] + [];
  }

  // ------------------------------------------------------------- classifier

  /** `IsFlag`: starts with `-` and is longer than that, so a lone `-` is not a flag. */
  predicate IsFlag(t: string) { |t| > 1 && t[0] == '-' }

  /** `IsLongOptionWithValue`'s test: `--` prefix and some `=`. */
  predicate IsLongOptionWithValue(t: string) { StartsWith(t, "--") && '=' in t }

  /** The key and value of `--key=value`: split at the first `=`, the key
      keeping its `--`. */
  function SplitLongOption(t: string): (kv: (string, string))
    requires IsLongOptionWithValue(t)
    ensures kv.0 + "=" + kv.1 == t && '=' !in kv.0
    ensures StartsWith(kv.0, "--")
  {
    var kv := SplitFirst(t, '=');
    assert kv.0 + ['='] + kv.1 == t;
    assert t[..2] == "--" && t[0] != '=' && t[1] != '=';
    assert t[|kv.0|] == '=';
    assert kv.0[..2] == t[..2];
    kv
  }

  /** One option assignment as the loop performs it: from an inline
      `--key=value` token, or from a `--name` token and the token after it. */
  datatype OptionAssign = OptionAssign(key: string, value: string, spaced: bool)

  /** What the loop puts where, in order. */
  datatype Parts = Parts(flags: seq<string>, assigns: seq<OptionAssign>, args: seq<string>)

  /** Whether the loop, positioned at `toks[0]`, pairs it with `toks[1]`. */
  predicate TakesValue(toks: seq<string>)
    requires toks != []
  {
    IsFlag(toks[0]) && |toks| > 1 && !IsFlag(toks[1]) && StartsWith(toks[0], "--")
  }

  /** The classification loop over the tokens after command and subcommand. */
  function SplitRest(toks: seq<string>): Parts
    decreases |toks|
  {
    if toks == [] then Parts([], [], [])
    else if IsLongOptionWithValue(toks[0]) then
      var kv := SplitLongOption(toks[0]);
      var p := SplitRest(toks[1..]);
      p.(assigns := [OptionAssign(kv.0, kv.1, false)] + p.assigns)
    else if TakesValue(toks) then
      var p := SplitRest(toks[2..]);
      p.(assigns := [OptionAssign(toks[0], toks[1], true)] + p.assigns)
    else if IsFlag(toks[0]) then
      var p := SplitRest(toks[1..]);
      p.(flags := [toks[0]] + p.flags)
    else
      var p := SplitRest(toks[1..]);
      p.(args := [toks[0]] + p.args)
  }

  function AssignPair(a: OptionAssign): (string, string) { (a.key, a.value) }

  /** The options dictionary (ordinal keys) the assignments build. */
  function OptionsOf(assigns: seq<OptionAssign>): Entries<string> {
    PutAll([], Ordinal, Map(AssignPair, assigns))
  }

  function IsPrivilegeWrapper(t: string): bool { t == "sudo" || t == "doas" }

  /** The tokens left after dropping one leading `sudo` or `doas`. */
  function DropWrapper(toks: seq<string>): seq<string> {
    if toks != [] && IsPrivilegeWrapper(toks[0]) then toks[1..] else toks
  }

  /** Whether the token after the command becomes the subcommand. */
  predicate HasSubcommand(toks: seq<string>) {
    |toks| > 1 && !IsFlag(toks[1])
  }

  /** The event built from the tokens that remain after the wrapper. */
  function EventOf(toks: seq<string>, raw: string): CommandEvent
    requires toks != []
  {
    var start := if HasSubcommand(toks) then 2 else 1;
    var p := SplitRest(toks[start..]);
    CommandEvent(toks[0], if HasSubcommand(toks) then Some(toks[1]) else None,
                 p.flags, OptionsOf(p.assigns), p.args, raw, NoSource)
  }

  /** What `Parse` returns for a line. */
  function ParseLine(line: string): Option<CommandEvent> {
    var sanitized := Sanitizer.Sanitize(line);
    if IsBlank(sanitized) then None
    else
      var toks := DropWrapper(Tokens(sanitized));
      if toks == [] then None else Some(EventOf(toks, sanitized))
  }

  /** `Parse`: sanitise, tokenize, drop the wrapper, then advance a cursor over
      the tokens, filling flags, options and arguments in place. */
  method Parse(line: string) returns (evt: Option<CommandEvent>)
    ensures evt == ParseLine(line)
  {
    var sanitized := Sanitizer.Sanitize(line);
    if IsBlank(sanitized) {
      return None;
    }
    var tokens := Tokenize(sanitized);
    if |tokens| == 0 {
      return None;
    }
    var cursor := 0;
    if tokens[0] == "sudo" || tokens[0] == "doas" {
      tokens := tokens[1..];
    }
    if |tokens| == 0 {
      return None;
    }
    var command := tokens[cursor];
    cursor := cursor + 1;
    var subcommand: Option<string> := None;
    if cursor < |tokens| && !IsFlag(tokens[cursor]) {
      subcommand := Some(tokens[cursor]);
      cursor := cursor + 1;
    }
    var flags, options, args := ClassifyRest(tokens, cursor);
    evt := Some(CommandEvent(command, subcommand, flags, options, args, sanitized, NoSource));
  }

  /** The cursor loop of `Parse`, from position `start` on. */
  method ClassifyRest(tokens: seq<string>, start: nat) returns (flags: seq<string>, options: Entries<string>, args: seq<string>)
    requires start <= |tokens|
    ensures flags == SplitRest(tokens[start..]).flags
    ensures options == OptionsOf(SplitRest(tokens[start..]).assigns)
    ensures args == SplitRest(tokens[start..]).args
  {
    flags, options, args := [], [], [];
    var cursor := start;
    ghost var whole := SplitRest(tokens[start..]);
    ghost var done: seq<OptionAssign> := [];
    while cursor < |tokens|
      invariant start <= cursor <= |tokens|
      invariant Progress(tokens, cursor, flags, done, args, whole)
      invariant options == OptionsOf(done)
    {
      var token := tokens[cursor];
      if IsLongOptionWithValue(token) {
        var kv := SplitLongOption(token);
        ghost var a := OptionAssign(kv.0, kv.1, false);
        StepInline(tokens, cursor, flags, done, args, whole, a);
        options := Put(options, Ordinal, kv.0, kv.1);
        OptionsOfSnoc(done, a);
        done := done + [a];
        cursor := cursor + 1;
        continue;
      }
      if IsFlag(token) {
        if cursor + 1 < |tokens| && !IsFlag(tokens[cursor + 1]) && StartsWith(token, "--") {
          ghost var a := OptionAssign(token, tokens[cursor + 1], true);
          StepSpaced(tokens, cursor, flags, done, args, whole);
          options := Put(options, Ordinal, token, tokens[cursor + 1]);
          OptionsOfSnoc(done, a);
          done := done + [a];
          cursor := cursor + 2;
          continue;
        }
        StepFlag(tokens, cursor, flags, done, args, whole);
        flags := flags + [token];
        cursor := cursor + 1;
        continue;
      }
      StepArg(tokens, cursor, flags, done, args, whole);
      args := args + [token];
      cursor := cursor + 1;
    }
    ProgressDone(tokens, flags, done, args, whole);
  }

  /** The loop has produced `flags`, `done` and `args` so far and the rest of
      `whole` is what the tokens from `cursor` on still produce. */
  ghost predicate Progress(tokens: seq<string>, cursor: nat, flags: seq<string>, done: seq<OptionAssign>,
                           args: seq<string>, whole: Parts)
    requires cursor <= |tokens|
  {
    var r := SplitRest(tokens[cursor..]);
    flags + r.flags == whole.flags && done + r.assigns == whole.assigns && args + r.args == whole.args
  }

  lemma ProgressDone(tokens: seq<string>, flags: seq<string>, done: seq<OptionAssign>, args: seq<string>, whole: Parts)
    requires Progress(tokens, |tokens|, flags, done, args, whole)
    ensures flags == whole.flags && done == whole.assigns && args == whole.args
  {
    assert tokens[|tokens|..] == [];
    assert flags + [] == flags && done + [] == done && args + [] == args;
  }

  /** The loop's three kinds of step. */
  lemma StepInline(tokens: seq<string>, cursor: nat, flags: seq<string>, done: seq<OptionAssign>,
                   args: seq<string>, whole: Parts, a: OptionAssign)
    requires cursor < |tokens| && Progress(tokens, cursor, flags, done, args, whole)
    requires IsLongOptionWithValue(tokens[cursor])
    requires a == OptionAssign(SplitLongOption(tokens[cursor]).0, SplitLongOption(tokens[cursor]).1, false)
    ensures Progress(tokens, cursor + 1, flags, done + [a], args, whole)
  {
    var rest := tokens[cursor..];
    assert rest[1..] == tokens[cursor + 1..];
    assert SplitRest(rest).assigns == [a] + SplitRest(rest[1..]).assigns;
    assert done + [a] + SplitRest(rest[1..]).assigns == done + ([a] + SplitRest(rest[1..]).assigns);
  }

  lemma StepSpaced(tokens: seq<string>, cursor: nat, flags: seq<string>, done: seq<OptionAssign>,
                   args: seq<string>, whole: Parts)
    requires cursor + 1 < |tokens| && Progress(tokens, cursor, flags, done, args, whole)
    requires !IsLongOptionWithValue(tokens[cursor]) && TakesValue(tokens[cursor..])
    ensures Progress(tokens, cursor + 2, flags, done + [OptionAssign(tokens[cursor], tokens[cursor + 1], true)], args, whole)
  {
    var rest := tokens[cursor..];
    var a := OptionAssign(tokens[cursor], tokens[cursor + 1], true);
    assert rest[2..] == tokens[cursor + 2..];
    assert SplitRest(rest).assigns == [a] + SplitRest(rest[2..]).assigns;
    assert done + [a] + SplitRest(rest[2..]).assigns == done + ([a] + SplitRest(rest[2..]).assigns);
  }

  lemma StepFlag(tokens: seq<string>, cursor: nat, flags: seq<string>, done: seq<OptionAssign>,
                 args: seq<string>, whole: Parts)
    requires cursor < |tokens| && Progress(tokens, cursor, flags, done, args, whole)
    requires !IsLongOptionWithValue(tokens[cursor]) && IsFlag(tokens[cursor]) && !TakesValue(tokens[cursor..])
    ensures Progress(tokens, cursor + 1, flags + [tokens[cursor]], done, args, whole)
  {
    var rest := tokens[cursor..];
    assert rest[1..] == tokens[cursor + 1..];
    assert SplitRest(rest).flags == [rest[0]] + SplitRest(rest[1..]).flags;
    assert flags + [rest[0]] + SplitRest(rest[1..]).flags == flags + ([rest[0]] + SplitRest(rest[1..]).flags);
  }

  lemma StepArg(tokens: seq<string>, cursor: nat, flags: seq<string>, done: seq<OptionAssign>,
                args: seq<string>, whole: Parts)
    requires cursor < |tokens| && Progress(tokens, cursor, flags, done, args, whole)
    requires !IsLongOptionWithValue(tokens[cursor]) && !IsFlag(tokens[cursor])
    ensures Progress(tokens, cursor + 1, flags, done, args + [tokens[cursor]], whole)
  {
    var rest := tokens[cursor..];
    assert rest[1..] == tokens[cursor + 1..];
    assert SplitRest(rest).args == [rest[0]] + SplitRest(rest[1..]).args;
    assert args + [rest[0]] + SplitRest(rest[1..]).args == args + ([rest[0]] + SplitRest(rest[1..]).args);
  }

  /** One more assignment is one more indexer write. */
  lemma OptionsOfSnoc(done: seq<OptionAssign>, a: OptionAssign)
    ensures OptionsOf(done + [a]) == Put(OptionsOf(done), Ordinal, a.key, a.value)
  {
    MapAppend(AssignPair, done, [a]);
    var ps := Map(AssignPair, done + [a]);
    assert ps[..|ps| - 1] == Map(AssignPair, done);
  }

  // ------------------------------------------------------ classifier properties

  /** The place a token after command and subcommand takes. */
  datatype Role = FlagRole | OptionRole | ValueRole | ArgRole

  /** The role of every token, in order, as the loop assigns them. */
  function Roles(toks: seq<string>): (r: seq<Role>)
    ensures |r| == |toks|
    decreases |toks|
  {
    if toks == [] then []
    else if IsLongOptionWithValue(toks[0]) then [OptionRole] + Roles(toks[1..])
    else if TakesValue(toks) then [OptionRole, ValueRole] + Roles(toks[2..])
    else if IsFlag(toks[0]) then [FlagRole] + Roles(toks[1..])
    else [ArgRole] + Roles(toks[1..])
  }

  /** The tokens that have role `role`, in order. */
  function Pick(toks: seq<string>, roles: seq<Role>, role: Role): seq<string>
    requires |toks| == |roles|
  {
    if toks == [] then []
    else (if roles[0] == role then [toks[0]] else []) + Pick(toks[1..], roles[1..], role)
  }

  /** The token an assignment's key came from. */
  function KeyToken(a: OptionAssign): string {
    if a.spaced then a.key else a.key + "=" + a.value
  }

  function KeyTokens(assigns: seq<OptionAssign>): seq<string> {
    if assigns == [] then [] else [KeyToken(assigns[0])] + KeyTokens(assigns[1..])
  }

  /** The value tokens consumed by `--name value` pairs. */
  function ValueTokens(assigns: seq<OptionAssign>): seq<string> {
    if assigns == [] then []
    else (if assigns[0].spaced then [assigns[0].value] else []) + ValueTokens(assigns[1..])
  }

  /** Every token lands in exactly one place: the flags are the tokens with
      the flag role, the arguments those with the argument role, the option
      keys and the consumed values those with the option and value roles, each
      in left-to-right order (duplicates included). */
  lemma {:induction false} SplitRestByRole(toks: seq<string>)
    ensures SplitRest(toks).flags == Pick(toks, Roles(toks), FlagRole)
    ensures SplitRest(toks).args == Pick(toks, Roles(toks), ArgRole)
    ensures KeyTokens(SplitRest(toks).assigns) == Pick(toks, Roles(toks), OptionRole)
    ensures ValueTokens(SplitRest(toks).assigns) == Pick(toks, Roles(toks), ValueRole)
    decreases |toks|
  {
    if toks != [] {
      var r := Roles(toks);
      if IsLongOptionWithValue(toks[0]) {
        SplitRestByRole(toks[1..]);
        assert r[1..] == Roles(toks[1..]);
      } else if TakesValue(toks) {
        SplitRestByRole(toks[2..]);
        assert toks[1..][1..] == toks[2..];
        assert r[1..][1..] == Roles(toks[2..]);
      } else {
        SplitRestByRole(toks[1..]);
        assert r[1..] == Roles(toks[1..]);
      }
    }
  }

  /** A value role always directly follows an option role. */
  lemma {:induction false} ValueFollowsOption(toks: seq<string>, i: nat)
    requires i < |toks| && Roles(toks)[i] == ValueRole
    ensures i > 0 && Roles(toks)[i - 1] == OptionRole && StartsWith(toks[i - 1], "--")
    ensures !IsFlag(toks[i])
    decreases |toks|
  {
    if IsLongOptionWithValue(toks[0]) || !TakesValue(toks) {
      assert i > 0;
      ValueFollowsOption(toks[1..], i - 1);
    } else if i >= 2 {
      ValueFollowsOption(toks[2..], i - 2);
    }
  }

  /** `--name value`: a long option followed by a non-flag token consumes it. */
  lemma LongOptionTakesValue(name: string, v: string, rest: seq<string>)
    requires StartsWith(name, "--") && '=' !in name && !IsFlag(v)
    ensures SplitRest([name, v] + rest).assigns == [OptionAssign(name, v, true)] + SplitRest(rest).assigns
    ensures SplitRest([name, v] + rest).flags == SplitRest(rest).flags
  {
    var toks := [name, v] + rest;
    assert toks[2..] == rest;
  }

  /** `-x value`: a short flag never takes a value; the next token becomes an
      argument. */
  lemma ShortFlagTakesNoValue(flag: string, v: string, rest: seq<string>)
    requires IsFlag(flag) && !StartsWith(flag, "--") && !IsFlag(v)
    ensures SplitRest([flag, v] + rest).flags == [flag] + SplitRest(rest).flags
    ensures SplitRest([flag, v] + rest).args == [v] + SplitRest(rest).args
  {
    var toks := [flag, v] + rest;
    assert toks[1..] == [v] + rest;
    assert toks[1..][1..] == rest;
  }

  /** For a repeated option key the last value wins; a key never assigned is
      absent. */
  lemma OptionsLastWins(assigns: seq<OptionAssign>, k: string)
    ensures Get(OptionsOf(assigns), Ordinal, k) == LastValue(Map(AssignPair, assigns), Ordinal, k)
  {
    GetPutAll([], Ordinal, Map(AssignPair, assigns), k);
  }

  /** `Parse` gives nothing exactly when the line is blank, tokenizes to
      nothing, or holds nothing but `sudo` or `doas`. */
  lemma ParseNoneIff(line: string)
    ensures var toks := Tokens(Sanitizer.Sanitize(line));
            ParseLine(line) == None <==> IsBlank(line) || toks == [] || toks == ["sudo"] || toks == ["doas"]
  {
    Sanitizer.SanitizeBlankIff(line);
    var toks := Tokens(Sanitizer.Sanitize(line));
    if toks != [] && IsPrivilegeWrapper(toks[0]) && |toks| == 1 {
      assert toks == [toks[0]];
    }
  }

  /** Exactly one leading `sudo` or `doas` (compared case-sensitively) is
      dropped and the next token is the command; otherwise the first token
      is.  The subcommand is the next token exactly when it is not a flag. */
  lemma ParseCommand(line: string)
    requires ParseLine(line).Some?
    ensures var toks := Tokens(Sanitizer.Sanitize(line));
            var e := ParseLine(line).value;
            var i := if toks[0] == "sudo" || toks[0] == "doas" then 1 else 0;
            i < |toks| && e.command == toks[i]
            && (e.subcommand.Some? <==> i + 1 < |toks| && !IsFlag(toks[i + 1]))
            && (e.subcommand.Some? ==> e.subcommand.value == toks[i + 1])
  {
    Sanitizer.SanitizeBlankIff(line);
  }

  /** A parsed event carries the sanitised line and a source without host,
      shell or timestamp. */
  lemma ParseRawAndSource(line: string)
    requires ParseLine(line).Some?
    ensures ParseLine(line).value.raw == Sanitizer.Sanitize(line)
    ensures ParseLine(line).value.source.timestamp.None?
  {
  }
}
