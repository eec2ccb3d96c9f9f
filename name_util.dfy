/** Command-name normalisation and the file names entries are written under. */
module NameUtil {
  import opened Text

  const MaxCommandLength := 128
  const MaxFileNameLength := 80
  const FallbackFileName := "command"

  predicate HasControl(s: string) {
    exists i :: 0 <= i < |s| && IsControl(s[i])
  }

  /** `Path.GetFileName` with `/` as the only separator: what follows the
      last `/`, or all of `s` when there is none. */
  function FileName(s: string): (r: string)
    ensures |r| <= |s| && r == s[|s| - |r|..] && '/' !in r
    ensures |r| < |s| ==> s[|s| - |r| - 1] == '/'
    ensures '/' !in s ==> r == s
  {
    if s == [] then []
    else if s[|s| - 1] == '/' then []
    else
      var r := FileName(s[..|s| - 1]);
      assert s[..|s| - 1][|s| - 1 - |r|..] + [s[|s| - 1]] == s[|s| - 1 - |r|..];
      r + [s[|s| - 1]]
  }

  /** The name `NormalizeCommandName` keeps of a trimmed command: its last
      `/`-separated segment, a suffix with no `/` that is preceded by a `/`
      unless it is the whole string. */
  function LastSegment(t: string): (r: string)
    ensures '/' !in r && |r| <= |t| && r == t[|t| - |r|..]
    ensures |r| < |t| ==> t[|t| - |r| - 1] == '/'
  {
    if '/' in t then FileName(t) else assert t[0..] == t; t
  }

  /** `NameUtil.NormalizeCommandName`: `None` stands for `null`. */
  function NormalizeCommandName(command: string): (r: Option<string>)
    ensures r.Some? ==> !IsBlank(r.value) && |r.value| <= MaxCommandLength
  {
    if IsBlank(command) then None
    else
      var trimmed := Trim(command);
      if |trimmed| > MaxCommandLength then None
      else if HasControl(trimmed) then None
      else
        var name := LastSegment(trimmed);
        if IsBlank(name) then None else Some(name)
  }

  lemma SuffixHasNoControl(t: string, name: string)
    requires |name| <= |t| && name == t[|t| - |name|..] && !HasControl(t)
    ensures !HasControl(name)
  {
    forall i | 0 <= i < |name| ensures !IsControl(name[i]) {
      assert name[i] == t[|t| - |name| + i];
    }
  }

  /** A normalised name is the last segment of the trimmed input and holds
      no control character. */
  lemma NormalizedIsLastSegment(command: string)
    requires NormalizeCommandName(command).Some?
    ensures NormalizeCommandName(command).value == LastSegment(Trim(command))
    ensures !HasControl(NormalizeCommandName(command).value)
  {
    var t := Trim(command);
    SuffixHasNoControl(t, LastSegment(t));
  }

  /** The null cases, both ways: blank input, a trimmed length over 128, a
      control character, or a blank last segment. */
  lemma NormalizeNoneIff(command: string)
    ensures NormalizeCommandName(command) == None <==>
      || IsBlank(command)
      || |Trim(command)| > MaxCommandLength
      || HasControl(Trim(command))
      || IsBlank(LastSegment(Trim(command)))
  {
  }

  /** A trailing `/` leaves an empty last segment, so the name is null. */
  lemma TrailingSlashIsNull(command: string)
    requires Trim(command) != [] && Trim(command)[|Trim(command)| - 1] == '/'
    ensures NormalizeCommandName(command) == None
  {
    var t := Trim(command);
    assert '/' in t;
    assert FileName(t) == [];
  }

  lemma {:induction false} FileNameAfterSlash(pre: string, seg: string)
    requires '/' !in seg
    ensures FileName(pre + "/" + seg) == seg
    decreases |seg|
  {
    var s := pre + "/" + seg;
    if seg == [] {
      assert s[|s| - 1] == '/';
    } else {
      assert s[..|s| - 1] == pre + "/" + seg[..|seg| - 1];
      assert '/' !in seg[..|seg| - 1] by {
        assert forall c :: c in seg[..|seg| - 1] ==> c in seg;
      }
      FileNameAfterSlash(pre, seg[..|seg| - 1]);
      assert seg[..|seg| - 1] + [seg[|seg| - 1]] == seg;
    }
  }

  /** A path whose last segment is not blank normalises to that segment. */
  lemma PathReducedToLastSegment(command: string, pre: string, seg: string)
    requires Trim(command) == pre + "/" + seg && '/' !in seg && !IsBlank(seg)
    requires |Trim(command)| <= MaxCommandLength && !HasControl(Trim(command))
    ensures NormalizeCommandName(command) == Some(seg)
  {
    TrimEmptyIffBlank(command);
    FileNameAfterSlash(pre, seg);
    assert Trim(command)[|pre|] == '/';
  }

  /** A character `ToSafeFileName` replaces by `_`. */
  predicate Unsafe(c: char, invalid: set<char>) {
    c in invalid || c == ':' || c == '\\'
  }

  /** The character `ToSafeFileName` writes for `c`. */
  function SafeChar(c: char, invalid: set<char>): char {
    if Unsafe(c, invalid) then '_' else c
  }

  /** The per-character rewrite of `ToSafeFileName`. */
  function Replaced(s: string, invalid: set<char>): (r: string)
    ensures |r| == |s|
  {
    if s == [] then [] else Replaced(s[..|s| - 1], invalid) + [SafeChar(s[|s| - 1], invalid)]
  }

  /** Unsafe characters become `_` and every other character is kept,
      position by position. */
  lemma {:induction false} ReplacedAt(s: string, invalid: set<char>, j: nat)
    requires j < |s|
    ensures Replaced(s, invalid)[j] == SafeChar(s[j], invalid)
  {
    if j < |s| - 1 {
      ReplacedAt(s[..|s| - 1], invalid, j);
    }
  }

  /** The last steps of `ToSafeFileName` on the trimmed rewrite `t`: cut it
      to 80 characters, and fall back to `"command"` when that is blank. */
  function Finish(t: string): (r: string)
    ensures |r| <= MaxFileNameLength
    ensures r == FallbackFileName || (|r| <= |t| && r == t[..|r|] && !IsBlank(r))
  {
    var cut := if |t| > MaxFileNameLength then t[..MaxFileNameLength] else t;
    if IsBlank(cut) then FallbackFileName else cut
  }

  /** What `ToSafeFileName` returns: the rewritten name, trimmed, cut to 80
      characters, with `"command"` for a blank input or a blank result. */
  function SafeFileName(name: string, invalid: set<char>): string {
    if IsBlank(name) then FallbackFileName else Finish(Trim(Replaced(name, invalid)))
  }

  /** `NameUtil.ToSafeFileName`, with `Path.GetInvalidFileNameChars()` as the
      set `invalid`. */
  method ToSafeFileName(name: string, invalid: set<char>) returns (r: string)
    ensures r == SafeFileName(name, invalid)
  {
    if IsBlank(name) {
      return FallbackFileName;
    }
    var sb := [];
    for i := 0 to |name|
      invariant sb == Replaced(name[..i], invalid)
    {
      assert name[..i + 1][..i] == name[..i];
      var ch := name[i];
      if ch in invalid || ch == ':' || ch == '\\' {
        sb := sb + ['_'];
      } else {
        sb := sb + [ch];
      }
    }
    assert name[..|name|] == name;
    var result := Trim(sb);
    if |result| > MaxFileNameLength {
      result := result[..MaxFileNameLength];
    }
    r := if IsBlank(result) then FallbackFileName else result;
  }

  /** A safe file name is never blank, starts with a non-white-space
      character and is at most 80 characters long. */
  lemma SafeFileNameShape(name: string, invalid: set<char>)
    ensures var r := SafeFileName(name, invalid);
            !IsBlank(r) && !IsWhiteSpace(r[0]) && |r| <= MaxFileNameLength
  {
    var r := SafeFileName(name, invalid);
    assert FallbackFileName[0] == 'c';
    if !IsBlank(name) {
      var t := Trim(Replaced(name, invalid));
      var a, b := TrimIsSlice(Replaced(name, invalid));
      if r != FallbackFileName {
        assert r[0] == t[0];
      }
    }
  }

  /** Blank input gives `"command"`. */
  lemma BlankIsFallback(name: string, invalid: set<char>)
    requires IsBlank(name)
    ensures SafeFileName(name, invalid) == "command"
  {
  }

  lemma FinishOfSlice(s: string, t: string, a: nat, b: nat) returns (fallback: bool)
    requires a <= b <= |s| && t == s[a..b]
    ensures var r := Finish(t);
      if fallback then r == FallbackFileName else a + |r| <= |s| && r == s[a..a + |r|]
  {
    var cut := if |t| > MaxFileNameLength then t[..MaxFileNameLength] else t;
    fallback := IsBlank(cut);
  }

  lemma FallbackIsSafe(invalid: set<char>, i: nat)
    requires invalid !! {'c', 'o', 'm', 'a', 'n', 'd'} && i < |FallbackFileName|
    ensures !Unsafe(FallbackFileName[i], invalid)
  {
    assert FallbackFileName[i] in {'c', 'o', 'm', 'a', 'n', 'd'};
  }

  /** Trimming and cutting a string of safe characters leaves only safe
      characters. */
  lemma FinishIsSafe(s: string, invalid: set<char>, i: nat)
    requires invalid !! {'c', 'o', 'm', 'a', 'n', 'd'}
    requires forall j :: 0 <= j < |s| ==> !Unsafe(s[j], invalid)
    requires i < |Finish(Trim(s))|
    ensures !Unsafe(Finish(Trim(s))[i], invalid)
  {
    var a, b := TrimIsSlice(s);
    var fallback := FinishOfSlice(s, Trim(s), a, b);
    if fallback {
      FallbackIsSafe(invalid, i);
    } else {
      assert Finish(Trim(s))[i] == s[a + i];
    }
  }

  /** When neither `_` nor a letter of `"command"` is itself invalid, no
      unsafe character survives. */
  lemma SafeFileNameIsSafe(name: string, invalid: set<char>, i: nat)
    requires invalid !! {'_', 'c', 'o', 'm', 'a', 'n', 'd'}
    requires i < |SafeFileName(name, invalid)|
    ensures !Unsafe(SafeFileName(name, invalid)[i], invalid)
  {
    if IsBlank(name) {
      FallbackIsSafe(invalid, i);
    } else {
      var s := Replaced(name, invalid);
      forall j | 0 <= j < |s| ensures !Unsafe(s[j], invalid) {
        ReplacedAt(name, invalid, j);
      }
      FinishIsSafe(s, invalid, i);
    }
  }

  /** Trimming happens before truncation, so an 80-character cut can end in
      white space: the result is not always its own trim. */
  lemma CutCanEndInSpace(name: string, invalid: set<char>)
    requires |name| == 82 && forall i :: 0 <= i < 82 ==> name[i] == if i == 79 then ' ' else 'a'
    requires 'a' !in invalid && ' ' !in invalid
    ensures var r := SafeFileName(name, invalid); |r| == 80 && r[79] == ' ' && Trim(r) != r
  {
    var s := Replaced(name, invalid);
    forall j | 0 <= j < |name| ensures s[j] == name[j] {
      ReplacedAt(name, invalid, j);
    }
    assert s == name;
    assert !IsWhiteSpace(name[0]) && !IsWhiteSpace(name[81]);
    TrimOfTrimmed(name);
    var r := SafeFileName(name, invalid);
    assert !IsWhiteSpace(name[..80][0]);
    assert r == name[..80];
    assert TrimEnd(r) != r;
  }
}
