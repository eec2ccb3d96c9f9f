/** The command-line option parser: `--key=value`, `--key value` and bare
    `--key` options go into a case-insensitive dictionary, everything else
    into the rest, in order. */
module OptionParser {
  import opened Text
  import opened Ordering
  import opened Dict

  /** The dictionary the parsed options go into. */
  const OptionKeys := OrdinalIgnoreCase

  predicate IsOptionToken(arg: string) {
    StartsWith(arg, "--")
  }

  /** What the loop assigns and what it sets aside, in order. */
  datatype Parsed = Parsed(assigns: seq<(string, string)>, rest: seq<string>)

  /** Whether the loop, positioned at `args[0]`, takes `args[1]` as its value. */
  predicate TakesValue(args: seq<string>)
    requires args != []
  {
    IsOptionToken(args[0]) && '=' !in args[0] && |args| > 1 && !IsOptionToken(args[1])
  }

  /** The loop of `Parse` over `args`. */
  function Scan(args: seq<string>): Parsed
    decreases |args|
  {
    if args == [] then Parsed([], [])
    else if IsOptionToken(args[0]) && '=' in args[0] then
      var p := Scan(args[1..]);
      Parsed([SplitFirst(args[0], '=')] + p.assigns, p.rest)
    else if TakesValue(args) then
      var p := Scan(args[2..]);
      Parsed([(args[0], args[1])] + p.assigns, p.rest)
    else if IsOptionToken(args[0]) then
      var p := Scan(args[1..]);
      Parsed([(args[0], "true")] + p.assigns, p.rest)
    else
      var p := Scan(args[1..]);
      Parsed(p.assigns, [args[0]] + p.rest)
  }

  function OptionsOf(assigns: seq<(string, string)>): Entries<string> {
    PutAll([], OptionKeys, assigns)
  }

  /** The loop has assigned `done` and set aside `rest` so far, and the
      arguments from `i` on produce the remainder of `whole`. */
  ghost predicate Progress(args: seq<string>, i: nat, done: seq<(string, string)>, rest: seq<string>, whole: Parsed)
    requires i <= |args|
  {
    var p := Scan(args[i..]);
    done + p.assigns == whole.assigns && rest + p.rest == whole.rest
  }

  lemma OptionsOfSnoc(done: seq<(string, string)>, a: (string, string))
    ensures OptionsOf(done + [a]) == Put(OptionsOf(done), OptionKeys, a.0, a.1)
  {
    assert (done + [a])[..|done|] == done;
  }

  /** One turn of the loop of `Parse`, at `args[i]`: what it assigns, what it
      sets aside and where the next turn starts. */
  method ParseOne(args: seq<string>, i: nat) returns (assign: seq<(string, string)>, aside: seq<string>, next: nat)
    requires i < |args|
    ensures i < next <= |args| && |assign| <= 1
    ensures Scan(args[i..]).assigns == assign + Scan(args[next..]).assigns
    ensures Scan(args[i..]).rest == aside + Scan(args[next..]).rest
  {
    var arg := args[i];
    assert args[i..][1..] == args[i + 1..];
    if StartsWith(arg, "--") {
      if '=' in arg {
        return [SplitFirst(arg, '=')], [], i + 1;
      }
      if i + 1 < |args| && !StartsWith(args[i + 1], "--") {
        assert args[i..][2..] == args[i + 2..];
        assign, aside, next := [(arg, args[i + 1])], [], i + 2;
      } else {
        assign, aside, next := [(arg, "true")], [], i + 1;
      }
    } else {
      assign, aside, next := [], [arg], i + 1;
    }
  }

  lemma ProgressStep(args: seq<string>, i: nat, next: nat, done: seq<(string, string)>, rest: seq<string>,
                     whole: Parsed, assign: seq<(string, string)>, aside: seq<string>)
    requires i <= next <= |args| && Progress(args, i, done, rest, whole)
    requires Scan(args[i..]).assigns == assign + Scan(args[next..]).assigns
    requires Scan(args[i..]).rest == aside + Scan(args[next..]).rest
    ensures Progress(args, next, done + assign, rest + aside, whole)
  {
    var p := Scan(args[next..]);
    assert done + (assign + p.assigns) == (done + assign) + p.assigns;
    assert rest + (aside + p.rest) == (rest + aside) + p.rest;
  }

  lemma OptionsStep(done: seq<(string, string)>, assign: seq<(string, string)>)
    requires |assign| <= 1
    ensures OptionsOf(done + assign)
         == if assign == [] then OptionsOf(done) else Put(OptionsOf(done), OptionKeys, assign[0].0, assign[0].1)
  {
    if assign != [] {
      OptionsOfSnoc(done, assign[0]);
      assert done + assign == done + [assign[0]];
    } else {
      assert done + assign == done;
    }
  }

  /** `OptionParser.Parse`. */
  method Parse(args: seq<string>) returns (options: Entries<string>, rest: seq<string>)
    ensures options == OptionsOf(Scan(args).assigns)
    ensures rest == Scan(args).rest
  {
    options, rest := [], [];
    ghost var whole := Scan(args);
    ghost var done: seq<(string, string)> := [];
    assert args[0..] == args;
    var i := 0;
    while i < |args|
      invariant i <= |args|
      invariant Progress(args, i, done, rest, whole)
      invariant options == OptionsOf(done)
    {
      var assign, aside, next := ParseOne(args, i);
      ProgressStep(args, i, next, done, rest, whole, assign, aside);
      OptionsStep(done, assign);
      if assign != [] {
        options := Put(options, OptionKeys, assign[0].0, assign[0].1);
      }
      done := done + assign;
      rest := rest + aside;
      i := next;
    }
    assert args[|args|..] == [];
    assert done + [] == done && rest + [] == rest;
  }

  /** `--key=value` splits at the first `=`: the key holds no `=` and the
      value is everything after it, further `=` signs included. */
  lemma InlineValue(arg: string, more: seq<string>)
    requires IsOptionToken(arg) && '=' in arg
    ensures var a := Scan([arg] + more).assigns[0];
            a.0 + "=" + a.1 == arg && '=' !in a.0 && IsOptionToken(a.0)
    ensures Scan([arg] + more).rest == Scan(more).rest
  {
    assert ([arg] + more)[1..] == more;
    var kv := SplitFirst(arg, '=');
    assert arg[..2] == "--";
    assert arg[0] == '-' && arg[1] == '-';
    assert arg[|kv.0|] == '=';
    assert 2 <= |kv.0|;
    assert kv.0[..2] == arg[..2];
  }

  /** `--key value` takes the next argument as the value when it does not
      start with `--`, a single-dash argument included. */
  lemma ConsumesNext(name: string, v: string, more: seq<string>)
    requires IsOptionToken(name) && '=' !in name && !IsOptionToken(v)
    ensures Scan([name, v] + more) == Parsed([(name, v)] + Scan(more).assigns, Scan(more).rest)
  {
    assert ([name, v] + more)[2..] == more;
  }

  /** A bare `--key` at the end, or before another `--` argument, is `"true"`. */
  lemma DefaultsToTrue(name: string, more: seq<string>)
    requires IsOptionToken(name) && '=' !in name && (more == [] || IsOptionToken(more[0]))
    ensures Scan([name] + more) == Parsed([(name, "true")] + Scan(more).assigns, Scan(more).rest)
  {
    assert ([name] + more)[1..] == more;
  }

  lemma SingleDashIsValue()
    ensures Scan(["--out", "-x"]).assigns == [("--out", "-x")]
    ensures Scan(["--out", "-x"]).rest == []
  {
    var args := ["--out", "-x"];
    assert args[0][..2] == "--";
    assert args[1][1] == 'x';
    ConsumesNext("--out", "-x", []);
    assert args == ["--out", "-x"] + [];
  }

  /** Keys compare without regard to letter case, and of repeated keys the
      last value wins. */
  lemma LastValueWins(args: seq<string>, k: string)
    ensures Get(OptionsOf(Scan(args).assigns), OptionKeys, k) == LastValue(Scan(args).assigns, OptionKeys, k)
  {
    GetPutAll([], OptionKeys, Scan(args).assigns, k);
  }

  /** How the loop treats each argument: as an option token, as the value
      consumed by the option before it, or as part of the rest. */
  datatype ArgRole = OptionArg | ValueArg | RestArg

  function Roles(args: seq<string>): (r: seq<ArgRole>)
    ensures |r| == |args|
    decreases |args|
  {
    if args == [] then []
    else if TakesValue(args) then [OptionArg, ValueArg] + Roles(args[2..])
    else if IsOptionToken(args[0]) then [OptionArg] + Roles(args[1..])
    else [RestArg] + Roles(args[1..])
  }

  function Pick(args: seq<string>, roles: seq<ArgRole>, role: ArgRole): seq<string>
    requires |args| == |roles|
  {
    if args == [] then []
    else (if roles[0] == role then [args[0]] else []) + Pick(args[1..], roles[1..], role)
  }

  /** Every argument is classified exactly once: the rest is the arguments
      with the rest role, in input order, and there is one assignment per
      option token. */
  lemma {:induction false} ScanByRole(args: seq<string>)
    ensures Scan(args).rest == Pick(args, Roles(args), RestArg)
    ensures |Scan(args).assigns| == |Pick(args, Roles(args), OptionArg)|
    decreases |args|
  {
    if args != [] {
      var r := Roles(args);
      if TakesValue(args) {
        ScanByRole(args[2..]);
        assert args[1..][1..] == args[2..];
        assert r[1..][1..] == Roles(args[2..]);
      } else {
        ScanByRole(args[1..]);
        assert r[1..] == Roles(args[1..]);
      }
    }
  }

  /** The roles agree with the tokens: option tokens start with `--`, a
      consumed value directly follows an option token without `=` and does
      not start with `--` itself, and the rest holds no `--` argument. */
  lemma {:induction false} RolesMeaning(args: seq<string>, i: nat)
    requires i < |args|
    ensures Roles(args)[i] == OptionArg ==> IsOptionToken(args[i])
    ensures Roles(args)[i] == RestArg ==> !IsOptionToken(args[i])
    ensures Roles(args)[i] == ValueArg ==>
      i > 0 && Roles(args)[i - 1] == OptionArg && '=' !in args[i - 1] && !IsOptionToken(args[i])
    decreases |args|
  {
    if TakesValue(args) {
      if i >= 2 {
        RolesMeaning(args[2..], i - 2);
      }
    } else if i >= 1 {
      RolesMeaning(args[1..], i - 1);
    }
  }
}
