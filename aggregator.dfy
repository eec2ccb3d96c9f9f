/** The aggregator: the zsh history line rule, the signature of a parsed
    command line, and the fold of command events into the pattern inventory. */
module Aggregator {
  import opened Text
  import opened Ordering
  import opened Dict
  import opened Models
  import ArgShape

  // ------------------------------------------------------------ history lines

  /** The zsh extended-history prefix `: <digits>:<digits>;` that opens `line`,
      as its length, or 0 when the line does not open with it. */
  function ZshPrefix(line: string): (n: nat)
    ensures n <= |line|
  {
    if !StartsWith(line, ": ") then 0
    else
      var a := line[2..];
      var d1 := ArgShape.DigitRun(a);
      if d1 == 0 || d1 == |a| || a[d1] != ':' then 0
      else
        var b := a[d1 + 1..];
        var d2 := ArgShape.DigitRun(b);
        if d2 == 0 || d2 == |b| || b[d2] != ';' then 0
        else 2 + d1 + 1 + d2 + 1
  }

  /** What `(.+)$` captures of the rest of the line: one or more characters other
      than a line feed, where the end anchor also matches before a final line
      feed. */
  function ZshCapture(rest: string): Option<string> {
    if rest != [] && '\n' !in rest then Some(rest)
    else if |rest| >= 2 && rest[|rest| - 1] == '\n' && '\n' !in rest[..|rest| - 1] then Some(rest[..|rest| - 1])
    else None
  }

  /** The command a history line contributes, if any: a zsh extended-history
      line gives its command trimmed, any other line opening with `: ` and any
      blank line give nothing, and every other line is kept as it is. */
  function HistoryLine(line: string): Option<string> {
    if StartsWith(line, ": ") then
      var n := ZshPrefix(line);
      if n == 0 then None
      else match ZshCapture(line[n..])
        case None => None
        case Some(g) => if IsBlank(Trim(g)) then None else Some(Trim(g))
    else if IsBlank(line) then None
    else Some(line)
  }

  /** A line `: <digits>:<digits>;cmd` gives `cmd` trimmed, or nothing when
      `cmd` is blank. */
  lemma ZshLineGivesCommand(d1: string, d2: string, cmd: string)
    requires ArgShape.AllDigits(d1) && ArgShape.AllDigits(d2)
    requires cmd != [] && '\n' !in cmd
    ensures HistoryLine(": " + d1 + ":" + d2 + ";" + cmd) == if IsBlank(cmd) then None else Some(Trim(cmd))
  {
    var line := ": " + d1 + ":" + d2 + ";" + cmd;
    assert line[..2] == ": ";
    var a := line[2..];
    assert a == d1 + ":" + d2 + ";" + cmd;
    ArgShape.DigitRunExact(a, |d1|);
    var b := a[|d1| + 1..];
    assert b == d2 + ";" + cmd;
    ArgShape.DigitRunExact(b, |d2|);
    assert line[ZshPrefix(line)..] == cmd;
    TrimEmptyIffBlank(cmd);
    TrimEmptyIffBlank(Trim(cmd));
  }

  /** A string is the concatenation of its pieces between the cut points. */
  lemma Pieces(s: string, a: nat, b: nat, c: nat, d: nat, e: nat)
    requires a <= b <= c <= d <= e <= |s|
    ensures s == s[..a] + s[a..b] + s[b..c] + s[c..d] + s[d..e] + s[e..]
  {
    assert s[..b] == s[..a] + s[a..b];
    assert s[..c] == s[..b] + s[b..c];
    assert s[..d] == s[..c] + s[c..d];
    assert s[..e] == s[..d] + s[d..e];
    assert s == s[..e] + s[e..];
  }

  lemma ZshAssemble(line: string, n1: nat, n2: nat)
    requires 4 + n1 + n2 <= |line|
    requires line[0] == ':' && line[1] == ' ' && line[2 + n1] == ':' && line[3 + n1 + n2] == ';'
    ensures line == ": " + line[2..2 + n1] + ":" + line[3 + n1..3 + n1 + n2] + ";" + line[4 + n1 + n2..]
  {
    Pieces(line, 2, 2 + n1, 3 + n1, 3 + n1 + n2, 4 + n1 + n2);
    assert line[..2] == ": ";
    assert line[2 + n1..3 + n1] == ":";
    assert line[3 + n1 + n2..4 + n1 + n2] == ";";
  }

  /** The pieces of a recognised zsh prefix. */
  lemma ZshPrefixParts(line: string) returns (d1: string, d2: string)
    requires ZshPrefix(line) > 0
    ensures ArgShape.AllDigits(d1) && ArgShape.AllDigits(d2)
    ensures line == ": " + d1 + ":" + d2 + ";" + line[ZshPrefix(line)..]
  {
    var a := line[2..];
    var n1 := ArgShape.DigitRun(a);
    ArgShape.DigitRunDigits(a);
    var b := a[n1 + 1..];
    var n2 := ArgShape.DigitRun(b);
    ArgShape.DigitRunDigits(b);
    d1, d2 := a[..n1], b[..n2];
    assert line[2..2 + n1] == d1 && line[3 + n1..3 + n1 + n2] == d2;
    assert line[2 + n1] == a[n1] && line[3 + n1 + n2] == b[n2];
    assert line[..2] == ": ";
    ZshAssemble(line, n1, n2);
  }

  lemma ZshCaptureParts(rest: string)
    requires ZshCapture(rest).Some?
    ensures var g := ZshCapture(rest).value; g != [] && '\n' !in g && (rest == g || rest == g + "\n")
  {
    var g := ZshCapture(rest).value;
    if rest != g {
      assert rest == rest[..|rest| - 1] + [rest[|rest| - 1]];
    }
  }

  lemma ZshParts(line: string) returns (d1: string, d2: string, g: string)
    requires ZshPrefix(line) > 0 && ZshCapture(line[ZshPrefix(line)..]).Some?
    ensures ArgShape.AllDigits(d1) && ArgShape.AllDigits(d2) && g != [] && '\n' !in g
    ensures line == ": " + d1 + ":" + d2 + ";" + g || line == ": " + d1 + ":" + d2 + ";" + g + "\n"
    ensures g == ZshCapture(line[ZshPrefix(line)..]).value
  {
    d1, d2 := ZshPrefixParts(line);
    var rest := line[ZshPrefix(line)..];
    ZshCaptureParts(rest);
    g := ZshCapture(rest).value;
    var head := ": " + d1 + ":" + d2 + ";";
    if rest != g {
      assert head + (g + "\n") == head + g + "\n";
    }
  }

  /** Every line that opens with `: ` and still gives a command has the zsh
      shape, and what it gives is the trimmed capture. */
  lemma ZshLineShape(line: string) returns (d1: string, d2: string, g: string)
    requires StartsWith(line, ": ") && HistoryLine(line).Some?
    ensures ArgShape.AllDigits(d1) && ArgShape.AllDigits(d2) && g != [] && '\n' !in g
    ensures line == ": " + d1 + ":" + d2 + ";" + g || line == ": " + d1 + ":" + d2 + ";" + g + "\n"
    ensures HistoryLine(line) == Some(Trim(g))
  {
    d1, d2, g := ZshParts(line);
  }

  /** Lines that do not open with `: ` are kept verbatim unless blank. */
  lemma PlainHistoryLine(line: string)
    requires !StartsWith(line, ": ")
    ensures HistoryLine(line) == if IsBlank(line) then None else Some(line)
  {
  }

  // --------------------------------------------------------------- signatures

  /** The ordering of option entries by key. */
  predicate OptionKeyLe<V>(a: (string, V), b: (string, V)) {
    StrLe(a.0, b.0)
  }

  lemma OptionKeyLeIsTotalPreorder<V(!new)>()
    ensures TotalPreorder((a: (string, V), b: (string, V)) => OptionKeyLe(a, b))
  {
    forall a: (string, V), b: (string, V) ensures OptionKeyLe(a, b) || OptionKeyLe(b, a) {
      StrLeTotal(a.0, b.0);
    }
    forall a: (string, V), b: (string, V), c: (string, V) | OptionKeyLe(a, b) && OptionKeyLe(b, c)
      ensures OptionKeyLe(a, c)
    {
      StrLeTransitive(a.0, b.0, c.0);
    }
  }

  /** An option entry with its value replaced by the value's shape. */
  function ShapeOf(kv: (string, string)): (string, Shape) {
    (kv.0, ArgShape.Classify(kv.1))
  }

  /** The canonical tuple of an event: the command as written, the subcommand,
      the flags sorted ordinally (duplicates kept), the options sorted by key
      with each value replaced by its shape, and the argument shapes in order. */
  function SignatureOf(e: CommandEvent): SignatureKey {
    SignatureKey(
      e.command,
      e.subcommand,
      SortBy(e.flags, StrLe),
      Map(ShapeOf, SortBy(e.options, (a: (string, string), b: (string, string)) => OptionKeyLe(a, b))),
      Map(ArgShape.Classify, e.arguments))
  }

  /** `BuildSignature`: a fresh pattern for the event, not yet counted. */
  function BuildSignature(e: CommandEvent): PatternSignature {
    var s := SignatureOf(e);
    PatternSignature(s, e.subcommand, s.flags, s.options, s.argShapes, 0, None, None, None)
  }

  /** Replacing values by shapes keeps an entry list sorted by key. */
  lemma {:induction false} ShapesKeepKeyOrder(o: seq<(string, string)>)
    requires Sorted(o, (a: (string, string), b: (string, string)) => OptionKeyLe(a, b))
    ensures Sorted(Map(ShapeOf, o), (a: (string, Shape), b: (string, Shape)) => OptionKeyLe(a, b))
  {
    var r := Map(ShapeOf, o);
    forall i, j | 0 <= i < j < |r| ensures OptionKeyLe(r[i], r[j]) {
      assert OptionKeyLe(o[i], o[j]);
    }
  }

  /** The signature's flags are the event's flags, sorted, duplicates kept. */
  lemma SignatureFlags(e: CommandEvent)
    ensures Sorted(SignatureOf(e).flags, StrLe) && multiset(SignatureOf(e).flags) == multiset(e.flags)
  {
    StrLeIsTotalPreorder();
    SortBySorted(e.flags, StrLe);
  }

  /** The signature's options are the event's options with shapes for values,
      sorted by key. */
  lemma SignatureOptions(e: CommandEvent)
    ensures Sorted(SignatureOf(e).options, (a: (string, Shape), b: (string, Shape)) => OptionKeyLe(a, b))
    ensures multiset(SignatureOf(e).options) == multiset(Map(ShapeOf, e.options))
  {
    OptionKeyLeIsTotalPreorder<string>();
    var le := (a: (string, string), b: (string, string)) => OptionKeyLe(a, b);
    SortBySorted(e.options, le);
    ShapesKeepKeyOrder(SortBy(e.options, le));
    MapPermutation(ShapeOf, SortBy(e.options, le), e.options);
  }

  /** What a fresh pattern holds: the event's command and subcommand, its flags
      sorted with duplicates kept, its options sorted by key with shapes for
      values, one shape per argument in order, and no statistics yet. */
  lemma BuildSignatureSpec(e: CommandEvent)
    ensures var p := BuildSignature(e);
      && p.signature.command == e.command && p.subcommand == e.subcommand
      && p.subcommand == p.signature.subcommand && p.flags == p.signature.flags
      && p.options == p.signature.options && p.argShapes == p.signature.argShapes
      && Sorted(p.flags, StrLe) && multiset(p.flags) == multiset(e.flags)
      && Sorted(p.options, (a: (string, Shape), b: (string, Shape)) => OptionKeyLe(a, b))
      && multiset(p.options) == multiset(Map(ShapeOf, e.options))
      && |p.argShapes| == |e.arguments|
      && (forall i :: 0 <= i < |e.arguments| ==> p.argShapes[i] == ArgShape.Classify(e.arguments[i]))
      && p.frequency == 0 && p.representativeExample == None && p.firstSeen == None && p.lastSeen == None
  {
    SignatureFlags(e);
    SignatureOptions(e);
  }

  /** In an ordinal dictionary two entries never tie on their keys. */
  lemma DistinctKeysNoTie<V>(o: Entries<V>)
    requires DistinctKeys(o, Ordinal)
    ensures forall x, y :: x in o && y in o && OptionKeyLe(x, y) && OptionKeyLe(y, x) ==> x == y
  {
    forall x, y | x in o && y in o && OptionKeyLe(x, y) && OptionKeyLe(y, x) ensures x == y {
      var i :| 0 <= i < |o| && o[i] == x;
      var j :| 0 <= j < |o| && o[j] == y;
      StrLeAntisymmetric(x.0, y.0);
      assert SameKey(Ordinal, o[i].0, o[j].0);
    }
  }

  lemma ShapesKeepDistinctKeys(o: Entries<string>)
    requires DistinctKeys(o, Ordinal)
    ensures DistinctKeys(Map(ShapeOf, o), Ordinal)
  {
    var r := Map(ShapeOf, o);
    assert forall i :: 0 <= i < |o| ==> r[i].0 == o[i].0;
  }

  lemma SortedFlagsUnique(f1: seq<string>, f2: seq<string>)
    requires multiset(f1) == multiset(f2)
    ensures SortBy(f1, StrLe) == SortBy(f2, StrLe)
  {
    StrLeIsTotalPreorder();
    forall x, y | x in f1 && y in f1 && StrLe(x, y) && StrLe(y, x) ensures x == y {
      StrLeAntisymmetric(x, y);
    }
    SortByPermutation(f1, f2, StrLe);
  }

  lemma SortedShapesUnique(e1: CommandEvent, e2: CommandEvent)
    requires DistinctKeys(e1.options, Ordinal)
    requires multiset(Map(ShapeOf, e1.options)) == multiset(Map(ShapeOf, e2.options))
    ensures SignatureOf(e1).options == SignatureOf(e2).options
  {
    var le := (a: (string, Shape), b: (string, Shape)) => OptionKeyLe(a, b);
    OptionKeyLeIsTotalPreorder<Shape>();
    SignatureOptions(e1);
    SignatureOptions(e2);
    var a, b := SignatureOf(e1).options, SignatureOf(e2).options;
    var m := Map(ShapeOf, e1.options);
    ShapesKeepDistinctKeys(e1.options);
    DistinctKeysNoTie(m);
    forall x, y | x in a && y in a && le(x, y) && le(y, x) ensures x == y {
      assert x in multiset(a) && y in multiset(a);
      assert x in m && y in m;
    }
    SortedUnique(a, b, le);
  }

  /** The signature depends on the flags only as a multiset, on the options
      only through the multiset of key and value shape, and on the arguments
      only through their shapes: reordering flags or options, or replacing a
      value by another of the same shape, gives the same signature. */
  lemma SignatureInvariance(e1: CommandEvent, e2: CommandEvent)
    requires e1.command == e2.command && e1.subcommand == e2.subcommand
    requires multiset(e1.flags) == multiset(e2.flags)
    requires DistinctKeys(e1.options, Ordinal)
    requires multiset(Map(ShapeOf, e1.options)) == multiset(Map(ShapeOf, e2.options))
    requires Map(ArgShape.Classify, e1.arguments) == Map(ArgShape.Classify, e2.arguments)
    ensures SignatureOf(e1) == SignatureOf(e2)
  {
    SortedFlagsUnique(e1.flags, e2.flags);
    SortedShapesUnique(e1, e2);
  }

  /** Argument order matters: swapping two arguments of different shapes gives
      a different signature. */
  lemma ArgumentOrderMatters(e: CommandEvent, i: nat, j: nat)
    requires i < j < |e.arguments|
    requires ArgShape.Classify(e.arguments[i]) != ArgShape.Classify(e.arguments[j])
    ensures SignatureOf(e) != SignatureOf(e.(arguments := e.arguments[i := e.arguments[j]][j := e.arguments[i]]))
  {
    var e2 := e.(arguments := e.arguments[i := e.arguments[j]][j := e.arguments[i]]);
    assert SignatureOf(e).argShapes[i] != SignatureOf(e2).argShapes[i];
  }

  // ----------------------------------------------------------- the inventory

  const SnapshotVersion := "0.1"

  /** A command seen for the first time: no uses, no patterns. */
  function FreshCommand(name: string): CommandPatterns {
    CommandPatterns(name, 0, [])
  }

  /** Position of the first pattern with signature `s`, or `|ps|` (the
      `FirstOrDefault` search). */
  function FindPattern(ps: seq<PatternSignature>, s: SignatureKey): (r: nat)
    ensures r <= |ps| && (r < |ps| ==> ps[r].signature == s)
    ensures forall j :: 0 <= j < r ==> ps[j].signature != s
  {
    if ps == [] then 0
    else if ps[0].signature == s then 0
    else 1 + FindPattern(ps[1..], s)
  }

  /** One more use of a pattern: the count goes up, the example and the first
      timestamp are set if still unset, and the last timestamp moves to the
      event's when the event has one. */
  function Touch(p: PatternSignature, e: CommandEvent): PatternSignature {
    p.(frequency := p.frequency + 1,
       representativeExample := if p.representativeExample.None? then Some(e.raw) else p.representativeExample,
       firstSeen := if p.firstSeen.None? then e.source.timestamp else p.firstSeen,
       lastSeen := if e.source.timestamp.Some? then e.source.timestamp else p.lastSeen)
  }

  /** One event applied to its command's patterns. */
  function Record(cp: CommandPatterns, e: CommandEvent): CommandPatterns {
    var sig := BuildSignature(e);
    var j := FindPattern(cp.patterns, sig.signature);
    var ps := if j < |cp.patterns| then cp.patterns else cp.patterns + [sig];
    CommandPatterns(cp.command, cp.totalUses + 1, ps[j := Touch(ps[j], e)])
  }

  /** The record of the event's command, as `Step` finds or creates it. */
  function Current(m: Entries<CommandPatterns>, e: CommandEvent): CommandPatterns {
    match Get(m, CommandKeys, e.command) case Some(x) => x case None => FreshCommand(e.command)
  }

  /** One event applied to the inventory: find or create its command (looked up
      case-insensitively), then record the event there. */
  function Step(m: Entries<CommandPatterns>, e: CommandEvent): Entries<CommandPatterns> {
    Put(m, CommandKeys, e.command, Record(Current(m, e), e))
  }

  /** The inventory after all events, in order. */
  function Fold(events: seq<CommandEvent>): Entries<CommandPatterns> {
    if events == [] then [] else Step(Fold(events[..|events| - 1]), events[|events| - 1])
  }

  lemma FoldPrefix(events: seq<CommandEvent>, i: nat)
    requires i < |events|
    ensures Fold(events[..i + 1]) == Step(Fold(events[..i]), events[i])
  {
    assert events[..i + 1][..i] == events[..i];
  }

  /** The use of one event recorded on its command, updated field by field. */
  method RecordUse(command: CommandPatterns, evt: CommandEvent) returns (c: CommandPatterns)
    ensures c == Record(command, evt)
  {
    c := command.(totalUses := command.totalUses + 1);
    var signature := BuildSignature(evt);
    var j := FindPattern(c.patterns, signature.signature);
    if j == |c.patterns| {
      c := c.(patterns := c.patterns + [signature]);
    }
    c := c.(patterns := c.patterns[j := Touch(c.patterns[j], evt)]);
  }

  /** The body of the loop in `BuildSnapshot`: find or create the event's
      command, then record the use on it. */
  method Apply(commands: Entries<CommandPatterns>, evt: CommandEvent) returns (r: Entries<CommandPatterns>)
    ensures r == Step(commands, evt)
  {
    var command: CommandPatterns;
    var found := Get(commands, CommandKeys, evt.command);
    if found.None? {
      command := FreshCommand(evt.command);
    } else {
      command := found.value;
    }
    command := RecordUse(command, evt);
    r := Put(commands, CommandKeys, evt.command, command);
  }

  /** `BuildSnapshot`. */
  method BuildSnapshot(events: seq<CommandEvent>, now: Timestamp) returns (snapshot: PatternsSnapshot)
    ensures snapshot == PatternsSnapshot(SnapshotVersion, now, Fold(events))
  {
    var commands: Entries<CommandPatterns> := [];
    for i := 0 to |events|
      invariant commands == Fold(events[..i])
    {
      FoldPrefix(events, i);
      commands := Apply(commands, events[i]);
    }
    assert events[..|events|] == events;
    snapshot := PatternsSnapshot(SnapshotVersion, now, commands);
  }

  // ------------------------------------------------ what the inventory holds

  /** The events whose command matches `c` case-insensitively, in order. */
  function Uses(events: seq<CommandEvent>, c: string): seq<CommandEvent> {
    if events == [] then []
    else
      var e := events[|events| - 1];
      Uses(events[..|events| - 1], c) + (if SameKey(CommandKeys, e.command, c) then [e] else [])
  }

  /** A run of events recorded, in order, on one command. */
  function RecordAll(cp: CommandPatterns, u: seq<CommandEvent>): CommandPatterns {
    if u == [] then cp else Record(RecordAll(cp, u[..|u| - 1]), u[|u| - 1])
  }

  lemma UsesSnoc(pre: seq<CommandEvent>, e: CommandEvent, c: string)
    ensures Uses(pre + [e], c) == Uses(pre, c) + (if SameKey(CommandKeys, e.command, c) then [e] else [])
  {
    assert (pre + [e])[..|pre|] == pre;
  }

  lemma RecordAllSnoc(cp: CommandPatterns, u: seq<CommandEvent>, e: CommandEvent)
    ensures RecordAll(cp, u + [e]) == Record(RecordAll(cp, u), e)
  {
    assert (u + [e])[..|u|] == u;
  }

  lemma FoldSnoc(pre: seq<CommandEvent>, e: CommandEvent)
    ensures Fold(pre + [e]) == Step(Fold(pre), e)
  {
    assert (pre + [e])[..|pre|] == pre;
  }

  /** The record a lookup finds, as a function of the events of that command. */
  function Lookup(u: seq<CommandEvent>): Option<CommandPatterns> {
    if u == [] then None else Some(RecordAll(FreshCommand(u[0].command), u))
  }

  /** An event of the looked-up command extends that command's record. */
  lemma LookupSnoc(u: seq<CommandEvent>, e: CommandEvent)
    ensures Lookup(u + [e]) == Some(Record(match Lookup(u) case Some(x) => x case None => FreshCommand(e.command), e))
  {
    RecordAllSnoc(FreshCommand((u + [e])[0].command), u, e);
    if u == [] {
      assert u + [e] == [e];
    } else {
      assert (u + [e])[0] == u[0];
    }
  }

  lemma GetStep(m: Entries<CommandPatterns>, e: CommandEvent, c: string)
    ensures Get(Step(m, e), CommandKeys, c)
         == if SameKey(CommandKeys, c, e.command) then Some(Record(Current(m, e), e)) else Get(m, CommandKeys, c)
  {
    GetPut(m, CommandKeys, e.command, Record(Current(m, e), e), c);
  }

  lemma SameKeySymmetric(a: string, b: string)
    ensures SameKey(CommandKeys, a, b) == SameKey(CommandKeys, b, a)
  {
  }

  /** Looking a command up in the inventory finds nothing when no event had
      that command (in any letter case), and otherwise finds exactly the
      record of those events, in order, on a command named as the first of
      them spelled it. */
  lemma {:induction false} GetFold(events: seq<CommandEvent>, c: string)
    ensures Get(Fold(events), CommandKeys, c) == Lookup(Uses(events, c))
  {
    if events != [] {
      var pre, e := events[..|events| - 1], events[|events| - 1];
      assert events == pre + [e];
      var m := Fold(pre);
      GetFold(pre, c);
      FoldSnoc(pre, e);
      GetStep(m, e, c);
      UsesSnoc(pre, e, c);
      SameKeySymmetric(c, e.command);
      if SameKey(CommandKeys, e.command, c) {
        FindSameKey(m, CommandKeys, e.command, c);
        assert Get(m, CommandKeys, e.command) == Get(m, CommandKeys, c);
        LookupSnoc(Uses(pre, c), e);
        assert Current(m, e) == match Lookup(Uses(pre, c)) case Some(x) => x case None => FreshCommand(e.command);
      } else {
        assert Uses(events, c) == Uses(pre, c) + [];
        assert Uses(pre, c) + [] == Uses(pre, c);
      }
    }
  }

  function StampOf(e: CommandEvent): Option<Timestamp> {
    e.source.timestamp
  }

  /** The first value that is present. */
  function FirstSome<T>(xs: seq<Option<T>>): Option<T> {
    if xs == [] then None else if xs[0].Some? then xs[0] else FirstSome(xs[1..])
  }

  /** The last value that is present. */
  function LastSome<T>(xs: seq<Option<T>>): Option<T> {
    if xs == [] then None
    else if xs[|xs| - 1].Some? then xs[|xs| - 1]
    else LastSome(xs[..|xs| - 1])
  }

  /** The events whose signature is `s`, in order. */
  function Matching(u: seq<CommandEvent>, s: SignatureKey): seq<CommandEvent> {
    if u == [] then []
    else
      var e := u[|u| - 1];
      Matching(u[..|u| - 1], s) + (if SignatureOf(e) == s then [e] else [])
  }

  /** The pattern with signature `s` that the events `u` of one command call
      for: one use per matching event, the first matching event's raw line as
      its example, and the first and the last timestamp present among the
      matching events, in arrival order. */
  function Expected(u: seq<CommandEvent>, s: SignatureKey): PatternSignature {
    PatternOf(s, Matching(u, s))
  }

  /** The pattern with signature `s` that the run of events `w` makes. */
  function PatternOf(s: SignatureKey, w: seq<CommandEvent>): PatternSignature {
    PatternSignature(s, s.subcommand, s.flags, s.options, s.argShapes, |w|,
      if w == [] then None else Some(w[0].raw),
      FirstSome(Map(StampOf, w)), LastSome(Map(StampOf, w)))
  }

  function PatternKey(p: PatternSignature): SignatureKey {
    p.signature
  }

  function SumFrequency(ps: seq<PatternSignature>): nat {
    if ps == [] then 0 else SumFrequency(ps[..|ps| - 1]) + ps[|ps| - 1].frequency
  }

  /** A command's record after the events `u`: its name and one use per event,
      spread over its patterns. */
  ghost predicate CountsOf(cp: CommandPatterns, u: seq<CommandEvent>, name: string) {
    cp.command == name && cp.totalUses == |u| && SumFrequency(cp.patterns) == |u|
  }

  /** One pattern per distinct signature of `u`, in first-seen order. */
  ghost predicate KeysOf(cp: CommandPatterns, u: seq<CommandEvent>) {
    Map(PatternKey, cp.patterns) == Distinct(Map(SignatureOf, u))
  }

  /** Each pattern as `Expected` says. */
  ghost predicate PatternsOf(cp: CommandPatterns, u: seq<CommandEvent>) {
    forall k :: 0 <= k < |cp.patterns| ==> cp.patterns[k] == Expected(u, cp.patterns[k].signature)
  }

  /** What a command's record holds after the events `u`. */
  ghost predicate Describes(cp: CommandPatterns, u: seq<CommandEvent>, name: string) {
    CountsOf(cp, u, name) && KeysOf(cp, u) && PatternsOf(cp, u)
  }

  lemma {:induction false} FirstSomeSnoc<T>(xs: seq<Option<T>>, x: Option<T>)
    ensures FirstSome(xs + [x]) == if FirstSome(xs).Some? then FirstSome(xs) else x
  {
    if xs == [] {
      assert xs + [x] == [x];
    } else {
      assert (xs + [x])[1..] == xs[1..] + [x];
      FirstSomeSnoc(xs[1..], x);
    }
  }

  lemma MatchingSnoc(u: seq<CommandEvent>, e: CommandEvent, s: SignatureKey)
    ensures Matching(u + [e], s) == Matching(u, s) + (if SignatureOf(e) == s then [e] else [])
  {
    assert (u + [e])[..|u|] == u;
  }

  lemma StampsSnoc(w: seq<CommandEvent>, e: CommandEvent)
    ensures FirstSome(Map(StampOf, w + [e]))
         == if FirstSome(Map(StampOf, w)).Some? then FirstSome(Map(StampOf, w)) else StampOf(e)
    ensures LastSome(Map(StampOf, w + [e]))
         == if StampOf(e).Some? then StampOf(e) else LastSome(Map(StampOf, w))
  {
    MapAppend(StampOf, w, [e]);
    assert Map(StampOf, [e]) == [StampOf(e)];
    FirstSomeSnoc(Map(StampOf, w), StampOf(e));
    assert Map(StampOf, w + [e])[..|w|] == Map(StampOf, w);
  }

  lemma PatternOfSnoc(s: SignatureKey, w: seq<CommandEvent>, e: CommandEvent)
    ensures PatternOf(s, w + [e]) == Touch(PatternOf(s, w), e)
  {
    StampsSnoc(w, e);
    if w != [] {
      assert (w + [e])[0] == w[0];
    }
  }

  /** One more event changes only the expected pattern of its own signature,
      and that one as `Touch` does. */
  lemma ExpectedSnoc(u: seq<CommandEvent>, e: CommandEvent, s: SignatureKey)
    ensures Expected(u + [e], s) == if SignatureOf(e) == s then Touch(Expected(u, s), e) else Expected(u, s)
  {
    MatchingSnoc(u, e, s);
    var w := Matching(u, s);
    if SignatureOf(e) == s {
      PatternOfSnoc(s, w, e);
    } else {
      assert w + [] == w;
    }
  }

  lemma {:induction false} MatchingEmpty(u: seq<CommandEvent>, s: SignatureKey)
    requires s !in Map(SignatureOf, u)
    ensures Matching(u, s) == []
  {
    if u != [] {
      var n := |u| - 1;
      var pre := u[..n];
      var sigs := Map(SignatureOf, u);
      assert sigs[n] == SignatureOf(u[n]);
      assert s !in Map(SignatureOf, pre) by {
        forall k | 0 <= k < |pre| ensures Map(SignatureOf, pre)[k] != s {
          assert Map(SignatureOf, pre)[k] == sigs[k];
        }
      }
      MatchingEmpty(pre, s);
    }
  }

  /** A signature not seen before calls for exactly the fresh pattern. */
  lemma ExpectedFresh(u: seq<CommandEvent>, e: CommandEvent)
    requires SignatureOf(e) !in Map(SignatureOf, u)
    ensures Expected(u, SignatureOf(e)) == BuildSignature(e)
  {
    MatchingEmpty(u, SignatureOf(e));
  }

  lemma {:induction false} SumFrequencyUpdate(ps: seq<PatternSignature>, j: nat, x: PatternSignature)
    requires j < |ps|
    ensures SumFrequency(ps[j := x]) + ps[j].frequency == SumFrequency(ps) + x.frequency
  {
    var n := |ps| - 1;
    if j < n {
      SumFrequencyUpdate(ps[..n], j, x);
      assert ps[j := x][..n] == ps[..n][j := x];
    } else {
      assert ps[j := x][..n] == ps[..n];
    }
  }

  lemma SignaturesSnoc(u: seq<CommandEvent>, e: CommandEvent)
    ensures Distinct(Map(SignatureOf, u + [e]))
         == var d := Distinct(Map(SignatureOf, u));
            if SignatureOf(e) in d then d else d + [SignatureOf(e)]
  {
    MapAppend(SignatureOf, u, [e]);
    assert Map(SignatureOf, [e]) == [SignatureOf(e)];
    DistinctSnoc(Map(SignatureOf, u), SignatureOf(e));
  }

  lemma RecordCounts(cp: CommandPatterns, u: seq<CommandEvent>, name: string, e: CommandEvent)
    requires CountsOf(cp, u, name)
    ensures CountsOf(Record(cp, e), u + [e], name)
  {
    var ps := cp.patterns;
    var j := FindPattern(ps, SignatureOf(e));
    if j < |ps| {
      SumFrequencyUpdate(ps, j, Touch(ps[j], e));
    } else {
      var x := Touch(BuildSignature(e), e);
      assert Record(cp, e).patterns == ps + [x];
      assert (ps + [x])[..|ps|] == ps;
    }
  }

  /** `Record` in terms of the pattern search. */
  lemma RecordShape(cp: CommandPatterns, e: CommandEvent)
    ensures var ps := cp.patterns;
            var j := FindPattern(ps, SignatureOf(e));
            && Record(cp, e).command == cp.command
            && Record(cp, e).totalUses == cp.totalUses + 1
            && (j < |ps| ==> Record(cp, e).patterns == ps[j := Touch(ps[j], e)])
            && (j == |ps| ==> Record(cp, e).patterns == ps + [Touch(BuildSignature(e), e)])
  {
  }

  lemma KeysUpdate(ps: seq<PatternSignature>, j: nat, x: PatternSignature)
    requires j < |ps| && x.signature == ps[j].signature
    ensures Map(PatternKey, ps[j := x]) == Map(PatternKey, ps)
  {
  }

  lemma KeysAppend(ps: seq<PatternSignature>, x: PatternSignature)
    ensures Map(PatternKey, ps + [x]) == Map(PatternKey, ps) + [x.signature]
  {
    MapAppend(PatternKey, ps, [x]);
    assert Map(PatternKey, [x]) == [x.signature];
  }

  /** A signature the search does not find is not among the keys. */
  lemma NotFound(ps: seq<PatternSignature>, s: SignatureKey)
    requires FindPattern(ps, s) == |ps|
    ensures s !in Map(PatternKey, ps)
  {
  }

  lemma RecordKeys(cp: CommandPatterns, u: seq<CommandEvent>, e: CommandEvent)
    requires KeysOf(cp, u)
    ensures KeysOf(Record(cp, e), u + [e])
  {
    var ps := cp.patterns;
    var s := SignatureOf(e);
    var j := FindPattern(ps, s);
    var d := Distinct(Map(SignatureOf, u));
    SignaturesSnoc(u, e);
    RecordShape(cp, e);
    if j < |ps| {
      assert Map(PatternKey, ps)[j] == s;
      KeysUpdate(ps, j, Touch(ps[j], e));
    } else {
      NotFound(ps, s);
      KeysAppend(ps, Touch(BuildSignature(e), e));
    }
  }

  /** Every other pattern keeps its expected value. */
  lemma OtherPatternKept(u: seq<CommandEvent>, e: CommandEvent, p: PatternSignature)
    requires p == Expected(u, p.signature) && p.signature != SignatureOf(e)
    ensures p == Expected(u + [e], p.signature)
  {
    ExpectedSnoc(u, e, p.signature);
  }

  lemma RecordPatternsExisting(cp: CommandPatterns, u: seq<CommandEvent>, e: CommandEvent)
    requires KeysOf(cp, u) && PatternsOf(cp, u)
    requires FindPattern(cp.patterns, SignatureOf(e)) < |cp.patterns|
    ensures PatternsOf(Record(cp, e), u + [e])
  {
    var ps := cp.patterns;
    var s := SignatureOf(e);
    var j := FindPattern(ps, s);
    var d := Distinct(Map(SignatureOf, u));
    var r := Record(cp, e).patterns;
    assert r == ps[j := Touch(ps[j], e)];
    ExpectedSnoc(u, e, s);
    forall k | 0 <= k < |r| && k != j ensures r[k] == Expected(u + [e], r[k].signature) {
      assert d[k] != d[j];
      OtherPatternKept(u, e, ps[k]);
    }
  }

  lemma RecordPatternsNew(cp: CommandPatterns, u: seq<CommandEvent>, e: CommandEvent)
    requires KeysOf(cp, u) && PatternsOf(cp, u)
    requires FindPattern(cp.patterns, SignatureOf(e)) == |cp.patterns|
    ensures PatternsOf(Record(cp, e), u + [e])
  {
    var ps := cp.patterns;
    var s := SignatureOf(e);
    NotFound(ps, s);
    assert s !in Map(SignatureOf, u);
    ExpectedFresh(u, e);
    ExpectedSnoc(u, e, s);
    RecordShape(cp, e);
    var r := Record(cp, e).patterns;
    forall k | 0 <= k < |ps| ensures r[k] == Expected(u + [e], r[k].signature) {
      OtherPatternKept(u, e, ps[k]);
    }
  }

  lemma DescribesFresh(name: string)
    ensures Describes(FreshCommand(name), [], name)
  {
    assert Map(SignatureOf, []) == [];
  }

  lemma DescribesStep(cp: CommandPatterns, u: seq<CommandEvent>, name: string, e: CommandEvent)
    requires Describes(cp, u, name)
    ensures Describes(Record(cp, e), u + [e], name)
  {
    RecordCounts(cp, u, name, e);
    RecordKeys(cp, u, e);
    if FindPattern(cp.patterns, SignatureOf(e)) < |cp.patterns| {
      RecordPatternsExisting(cp, u, e);
    } else {
      RecordPatternsNew(cp, u, e);
    }
  }

  /** Recording events one by one keeps their description. */
  lemma {:induction false} RecordAllDescribes(name: string, u: seq<CommandEvent>)
    ensures Describes(RecordAll(FreshCommand(name), u), u, name)
  {
    if u == [] {
      DescribesFresh(name);
    } else {
      var pre, e := u[..|u| - 1], u[|u| - 1];
      assert u == pre + [e];
      var cp := RecordAll(FreshCommand(name), pre);
      assert RecordAll(FreshCommand(name), u) == Record(cp, e);
      RecordAllDescribes(name, pre);
      DescribesStep(cp, pre, name, e);
    }
  }

  // ------------------------------------------------------- inventory theorems

  /** For every command name: it is in the inventory exactly when some event
      had it (in any letter case); its entry then keeps the spelling of the
      first such event, counts one use per event, holds one pattern per
      distinct signature in first-seen order (so no signature twice), each
      pattern counting, exemplifying and time-stamping exactly its own events,
      and its patterns' uses add up to its uses. */
  lemma SnapshotCommand(events: seq<CommandEvent>, c: string)
    ensures var u := Uses(events, c);
            var r := Get(Fold(events), CommandKeys, c);
            && (r.Some? <==> u != [])
            && (r.Some? ==>
                  && r.value.command == u[0].command
                  && r.value.totalUses == |u|
                  && Map(PatternKey, r.value.patterns) == Distinct(Map(SignatureOf, u))
                  && (forall i, j :: 0 <= i < j < |r.value.patterns| ==>
                        r.value.patterns[i].signature != r.value.patterns[j].signature)
                  && (forall k :: 0 <= k < |r.value.patterns| ==>
                        r.value.patterns[k] == Expected(u, r.value.patterns[k].signature))
                  && SumFrequency(r.value.patterns) == r.value.totalUses)
  {
    GetFold(events, c);
    var u := Uses(events, c);
    if u != [] {
      RecordAllDescribes(u[0].command, u);
      var ps := RecordAll(FreshCommand(u[0].command), u).patterns;
      forall i, j | 0 <= i < j < |ps| ensures ps[i].signature != ps[j].signature {
        assert Map(PatternKey, ps)[i] == ps[i].signature && Map(PatternKey, ps)[j] == ps[j].signature;
      }
    }
  }

  function SumUses(m: Entries<CommandPatterns>): nat {
    if m == [] then 0 else SumUses(m[..|m| - 1]) + m[|m| - 1].1.totalUses
  }

  lemma {:induction false} SumUsesUpdate(m: Entries<CommandPatterns>, i: nat, v: CommandPatterns)
    requires i < |m|
    ensures SumUses(m[i := (m[i].0, v)]) + m[i].1.totalUses == SumUses(m) + v.totalUses
  {
    var n := |m| - 1;
    if i < n {
      SumUsesUpdate(m[..n], i, v);
      assert m[i := (m[i].0, v)][..n] == m[..n][i := (m[i].0, v)];
    } else {
      assert m[i := (m[i].0, v)][..n] == m[..n];
    }
  }

  lemma StepAddsOneUse(m: Entries<CommandPatterns>, e: CommandEvent)
    ensures SumUses(Step(m, e)) == SumUses(m) + 1
  {
    var cur := match Get(m, CommandKeys, e.command) case Some(x) => x case None => FreshCommand(e.command);
    RecordShape(cur, e);
    var i := Find(m, CommandKeys, e.command);
    if i < |m| {
      SumUsesUpdate(m, i, Record(cur, e));
    } else {
      var x := (e.command, Record(cur, e));
      assert (m + [x])[..|m|] == m;
    }
  }

  /** Each event adds exactly one use, so the uses of all commands add up to
      the number of events. */
  lemma {:induction false} TotalUsesCountEvents(events: seq<CommandEvent>)
    ensures SumUses(Fold(events)) == |events|
  {
    if events != [] {
      TotalUsesCountEvents(events[..|events| - 1]);
      StepAddsOneUse(Fold(events[..|events| - 1]), events[|events| - 1]);
    }
  }

  /** Every entry is keyed by its command's own name. */
  ghost predicate KeyedByName(m: Entries<CommandPatterns>) {
    forall i :: 0 <= i < |m| ==> m[i].0 == m[i].1.command
  }

  lemma StepKeyedByName(m: Entries<CommandPatterns>, e: CommandEvent)
    requires KeyedByName(m)
    ensures KeyedByName(Step(m, e))
  {
    var cur := match Get(m, CommandKeys, e.command) case Some(x) => x case None => FreshCommand(e.command);
    RecordShape(cur, e);
  }

  /** No two entries have names that differ only in letter case, and each entry
      is keyed by the name its command keeps. */
  lemma {:induction false} FoldKeys(events: seq<CommandEvent>)
    ensures DistinctKeys(Fold(events), CommandKeys) && KeyedByName(Fold(events))
  {
    if events != [] {
      var pre, e := events[..|events| - 1], events[|events| - 1];
      FoldKeys(pre);
      var m := Fold(pre);
      var cur := match Get(m, CommandKeys, e.command) case Some(x) => x case None => FreshCommand(e.command);
      PutDistinct(m, CommandKeys, e.command, Record(cur, e));
      StepKeyedByName(m, e);
    }
  }

  lemma {:induction false} UsesIn(events: seq<CommandEvent>, c: string)
    ensures forall x :: x in Uses(events, c) ==> x in events
  {
    if events != [] {
      var pre := events[..|events| - 1];
      UsesIn(pre, c);
      assert forall x :: x in pre ==> x in events;
    }
  }

  lemma {:induction false} MatchingIn(u: seq<CommandEvent>, s: SignatureKey)
    ensures forall x :: x in Matching(u, s) ==> x in u
  {
    if u != [] {
      var pre := u[..|u| - 1];
      MatchingIn(pre, s);
      assert forall x :: x in pre ==> x in u;
    }
  }

  lemma {:induction false} NoStampsNoneSeen(w: seq<CommandEvent>)
    requires forall x :: x in w ==> x.source.timestamp.None?
    ensures FirstSome(Map(StampOf, w)) == None && LastSome(Map(StampOf, w)) == None
  {
    if w != [] {
      NoStampsNoneSeen(w[1..]);
      NoStampsNoneSeen(w[..|w| - 1]);
      MapAppend(StampOf, w[..|w| - 1], [w[|w| - 1]]);
      assert w[..|w| - 1] + [w[|w| - 1]] == w;
      assert Map(StampOf, [w[|w| - 1]]) == [StampOf(w[|w| - 1])];
      assert Map(StampOf, w)[..|w| - 1] == Map(StampOf, w[..|w| - 1]);
    }
  }

  /** Events without timestamps, such as those `CommandParser.Parse` makes,
      leave every pattern's first and last seen time unset. */
  lemma NoTimestampsNoSeen(events: seq<CommandEvent>, c: string, k: nat)
    requires forall i :: 0 <= i < |events| ==> events[i].source.timestamp.None?
    requires Get(Fold(events), CommandKeys, c).Some? && k < |Get(Fold(events), CommandKeys, c).value.patterns|
    ensures Get(Fold(events), CommandKeys, c).value.patterns[k].firstSeen == None
    ensures Get(Fold(events), CommandKeys, c).value.patterns[k].lastSeen == None
  {
    SnapshotCommand(events, c);
    var u := Uses(events, c);
    var p := Get(Fold(events), CommandKeys, c).value.patterns[k];
    UsesIn(events, c);
    MatchingIn(u, p.signature);
    NoStampsNoneSeen(Matching(u, p.signature));
  }

  /** The last seen time follows arrival order, not the largest time: a pattern
      seen at 5 and then at 3 was last seen at 3. */
  lemma LastSeenFollowsArrival(e1: CommandEvent, e2: CommandEvent)
    requires SignatureOf(e1) == SignatureOf(e2)
    requires e1.source.timestamp == Some(5) && e2.source.timestamp == Some(3)
    ensures Expected([e1, e2], SignatureOf(e1)).lastSeen == Some(3)
    ensures Expected([e1, e2], SignatureOf(e1)).firstSeen == Some(5)
    ensures Expected([e1, e2], SignatureOf(e1)).representativeExample == Some(e1.raw)
  {
    var s := SignatureOf(e1);
    MatchingSnoc([], e1, s);
    MatchingSnoc([e1], e2, s);
    assert [] + [e1] == [e1] && [e1] + [e2] == [e1, e2];
    assert Matching([e1, e2], s) == [e1, e2];
    assert Map(StampOf, [e1, e2]) == [Some(5), Some(3)];
  }

  lemma PairUses(e1: CommandEvent, e2: CommandEvent)
    requires SameKey(CommandKeys, e1.command, e2.command)
    ensures Uses([e1, e2], e2.command) == [e1, e2]
  {
    UsesSnoc([], e1, e2.command);
    UsesSnoc([e1], e2, e2.command);
    assert [] + [e1] == [e1] && [e1] + [e2] == [e1, e2];
  }

  lemma DistinctPair<T(!new)>(a: T, b: T)
    requires a != b
    ensures Distinct([a, b]) == [a, b]
  {
    DistinctSnoc([], a);
    DistinctSnoc([a], b);
    assert [] + [a] == [a] && [a] + [b] == [a, b];
  }

  /** Two spellings of one command share one entry, named as first written,
      yet their patterns stay apart because the signature keeps the spelling. */
  lemma SpellingsShareEntry(e1: CommandEvent, e2: CommandEvent)
    requires SameKey(CommandKeys, e1.command, e2.command) && e1.command != e2.command
    ensures Get(Fold([e1, e2]), CommandKeys, e2.command).Some?
    ensures var cp := Get(Fold([e1, e2]), CommandKeys, e2.command).value;
            cp.command == e1.command && cp.totalUses == 2 && |cp.patterns| == 2
  {
    PairUses(e1, e2);
    DistinctPair(SignatureOf(e1), SignatureOf(e2));
    assert Map(SignatureOf, [e1, e2]) == [SignatureOf(e1), SignatureOf(e2)];
    SnapshotCommand([e1, e2], e2.command);
    var cp := Get(Fold([e1, e2]), CommandKeys, e2.command).value;
    assert |Map(PatternKey, cp.patterns)| == |cp.patterns|;
  }
}
