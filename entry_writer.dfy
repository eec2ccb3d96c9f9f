/** The placeholder entries written for the commands of a regeneration plan:
    which patterns, flags, option keys and examples an entry lists, in which
    order, and the file each entry goes to.  JSON encoding and the file
    system are not modelled; the entries written are returned in order. */
module EntryWriter {
  import opened Text
  import opened Ordering
  import opened Dict
  import opened Models
  import DiffService
  import NameUtil
  import ReportWriter
  import StateUpdater

  const EntryVersion := "0.1"
  const MaxExamples := 8

  // ---------------------------------------------------------------------------
  // Syntax patterns

  function OptionPart(o: (string, Shape)): string {
    o.0 + " <" + ShapeName(o.1) + ">"
  }

  function ArgPart(a: Shape): string {
    "<" + ShapeName(a) + ">"
  }

  /** The parts of a syntax pattern, in order: the subcommand (empty when
      there is none), the flags, each option as `key <shape>`, each argument
      as `<shape>`. */
  function SyntaxParts(p: PatternSignature): seq<string> {
    [match p.subcommand case Some(s) => s case None => ""]
    + p.flags + Map(OptionPart, p.options) + Map(ArgPart, p.argShapes)
  }

  predicate NotBlank(s: string) {
    !IsBlank(s)
  }

  /** `EntryWriter.BuildSyntaxPattern`. */
  function BuildSyntaxPattern(p: PatternSignature): string {
    Trim(Join(" ", Filter(NotBlank, SyntaxParts(p))))
  }

  /** A part that neither is blank nor begins or ends in white space. */
  predicate Clean(s: string) {
    s != [] && !IsWhiteSpace(s[0]) && !IsWhiteSpace(s[|s| - 1])
  }

  lemma {:induction false} JoinEnds(parts: seq<string>)
    requires parts != [] && forall i :: 0 <= i < |parts| ==> Clean(parts[i])
    ensures var j := Join(" ", parts); Clean(j) && j[0] == parts[0][0]
  {
    if |parts| > 1 {
      JoinEnds(parts[1..]);
      var rest := Join(" ", parts[1..]);
      assert Join(" ", parts) == parts[0] + " " + rest;
    }
  }

  predicate CleanOrEmpty(parts: seq<string>) {
    forall i :: 0 <= i < |parts| ==> parts[i] == [] || Clean(parts[i])
  }

  lemma CleanOrEmptyAppend(a: seq<string>, b: seq<string>)
    requires CleanOrEmpty(a) && CleanOrEmpty(b)
    ensures CleanOrEmpty(a + b)
  {
    forall i | 0 <= i < |a + b| ensures (a + b)[i] == [] || Clean((a + b)[i]) {
      if i < |a| {
        assert (a + b)[i] == a[i];
      } else {
        assert (a + b)[i] == b[i - |a|];
      }
    }
  }

  /** Blank parts are dropped and the others are joined by single spaces:
      when every part is empty or clean, so is the join. */
  lemma CleanPartsJoined(parts: seq<string>)
    requires CleanOrEmpty(parts)
    ensures var j := Join(" ", Filter(NotBlank, parts)); j == [] || Clean(j)
  {
    var kept := Filter(NotBlank, parts);
    forall i | 0 <= i < |kept| ensures Clean(kept[i]) {
      assert kept[i] in parts;
      var q :| 0 <= q < |parts| && parts[q] == kept[i];
      assert NotBlank(kept[i]);
    }
    if kept != [] {
      JoinEnds(kept);
    }
  }

  /** The parts made for options and argument shapes are clean whenever the
      option keys are. */
  lemma GeneratedPartsClean(p: PatternSignature)
    requires forall i :: 0 <= i < |p.options| ==> Clean(p.options[i].0)
    ensures CleanOrEmpty(Map(OptionPart, p.options)) && CleanOrEmpty(Map(ArgPart, p.argShapes))
  {
    forall i | 0 <= i < |p.options| ensures Clean(OptionPart(p.options[i])) {
      var o := p.options[i];
      var op := OptionPart(o);
      assert op[0] == o.0[0] && op[|op| - 1] == '>';
    }
    forall i | 0 <= i < |p.argShapes| ensures Clean(ArgPart(p.argShapes[i])) {
      var ap := ArgPart(p.argShapes[i]);
      assert ap[0] == '<' && ap[|ap| - 1] == '>';
    }
  }

  /** For a signature whose subcommand, flags and option keys are clean, the
      syntax pattern is its non-empty parts joined by single spaces, in
      order, with nothing left to trim. */
  lemma CleanSignatureJoined(p: PatternSignature)
    requires p.subcommand.None? || Clean(p.subcommand.value)
    requires forall i :: 0 <= i < |p.flags| ==> Clean(p.flags[i])
    requires forall i :: 0 <= i < |p.options| ==> Clean(p.options[i].0)
    ensures BuildSyntaxPattern(p) == Join(" ", Filter(NotBlank, SyntaxParts(p)))
  {
    var sub := [match p.subcommand case Some(s) => s case None => ""];
    assert CleanOrEmpty(sub) by {
      assert forall i :: 0 <= i < |sub| ==> sub[i] == sub[0];
    }
    GeneratedPartsClean(p);
    CleanOrEmptyAppend(sub, p.flags);
    CleanOrEmptyAppend(sub + p.flags, Map(OptionPart, p.options));
    CleanOrEmptyAppend(sub + p.flags + Map(OptionPart, p.options), Map(ArgPart, p.argShapes));
    CleanPartsJoined(SyntaxParts(p));
    TrimOfTrimmed(Join(" ", Filter(NotBlank, SyntaxParts(p))));
  }

  lemma ConsAssociates<T>(x: T, a: seq<T>, b: seq<T>, c: seq<T>)
    ensures [x] + a + b + c == [x] + (a + b + c)
  {
  }

  lemma FilterDropsHead<T>(p: T -> bool, x: T, rest: seq<T>)
    requires !p(x)
    ensures Filter(p, [x] + rest) == Filter(p, rest)
  {
    assert ([x] + rest)[0] == x && ([x] + rest)[1..] == rest;
  }

  /** A missing subcommand contributes an empty part, which is dropped. */
  lemma MissingSubcommandDropped(p: PatternSignature)
    requires p.subcommand.None?
    ensures Filter(NotBlank, SyntaxParts(p))
         == Filter(NotBlank, p.flags + Map(OptionPart, p.options) + Map(ArgPart, p.argShapes))
  {
    var a, b, c := p.flags, Map(OptionPart, p.options), Map(ArgPart, p.argShapes);
    ConsAssociates("", a, b, c);
    FilterDropsHead(NotBlank, "", a + b + c);
  }

  // ---------------------------------------------------------------------------
  // The entry

  predicate MoreFrequent(a: PatternSignature, b: PatternSignature) {
    a.frequency >= b.frequency
  }

  lemma MoreFrequentIsTotalPreorder()
    ensures TotalPreorder(MoreFrequent)
  {
  }

  /** The patterns an entry shows: most frequent first, equal frequencies in
      inventory order, at most `limit` of them. */
  function TopPatterns(ps: seq<PatternSignature>, limit: int): seq<PatternSignature> {
    Take(SortBy(ps, MoreFrequent), limit)
  }

  /** All the strings of a list of lists, in order (LINQ `SelectMany`). */
  function Concat(xss: seq<seq<string>>): seq<string> {
    if xss == [] then [] else Concat(xss[..|xss| - 1]) + xss[|xss| - 1]
  }

  /** The distinct names a selector finds in the patterns, in ordinal order. */
  function SortedNames(ps: seq<PatternSignature>, sel: ReportWriter.Selector): seq<string> {
    SortBy(Distinct(Concat(Map(sel, ps))), StrLe)
  }

  predicate HasExample(p: PatternSignature) {
    p.representativeExample.Some? && !IsBlank(p.representativeExample.value)
  }

  function ExampleOf(p: PatternSignature): string {
    match p.representativeExample
    case Some(e) => e
    case None => ""
  }

  /** The patterns an entry takes its examples from. */
  function ExamplePatterns(ps: seq<PatternSignature>): seq<PatternSignature> {
    Take(SortBy(Filter(HasExample, ps), MoreFrequent), MaxExamples)
  }

  datatype Entry = Entry(
    version: string,
    command: string,
    summary: string,
    syntaxPatterns: seq<string>,
    flagsAndOptions: seq<string>,
    examples: seq<string>,
    regeneratedAt: Timestamp,
    patternsHash: PatternsDigest,
    inputHash: PatternsDigest)

  /** `EntryWriter.BuildPlaceholderEntry`; `now` is the time it reads. */
  function BuildPlaceholderEntry(cp: CommandPatterns, patternsHash: PatternsDigest, topPatternsPerCommand: Option<int>,
                                 generatorMode: string, now: Timestamp): Entry
  {
    var limit := match topPatternsPerCommand case Some(n) => n case None => DiffService.IntMax;
    Entry(EntryVersion, cp.command,
          "Placeholder entry generated locally (generator " + generatorMode + ").",
          Map(BuildSyntaxPattern, TopPatterns(cp.patterns, limit)),
          SortedNames(cp.patterns, ReportWriter.FlagsOf) + SortedNames(cp.patterns, ReportWriter.OptionKeysOf),
          Map(ExampleOf, ExamplePatterns(cp.patterns)),
          now, patternsHash, patternsHash)
  }

  /** The syntax patterns come from the most frequent patterns, in
      descending order of frequency, equal frequencies in inventory order, at
      most the limit of them. */
  lemma TopPatternsOrder(ps: seq<PatternSignature>, limit: int)
    ensures var t := TopPatterns(ps, limit);
            var s := SortBy(ps, MoreFrequent);
            && multiset(s) == multiset(ps)
            && t == s[..|t|]
            && |t| == (if limit <= 0 then 0 else if limit < |ps| then limit else |ps|)
            && (forall i, j :: 0 <= i < j < |t| ==> t[i].frequency >= t[j].frequency)
            && (forall i, j :: 0 <= i < |t| <= j < |s| ==> t[i].frequency >= s[j].frequency)
            && (forall v :: EqualKeys(s, v, MoreFrequent) == EqualKeys(ps, v, MoreFrequent))
  {
    var s := SortBy(ps, MoreFrequent);
    SortBySorted(ps, MoreFrequent);
    forall v ensures EqualKeys(s, v, MoreFrequent) == EqualKeys(ps, v, MoreFrequent) {
      SortByStable(ps, v, MoreFrequent);
    }
  }

  lemma {:induction false} ConcatMembers(xss: seq<seq<string>>, x: string)
    ensures x in Concat(xss) <==> exists i :: 0 <= i < |xss| && x in xss[i]
  {
    if xss != [] {
      var pre := xss[..|xss| - 1];
      ConcatMembers(pre, x);
      if x in Concat(pre) {
        var i :| 0 <= i < |pre| && x in pre[i];
        assert xss[i] == pre[i];
      }
      if exists i :: 0 <= i < |xss| && x in xss[i] {
        var i :| 0 <= i < |xss| && x in xss[i];
        if i < |pre| {
          assert pre[i] == xss[i];
        }
      }
    }
  }

  /** The names listed are exactly those some pattern has, each once, in
      strictly increasing ordinal order. */
  lemma SortedNamesShape(ps: seq<PatternSignature>, sel: ReportWriter.Selector)
    ensures var r := SortedNames(ps, sel);
            && (forall x :: x in r <==> exists j :: 0 <= j < |ps| && x in sel(ps[j]))
            && Sorted(r, StrLe)
            && NoDuplicates(r)
  {
    var d := Distinct(Concat(Map(sel, ps)));
    var r := SortBy(d, StrLe);
    StrLeIsTotalPreorder();
    SortBySorted(d, StrLe);
    NoDuplicatesPermutation(d, r);
    forall x ensures x in r <==> exists j :: 0 <= j < |ps| && x in sel(ps[j]) {
      assert x in r <==> x in multiset(r);
      assert x in d <==> x in multiset(d);
      ConcatMembers(Map(sel, ps), x);
      if exists i :: 0 <= i < |Map(sel, ps)| && x in Map(sel, ps)[i] {
        var i :| 0 <= i < |Map(sel, ps)| && x in Map(sel, ps)[i];
        assert x in sel(ps[i]);
      }
      if exists j :: 0 <= j < |ps| && x in sel(ps[j]) {
        var j :| 0 <= j < |ps| && x in sel(ps[j]);
        assert x in Map(sel, ps)[j];
      }
    }
  }

  /** Examples come from the patterns with a non-blank representative
      example: the most frequent of them, in descending order of frequency,
      equal frequencies in inventory order, eight of them when there are that
      many, each shown by its representative example. */
  lemma ExamplesShape(ps: seq<PatternSignature>)
    ensures var f := Filter(HasExample, ps);
            var t := ExamplePatterns(ps);
            var s := SortBy(f, MoreFrequent);
            && multiset(s) == multiset(f)
            && t == s[..|t|]
            && |t| == (if MaxExamples < |f| then MaxExamples else |f|)
            && (forall i :: 0 <= i < |t| ==> t[i] in ps && HasExample(t[i]))
            && (forall i, j :: 0 <= i < j < |t| ==> t[i].frequency >= t[j].frequency)
            && (forall i, j :: 0 <= i < |t| <= j < |s| ==> t[i].frequency >= s[j].frequency)
            && (forall v :: EqualKeys(s, v, MoreFrequent) == EqualKeys(f, v, MoreFrequent))
            && (forall i :: 0 <= i < |t| ==> Map(ExampleOf, t)[i] == t[i].representativeExample.value)
  {
    var f := Filter(HasExample, ps);
    var s := SortBy(f, MoreFrequent);
    var t := ExamplePatterns(ps);
    TopPatternsOrder(f, MaxExamples);
    assert t == TopPatterns(f, MaxExamples);
    forall i | 0 <= i < |t| ensures t[i] in ps && HasExample(t[i]) {
      assert t[i] == s[i];
      assert s[i] in multiset(f);
      FilterMembers(HasExample, ps);
    }
  }

  /** An entry names its command, shows one syntax pattern per selected top
      pattern and one example per selected example pattern, in that order,
      lists the flags before the option keys, and records the given hash as
      both its patterns hash and its input hash. */
  lemma EntryShape(cp: CommandPatterns, h: PatternsDigest, top: Option<int>, mode: string, now: Timestamp)
    ensures var e := BuildPlaceholderEntry(cp, h, top, mode, now);
            var flags := SortedNames(cp.patterns, ReportWriter.FlagsOf);
            && e.version == "0.1" && e.command == cp.command
            && e.patternsHash == h && e.inputHash == h
            && e.flagsAndOptions[..|flags|] == flags
            && e.flagsAndOptions[|flags|..] == SortedNames(cp.patterns, ReportWriter.OptionKeysOf)
            && e.syntaxPatterns == Map(BuildSyntaxPattern, TopPatterns(cp.patterns, if top.Some? then top.value else DiffService.IntMax))
            && e.examples == Map(ExampleOf, ExamplePatterns(cp.patterns))
            && (top.Some? ==> |e.syntaxPatterns| <= if top.value < 0 then 0 else top.value)
            && |e.examples| <= MaxExamples
  {
  }

  // ---------------------------------------------------------------------------
  // Writing the entries of a plan

  datatype Written = Written(path: string, entry: Entry)

  /** How a command becomes a file name.  The writing of a plan is stated
      for any naming; `WritePlaceholderAsync` uses `SafeNaming`. */
  type Naming = string -> string

  /** `NameUtil.ToSafeFileName` with the given invalid characters. */
  function SafeNaming(invalid: set<char>): Naming {
    (command: string) => NameUtil.SafeFileName(command, invalid)
  }

  /** The file name an entry is written under. */
  function EntryFileName(command: string, naming: Naming): string {
    naming(command) + ".json"
  }

  /** The entry written for a plan item whose command the snapshot holds. */
  function WriteItem(cp: CommandPatterns, item: RegenItem, top: Option<int>, mode: string,
                     entriesDir: string, naming: Naming, now: Timestamp): Written
  {
    Written(StateUpdater.Combine(entriesDir, EntryFileName(item.command, naming)),
            BuildPlaceholderEntry(cp, item.patternsHash, top, mode, now))
  }

  /** What the loop body does with one plan item: nothing when the snapshot
      has no such command. */
  function WriteFor(patterns: PatternsSnapshot, item: RegenItem, top: Option<int>, mode: string,
                    entriesDir: string, naming: Naming, now: Timestamp): (r: Option<Written>)
    ensures r.Some? <==> ContainsKey(patterns.commands, CommandKeys, item.command)
  {
    match Get(patterns.commands, CommandKeys, item.command)
    case None => None
    case Some(cp) => Some(WriteItem(cp, item, top, mode, entriesDir, naming, now))
  }

  /** What the loop body does with each plan item. */
  function Outcome(patterns: PatternsSnapshot, top: Option<int>, mode: string, entriesDir: string,
                   naming: Naming, now: Timestamp): RegenItem -> Option<Written>
  {
    (item: RegenItem) => WriteFor(patterns, item, top, mode, entriesDir, naming, now)
  }

  /** The results `f` gives, in order, leaving out the items it gives
      nothing for. */
  function Collect<A, B>(f: A -> Option<B>, xs: seq<A>): seq<B> {
    if xs == [] then []
    else
      var w := Collect(f, xs[..|xs| - 1]);
      match f(xs[|xs| - 1])
      case None => w
      case Some(y) => w + [y]
  }

  lemma CollectStep<A, B>(f: A -> Option<B>, xs: seq<A>, i: nat)
    requires i < |xs|
    ensures Collect(f, xs[..i + 1]) == Collect(f, xs[..i]) + match f(xs[i]) case None => [] case Some(y) => [y]
  {
    assert xs[..i + 1][..i] == xs[..i];
  }

  function Wrap<B>(y: B): Option<B> {
    Some(y)
  }

  /** Collecting keeps exactly the items for which `f` gives something. */
  lemma {:induction false} CollectIsFilterMap<A, B>(f: A -> Option<B>, p: A -> bool, xs: seq<A>)
    requires forall x :: p(x) == f(x).Some?
    ensures Map(Wrap, Collect(f, xs)) == Map(f, Filter(p, xs))
  {
    if xs != [] {
      var n := |xs| - 1;
      var pre, last := xs[..n], xs[n];
      assert xs == pre + [last];
      CollectIsFilterMap(f, p, pre);
      MapFilterSnoc(f, p, pre, last);
      var w := Collect(f, pre);
      match f(last)
      case None =>
        assert Map(f, Filter(p, pre)) + [] == Map(f, Filter(p, pre));
      case Some(y) =>
        MapAppend(Wrap, w, [y]);
        assert Map(Wrap, [y]) == [Some(y)];
    }
  }

  /** The entries written for `items`, in order. */
  function WrittenAll(patterns: PatternsSnapshot, items: seq<RegenItem>, top: Option<int>, mode: string,
                      entriesDir: string, naming: Naming, now: Timestamp): seq<Written>
  {
    Collect(Outcome(patterns, top, mode, entriesDir, naming, now), items)
  }

  /** The body of the loop of `WritePlaceholderAsync` for a command the
      snapshot holds: the entry, its file name and its path. */
  method WriteOne(cp: CommandPatterns, item: RegenItem, topPatternsPerCommand: Option<int>, generatorMode: string,
                  entriesDir: string, invalid: set<char>, now: Timestamp) returns (w: Written)
    ensures w == WriteItem(cp, item, topPatternsPerCommand, generatorMode, entriesDir, SafeNaming(invalid), now)
  {
    var entry := BuildPlaceholderEntry(cp, item.patternsHash, topPatternsPerCommand, generatorMode, now);
    var safe := NameUtil.ToSafeFileName(item.command, invalid);
    var path := StateUpdater.Combine(entriesDir, safe + ".json");
    assert safe == SafeNaming(invalid)(item.command);
    w := Written(path, entry);
  }

  /** `EntryWriter.WritePlaceholderAsync`: the entries it writes, in order,
      with the file each goes to. */
  method WritePlaceholders(patterns: PatternsSnapshot, plan: RegenPlan, topPatternsPerCommand: Option<int>,
                           generatorMode: string, entriesDir: string, invalid: set<char>, now: Timestamp)
    returns (written: seq<Written>)
    ensures written == WrittenAll(patterns, plan.commands, topPatternsPerCommand, generatorMode, entriesDir, SafeNaming(invalid), now)
  {
    var items := plan.commands;
    ghost var f := Outcome(patterns, topPatternsPerCommand, generatorMode, entriesDir, SafeNaming(invalid), now);
    written := [];
    for i := 0 to |items|
      invariant written == Collect(f, items[..i])
    {
      var item := items[i];
      CollectStep(f, items, i);
      var found := Get(patterns.commands, CommandKeys, item.command);
      if found.None? {
        assert f(item) == None;
        continue;
      }
      var w := WriteOne(found.value, item, topPatternsPerCommand, generatorMode, entriesDir, invalid, now);
      assert f(item) == Some(w);
      written := written + [w];
    }
    assert items[..|items|] == items;
  }

  /** The entries written are those of the plan items whose command the
      snapshot holds, in plan order; every other item is skipped. */
  lemma WrittenArePresent(patterns: PatternsSnapshot, items: seq<RegenItem>, top: Option<int>, mode: string,
                          entriesDir: string, naming: Naming, now: Timestamp)
    ensures Map(Wrap, WrittenAll(patterns, items, top, mode, entriesDir, naming, now))
         == Map(Outcome(patterns, top, mode, entriesDir, naming, now),
                Filter((item: RegenItem) => ContainsKey(patterns.commands, CommandKeys, item.command), items))
  {
    var f := Outcome(patterns, top, mode, entriesDir, naming, now);
    var p := (item: RegenItem) => ContainsKey(patterns.commands, CommandKeys, item.command);
    forall x ensures p(x) == f(x).Some? {
    }
    CollectIsFilterMap(f, p, items);
  }

  /** When the command is already a safe file name, the entry is written
      where the state update records it. */
  lemma PathMatchesStateWhenSafe(command: string, entriesDir: string, invalid: set<char>)
    requires NameUtil.SafeFileName(command, invalid) == command
    ensures StateUpdater.Combine(entriesDir, EntryFileName(command, SafeNaming(invalid))) == StateUpdater.EntryPath(entriesDir, command)
  {
  }

  lemma NoColonDiffers(safe: string, command: string)
    requires forall i :: 0 <= i < |safe| ==> safe[i] != ':'
    requires ':' in command
    ensures safe + ".json" != command + ".json"
  {
    var k :| 0 <= k < |command| && command[k] == ':';
    if |safe| == |command| {
      assert (safe + ".json")[k] != (command + ".json")[k];
    }
  }

  /** A `:` in the command is replaced in the file name the entry is written
      under but kept in the path the state update records, so the two name
      different files. */
  lemma ColonNamesDifferentFile(command: string, invalid: set<char>)
    requires invalid !! {'_', 'c', 'o', 'm', 'a', 'n', 'd'} && ':' in command
    ensures EntryFileName(command, SafeNaming(invalid)) != command + ".json"
  {
    var safe := NameUtil.SafeFileName(command, invalid);
    forall i | 0 <= i < |safe| ensures safe[i] != ':' {
      NameUtil.SafeFileNameIsSafe(command, invalid, i);
    }
    NoColonDiffers(safe, command);
  }
}
