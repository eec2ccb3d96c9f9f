/** The figures of the plain-text usage report: the totals, the flag and
    option occurrence counts, and the three top-N listings.  The text layout
    of the report is not modelled. */
module ReportWriter {
  import opened Text
  import opened Ordering
  import opened Dict
  import opened Models
  import Aggregator

  const DefaultLimit := 20

  /** A listing limit as given, or 20 when none is given. */
  function LimitOr(limit: Option<int>): int {
    match limit
    case Some(n) => n
    case None => DefaultLimit
  }

  /** The sum of every command's pattern count. */
  function SumPatterns(m: Entries<CommandPatterns>): nat {
    if m == [] then 0 else SumPatterns(m[..|m| - 1]) + |m[|m| - 1].1.patterns|
  }

  // ---------------------------------------------------------------------------
  // Top commands

  /** More uses first, then the command name in ordinal order. */
  predicate CommandRank(a: CommandPatterns, b: CommandPatterns) {
    a.totalUses > b.totalUses || (a.totalUses == b.totalUses && StrLe(a.command, b.command))
  }

  lemma CommandRankIsTotalPreorder()
    ensures TotalPreorder(CommandRank)
  {
    forall a, b ensures CommandRank(a, b) || CommandRank(b, a) {
      StrLeTotal(a.command, b.command);
    }
    forall a, b, c | CommandRank(a, b) && CommandRank(b, c) ensures CommandRank(a, c) {
      if a.totalUses == b.totalUses == c.totalUses {
        StrLeTransitive(a.command, b.command, c.command);
      }
    }
  }

  function TopCommands(m: Entries<CommandPatterns>, limit: int): seq<CommandPatterns> {
    Take(SortBy(Values(m), CommandRank), limit)
  }

  /** The top commands are a prefix of a permutation of all commands sorted
      by use count, most used first, ties in ordinal order of the name; every
      listed command ranks at or above every command left out, and exactly
      `limit` are listed when there are enough of them. */
  lemma TopCommandsOrder(m: Entries<CommandPatterns>, limit: int)
    ensures var t := TopCommands(m, limit);
            var s := SortBy(Values(m), CommandRank);
            && multiset(s) == multiset(Values(m))
            && t == s[..|t|]
            && |t| == (if limit <= 0 then 0 else if limit < |m| then limit else |m|)
            && (forall i, j :: 0 <= i < j < |t| ==> CommandRank(t[i], t[j]))
            && (forall i, j :: 0 <= i < |t| <= j < |s| ==> CommandRank(t[i], s[j]))
  {
    CommandRankIsTotalPreorder();
    SortBySorted(Values(m), CommandRank);
  }

  // ---------------------------------------------------------------------------
  // Counting flags and option keys

  /** An ordinal-keyed dictionary of occurrence counts. */
  type Counts = Entries<nat>

  /** What a pattern contributes keys from: its flags, or its option keys. */
  type Selector = PatternSignature -> seq<string>

  function FlagsOf(p: PatternSignature): seq<string> {
    p.flags
  }

  function OptionKeysOf(p: PatternSignature): seq<string> {
    Keys(p.options)
  }

  /** The count stored for `k`, with 0 for a key that is not there. */
  function CountOf(c: Counts, k: string): nat {
    match Get(c, Ordinal, k)
    case Some(n) => n
    case None => 0
  }

  /** The count for `k` after one more occurrence in a pattern of frequency `f`. */
  function Bumped(c: Counts, k: string, f: nat): nat {
    match Get(c, Ordinal, k)
    case Some(existing) => existing + f
    case None => f
  }

  function AddKeys(c: Counts, keys: seq<string>, f: nat): Counts {
    if keys == [] then c
    else
      var d := AddKeys(c, keys[..|keys| - 1], f);
      var k := keys[|keys| - 1];
      Put(d, Ordinal, k, Bumped(d, k, f))
  }

  function TallyPatterns(c: Counts, ps: seq<PatternSignature>, sel: Selector): Counts {
    if ps == [] then c
    else
      var p := ps[|ps| - 1];
      AddKeys(TallyPatterns(c, ps[..|ps| - 1], sel), sel(p), p.frequency)
  }

  /** The counts the nested loops of `BuildReport` accumulate. */
  function Tally(m: Entries<CommandPatterns>, sel: Selector): Counts {
    if m == [] then [] else TallyPatterns(Tally(m[..|m| - 1], sel), m[|m| - 1].1.patterns, sel)
  }

  lemma AddKeysSnoc(c: Counts, keys: seq<string>, k: string, f: nat)
    ensures AddKeys(c, keys + [k], f) == Put(AddKeys(c, keys, f), Ordinal, k, Bumped(AddKeys(c, keys, f), k, f))
  {
    assert (keys + [k])[..|keys|] == keys;
  }

  /** The innermost loop: each key of one pattern adds its frequency. */
  method AddOccurrences(counts: Counts, keys: seq<string>, frequency: nat) returns (r: Counts)
    ensures r == AddKeys(counts, keys, frequency)
  {
    r := counts;
    for i := 0 to |keys|
      invariant r == AddKeys(counts, keys[..i], frequency)
    {
      var key := keys[i];
      assert keys[..i + 1] == keys[..i] + [key];
      AddKeysSnoc(counts, keys[..i], key, frequency);
      var existing := Get(r, Ordinal, key);
      r := Put(r, Ordinal, key, if existing.Some? then existing.value + frequency else frequency);
    }
    assert keys[..|keys|] == keys;
  }

  /** The loop over the patterns of one command. */
  method CountPatterns(flagCounts: Counts, optionCounts: Counts, ps: seq<PatternSignature>)
    returns (fc: Counts, oc: Counts)
    ensures fc == TallyPatterns(flagCounts, ps, FlagsOf)
    ensures oc == TallyPatterns(optionCounts, ps, OptionKeysOf)
  {
    fc, oc := flagCounts, optionCounts;
    for j := 0 to |ps|
      invariant fc == TallyPatterns(flagCounts, ps[..j], FlagsOf)
      invariant oc == TallyPatterns(optionCounts, ps[..j], OptionKeysOf)
    {
      assert ps[..j + 1][..j] == ps[..j];
      var p := ps[j];
      fc := AddOccurrences(fc, p.flags, p.frequency);
      oc := AddOccurrences(oc, Keys(p.options), p.frequency);
    }
    assert ps[..|ps|] == ps;
  }

  lemma TallyStep(m: Entries<CommandPatterns>, sel: Selector, i: nat)
    requires i < |m|
    ensures Tally(m[..i + 1], sel) == TallyPatterns(Tally(m[..i], sel), m[i].1.patterns, sel)
  {
    assert m[..i + 1][..i] == m[..i];
  }

  /** The loop over the commands of the inventory. */
  method CountAll(m: Entries<CommandPatterns>) returns (flagCounts: Counts, optionCounts: Counts)
    ensures flagCounts == Tally(m, FlagsOf)
    ensures optionCounts == Tally(m, OptionKeysOf)
  {
    flagCounts, optionCounts := [], [];
    for i := 0 to |m|
      invariant flagCounts == Tally(m[..i], FlagsOf)
      invariant optionCounts == Tally(m[..i], OptionKeysOf)
    {
      TallyStep(m, FlagsOf, i);
      TallyStep(m, OptionKeysOf, i);
      flagCounts, optionCounts := CountPatterns(flagCounts, optionCounts, m[i].1.patterns);
    }
    assert m[..|m|] == m;
  }

  // ---------------------------------------------------------------------------
  // What the counts mean

  /** The total frequency of the patterns, each once per occurrence of `k`
      among its keys. */
  function Weight(ps: seq<PatternSignature>, sel: Selector, k: string): nat {
    if ps == [] then 0
    else Weight(ps[..|ps| - 1], sel, k) + Count(sel(ps[|ps| - 1]), k) * ps[|ps| - 1].frequency
  }

  /** The weight of `k` summed over every command. */
  function Occurrences(m: Entries<CommandPatterns>, sel: Selector, k: string): nat {
    if m == [] then 0 else Occurrences(m[..|m| - 1], sel, k) + Weight(m[|m| - 1].1.patterns, sel, k)
  }

  /** Whether some pattern lists `k`. */
  predicate MentionedIn(ps: seq<PatternSignature>, sel: Selector, k: string) {
    exists j :: 0 <= j < |ps| && k in sel(ps[j])
  }

  /** Whether some pattern of some command lists `k`. */
  predicate Mentioned(m: Entries<CommandPatterns>, sel: Selector, k: string) {
    exists i :: 0 <= i < |m| && MentionedIn(m[i].1.patterns, sel, k)
  }

  lemma MentionedInSnoc(ps: seq<PatternSignature>, sel: Selector, k: string)
    requires ps != []
    ensures MentionedIn(ps, sel, k) <==> MentionedIn(ps[..|ps| - 1], sel, k) || k in sel(ps[|ps| - 1])
  {
    var pre := ps[..|ps| - 1];
    if MentionedIn(pre, sel, k) {
      var j :| 0 <= j < |pre| && k in sel(pre[j]);
      assert ps[j] == pre[j];
    }
    if MentionedIn(ps, sel, k) && k !in sel(ps[|ps| - 1]) {
      var j :| 0 <= j < |ps| && k in sel(ps[j]);
      assert pre[j] == ps[j];
    }
  }

  lemma MentionedSnoc(m: Entries<CommandPatterns>, sel: Selector, k: string)
    requires m != []
    ensures Mentioned(m, sel, k) <==> Mentioned(m[..|m| - 1], sel, k) || MentionedIn(m[|m| - 1].1.patterns, sel, k)
  {
    var pre := m[..|m| - 1];
    if Mentioned(pre, sel, k) {
      var i :| 0 <= i < |pre| && MentionedIn(pre[i].1.patterns, sel, k);
      assert m[i] == pre[i];
    }
    if Mentioned(m, sel, k) && !MentionedIn(m[|m| - 1].1.patterns, sel, k) {
      var i :| 0 <= i < |m| && MentionedIn(m[i].1.patterns, sel, k);
      assert pre[i] == m[i];
    }
  }

  lemma PutCount(d: Counts, last: string, f: nat, k: string)
    ensures CountOf(Put(d, Ordinal, last, Bumped(d, last, f)), k) == CountOf(d, k) + (if k == last then f else 0)
    ensures Get(Put(d, Ordinal, last, Bumped(d, last, f)), Ordinal, k).Some? <==> Get(d, Ordinal, k).Some? || k == last
  {
    GetPut(d, Ordinal, last, Bumped(d, last, f), k);
  }

  lemma MulStep(n: nat, f: nat, hit: bool)
    ensures (n + (if hit then 1 else 0)) * f == n * f + (if hit then f else 0)
  {
  }

  lemma {:induction false} AddKeysCount(c: Counts, keys: seq<string>, f: nat, k: string)
    ensures CountOf(AddKeys(c, keys, f), k) == CountOf(c, k) + Count(keys, k) * f
  {
    if keys != [] {
      var pre := keys[..|keys| - 1];
      var last := keys[|keys| - 1];
      var d := AddKeys(c, pre, f);
      assert AddKeys(c, keys, f) == Put(d, Ordinal, last, Bumped(d, last, f));
      AddKeysCount(c, pre, f, k);
      PutCount(d, last, f, k);
      var n, hit := Count(pre, k), k == last;
      assert Count(keys, k) == n + (if hit then 1 else 0);
      MulStep(n, f, hit);
    }
  }

  lemma {:induction false} AddKeysHas(c: Counts, keys: seq<string>, f: nat, k: string)
    ensures Get(AddKeys(c, keys, f), Ordinal, k).Some? <==> Get(c, Ordinal, k).Some? || k in keys
  {
    if keys != [] {
      var pre := keys[..|keys| - 1];
      var last := keys[|keys| - 1];
      var d := AddKeys(c, pre, f);
      assert AddKeys(c, keys, f) == Put(d, Ordinal, last, Bumped(d, last, f));
      AddKeysHas(c, pre, f, k);
      PutCount(d, last, f, k);
      assert keys == pre + [last];
    }
  }

  lemma {:induction false} TallyPatternsCount(c: Counts, ps: seq<PatternSignature>, sel: Selector, k: string)
    ensures CountOf(TallyPatterns(c, ps, sel), k) == CountOf(c, k) + Weight(ps, sel, k)
    ensures Get(TallyPatterns(c, ps, sel), Ordinal, k).Some? <==> Get(c, Ordinal, k).Some? || MentionedIn(ps, sel, k)
  {
    if ps != [] {
      var pre := ps[..|ps| - 1];
      var p := ps[|ps| - 1];
      TallyPatternsCount(c, pre, sel, k);
      AddKeysCount(TallyPatterns(c, pre, sel), sel(p), p.frequency, k);
      AddKeysHas(TallyPatterns(c, pre, sel), sel(p), p.frequency, k);
      MentionedInSnoc(ps, sel, k);
    }
  }

  lemma {:induction false} TallyCount(m: Entries<CommandPatterns>, sel: Selector, k: string)
    ensures CountOf(Tally(m, sel), k) == Occurrences(m, sel, k)
    ensures Get(Tally(m, sel), Ordinal, k).Some? <==> Mentioned(m, sel, k)
  {
    if m != [] {
      var pre := m[..|m| - 1];
      TallyCount(pre, sel, k);
      TallyPatternsCount(Tally(pre, sel), m[|m| - 1].1.patterns, sel, k);
      MentionedSnoc(m, sel, k);
    }
  }

  /** A key has a count exactly when some pattern lists it, and the count is
      the sum of the frequencies of the patterns, once per listing. */
  lemma CountsMeaning(m: Entries<CommandPatterns>, sel: Selector, k: string)
    ensures Get(Tally(m, sel), Ordinal, k) == if Mentioned(m, sel, k) then Some(Occurrences(m, sel, k)) else None
  {
    TallyCount(m, sel, k);
  }

  lemma {:induction false} AddKeysDistinct(c: Counts, keys: seq<string>, f: nat)
    requires DistinctKeys(c, Ordinal)
    ensures DistinctKeys(AddKeys(c, keys, f), Ordinal)
  {
    if keys != [] {
      var d := AddKeys(c, keys[..|keys| - 1], f);
      AddKeysDistinct(c, keys[..|keys| - 1], f);
      PutDistinct(d, Ordinal, keys[|keys| - 1], Bumped(d, keys[|keys| - 1], f));
    }
  }

  lemma {:induction false} TallyPatternsDistinct(c: Counts, ps: seq<PatternSignature>, sel: Selector)
    requires DistinctKeys(c, Ordinal)
    ensures DistinctKeys(TallyPatterns(c, ps, sel), Ordinal)
  {
    if ps != [] {
      TallyPatternsDistinct(c, ps[..|ps| - 1], sel);
      AddKeysDistinct(TallyPatterns(c, ps[..|ps| - 1], sel), sel(ps[|ps| - 1]), ps[|ps| - 1].frequency);
    }
  }

  /** Each key is counted in one entry. */
  lemma {:induction false} TallyDistinct(m: Entries<CommandPatterns>, sel: Selector)
    ensures DistinctKeys(Tally(m, sel), Ordinal)
  {
    if m != [] {
      TallyDistinct(m[..|m| - 1], sel);
      TallyPatternsDistinct(Tally(m[..|m| - 1], sel), m[|m| - 1].1.patterns, sel);
    }
  }

  // ---------------------------------------------------------------------------
  // Top flags and options

  /** Higher count first, then the key in ordinal order. */
  predicate CountRank(a: (string, nat), b: (string, nat)) {
    a.1 > b.1 || (a.1 == b.1 && StrLe(a.0, b.0))
  }

  lemma CountRankIsTotalPreorder()
    ensures TotalPreorder(CountRank)
  {
    forall a, b ensures CountRank(a, b) || CountRank(b, a) {
      StrLeTotal(a.0, b.0);
    }
    forall a, b, c | CountRank(a, b) && CountRank(b, c) ensures CountRank(a, c) {
      if a.1 == b.1 == c.1 {
        StrLeTransitive(a.0, b.0, c.0);
      }
    }
  }

  function TopCounts(c: Counts, limit: int): Counts {
    Take(SortBy(c, CountRank), limit)
  }

  /** A listing of counts is a prefix of all counts sorted by count, highest
      first, ties in ordinal order of the key; every listed entry ranks at or
      above every entry left out. */
  lemma TopCountsOrder(c: Counts, limit: int)
    ensures var t := TopCounts(c, limit);
            var s := SortBy(c, CountRank);
            && multiset(s) == multiset(c)
            && t == s[..|t|]
            && |t| == (if limit <= 0 then 0 else if limit < |c| then limit else |c|)
            && (forall i, j :: 0 <= i < j < |t| ==> CountRank(t[i], t[j]))
            && (forall i, j :: 0 <= i < |t| <= j < |s| ==> CountRank(t[i], s[j]))
  {
    CountRankIsTotalPreorder();
    SortBySorted(c, CountRank);
  }

  lemma SameKeySameEntry(c: Counts, i: nat, j: nat)
    requires DistinctKeys(c, Ordinal) && i < |c| && j < |c| && c[i].0 == c[j].0
    ensures i == j
  {
  }

  /** With one entry per key the listing does not depend on the order in
      which the keys were first counted. */
  lemma TopCountsIgnoreInsertionOrder(c1: Counts, c2: Counts, limit: int)
    requires DistinctKeys(c1, Ordinal) && multiset(c1) == multiset(c2)
    ensures TopCounts(c1, limit) == TopCounts(c2, limit)
  {
    CountRankIsTotalPreorder();
    forall x, y | x in c1 && y in c1 && CountRank(x, y) && CountRank(y, x) ensures x == y {
      StrLeAntisymmetric(x.0, y.0);
      var i :| 0 <= i < |c1| && c1[i] == x;
      var j :| 0 <= j < |c1| && c1[j] == y;
      SameKeySameEntry(c1, i, j);
    }
    SortByPermutation(c1, c2, CountRank);
  }

  /** Every listed flag or option key is listed by some pattern and carries
      its occurrence count. */
  lemma ListedCounts(m: Entries<CommandPatterns>, sel: Selector, limit: int, i: nat)
    requires i < |TopCounts(Tally(m, sel), limit)|
    ensures var e := TopCounts(Tally(m, sel), limit)[i];
            Mentioned(m, sel, e.0) && e.1 == Occurrences(m, sel, e.0)
  {
    var c := Tally(m, sel);
    var s := SortBy(c, CountRank);
    var e := TopCounts(c, limit)[i];
    assert e == s[i];
    assert e in multiset(c) by { assert e in multiset(s); }
    var k :| 0 <= k < |c| && c[k] == e;
    TallyDistinct(m, sel);
    GetSome(c, Ordinal, k);
    CountsMeaning(m, sel, e.0);
  }

  lemma KeyOfListed(t: Counts, k: string, x: (string, nat))
    requires k !in Keys(t) && x in t
    ensures x.0 != k
  {
    var q :| 0 <= q < |t| && t[q] == x;
    assert Keys(t)[q] == x.0;
  }

  lemma PositionAfterPrefix(t: Counts, s: Counts, j: nat)
    requires |t| <= |s| && t == s[..|t|] && j < |s| && s[j] !in t
    ensures |t| <= j
  {
    assert forall q :: 0 <= q < |t| ==> t[q] == s[q];
  }

  /** A key that some pattern lists but that the listing leaves out has a
      count no higher than any listed one. */
  lemma LeftOutRankLower(m: Entries<CommandPatterns>, sel: Selector, limit: int, k: string, i: nat)
    requires Mentioned(m, sel, k) && k !in Keys(TopCounts(Tally(m, sel), limit))
    requires i < |TopCounts(Tally(m, sel), limit)|
    ensures CountRank(TopCounts(Tally(m, sel), limit)[i], (k, Occurrences(m, sel, k)))
  {
    var c := Tally(m, sel);
    var s := SortBy(c, CountRank);
    var t := TopCounts(c, limit);
    CountsMeaning(m, sel, k);
    var e := (k, Occurrences(m, sel, k));
    assert c[Find(c, Ordinal, k)] == e;
    assert e in multiset(s) by { assert e in multiset(c); }
    var j :| 0 <= j < |s| && s[j] == e;
    TopCountsOrder(c, limit);
    if e in t {
      KeyOfListed(t, k, e);
    }
    PositionAfterPrefix(t, s, j);
  }

  // ---------------------------------------------------------------------------
  // The report

  datatype Report = Report(
    commandLimit: int,
    flagLimit: int,
    optionLimit: int,
    commands: nat,
    totalUses: nat,
    uniquePatterns: nat,
    topCommands: seq<CommandPatterns>,
    topFlags: Counts,
    topOptions: Counts)

  function ReportOf(patterns: PatternsSnapshot, topCommands: Option<int>, topFlags: Option<int>, topOptions: Option<int>): Report {
    var m := patterns.commands;
    var lc, lf, lo := LimitOr(topCommands), LimitOr(topFlags), LimitOr(topOptions);
    Report(lc, lf, lo, |m|, Aggregator.SumUses(m), SumPatterns(m),
           TopCommands(m, lc), TopCounts(Tally(m, FlagsOf), lf), TopCounts(Tally(m, OptionKeysOf), lo))
  }

  /** `ReportWriter.BuildReport`, up to the text it is printed as. */
  method BuildReport(patterns: PatternsSnapshot, topCommands: Option<int>, topFlags: Option<int>, topOptions: Option<int>)
    returns (report: Report)
    ensures report == ReportOf(patterns, topCommands, topFlags, topOptions)
  {
    var topCmds := LimitOr(topCommands);
    var topFl := LimitOr(topFlags);
    var topOpts := LimitOr(topOptions);
    var m := patterns.commands;
    var totalUses := Aggregator.SumUses(m);
    var totalPatterns := SumPatterns(m);
    var orderedCommands := TopCommands(m, topCmds);
    var flagCounts, optionCounts := CountAll(m);
    report := Report(topCmds, topFl, topOpts, |m|, totalUses, totalPatterns,
                     orderedCommands, TopCounts(flagCounts, topFl), TopCounts(optionCounts, topOpts));
  }

  /** Without limits each listing holds at most 20 entries. */
  lemma DefaultLimits(patterns: PatternsSnapshot)
    ensures var r := ReportOf(patterns, None, None, None);
            && r.commandLimit == 20 && r.flagLimit == 20 && r.optionLimit == 20
            && |r.topCommands| <= 20 && |r.topFlags| <= 20 && |r.topOptions| <= 20
  {
  }

  /** For an inventory built from a run of events, the total uses is the
      number of events. */
  lemma TotalUsesOfBuiltInventory(events: seq<CommandEvent>, now: Timestamp, tc: Option<int>, tf: Option<int>, to: Option<int>)
    ensures ReportOf(PatternsSnapshot("0.1", now, Aggregator.Fold(events)), tc, tf, to).totalUses == |events|
  {
    Aggregator.TotalUsesCountEvents(events);
  }
}
