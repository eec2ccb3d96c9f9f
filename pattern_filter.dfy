/** Dropping the commands whose names match one of the configured filter
    patterns.  Compiling and matching a pattern belong to the regular
    expression engine, so they are parameters: `compiles(p)` says whether `p`
    compiles, `matches(p, name)` whether the compiled `p` matches `name`. */
module PatternFilter {
  import opened Text
  import opened Ordering
  import opened Dict
  import opened Models
  import opened Aggregator

  /** `PatternFilter.Result`. */
  datatype FilterResult = FilterResult(snapshot: PatternsSnapshot, commandsFiltered: nat, usesFiltered: nat)

  /** The patterns that compile, in configuration order; the others are
      skipped one at a time. */
  function Compiled(filters: seq<string>, compiles: string -> bool): seq<string> {
    Filter(compiles, filters)
  }

  /** `regexes.Any(r => r.IsMatch(name))`. */
  function AnyMatch(rs: seq<string>, name: string, matches: (string, string) -> bool): (b: bool)
    ensures b <==> exists i :: 0 <= i < |rs| && matches(rs[i], name)
  {
    if rs == [] then false
    else if matches(rs[0], name) then true
    else
      var b := AnyMatch(rs[1..], name, matches);
      assert forall i :: 1 <= i < |rs| ==> rs[i] == rs[1..][i - 1];
      b
  }

  /** The commands the loop keeps, assigned into a new case-insensitive dictionary. */
  function Kept(rs: seq<string>, m: Entries<CommandPatterns>, matches: (string, string) -> bool): Entries<CommandPatterns> {
    if m == [] then []
    else
      var k := Kept(rs, m[..|m| - 1], matches);
      var x := m[|m| - 1];
      if AnyMatch(rs, x.0, matches) then k else Put(k, CommandKeys, x.0, x.1)
  }

  /** The commands the loop counts as filtered, in order. */
  function Removed(rs: seq<string>, m: Entries<CommandPatterns>, matches: (string, string) -> bool): Entries<CommandPatterns> {
    if m == [] then []
    else
      var x := m[|m| - 1];
      Removed(rs, m[..|m| - 1], matches) + if AnyMatch(rs, x.0, matches) then [x] else []
  }

  /** `Apply`, as a value. */
  function ApplyFilters(snapshot: PatternsSnapshot, config: AppConfig, compiles: string -> bool,
                        matches: (string, string) -> bool): FilterResult {
    var rs := Compiled(config.commandFilters, compiles);
    if config.commandFilters == [] || rs == [] then FilterResult(snapshot, 0, 0)
    else
      var gone := Removed(rs, snapshot.commands, matches);
      FilterResult(PatternsSnapshot(snapshot.version, snapshot.generatedAt, Kept(rs, snapshot.commands, matches)),
                   |gone|, SumUses(gone))
  }

  lemma KeptSnoc(rs: seq<string>, m: Entries<CommandPatterns>, matches: (string, string) -> bool, i: nat)
    requires i < |m|
    ensures Kept(rs, m[..i + 1], matches)
         == if AnyMatch(rs, m[i].0, matches) then Kept(rs, m[..i], matches)
            else Put(Kept(rs, m[..i], matches), CommandKeys, m[i].0, m[i].1)
    ensures Removed(rs, m[..i + 1], matches)
         == if AnyMatch(rs, m[i].0, matches) then Removed(rs, m[..i], matches) + [m[i]] else Removed(rs, m[..i], matches)
  {
    assert m[..i + 1][..i] == m[..i];
    assert Removed(rs, m[..i], matches) + [] == Removed(rs, m[..i], matches);
  }

  lemma SumUsesSnoc(m: Entries<CommandPatterns>, x: (string, CommandPatterns))
    ensures SumUses(m + [x]) == SumUses(m) + x.1.totalUses
  {
    assert (m + [x])[..|m|] == m;
  }

  /** The loop of `Apply` over the inventory, with its two counters. */
  method FilterCommands(regexes: seq<string>, m: Entries<CommandPatterns>, matches: (string, string) -> bool)
    returns (kept: Entries<CommandPatterns>, commandsFiltered: nat, usesFiltered: nat)
    ensures kept == Kept(regexes, m, matches)
    ensures commandsFiltered == |Removed(regexes, m, matches)|
    ensures usesFiltered == SumUses(Removed(regexes, m, matches))
  {
    kept := [];
    commandsFiltered := 0;
    usesFiltered := 0;
    for i := 0 to |m|
      invariant kept == Kept(regexes, m[..i], matches)
      invariant commandsFiltered == |Removed(regexes, m[..i], matches)|
      invariant usesFiltered == SumUses(Removed(regexes, m[..i], matches))
    {
      KeptSnoc(regexes, m, matches, i);
      var name := m[i].0;
      if AnyMatch(regexes, name, matches) {
        SumUsesSnoc(Removed(regexes, m[..i], matches), m[i]);
        commandsFiltered := commandsFiltered + 1;
        usesFiltered := usesFiltered + m[i].1.totalUses;
      } else {
        kept := Put(kept, CommandKeys, name, m[i].1);
      }
    }
    assert m[..|m|] == m;
  }

  /** `Apply`. */
  method Apply(snapshot: PatternsSnapshot, config: AppConfig, compiles: string -> bool,
               matches: (string, string) -> bool) returns (result: FilterResult)
    ensures result == ApplyFilters(snapshot, config, compiles, matches)
  {
    if config.commandFilters == [] {
      return FilterResult(snapshot, 0, 0);
    }
    var regexes := Compiled(config.commandFilters, compiles);
    if regexes == [] {
      return FilterResult(snapshot, 0, 0);
    }
    var kept, commandsFiltered, usesFiltered := FilterCommands(regexes, snapshot.commands, matches);
    result := FilterResult(PatternsSnapshot(snapshot.version, snapshot.generatedAt, kept), commandsFiltered, usesFiltered);
  }

  /** A configured pattern is used exactly when it compiles; the valid ones
      keep their order. */
  lemma {:induction false} CompiledMembers(filters: seq<string>, compiles: string -> bool)
    ensures forall p :: p in Compiled(filters, compiles) <==> p in filters && compiles(p)
  {
    if filters != [] {
      CompiledMembers(filters[1..], compiles);
      assert filters == [filters[0]] + filters[1..];
    }
  }

  /** With no filters, or none that compiles, the inventory comes back as it
      is and nothing is counted. */
  lemma NothingToApply(snapshot: PatternsSnapshot, config: AppConfig, compiles: string -> bool,
                       matches: (string, string) -> bool)
    requires forall i :: 0 <= i < |config.commandFilters| ==> !compiles(config.commandFilters[i])
    ensures ApplyFilters(snapshot, config, compiles, matches) == FilterResult(snapshot, 0, 0)
  {
    CompiledNone(config.commandFilters, compiles);
  }

  lemma {:induction false} CompiledNone(filters: seq<string>, compiles: string -> bool)
    requires forall i :: 0 <= i < |filters| ==> !compiles(filters[i])
    ensures Compiled(filters, compiles) == []
  {
    if filters != [] {
      assert forall i :: 0 <= i < |filters[1..]| ==> filters[1..][i] == filters[i + 1];
      CompiledNone(filters[1..], compiles);
    }
  }

  /** The version and the generation time are kept. */
  lemma FilterKeepsStamp(snapshot: PatternsSnapshot, config: AppConfig, compiles: string -> bool,
                         matches: (string, string) -> bool)
    ensures ApplyFilters(snapshot, config, compiles, matches).snapshot.version == snapshot.version
    ensures ApplyFilters(snapshot, config, compiles, matches).snapshot.generatedAt == snapshot.generatedAt
  {
  }

  function Unmatched(rs: seq<string>, matches: (string, string) -> bool): ((string, CommandPatterns)) -> bool {
    (x: (string, CommandPatterns)) => !AnyMatch(rs, x.0, matches)
  }

  function Matched(rs: seq<string>, matches: (string, string) -> bool): ((string, CommandPatterns)) -> bool {
    (x: (string, CommandPatterns)) => AnyMatch(rs, x.0, matches)
  }

  /** A dictionary whose entries all come from `pre` has no key that no entry
      of `pre` has. */
  lemma {:induction false} NotContained(k: Entries<CommandPatterns>, pre: Entries<CommandPatterns>, key: string)
    requires forall e :: e in k ==> e in pre
    requires forall e :: e in pre ==> !SameKey(CommandKeys, e.0, key)
    ensures !ContainsKey(k, CommandKeys, key)
  {
    if k != [] {
      assert k[0] in k;
      assert forall e :: e in k[1..] ==> e in k;
      NotContained(k[1..], pre, key);
    }
  }

  /** In a dictionary without repeated keys, no entry before the last has the last one's key. */
  lemma NoKeyBefore(m: Entries<CommandPatterns>)
    requires m != [] && DistinctKeys(m, CommandKeys)
    ensures forall e :: e in m[..|m| - 1] ==> !SameKey(CommandKeys, e.0, m[|m| - 1].0)
  {
    forall e | e in m[..|m| - 1] ensures !SameKey(CommandKeys, e.0, m[|m| - 1].0) {
      var j :| 0 <= j < |m| - 1 && m[..|m| - 1][j] == e;
      assert m[j] == e;
    }
  }

  /** The kept commands are those no pattern matches, copied unchanged and in
      inventory order; the removed ones are the others. */
  lemma {:induction false} KeptIsUnmatched(rs: seq<string>, m: Entries<CommandPatterns>, matches: (string, string) -> bool)
    requires DistinctKeys(m, CommandKeys)
    ensures Kept(rs, m, matches) == Filter(Unmatched(rs, matches), m)
    ensures Removed(rs, m, matches) == Filter(Matched(rs, matches), m)
  {
    if m != [] {
      var pre, x := m[..|m| - 1], m[|m| - 1];
      assert m == pre + [x];
      assert DistinctKeys(pre, CommandKeys);
      KeptIsUnmatched(rs, pre, matches);
      FilterAppend(Unmatched(rs, matches), pre, [x]);
      FilterAppend(Matched(rs, matches), pre, [x]);
      var k := Kept(rs, pre, matches);
      NoKeyBefore(m);
      NotContained(k, pre, x.0);
      if AnyMatch(rs, x.0, matches) {
        assert Filter(Unmatched(rs, matches), [x]) == [] && Filter(Matched(rs, matches), [x]) == [x];
        assert Kept(rs, m, matches) == k;
        assert Removed(rs, m, matches) == Removed(rs, pre, matches) + [x];
      } else {
        assert Filter(Unmatched(rs, matches), [x]) == [x] && Filter(Matched(rs, matches), [x]) == [];
        assert Kept(rs, m, matches) == k + [x];
        assert Removed(rs, m, matches) == Removed(rs, pre, matches);
      }
    }
  }

  lemma {:induction false} KeptPlusRemoved(rs: seq<string>, m: Entries<CommandPatterns>, matches: (string, string) -> bool)
    requires DistinctKeys(m, CommandKeys)
    ensures |Kept(rs, m, matches)| + |Removed(rs, m, matches)| == |m|
    ensures SumUses(Kept(rs, m, matches)) + SumUses(Removed(rs, m, matches)) == SumUses(m)
  {
    if m != [] {
      var pre, x := m[..|m| - 1], m[|m| - 1];
      assert m == pre + [x];
      assert DistinctKeys(pre, CommandKeys);
      KeptPlusRemoved(rs, pre, matches);
      KeptIsUnmatched(rs, pre, matches);
      var k := Kept(rs, pre, matches);
      NoKeyBefore(m);
      NotContained(k, pre, x.0);
      SumUsesSnoc(pre, x);
      if AnyMatch(rs, x.0, matches) {
        assert Kept(rs, m, matches) == k;
        assert Removed(rs, m, matches) == Removed(rs, pre, matches) + [x];
        SumUsesSnoc(Removed(rs, pre, matches), x);
      } else {
        assert Kept(rs, m, matches) == k + [x];
        assert Removed(rs, m, matches) == Removed(rs, pre, matches);
        SumUsesSnoc(k, x);
      }
    }
  }

  /** What `Apply` promises once some pattern compiles: a command is kept
      exactly when no compiled pattern matches its name, kept commands are
      unchanged and in order, `CommandsFiltered` counts the others and
      `UsesFiltered` sums their uses, so that kept and filtered uses add up to
      all uses. */
  lemma FilterCounts(snapshot: PatternsSnapshot, config: AppConfig, compiles: string -> bool,
                     matches: (string, string) -> bool)
    requires DistinctKeys(snapshot.commands, CommandKeys)
    requires exists i :: 0 <= i < |config.commandFilters| && compiles(config.commandFilters[i])
    ensures var r := ApplyFilters(snapshot, config, compiles, matches);
            var rs := Compiled(config.commandFilters, compiles);
            && r.snapshot.commands == Filter(Unmatched(rs, matches), snapshot.commands)
            && r.commandsFiltered == |Filter(Matched(rs, matches), snapshot.commands)|
            && r.usesFiltered == SumUses(Filter(Matched(rs, matches), snapshot.commands))
            && r.commandsFiltered + |r.snapshot.commands| == |snapshot.commands|
            && SumUses(r.snapshot.commands) + r.usesFiltered == SumUses(snapshot.commands)
  {
    var rs := Compiled(config.commandFilters, compiles);
    CompiledMembers(config.commandFilters, compiles);
    var i :| 0 <= i < |config.commandFilters| && compiles(config.commandFilters[i]);
    assert config.commandFilters[i] in rs;
    KeptIsUnmatched(rs, snapshot.commands, matches);
    KeptPlusRemoved(rs, snapshot.commands, matches);
  }

  /** A command is dropped exactly when some compiled pattern matches its name. */
  lemma DroppedIffMatched(rs: seq<string>, m: Entries<CommandPatterns>, matches: (string, string) -> bool, x: (string, CommandPatterns))
    requires DistinctKeys(m, CommandKeys) && x in m
    ensures x in Kept(rs, m, matches) <==> forall i :: 0 <= i < |rs| ==> !matches(rs[i], x.0)
    ensures x in Removed(rs, m, matches) <==> exists i :: 0 <= i < |rs| && matches(rs[i], x.0)
  {
    KeptIsUnmatched(rs, m, matches);
    FilterMembers(Unmatched(rs, matches), m);
    FilterMembers(Matched(rs, matches), m);
  }
}
