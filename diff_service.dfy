/** The regeneration plan: which commands of the pattern inventory need their
    entry written again, judged by the patterns hash recorded in the state. */
module DiffService {
  import opened Text
  import opened Ordering
  import opened Dict
  import opened Models
  import opened Aggregator

  const PlanVersion := "0.1"

  /** `int.MaxValue`, the number of commands considered when no limit is given. */
  const IntMax := 0x7fff_ffff

  /** `DateTimeOffset.MinValue`, in ticks. */
  const MinTime: Timestamp := 0

  /** The state read from disk, or the empty state a missing file stands for. */
  function StateOrEmpty(state: Option<StateSnapshot>): StateSnapshot {
    match state
    case Some(s) => s
    case None => StateSnapshot("0.1", MinTime, [])
  }

  // ---------------------------------------------------------------------------
  // The patterns hash

  /** What of one pattern the hash covers, its options listed in ordinal key order. */
  function Project(p: PatternSignature): PatternProjection {
    PatternProjection(p.signature, p.subcommand, p.flags,
      SortBy(p.options, (a: (string, Shape), b: (string, Shape)) => OptionKeyLe(a, b)), p.argShapes)
  }

  /** `ComputePatternsHash`, as the canonical value its SHA-256 is taken of. */
  function PatternsHash(cp: CommandPatterns): PatternsDigest {
    PatternsDigest(cp.command, cp.totalUses, multiset(Map(Project, cp.patterns)))
  }

  /** Two hashes agree only when the commands, the use counts and the
      projected patterns do. */
  lemma HashDetermines(a: CommandPatterns, b: CommandPatterns)
    requires PatternsHash(a) == PatternsHash(b)
    ensures a.command == b.command && a.totalUses == b.totalUses
    ensures multiset(Map(Project, a.patterns)) == multiset(Map(Project, b.patterns))
  {
  }

  /** The hash does not depend on the order of the pattern list.  The source
      lists the patterns sorted by signature with a stable sort, so its hash is
      order-independent as long as no two patterns share a signature; every
      inventory `BuildSnapshot` makes has that property (`SnapshotCommand`),
      and the multiset digest of this model assumes it. */
  lemma HashIgnoresPatternOrder(a: CommandPatterns, b: CommandPatterns)
    requires a.command == b.command && a.totalUses == b.totalUses
    requires multiset(a.patterns) == multiset(b.patterns)
    ensures PatternsHash(a) == PatternsHash(b)
  {
    MapPermutation(Project, a.patterns, b.patterns);
  }

  /** Listing the options in ordinal key order leaves nothing of their
      insertion order: two option lists with the same entries and no repeated
      key are listed alike. */
  lemma OptionsListedAlike(o1: Entries<Shape>, o2: Entries<Shape>)
    requires multiset(o1) == multiset(o2) && DistinctKeys(o1, Ordinal)
    ensures SortBy(o1, (a: (string, Shape), b: (string, Shape)) => OptionKeyLe(a, b))
         == SortBy(o2, (a: (string, Shape), b: (string, Shape)) => OptionKeyLe(a, b))
  {
    var le := (a: (string, Shape), b: (string, Shape)) => OptionKeyLe(a, b);
    OptionKeyLeIsTotalPreorder<Shape>();
    forall x, y | x in o1 && y in o1 && le(x, y) && le(y, x) ensures x == y {
      StrLeAntisymmetric(x.0, y.0);
      var i :| 0 <= i < |o1| && o1[i] == x;
      var j :| 0 <= j < |o1| && o1[j] == y;
      assert SameKey(Ordinal, o1[i].0, o1[j].0);
    }
    SortByPermutation(o1, o2, le);
  }

  /** The hash ignores the statistics of a pattern (frequency, example, first
      and last seen) and the insertion order of its options. */
  lemma HashIgnoresStatsAndOptionOrder(a: CommandPatterns, b: CommandPatterns)
    requires a.command == b.command && a.totalUses == b.totalUses && |a.patterns| == |b.patterns|
    requires forall i :: 0 <= i < |a.patterns| ==>
      var p, q := a.patterns[i], b.patterns[i];
      && p.signature == q.signature && p.subcommand == q.subcommand
      && p.flags == q.flags && p.argShapes == q.argShapes
      && multiset(p.options) == multiset(q.options) && DistinctKeys(p.options, Ordinal)
    ensures PatternsHash(a) == PatternsHash(b)
  {
    forall i | 0 <= i < |a.patterns| ensures Project(a.patterns[i]) == Project(b.patterns[i]) {
      OptionsListedAlike(a.patterns[i].options, b.patterns[i].options);
    }
    assert Map(Project, a.patterns) == Map(Project, b.patterns);
  }

  /** A command whose use count changed has a different hash. */
  lemma HashSeesUses(a: CommandPatterns, b: CommandPatterns)
    requires a.totalUses != b.totalUses
    ensures PatternsHash(a) != PatternsHash(b)
  {
  }

  // ---------------------------------------------------------------------------
  // The commands considered

  /** `OrderByDescending(TotalUses)`: `a` may go before `b`. */
  predicate MoreUses(a: (string, CommandPatterns), b: (string, CommandPatterns)) {
    a.1.totalUses >= b.1.totalUses
  }

  lemma MoreUsesIsTotalPreorder()
    ensures TotalPreorder(MoreUses)
  {
  }

  /** The commands the diff looks at: ordered by use count, most used first
      (ties in inventory order), and at most `maxCommands` of them. */
  function Considered(cmds: Entries<CommandPatterns>, maxCommands: Option<int>): Entries<CommandPatterns> {
    Take(SortBy(cmds, MoreUses), match maxCommands case Some(n) => n case None => IntMax)
  }

  /** The considered commands are the most used ones, in descending order of
      use, taken from a permutation of the inventory that keeps commands of
      equal use in inventory order; exactly as many as the limit allows are
      taken (all of them when there is no limit). */
  lemma ConsideredOrder(cmds: Entries<CommandPatterns>, maxCommands: Option<int>)
    ensures var c := Considered(cmds, maxCommands);
            var s := SortBy(cmds, MoreUses);
            && multiset(s) == multiset(cmds)
            && c == s[..|c|]
            && (forall i, j :: 0 <= i < j < |c| ==> c[i].1.totalUses >= c[j].1.totalUses)
            && (forall i, j :: 0 <= i < |c| <= j < |s| ==> c[i].1.totalUses >= s[j].1.totalUses)
            && (forall v :: EqualKeys(s, v, MoreUses) == EqualKeys(cmds, v, MoreUses))
            && (maxCommands.Some? ==>
                  |c| == if maxCommands.value <= 0 then 0 else if maxCommands.value < |cmds| then maxCommands.value else |cmds|)
            && (maxCommands.None? && |cmds| <= IntMax ==> |c| == |cmds|)
  {
    var s := SortBy(cmds, MoreUses);
    assert |s| == |multiset(s)| == |multiset(cmds)| == |cmds|;
    SortBySorted(cmds, MoreUses);
    forall v ensures EqualKeys(s, v, MoreUses) == EqualKeys(cmds, v, MoreUses) {
      SortByStable(cmds, v, MoreUses);
    }
  }

  // ---------------------------------------------------------------------------
  // The plan

  /** The item a considered command calls for: `new_command` when the state
      has no entry for it, `patterns_changed` when the stored hash differs,
      nothing when it is equal. */
  function Decide(state: StateSnapshot, x: (string, CommandPatterns)): Option<RegenItem> {
    var h := PatternsHash(x.1);
    match Get(state.commands, CommandKeys, x.0)
    case None => Some(RegenItem(x.0, NewCommand, h))
    case Some(se) => if se.patternsHash != h then Some(RegenItem(x.0, PatternsChanged, h)) else None
  }

  /** The items the loop of `RunAsync` appends, in order. */
  function PlanItems(state: StateSnapshot, xs: Entries<CommandPatterns>): seq<RegenItem> {
    if xs == [] then []
    else
      PlanItems(state, xs[..|xs| - 1])
      + match Decide(state, xs[|xs| - 1]) case Some(it) => [it] case None => []
  }

  /** The body of the loop of `RunAsync` for one considered command. */
  method Judge(st: StateSnapshot, x: (string, CommandPatterns)) returns (d: Option<RegenItem>)
    ensures d == Decide(st, x)
  {
    var hash := PatternsHash(x.1);
    var entry := Get(st.commands, CommandKeys, x.0);
    if entry.None? {
      d := Some(RegenItem(x.0, NewCommand, hash));
    } else if entry.value.patternsHash != hash {
      d := Some(RegenItem(x.0, PatternsChanged, hash));
    } else {
      d := None;
    }
  }

  /** The loop of `RunAsync` over the considered commands. */
  method PlanFor(st: StateSnapshot, ordered: Entries<CommandPatterns>) returns (items: seq<RegenItem>)
    ensures items == PlanItems(st, ordered)
  {
    items := [];
    for i := 0 to |ordered|
      invariant items == PlanItems(st, ordered[..i])
    {
      PlanItemsStep(st, ordered, i);
      var d := Judge(st, ordered[i]);
      if d.Some? {
        items := items + [d.value];
      }
    }
    assert ordered[..|ordered|] == ordered;
  }

  /** `RunAsync`: the plan against the state read from disk (`None` when the
      file is missing), `now` being the clock reading it is stamped with. */
  method Run(patterns: PatternsSnapshot, state: Option<StateSnapshot>, maxCommands: Option<int>, now: Timestamp)
    returns (plan: RegenPlan)
    ensures plan == RegenPlan(PlanVersion, now, PlanItems(StateOrEmpty(state), Considered(patterns.commands, maxCommands)))
  {
    var st := StateOrEmpty(state);
    var ordered := Considered(patterns.commands, maxCommands);
    var items := PlanFor(st, ordered);
    plan := RegenPlan(PlanVersion, now, items);
  }

  lemma PlanItemsStep(state: StateSnapshot, xs: Entries<CommandPatterns>, i: nat)
    requires i < |xs|
    ensures PlanItems(state, xs[..i + 1])
         == PlanItems(state, xs[..i]) + match Decide(state, xs[i]) case Some(it) => [it] case None => []
  {
    assert xs[..i + 1][..i] == xs[..i];
  }

  lemma PlanItemsSnoc(state: StateSnapshot, pre: Entries<CommandPatterns>, x: (string, CommandPatterns))
    ensures PlanItems(state, pre + [x])
         == PlanItems(state, pre) + match Decide(state, x) case Some(it) => [it] case None => []
  {
    assert (pre + [x])[..|pre|] == pre;
  }

  function ItemCommand(it: RegenItem): string {
    it.command
  }

  /** `xs` is `ys` with some elements left out. */
  ghost predicate Subsequence<T>(xs: seq<T>, ys: seq<T>)
    decreases |ys|
  {
    if ys == [] then xs == []
    else
      (xs != [] && xs[|xs| - 1] == ys[|ys| - 1] && Subsequence(xs[..|xs| - 1], ys[..|ys| - 1]))
      || Subsequence(xs, ys[..|ys| - 1])
  }

  lemma SubsequenceKeep<T>(xs: seq<T>, ys: seq<T>, y: T)
    requires Subsequence(xs, ys)
    ensures Subsequence(xs + [y], ys + [y])
  {
    assert (xs + [y])[..|xs|] == xs && (ys + [y])[..|ys|] == ys;
  }

  lemma SubsequenceSkip<T>(xs: seq<T>, ys: seq<T>, y: T)
    requires Subsequence(xs, ys)
    ensures Subsequence(xs, ys + [y])
  {
    assert (ys + [y])[..|ys|] == ys;
  }

  lemma KeysSnoc<V>(m: Entries<V>, e: (string, V))
    ensures Keys(m + [e]) == Keys(m) + [e.0]
  {
  }

  /** The plan lists commands in the order they are considered, each at most
      once, and is no longer than the list it is drawn from. */
  lemma {:induction false} PlanIsSubsequence(state: StateSnapshot, xs: Entries<CommandPatterns>)
    ensures Subsequence(Map(ItemCommand, PlanItems(state, xs)), Keys(xs))
    ensures |PlanItems(state, xs)| <= |xs|
  {
    if xs != [] {
      var pre, x := xs[..|xs| - 1], xs[|xs| - 1];
      assert xs == pre + [x];
      PlanItemsSnoc(state, pre, x);
      KeysSnoc(pre, x);
      PlanIsSubsequence(state, pre);
      var d := Decide(state, x);
      var mp := Map(ItemCommand, PlanItems(state, pre));
      if d.Some? {
        assert PlanItems(state, xs) == PlanItems(state, pre) + [d.value];
        MapAppend(ItemCommand, PlanItems(state, pre), [d.value]);
        assert Map(ItemCommand, [d.value]) == [x.0];
        assert Map(ItemCommand, PlanItems(state, xs)) == mp + [x.0];
        SubsequenceKeep(mp, Keys(pre), x.0);
      } else {
        assert PlanItems(state, xs) == PlanItems(state, pre);
        SubsequenceSkip(mp, Keys(pre), x.0);
      }
    }
  }

  /** An item is in the plan exactly when some considered command calls for it. */
  lemma {:induction false} PlanMembers(state: StateSnapshot, xs: Entries<CommandPatterns>)
    ensures forall it :: it in PlanItems(state, xs) <==> exists x :: x in xs && Decide(state, x) == Some(it)
  {
    if xs != [] {
      var pre, x := xs[..|xs| - 1], xs[|xs| - 1];
      PlanMembers(state, pre);
      assert xs == pre + [x];
      forall it ensures it in PlanItems(state, xs) <==> exists y :: y in xs && Decide(state, y) == Some(it) {
        if exists y :: y in xs && Decide(state, y) == Some(it) {
          var y :| y in xs && Decide(state, y) == Some(it);
          if y != x {
            assert y in pre;
          }
        }
      }
    }
  }

  /** Every item carries the current hash of its command, is `new_command`
      exactly when the state has no entry for the command, and is
      `patterns_changed` only when the stored hash differs. */
  lemma PlanItemFacts(state: StateSnapshot, xs: Entries<CommandPatterns>, it: RegenItem)
    requires it in PlanItems(state, xs)
    ensures exists x :: x in xs && x.0 == it.command && it.patternsHash == PatternsHash(x.1)
    ensures it.reason == NewCommand <==> !ContainsKey(state.commands, CommandKeys, it.command)
    ensures it.reason == PatternsChanged ==>
      Get(state.commands, CommandKeys, it.command).value.patternsHash != it.patternsHash
  {
    PlanMembers(state, xs);
    var x :| x in xs && Decide(state, x) == Some(it);
  }

  lemma DecideCommand(state: StateSnapshot, x: (string, CommandPatterns))
    ensures Decide(state, x).Some? ==> Decide(state, x).value.command == x.0
    ensures Decide(state, x).Some? ==> Decide(state, x).value.patternsHash == PatternsHash(x.1)
  {
  }

  /** A command whose stored hash is its current one is left out. */
  lemma DecideUpToDate(state: StateSnapshot, x: (string, CommandPatterns), se: StateEntry)
    requires Get(state.commands, CommandKeys, x.0) == Some(se) && se.patternsHash == PatternsHash(x.1)
    ensures Decide(state, x).None?
  {
  }

  /** What a considered command calls for is in the plan. */
  lemma {:induction false} ItemInPlan(state: StateSnapshot, xs: Entries<CommandPatterns>, j: nat)
    requires j < |xs| && Decide(state, xs[j]).Some?
    ensures exists i :: 0 <= i < |PlanItems(state, xs)| && PlanItems(state, xs)[i] == Decide(state, xs[j]).value
  {
    var pre, x := xs[..|xs| - 1], xs[|xs| - 1];
    assert xs == pre + [x];
    PlanItemsSnoc(state, pre, x);
    var d := Decide(state, x);
    if j == |xs| - 1 {
      assert PlanItems(state, xs) == PlanItems(state, pre) + [d.value];
      assert PlanItems(state, xs)[|PlanItems(state, pre)|] == d.value;
    } else {
      assert pre[j] == xs[j];
      ItemInPlan(state, pre, j);
      var i :| 0 <= i < |PlanItems(state, pre)| && PlanItems(state, pre)[i] == Decide(state, pre[j]).value;
      if d.Some? {
        assert PlanItems(state, xs) == PlanItems(state, pre) + [d.value];
      } else {
        assert PlanItems(state, xs) == PlanItems(state, pre);
      }
      assert PlanItems(state, xs)[i] == PlanItems(state, pre)[i];
    }
  }

  lemma ItemSource(state: StateSnapshot, xs: Entries<CommandPatterns>, it: RegenItem)
    requires it in PlanItems(state, xs)
    ensures exists k :: 0 <= k < |xs| && Decide(state, xs[k]) == Some(it)
  {
    PlanMembers(state, xs);
    var x :| x in xs && Decide(state, x) == Some(it);
    var k :| 0 <= k < |xs| && xs[k] == x;
  }

  lemma LeftOutWhenUnchanged(state: StateSnapshot, xs: Entries<CommandPatterns>, j: nat)
    requires j < |xs| && DistinctKeys(xs, CommandKeys) && Decide(state, xs[j]).None?
    ensures forall it :: it in PlanItems(state, xs) ==> !SameKey(CommandKeys, it.command, xs[j].0)
  {
    forall it | it in PlanItems(state, xs) ensures !SameKey(CommandKeys, it.command, xs[j].0) {
      ItemSource(state, xs, it);
      var k :| 0 <= k < |xs| && Decide(state, xs[k]) == Some(it);
      DecideCommand(state, xs[k]);
      assert k != j;
    }
  }

  /** A considered command is left out of the plan exactly when the state
      holds an entry for it whose hash equals the current one. */
  lemma LeftOutIffUnchanged(state: StateSnapshot, xs: Entries<CommandPatterns>, x: (string, CommandPatterns))
    requires x in xs && DistinctKeys(xs, CommandKeys)
    ensures (forall it :: it in PlanItems(state, xs) ==> !SameKey(CommandKeys, it.command, x.0))
        <==> (match Get(state.commands, CommandKeys, x.0)
              case Some(se) => se.patternsHash == PatternsHash(x.1)
              case None => false)
  {
    if Decide(state, x).Some? {
      PlanMembers(state, xs);
      assert Decide(state, x).value in PlanItems(state, xs);
    } else {
      var j :| 0 <= j < |xs| && xs[j] == x;
      LeftOutWhenUnchanged(state, xs, j);
    }
  }

  /** Keys that are pairwise different under the command comparer. */
  ghost predicate DistinctNames(ks: seq<string>) {
    forall i, j :: 0 <= i < j < |ks| ==> !SameKey(CommandKeys, ks[i], ks[j])
  }

  function FoldedKey<V>(x: (string, V)): string {
    KeyOf(CommandKeys, x.0)
  }

  lemma DistinctKeysFolded<V>(m: Entries<V>)
    ensures DistinctKeys(m, CommandKeys) <==> NoDuplicates(Map(FoldedKey, m))
  {
  }

  /** Considering commands keeps their names apart. */
  lemma ConsideredDistinct(cmds: Entries<CommandPatterns>, maxCommands: Option<int>)
    requires DistinctKeys(cmds, CommandKeys)
    ensures DistinctKeys(Considered(cmds, maxCommands), CommandKeys)
  {
    var s := SortBy(cmds, MoreUses);
    DistinctKeysFolded(cmds);
    DistinctKeysFolded(s);
    MapPermutation(FoldedKey, cmds, s);
    NoDuplicatesPermutation(Map(FoldedKey, cmds), Map(FoldedKey, s));
  }

  lemma {:induction false} SubsequenceIn<T>(xs: seq<T>, ys: seq<T>)
    requires Subsequence(xs, ys)
    ensures forall x :: x in xs ==> x in ys
    decreases |ys|
  {
    if ys != [] {
      var ys' := ys[..|ys| - 1];
      assert forall y :: y in ys' ==> y in ys;
      if xs != [] && xs[|xs| - 1] == ys[|ys| - 1] && Subsequence(xs[..|xs| - 1], ys') {
        SubsequenceIn(xs[..|xs| - 1], ys');
        assert xs == xs[..|xs| - 1] + [xs[|xs| - 1]];
      } else {
        SubsequenceIn(xs, ys');
      }
    }
  }

  /** Elements whose keys are pairwise different. */
  ghost predicate DistinctBy<T, K>(key: T -> K, ks: seq<T>) {
    forall i, j :: 0 <= i < j < |ks| ==> key(ks[i]) != key(ks[j])
  }

  function NameKey(s: string): string {
    KeyOf(CommandKeys, s)
  }

  lemma DistinctNamesByKey(ks: seq<string>)
    ensures DistinctNames(ks) <==> DistinctBy(NameKey, ks)
  {
  }

  /** The last element of a list with distinct keys differs from all before it. */
  lemma LastApart<T, K>(key: T -> K, ys: seq<T>, pre: seq<T>, y: T)
    requires ys == pre + [y] && DistinctBy(key, ys)
    ensures forall z :: z in pre ==> key(z) != key(y)
  {
    forall z | z in pre ensures key(z) != key(y) {
      var k :| 0 <= k < |pre| && pre[k] == z;
      assert ys[k] == z && ys[|pre|] == y;
    }
  }

  lemma DistinctPrefix<T, K>(key: T -> K, ys: seq<T>, pre: seq<T>, y: T)
    requires ys == pre + [y] && DistinctBy(key, ys)
    ensures DistinctBy(key, pre)
  {
    forall i, j | 0 <= i < j < |pre| ensures key(pre[i]) != key(pre[j]) {
      assert pre[i] == ys[i] && pre[j] == ys[j];
    }
  }

  lemma DistinctSnoc<T, K>(key: T -> K, xs: seq<T>, y: T)
    requires DistinctBy(key, xs) && forall z :: z in xs ==> key(z) != key(y)
    ensures DistinctBy(key, xs + [y])
  {
    var s := xs + [y];
    forall i, j | 0 <= i < j < |s| ensures key(s[i]) != key(s[j]) {
      assert s[i] == xs[i];
      if j < |xs| {
        assert s[j] == xs[j];
      } else {
        assert s[i] in xs;
      }
    }
  }

  lemma DistinctKeepLast<T, K>(key: T -> K, xs: seq<T>, ys: seq<T>, y: T)
    requires DistinctBy(key, xs) && Subsequence(xs, ys) && DistinctBy(key, ys + [y])
    ensures DistinctBy(key, xs + [y])
  {
    SubsequenceIn(xs, ys);
    LastApart(key, ys + [y], ys, y);
    DistinctSnoc(key, xs, y);
  }

  /** Leaving elements out keeps the rest apart. */
  lemma {:induction false} SubsequenceDistinctBy<T, K>(key: T -> K, xs: seq<T>, ys: seq<T>)
    requires Subsequence(xs, ys) && DistinctBy(key, ys)
    ensures DistinctBy(key, xs)
    decreases |ys|
  {
    if ys != [] {
      var ys', y := ys[..|ys| - 1], ys[|ys| - 1];
      assert ys == ys' + [y];
      DistinctPrefix(key, ys, ys', y);
      if xs != [] && xs[|xs| - 1] == y && Subsequence(xs[..|xs| - 1], ys') {
        var xs' := xs[..|xs| - 1];
        SubsequenceDistinctBy(key, xs', ys');
        DistinctKeepLast(key, xs', ys', y);
        assert xs == xs' + [y];
      } else {
        SubsequenceDistinctBy(key, xs, ys');
      }
    }
  }

  /** Leaving names out keeps the rest apart. */
  lemma SubsequenceDistinct(xs: seq<string>, ys: seq<string>)
    requires Subsequence(xs, ys) && DistinctNames(ys)
    ensures DistinctNames(xs)
  {
    DistinctNamesByKey(ys);
    SubsequenceDistinctBy(NameKey, xs, ys);
    DistinctNamesByKey(xs);
  }

  /** No command appears twice in what the plan is drawn from, so none
      appears twice in the plan. */
  lemma PlanItemsDistinct(state: StateSnapshot, xs: Entries<CommandPatterns>)
    requires DistinctKeys(xs, CommandKeys)
    ensures DistinctNames(Map(ItemCommand, PlanItems(state, xs)))
  {
    PlanIsSubsequence(state, xs);
    SubsequenceDistinct(Map(ItemCommand, PlanItems(state, xs)), Keys(xs));
  }

  /** The plan of `RunAsync`: drawn in order from the considered commands,
      no command twice, at most `maxCommands` items. */
  lemma PlanShape(patterns: PatternsSnapshot, state: StateSnapshot, maxCommands: Option<int>)
    requires DistinctKeys(patterns.commands, CommandKeys)
    ensures var c := Considered(patterns.commands, maxCommands);
            var items := PlanItems(state, c);
            && Subsequence(Map(ItemCommand, items), Keys(c))
            && DistinctNames(Map(ItemCommand, items))
            && (maxCommands.Some? ==> |items| <= if maxCommands.value < 0 then 0 else maxCommands.value)
  {
    var c := Considered(patterns.commands, maxCommands);
    ConsideredOrder(patterns.commands, maxCommands);
    ConsideredDistinct(patterns.commands, maxCommands);
    PlanIsSubsequence(state, c);
    PlanItemsDistinct(state, c);
  }

  /** The item a command calls for when the state holds nothing. */
  function NewItem(x: (string, CommandPatterns)): RegenItem {
    RegenItem(x.0, NewCommand, PatternsHash(x.1))
  }

  lemma DecideWithoutState(x: (string, CommandPatterns))
    ensures Decide(StateOrEmpty(None), x) == Some(NewItem(x))
  {
  }

  /** When every command calls for an item, the plan is those items in order. */
  lemma {:induction false} PlanAllSome(state: StateSnapshot, xs: Entries<CommandPatterns>,
                                       g: ((string, CommandPatterns)) -> RegenItem)
    requires forall x :: x in xs ==> Decide(state, x) == Some(g(x))
    ensures PlanItems(state, xs) == Map(g, xs)
  {
    if xs != [] {
      var pre, x := xs[..|xs| - 1], xs[|xs| - 1];
      assert xs == pre + [x];
      assert forall y :: y in pre ==> y in xs;
      PlanItemsSnoc(state, pre, x);
      PlanAllSome(state, pre, g);
      MapSnoc(g, pre, x);
    }
  }

  /** Without a state file every considered command is `new_command`, with
      its current hash, in the considered order. */
  lemma MissingStateAllNew(xs: Entries<CommandPatterns>)
    ensures PlanItems(StateOrEmpty(None), xs) == Map(NewItem, xs)
  {
    forall x | x in xs ensures Decide(StateOrEmpty(None), x) == Some(NewItem(x)) {
      DecideWithoutState(x);
    }
    PlanAllSome(StateOrEmpty(None), xs, NewItem);
  }

  /** The stored hash is looked up whatever the letter case of the stored name. */
  lemma LookupIgnoresCase(state: StateSnapshot, x: (string, CommandPatterns), stored: string, se: StateEntry)
    requires Get(state.commands, CommandKeys, stored) == Some(se) && SameKey(CommandKeys, stored, x.0)
    ensures Decide(state, x)
         == if se.patternsHash == PatternsHash(x.1) then None
            else Some(RegenItem(x.0, PatternsChanged, PatternsHash(x.1)))
  {
    FindSameKey(state.commands, CommandKeys, stored, x.0);
  }
}
