/** Recording a regeneration plan in the state: each planned command gets an
    entry with the hash it was planned with, its entry file and a time. */
module StateUpdater {
  import opened Text
  import opened Ordering
  import opened Dict
  import opened Models
  import opened DiffService

  /** The readings of `DateTimeOffset.UtcNow` during one update: reading 0
      stamps a state created because the file is missing, reading `i + 1` the
      entry of plan item `i`, and the reading after the last item the state. */
  type Clock = nat -> Timestamp

  /** `Path.Combine` of two relative or absolute Unix paths. */
  function Combine(dir: string, file: string): string {
    if file == [] then dir
    else if dir == [] || file[0] == '/' then file
    else if dir[|dir| - 1] == '/' then dir + file
    else dir + "/" + file
  }

  /** Where the entry of `command` is written: `<command>.json` in the entries directory. */
  function EntryPath(entriesDir: string, command: string): string {
    Combine(entriesDir, command + ".json")
  }

  /** The entry path ends in the command's file name, and under a non-empty
      directory it is that directory, a separator and the file name. */
  lemma EntryPathShape(entriesDir: string, command: string)
    ensures var r, f := EntryPath(entriesDir, command), command + ".json";
            && |f| <= |r| && r[|r| - |f|..] == f
            && (entriesDir == [] ==> r == f)
            && (entriesDir != [] && (command == [] || command[0] != '/') ==>
                  r == entriesDir + (if entriesDir[|entriesDir| - 1] == '/' then "" else "/") + f)
  {
    var f := command + ".json";
    assert f[|f| - 5..] == ".json";
  }

  function EntryFor(entriesDir: string, item: RegenItem, at: Timestamp): StateEntry {
    StateEntry(item.patternsHash, Some(EntryPath(entriesDir, item.command)), Some(at))
  }

  /** The state's commands after the loop has assigned the entries of `items`. */
  function Applied(m: Entries<StateEntry>, entriesDir: string, items: seq<RegenItem>, clock: Clock): Entries<StateEntry> {
    if items == [] then m
    else
      var n := |items| - 1;
      Put(Applied(m, entriesDir, items[..n], clock), CommandKeys, items[n].command, EntryFor(entriesDir, items[n], clock(n + 1)))
  }

  /** The state read from disk, or the new state made when the file is missing. */
  function Initial(state: Option<StateSnapshot>, clock: Clock): StateSnapshot {
    match state
    case Some(s) => s
    case None => StateSnapshot("0.1", clock(0), [])
  }

  function Updated(state: Option<StateSnapshot>, plan: RegenPlan, entriesDir: string, clock: Clock): StateSnapshot {
    var st := Initial(state, clock);
    StateSnapshot(st.version, clock(|plan.commands| + 1), Applied(st.commands, entriesDir, plan.commands, clock))
  }

  lemma AppliedSnoc(m: Entries<StateEntry>, entriesDir: string, items: seq<RegenItem>, clock: Clock, i: nat)
    requires i < |items|
    ensures Applied(m, entriesDir, items[..i + 1], clock)
         == Put(Applied(m, entriesDir, items[..i], clock), CommandKeys, items[i].command, EntryFor(entriesDir, items[i], clock(i + 1)))
  {
    assert items[..i + 1][..i] == items[..i];
  }

  /** `UpdateAsync`: `patterns` is passed along but not consulted. */
  method Update(patterns: PatternsSnapshot, state: Option<StateSnapshot>, plan: RegenPlan, entriesDir: string, clock: Clock)
    returns (result: StateSnapshot)
    ensures result == Updated(state, plan, entriesDir, clock)
  {
    var st := Initial(state, clock);
    var commands := st.commands;
    var items := plan.commands;
    for i := 0 to |items|
      invariant commands == Applied(st.commands, entriesDir, items[..i], clock)
    {
      var item := items[i];
      var entryPath := EntryPath(entriesDir, item.command);
      AppliedSnoc(st.commands, entriesDir, items, clock, i);
      commands := Put(commands, CommandKeys, item.command, StateEntry(item.patternsHash, Some(entryPath), Some(clock(i + 1))));
    }
    assert items[..|items|] == items;
    result := StateSnapshot(st.version, clock(|items| + 1), commands);
  }

  /** The index of the last element satisfying `p`. */
  function LastWhere<T>(p: T -> bool, xs: seq<T>): (r: Option<nat>)
    ensures r.Some? ==> r.value < |xs| && p(xs[r.value])
    ensures r.Some? ==> forall j :: r.value < j < |xs| ==> !p(xs[j])
  {
    if xs == [] then None
    else if p(xs[|xs| - 1]) then Some(|xs| - 1)
    else
      var pre := xs[..|xs| - 1];
      var r := LastWhere(p, pre);
      assert r.Some? ==> xs[r.value] == pre[r.value];
      assert r.Some? ==> forall j :: r.value < j < |pre| ==> xs[j] == pre[j];
      r
  }

  lemma {:induction false} LastWhereNone<T>(p: T -> bool, xs: seq<T>)
    ensures LastWhere(p, xs).None? <==> forall j :: 0 <= j < |xs| ==> !p(xs[j])
  {
    if xs != [] {
      var pre := xs[..|xs| - 1];
      LastWhereNone(p, pre);
      assert forall j :: 0 <= j < |pre| ==> pre[j] == xs[j];
    }
  }

  /** Whether an item names `k`, in any letter case. */
  function Names(k: string): RegenItem -> bool {
    (item: RegenItem) => SameKey(CommandKeys, item.command, k)
  }

  /** The index of the last item naming `k`, in any letter case. */
  function LastFor(items: seq<RegenItem>, k: string): (r: Option<nat>)
    ensures r.Some? ==> r.value < |items| && SameKey(CommandKeys, items[r.value].command, k)
    ensures r.Some? ==> forall j :: r.value < j < |items| ==> !SameKey(CommandKeys, items[j].command, k)
  {
    var r := LastWhere(Names(k), items);
    assert forall j :: 0 <= j < |items| ==> Names(k)(items[j]) == SameKey(CommandKeys, items[j].command, k);
    r
  }

  lemma LastForNone(items: seq<RegenItem>, k: string)
    ensures LastFor(items, k).None? <==> forall j :: 0 <= j < |items| ==> !SameKey(CommandKeys, items[j].command, k)
  {
    LastWhereNone(Names(k), items);
    assert forall j :: 0 <= j < |items| ==> Names(k)(items[j]) == SameKey(CommandKeys, items[j].command, k);
  }

  /** After the loop, a name reads the entry of the last item naming it, and
      a name no item names reads what it read before. */
  lemma {:induction false} GetApplied(m: Entries<StateEntry>, entriesDir: string, items: seq<RegenItem>, clock: Clock, k: string)
    ensures Get(Applied(m, entriesDir, items, clock), CommandKeys, k)
         == match LastFor(items, k)
            case Some(i) => Some(EntryFor(entriesDir, items[i], clock(i + 1)))
            case None => Get(m, CommandKeys, k)
  {
    if items != [] {
      var n := |items| - 1;
      var pre := items[..n];
      var a := Applied(m, entriesDir, pre, clock);
      var v := EntryFor(entriesDir, items[n], clock(n + 1));
      assert Applied(m, entriesDir, items, clock) == Put(a, CommandKeys, items[n].command, v);
      GetPut(a, CommandKeys, items[n].command, v, k);
      if SameKey(CommandKeys, items[n].command, k) {
        assert LastFor(items, k) == Some(n);
      } else {
        var r := LastFor(pre, k);
        assert LastFor(items, k) == r;
        GetApplied(m, entriesDir, pre, clock, k);
        assert Get(Applied(m, entriesDir, items, clock), CommandKeys, k) == Get(a, CommandKeys, k);
        if r.Some? {
          assert items[r.value] == pre[r.value];
        }
      }
    }
  }

  /** A planned command reads the entry of its last plan item, with that
      item's hash. */
  lemma UpdateReadsLastItem(state: Option<StateSnapshot>, plan: RegenPlan, entriesDir: string, clock: Clock, k: string, i: nat)
    requires i < |plan.commands| && SameKey(CommandKeys, plan.commands[i].command, k)
    requires forall j :: i < j < |plan.commands| ==> !SameKey(CommandKeys, plan.commands[j].command, k)
    ensures Get(Updated(state, plan, entriesDir, clock).commands, CommandKeys, k)
         == Some(EntryFor(entriesDir, plan.commands[i], clock(i + 1)))
  {
    var items := plan.commands;
    GetApplied(Initial(state, clock).commands, entriesDir, items, clock, k);
    LastForNone(items, k);
    var last := LastFor(items, k);
    assert last.Some?;
    assert !(i < last.value) && !(last.value < i);
  }

  /** A command no plan item names reads the entry it had, and none when the
      state file was missing. */
  lemma UpdateKeepsOthers(state: Option<StateSnapshot>, plan: RegenPlan, entriesDir: string, clock: Clock, k: string)
    requires forall j :: 0 <= j < |plan.commands| ==> !SameKey(CommandKeys, plan.commands[j].command, k)
    ensures Get(Updated(state, plan, entriesDir, clock).commands, CommandKeys, k)
         == if state.Some? then Get(state.value.commands, CommandKeys, k) else None
  {
    GetApplied(Initial(state, clock).commands, entriesDir, plan.commands, clock, k);
    LastForNone(plan.commands, k);
  }

  /** The state is stamped with the reading after the last item and keeps its
      version; a new state has version `0.1`. */
  lemma UpdateStamp(state: Option<StateSnapshot>, plan: RegenPlan, entriesDir: string, clock: Clock)
    ensures Updated(state, plan, entriesDir, clock).generatedAt == clock(|plan.commands| + 1)
    ensures Updated(state, plan, entriesDir, clock).version == if state.Some? then state.value.version else "0.1"
  {
  }

  /** Two plan items for one command, in any letter case: the later one's hash is kept. */
  lemma LaterItemWins(state: Option<StateSnapshot>, entriesDir: string, clock: Clock, a: RegenItem, b: RegenItem, now: Timestamp)
    requires SameKey(CommandKeys, a.command, b.command)
    ensures Get(Updated(state, RegenPlan(PlanVersion, now, [a, b]), entriesDir, clock).commands, CommandKeys, a.command)
         == Some(EntryFor(entriesDir, b, clock(2)))
  {
    UpdateReadsLastItem(state, RegenPlan(PlanVersion, now, [a, b]), entriesDir, clock, a.command, 1);
  }

  /** Names that were distinct stay distinct. */
  lemma {:induction false} AppliedDistinct(m: Entries<StateEntry>, entriesDir: string, items: seq<RegenItem>, clock: Clock)
    requires DistinctKeys(m, CommandKeys)
    ensures DistinctKeys(Applied(m, entriesDir, items, clock), CommandKeys)
  {
    if items != [] {
      var n := |items| - 1;
      AppliedDistinct(m, entriesDir, items[..n], clock);
      PutDistinct(Applied(m, entriesDir, items[..n], clock), CommandKeys, items[n].command, EntryFor(entriesDir, items[n], clock(n + 1)));
    }
  }

  lemma {:induction false} PlanItemsEmpty(state: StateSnapshot, xs: Entries<CommandPatterns>)
    requires forall j :: 0 <= j < |xs| ==> Decide(state, xs[j]).None?
    ensures PlanItems(state, xs) == []
  {
    if xs != [] {
      var pre := xs[..|xs| - 1];
      assert forall j :: 0 <= j < |pre| ==> pre[j] == xs[j];
      PlanItemsEmpty(state, pre);
    }
  }

  /** A considered command that was planned is up to date after the update. */
  lemma PlannedIsCurrent(st: StateSnapshot, xs: Entries<CommandPatterns>, state: Option<StateSnapshot>,
                         entriesDir: string, clock: Clock, now: Timestamp, j: nat)
    requires st == StateOrEmpty(state) && DistinctKeys(xs, CommandKeys) && j < |xs|
    requires Decide(st, xs[j]).Some?
    ensures Decide(Updated(state, RegenPlan(PlanVersion, now, PlanItems(st, xs)), entriesDir, clock), xs[j]).None?
  {
    var items := PlanItems(st, xs);
    var plan := RegenPlan(PlanVersion, now, items);
    var it := Decide(st, xs[j]).value;
    DecideCommand(st, xs[j]);
    ItemInPlan(st, xs, j);
    var i :| 0 <= i < |items| && items[i] == it;
    PlanItemsDistinct(st, xs);
    forall t | i < t < |items| ensures !SameKey(CommandKeys, items[t].command, xs[j].0) {
      assert Map(ItemCommand, items)[i] == xs[j].0 && Map(ItemCommand, items)[t] == items[t].command;
    }
    UpdateReadsLastItem(state, plan, entriesDir, clock, xs[j].0, i);
    DecideUpToDate(Updated(state, plan, entriesDir, clock), xs[j], EntryFor(entriesDir, it, clock(i + 1)));
  }

  /** A considered command that was not planned is untouched by the update. */
  lemma UnplannedStaysCurrent(st: StateSnapshot, xs: Entries<CommandPatterns>, state: Option<StateSnapshot>,
                              entriesDir: string, clock: Clock, now: Timestamp, j: nat)
    requires st == StateOrEmpty(state) && DistinctKeys(xs, CommandKeys) && j < |xs|
    requires Decide(st, xs[j]).None?
    ensures Decide(Updated(state, RegenPlan(PlanVersion, now, PlanItems(st, xs)), entriesDir, clock), xs[j]).None?
  {
    var items := PlanItems(st, xs);
    LeftOutWhenUnchanged(st, xs, j);
    forall t | 0 <= t < |items| ensures !SameKey(CommandKeys, items[t].command, xs[j].0) {
      assert items[t] in items;
    }
    UpdateKeepsOthers(state, RegenPlan(PlanVersion, now, items), entriesDir, clock, xs[j].0);
  }

  /** Diffing, recording the plan and diffing the same inventory again with
      the same limit plans nothing. */
  lemma RoundTrip(patterns: PatternsSnapshot, state: Option<StateSnapshot>, maxCommands: Option<int>,
                  entriesDir: string, clock: Clock, now: Timestamp)
    requires DistinctKeys(patterns.commands, CommandKeys)
    ensures var xs := Considered(patterns.commands, maxCommands);
            var plan := RegenPlan(PlanVersion, now, PlanItems(StateOrEmpty(state), xs));
            PlanItems(StateOrEmpty(Some(Updated(state, plan, entriesDir, clock))), xs) == []
  {
    var xs := Considered(patterns.commands, maxCommands);
    var st := StateOrEmpty(state);
    var plan := RegenPlan(PlanVersion, now, PlanItems(st, xs));
    var st2 := Updated(state, plan, entriesDir, clock);
    ConsideredDistinct(patterns.commands, maxCommands);
    forall j | 0 <= j < |xs| ensures Decide(st2, xs[j]).None? {
      if Decide(st, xs[j]).Some? {
        PlannedIsCurrent(st, xs, state, entriesDir, clock, now, j);
      } else {
        UnplannedStaysCurrent(st, xs, state, entriesDir, clock, now, j);
      }
    }
    PlanItemsEmpty(st2, xs);
  }
}
