/** The records the pipeline passes between its stages: parsed command events,
    the per-command pattern inventory, the regeneration plan and the state of
    what has been generated so far. */
module Models {
  import opened Text
  import opened Dict

  /** Where a command line came from; `CommandParser.Parse` leaves all of it unset. */
  datatype CommandSource = CommandSource(host: Option<string>, shell: Option<string>, timestamp: Option<Timestamp>)

  const NoSource := CommandSource(None, None, None)

  /** One parsed command line.  `options` is an ordinal-keyed dictionary. */
  datatype CommandEvent = CommandEvent(
    command: string,
    subcommand: Option<string>,
    flags: seq<string>,
    options: Entries<string>,
    arguments: seq<string>,
    raw: string,
    source: CommandSource)

  /** The five argument shapes. */
  datatype Shape = Url | Path | Number | Addr | Word

  /** The shape as it is written into signatures and entries. */
  function ShapeName(s: Shape): (r: string)
    ensures r in {"url", "path", "number", "addr", "word"}
  {
    match s
    case Url => "url"
    case Path => "path"
    case Number => "number"
    case Addr => "addr"
    case Word => "word"
  }

  lemma ShapeNameInjective(a: Shape, b: Shape)
    requires ShapeName(a) == ShapeName(b)
    ensures a == b
  {
  }

  /** The canonical tuple a pattern signature is the hash of.  The model takes
      the tuple itself as the signature, so two signatures are equal exactly
      when their tuples are. */
  datatype SignatureKey = SignatureKey(
    command: string,
    subcommand: Option<string>,
    flags: seq<string>,
    options: Entries<Shape>,
    argShapes: seq<Shape>)

  /** One distinct usage pattern of a command and its statistics. */
  datatype PatternSignature = PatternSignature(
    signature: SignatureKey,
    subcommand: Option<string>,
    flags: seq<string>,
    options: Entries<Shape>,
    argShapes: seq<Shape>,
    frequency: nat,
    representativeExample: Option<string>,
    firstSeen: Option<Timestamp>,
    lastSeen: Option<Timestamp>)

  datatype CommandPatterns = CommandPatterns(command: string, totalUses: nat, patterns: seq<PatternSignature>)

  /** The pattern inventory; `commands` is keyed case-insensitively. */
  datatype PatternsSnapshot = PatternsSnapshot(version: string, generatedAt: Timestamp, commands: Entries<CommandPatterns>)

  /** The comparer of `PatternsSnapshot.Commands` and `StateSnapshot.Commands`. */
  const CommandKeys := OrdinalIgnoreCase

  /** What of a pattern goes into a command's patterns hash. */
  datatype PatternProjection = PatternProjection(
    signature: SignatureKey,
    subcommand: Option<string>,
    flags: seq<string>,
    options: Entries<Shape>,
    argShapes: seq<Shape>)

  /** The canonical value a command's patterns hash is the hash of.  The
      patterns are listed sorted by signature there; as signatures identify
      patterns, the collection of projections carries the same information,
      so the model keeps it as a multiset. */
  datatype PatternsDigest = PatternsDigest(command: string, totalUses: nat, patterns: multiset<PatternProjection>)

  datatype Reason = NewCommand | PatternsChanged

  function ReasonName(r: Reason): (s: string)
    ensures s in {"new_command", "patterns_changed"}
  {
    if r == NewCommand then "new_command" else "patterns_changed"
  }

  datatype RegenItem = RegenItem(command: string, reason: Reason, patternsHash: PatternsDigest)

  datatype RegenPlan = RegenPlan(version: string, generatedAt: Timestamp, commands: seq<RegenItem>)

  datatype StateEntry = StateEntry(patternsHash: PatternsDigest, entryPath: Option<string>, generatedAt: Option<Timestamp>)

  /** What has been generated; `commands` is keyed case-insensitively. */
  datatype StateSnapshot = StateSnapshot(version: string, generatedAt: Timestamp, commands: Entries<StateEntry>)

  datatype AppConfig = AppConfig(commandFilters: seq<string>)
}
