/**
 The measurement registry: entries, aliases and catalog auto-enable, and the series that readings
 materialise. Evaluation decides under which key and channel a reading is stored.
 */
module Registry {
  import opened Types
  import opened Wire

  datatype ValueType = FloatType | IntType | BoolType | RecordType

  datatype ChannelMode = Single | Generic | Fixed

  datatype Entry = Entry(
    key: string, valueType: ValueType, mode: ChannelMode, roles: nat,
    physicalMin: Option<real>, physicalMax: Option<real>, localMin: Option<real>, localMax: Option<real>)

  const CHANNEL_NA: int := -1

  datatype SeriesKey = SeriesKey(subject: SystemId, key: string, channel: int, variant: string)

  datatype SeriesRow = SeriesRow(
    id: nat, quarantined: bool, reason: Option<QuarantineReason>, min: Option<real>, max: Option<real>)

  /** `nextSeries` is the row id the next series gets. */
  datatype Book = Book(
    entries: map<string, Entry>, aliases: map<string, string>, series: map<SeriesKey, SeriesRow>, nextSeries: nat)

  type Catalog = map<string, Entry>

  datatype RegistryError = InvalidKey | NamespaceCollision | AliasExists | TargetNotFound

  datatype Verdict =
    | Accept(key: string, channel: int, quarantine: Option<QuarantineReason>)
    | RejectItem(code: ReasonCode)

  // ---------------------------------------------------------------------------
  // Resolution
  // ---------------------------------------------------------------------------

  /** Whether the subject already has a series under this key. */
  predicate Materialised(b: Book, subject: SystemId, key: string) {
    exists k :: k in b.series && k.subject == subject && k.key == key
  }

  datatype Resolution = Known(entry: Entry, key: string) | Undefined

  function EnableEntry(b: Book, entry: Entry): Result<Book, RegistryError> {
    if entry.key in b.entries then Ok(b)
    else if entry.key in b.aliases then Err(NamespaceCollision)
    else Ok(b.(entries := b.entries[entry.key := entry]))
  }

  /** Entry first, then alias, then the catalog, which enables the entry on first sight. */
  function Resolve(b: Book, catalog: Catalog, subject: SystemId, declared: string)
    : Result<(Book, Resolution), RegistryError>
  {
    if declared in b.entries then Ok((b, Known(b.entries[declared], declared)))
    else if declared in b.aliases then
      var target := b.aliases[declared];
      if target !in b.entries then Err(TargetNotFound)
      else if Materialised(b, subject, declared) then Ok((b, Known(b.entries[target], declared)))
      else Ok((b, Known(b.entries[target], b.entries[target].key)))
    else if declared in catalog then
      match EnableEntry(b, catalog[declared])
      case Err(e) => Err(e)
      case Ok(b') =>
        if declared in b'.entries then Ok((b', Known(b'.entries[declared], declared))) else Err(TargetNotFound)
    else Ok((b, Undefined))
  }

  // ---------------------------------------------------------------------------
  // Evaluation
  // ---------------------------------------------------------------------------

  function RawChannel(channel: Option<nat>): int {
    if channel.Some? then channel.value else CHANNEL_NA
  }

  function Variant(item: Item): string {
    if item.variant.Some? then item.variant.value else DEFAULT_VARIANT
  }

  /** The channel of a single-channel measurement: "none" if that series exists or neither does. */
  function SingleChannel(b: Book, subject: SystemId, key: string, variant: string): int {
    if SeriesKey(subject, key, CHANNEL_NA, variant) in b.series then CHANNEL_NA
    else if SeriesKey(subject, key, 0, variant) in b.series then 0
    else CHANNEL_NA
  }

  predicate NoneOrZero(channel: Option<nat>) {
    channel.None? || channel.value == 0
  }

  /** Canonical channel, and whether the definition declares it. */
  function Channel(b: Book, subject: SystemId, entry: Entry, key: string, item: Item): (int, bool) {
    match entry.mode
    case Single =>
      if NoneOrZero(item.channel) then (SingleChannel(b, subject, key, Variant(item)), true)
      else (RawChannel(item.channel), false)
    case Fixed => (RawChannel(item.channel), item.channel.Some? && item.channel.value < entry.roles)
    case Generic => (RawChannel(item.channel), true)
  }

  function Or<T>(a: Option<T>, b: Option<T>): Option<T> {
    if a.Some? then a else b
  }

  /** Each bound falls back on its own: series, then site default, then physical limit. */
  predicate OutOfBounds(row: Option<SeriesRow>, entry: Entry, value: real) {
    var min := Or(if row.Some? then row.value.min else None, Or(entry.localMin, entry.physicalMin));
    var max := Or(if row.Some? then row.value.max else None, Or(entry.localMax, entry.physicalMax));
    (min.Some? && value < min.value) || (max.Some? && value > max.value)
  }

  predicate Interpretable(entry: Entry, values: seq<Float>) {
    && entry.valueType != RecordType && |values| == 1 && values[0].Finite?
    && (entry.valueType == BoolType ==> values[0].r == 0.0 || values[0].r == 1.0)
    && (entry.valueType == IntType ==> values[0].r.Floor as real == values[0].r)
  }

  function Judge(b: Book, subject: SystemId, entry: Entry, key: string, item: Item): Verdict {
    if !Interpretable(entry, item.values) then RejectItem(ValueTypeMismatch)
    else
      var (channel, declared) := Channel(b, subject, entry, key, item);
      if !declared then Accept(key, channel, Some(UndeclaredChannel))
      else
        var sk := SeriesKey(subject, key, channel, Variant(item));
        var row := if sk in b.series then Some(b.series[sk]) else None;
        Accept(key, channel, if OutOfBounds(row, entry, item.values[0].r) then Some(OutOfRange) else None)
  }

  /** An auto-enabled entry stays enabled even if the item is then rejected. */
  function Evaluate(b: Book, catalog: Catalog, subject: SystemId, item: Item): Result<(Book, Verdict), RegistryError> {
    match Resolve(b, catalog, subject, item.key)
    case Err(e) => Err(e)
    case Ok((b', Undefined)) => Ok((b', Accept(item.key, RawChannel(item.channel), Some(UnknownKey))))
    case Ok((b', Known(entry, key))) => Ok((b', Judge(b', subject, entry, key, item)))
  }

  /** The series row for a key, created on first use. */
  function EnsureSeries(b: Book, sk: SeriesKey, quarantined: bool, reason: Option<QuarantineReason>): (Book, nat) {
    if sk in b.series then (b, b.series[sk].id)
    else
      (b.(series := b.series[sk := SeriesRow(b.nextSeries, quarantined, reason, None, None)],
          nextSeries := b.nextSeries + 1),
       b.nextSeries)
  }

  predicate SeriesLevel(reason: QuarantineReason) {
    reason == UnknownKey || reason == UndeclaredChannel
  }

  // ---------------------------------------------------------------------------
  // Definitions
  // ---------------------------------------------------------------------------

  predicate ValidCustom(spec: Entry) {
    && |spec.key| >= 7 && spec.key[..7] == "custom." && ValidKey(spec.key)
    && (spec.mode == Fixed <==> spec.roles > 0)
    && (spec.physicalMin.Some? <==> spec.physicalMax.Some?)
    && (spec.physicalMin.Some? ==> spec.physicalMin.value < spec.physicalMax.value)
    && (spec.valueType == RecordType ==> spec.physicalMin.None?)
  }

  function DefineCustom(b: Book, spec: Entry): Result<Book, RegistryError> {
    if !ValidCustom(spec) then Err(InvalidKey)
    else if spec.key in b.entries || spec.key in b.aliases then Err(NamespaceCollision)
    else Ok(b.(entries := b.entries[spec.key := spec.(localMin := None, localMax := None)]))
  }

  predicate ChannelFits(entry: Entry, channel: int) {
    match entry.mode
    case Single => channel == CHANNEL_NA || channel == 0
    case Fixed => 0 <= channel < entry.roles
    case Generic => true
  }

  predicate HeldAsUnknown(k: SeriesKey, row: SeriesRow, key: string) {
    k.key == key && row.quarantined && row.reason == Some(UnknownKey)
  }

  /** A definition now covers series quarantined as unknown: release those whose channel it has. */
  function Released(k: SeriesKey, row: SeriesRow, key: string, entry: Entry): SeriesRow {
    if !HeldAsUnknown(k, row, key) then row
    else if ChannelFits(entry, k.channel) then row.(quarantined := false, reason := None)
    else row.(reason := Some(UndeclaredChannel))
  }

  function ReleaseAll(series: map<SeriesKey, SeriesRow>, key: string, entry: Entry): map<SeriesKey, SeriesRow> {
    map k | k in series :: Released(k, series[k], key, entry)
  }

  function DefineAlias(b: Book, alias: string, target: string): Result<Book, RegistryError> {
    if !ValidKey(alias) then Err(InvalidKey)
    else if alias in b.entries then Err(NamespaceCollision)
    else if alias in b.aliases then Err(AliasExists)
    else if target !in b.entries then Err(TargetNotFound)
    else Ok(b.(aliases := b.aliases[alias := target], series := ReleaseAll(b.series, alias, b.entries[target])))
  }

  /** First pass sorts the affected series, second and third pass update them. */
  method ReleaseSeriesQuarantine(start: map<SeriesKey, SeriesRow>, key: string, entry: Entry)
    returns (series: map<SeriesKey, SeriesRow>, released: set<SeriesKey>, mismatch: set<SeriesKey>)
    ensures series == ReleaseAll(start, key, entry)
    ensures forall k :: k in released <==> k in start && HeldAsUnknown(k, start[k], key) && ChannelFits(entry, k.channel)
    ensures forall k :: k in mismatch <==> k in start && HeldAsUnknown(k, start[k], key) && !ChannelFits(entry, k.channel)
  {
    released := set k | k in start && HeldAsUnknown(k, start[k], key) && ChannelFits(entry, k.channel);
    mismatch := set k | k in start && HeldAsUnknown(k, start[k], key) && !ChannelFits(entry, k.channel);
    series := start;
    var todo := released;
    while todo != {}
      invariant todo <= released && series.Keys == start.Keys
      invariant forall k | k in start ::
        series[k] == if k in released - todo then Released(k, start[k], key, entry) else start[k]
      decreases |todo|
    {
      var k :| k in todo;
      series := series[k := series[k].(quarantined := false, reason := None)];
      todo := todo - {k};
    }
    todo := mismatch;
    while todo != {}
      invariant todo <= mismatch && series.Keys == start.Keys
      invariant forall k | k in start ::
        series[k] == if k in released || k in mismatch - todo then Released(k, start[k], key, entry) else start[k]
      decreases |todo|
    {
      var k :| k in todo;
      series := series[k := series[k].(reason := Some(UndeclaredChannel))];
      todo := todo - {k};
    }
  }
}
