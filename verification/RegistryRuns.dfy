/**
 A history is never split: over every run of readings, auto-enables, custom entries and aliases,
 one subject's readings under one declared key always land under one resolved key, and a
 single-channel measurement always lands in one channel.
 */
module RegistryRuns {
  import opened Types
  import opened Wire
  import opened Registry

  /** The definition that applies to a stored key: its entry, or the entry its alias targets. */
  function DefinitionOf(b: Book, key: string): Option<Entry> {
    if key in b.entries then Some(b.entries[key])
    else if key in b.aliases && b.aliases[key] in b.entries then Some(b.entries[b.aliases[key]])
    else None
  }

  /** A reading as it was stored: what the sender declared and where it went. */
  datatype Record = Record(
    subject: SystemId, declared: string, channel: Option<nat>, variant: string, at: SeriesKey, mode: Option<ChannelMode>)

  datatype State = State(book: Book, records: seq<Record>)

  datatype Op =
    | Reading(subject: SystemId, item: Item)
    | Custom(spec: Entry)
    | Alias(alias: string, target: string)
    | SetRange(sk: SeriesKey, min: Option<real>, max: Option<real>)

  /** What storing an accepted reading does to the state. */
  function Accepted(st: State, subject: SystemId, item: Item, v: Verdict): State
    requires v.Accept?
  {
    var sk := SeriesKey(subject, v.key, v.channel, Variant(item));
    var held := v.quarantine.Some? && SeriesLevel(v.quarantine.value);
    var b' := EnsureSeries(st.book, sk, held, if held then v.quarantine else None).0;
    var def := DefinitionOf(st.book, v.key);
    var mode := if def.Some? then Some(def.value.mode) else None;
    State(b', st.records + [Record(subject, item.key, item.channel, Variant(item), sk, mode)])
  }

  /** A reading is evaluated and, if accepted, stored under the series it names. */
  function Store(st: State, catalog: Catalog, subject: SystemId, item: Item): State {
    match Evaluate(st.book, catalog, subject, item)
    case Err(_) => st
    case Ok((b, RejectItem(_))) => st.(book := b)
    case Ok((b, v)) => Accepted(st.(book := b), subject, item, v)
  }

  function Apply(st: State, catalog: Catalog, op: Op): State {
    match op
    case Reading(subject, item) => Store(st, catalog, subject, item)
    case Custom(spec) => (match DefineCustom(st.book, spec) case Ok(b) => st.(book := b) case Err(_) => st)
    case Alias(alias, target) => (match DefineAlias(st.book, alias, target) case Ok(b) => st.(book := b) case Err(_) => st)
    case SetRange(sk, min, max) =>
      if sk in st.book.series
      then st.(book := st.book.(series := st.book.series[sk := st.book.series[sk].(min := min, max := max)]))
      else st
  }

  function Run(st: State, catalog: Catalog, ops: seq<Op>): State
    decreases |ops|
  {
    if ops == [] then st else Run(Apply(st, catalog, ops[0]), catalog, ops[1..])
  }

  const EMPTY := State(Book(map[], map[], map[], 0), [])

  predicate ValidCatalog(catalog: Catalog) {
    forall k | k in catalog :: catalog[k].key == k
  }

  // ---------------------------------------------------------------------------
  // Invariant
  // ---------------------------------------------------------------------------

  ghost predicate Namespaces(b: Book) {
    && (forall k | k in b.entries :: b.entries[k].key == k && k !in b.aliases)
    && (forall a | a in b.aliases :: b.aliases[a] in b.entries)
  }

  /** The key under which this subject's readings of a declared key are stored. */
  function KeyFor(b: Book, subject: SystemId, declared: string): string {
    if declared in b.aliases && !Materialised(b, subject, declared) then b.aliases[declared] else declared
  }

  ghost predicate Settled(b: Book, r: Record) {
    && r.at in b.series && r.at.subject == r.subject && r.at.variant == r.variant
    && KeyFor(b, r.subject, r.declared) == r.at.key
    && (r.mode.Some? ==> DefinitionOf(b, r.at.key).Some? && DefinitionOf(b, r.at.key).value.mode == r.mode.value)
    && (r.mode == Some(Single) && NoneOrZero(r.channel) ==>
          r.at.channel == SingleChannel(b, r.subject, r.at.key, r.variant))
  }

  ghost predicate Inv(st: State) {
    && Namespaces(st.book)
    && (forall i | 0 <= i < |st.records| :: Settled(st.book, st.records[i]))
    && (forall k | k in st.book.series :: st.book.series[k].id < st.book.nextSeries)
    && (forall j, k | j in st.book.series && k in st.book.series && j != k ::
          st.book.series[j].id != st.book.series[k].id)
  }

  /** The book grew: nothing was removed, and no series appeared. */
  ghost predicate Grows(b: Book, b': Book) {
    && (forall k | k in b.entries :: k in b'.entries && b'.entries[k] == b.entries[k])
    && (forall a | a in b.aliases :: a in b'.aliases && b'.aliases[a] == b.aliases[a])
    && b'.series.Keys == b.series.Keys
  }

  lemma GrowthSettles(b: Book, b': Book, r: Record)
    requires Namespaces(b) && Namespaces(b') && Grows(b, b') && Settled(b, r)
    ensures Settled(b', r)
  {
    assert Materialised(b', r.subject, r.declared) == Materialised(b, r.subject, r.declared);
    if r.declared !in b.aliases || Materialised(b, r.subject, r.declared) {
      assert r.at in b'.series && r.at.key == r.declared;
    }
  }

  lemma ResolveGrows(b: Book, catalog: Catalog, subject: SystemId, declared: string)
    requires Namespaces(b) && ValidCatalog(catalog)
    ensures Resolve(b, catalog, subject, declared).Ok?
    ensures var (b', r) := Resolve(b, catalog, subject, declared).value;
            && Namespaces(b') && Grows(b, b') && b'.series == b.series && b'.nextSeries == b.nextSeries
            && (match r
                case Known(entry, key) => key == KeyFor(b', subject, declared) && DefinitionOf(b', key) == Some(entry)
                case Undefined => declared !in b'.entries && declared !in b'.aliases)
  {
  }

  lemma EvaluateFacts(b: Book, catalog: Catalog, subject: SystemId, item: Item)
    requires Namespaces(b) && ValidCatalog(catalog)
    ensures Evaluate(b, catalog, subject, item).Ok?
    ensures var (b', v) := Evaluate(b, catalog, subject, item).value;
            && Namespaces(b') && Grows(b, b') && b'.series == b.series && b'.nextSeries == b.nextSeries
            && (v.Accept? ==>
                  && v.key == KeyFor(b', subject, item.key)
                  && (DefinitionOf(b', v.key).None? ==> v.channel == RawChannel(item.channel))
                  && (DefinitionOf(b', v.key).Some? && DefinitionOf(b', v.key).value.mode == Single ==>
                        v.channel == if NoneOrZero(item.channel) then SingleChannel(b', subject, v.key, Variant(item))
                                     else RawChannel(item.channel)))
  {
    ResolveGrows(b, catalog, subject, item.key);
  }

  /** The new series does not move any record: not its key, and not its single channel. */
  lemma NewSeriesSettles(b: Book, b': Book, subject: SystemId, declared: string, channel: Option<nat>, sk: SeriesKey, r: Record)
    requires Namespaces(b) && Settled(b, r)
    requires sk.subject == subject && sk.key == KeyFor(b, subject, declared)
    requires DefinitionOf(b, sk.key).Some? && DefinitionOf(b, sk.key).value.mode == Single
             ==> sk.channel == if NoneOrZero(channel) then SingleChannel(b, subject, sk.key, sk.variant) else RawChannel(channel)
    requires b'.entries == b.entries && b'.aliases == b.aliases && b'.series.Keys == b.series.Keys + {sk}
    ensures Settled(b', r)
  {
    KeyStays(b, b', subject, declared, sk, r.subject, r.declared, r.at);
  }

  lemma KeyStays(b: Book, b': Book, subject: SystemId, declared: string, sk: SeriesKey,
                 other: SystemId, key: string, at: SeriesKey)
    requires Namespaces(b)
    requires sk.subject == subject && sk.key == KeyFor(b, subject, declared)
    requires b'.entries == b.entries && b'.aliases == b.aliases && b'.series.Keys == b.series.Keys + {sk}
    requires at in b.series && at.subject == other && at.key == KeyFor(b, other, key)
    ensures KeyFor(b', other, key) == at.key
  {
    if key in b.aliases {
      if Materialised(b, other, key) {
        var k :| k in b.series && k.subject == other && k.key == key;
        assert k in b'.series;
      }
    }
  }

  /** Growth of the definitions alone keeps the invariant. */
  lemma GrowthKeeps(st: State, b: Book)
    requires Inv(st) && Namespaces(b) && Grows(st.book, b) && b.nextSeries == st.book.nextSeries
    requires forall k | k in st.book.series :: b.series[k].id == st.book.series[k].id
    ensures Inv(st.(book := b))
  {
    forall i | 0 <= i < |st.records| ensures Settled(b, st.records[i]) {
      GrowthSettles(st.book, b, st.records[i]);
    }
  }

  lemma SeriesIdsKeep(b: Book, sk: SeriesKey, held: bool, reason: Option<QuarantineReason>)
    requires forall k | k in b.series :: b.series[k].id < b.nextSeries
    requires forall j, k | j in b.series && k in b.series && j != k :: b.series[j].id != b.series[k].id
    ensures var b' := EnsureSeries(b, sk, held, reason).0;
            && (forall k | k in b'.series :: b'.series[k].id < b'.nextSeries)
            && (forall j, k | j in b'.series && k in b'.series && j != k :: b'.series[j].id != b'.series[k].id)
            && b'.entries == b.entries && b'.aliases == b.aliases && b'.series.Keys == b.series.Keys + {sk}
  {
  }

  lemma StoreKeeps(st: State, catalog: Catalog, subject: SystemId, item: Item)
    requires Inv(st) && ValidCatalog(catalog)
    ensures Inv(Store(st, catalog, subject, item))
  {
    EvaluateFacts(st.book, catalog, subject, item);
    var (b, v) := Evaluate(st.book, catalog, subject, item).value;
    GrowthKeeps(st, b);
    if v.Accept? { AcceptKeeps(st.(book := b), subject, item, v); }
  }

  lemma AcceptKeeps(st: State, subject: SystemId, item: Item, v: Verdict)
    requires Inv(st) && v.Accept? && v.key == KeyFor(st.book, subject, item.key)
    requires DefinitionOf(st.book, v.key).Some? && DefinitionOf(st.book, v.key).value.mode == Single
             ==> v.channel == if NoneOrZero(item.channel) then SingleChannel(st.book, subject, v.key, Variant(item))
                              else RawChannel(item.channel)
    ensures Inv(Accepted(st, subject, item, v))
  {
    var sk := SeriesKey(subject, v.key, v.channel, Variant(item));
    var held := v.quarantine.Some? && SeriesLevel(v.quarantine.value);
    SeriesIdsKeep(st.book, sk, held, if held then v.quarantine else None);
    var st' := Accepted(st, subject, item, v);
    forall i | 0 <= i < |st.records| ensures Settled(st'.book, st.records[i]) {
      NewSeriesSettles(st.book, st'.book, subject, item.key, item.channel, sk, st.records[i]);
    }
    NewRecordSettled(st.book, st'.book, subject, item, sk, st'.records[|st.records|]);
  }

  lemma NewRecordSettled(b: Book, b': Book, subject: SystemId, item: Item, sk: SeriesKey, r: Record)
    requires Namespaces(b)
    requires sk.subject == subject && sk.key == KeyFor(b, subject, item.key) && sk.variant == Variant(item)
    requires DefinitionOf(b, sk.key).Some? && DefinitionOf(b, sk.key).value.mode == Single
             ==> sk.channel == if NoneOrZero(item.channel) then SingleChannel(b, subject, sk.key, sk.variant)
                               else RawChannel(item.channel)
    requires b'.entries == b.entries && b'.aliases == b.aliases && b'.series.Keys == b.series.Keys + {sk}
    requires var def := DefinitionOf(b, sk.key);
             r == Record(subject, item.key, item.channel, Variant(item), sk, if def.Some? then Some(def.value.mode) else None)
    ensures Settled(b', r)
  {
    assert sk in b'.series;
    if item.key in b.aliases && !Materialised(b, subject, item.key) {
      assert sk.key == b.aliases[item.key] && sk.key in b.entries;
      assert Materialised(b', subject, item.key) == Materialised(b, subject, item.key);
    } else if item.key in b.aliases {
      assert Materialised(b', subject, item.key);
    }
  }

  lemma AliasKeeps(st: State, alias: string, target: string)
    requires Inv(st) && DefineAlias(st.book, alias, target).Ok?
    ensures Inv(st.(book := DefineAlias(st.book, alias, target).value))
  {
    var b := DefineAlias(st.book, alias, target).value;
    assert b.series.Keys == st.book.series.Keys;
    GrowthKeeps(st, b);
  }

  lemma CustomKeeps(st: State, spec: Entry)
    requires Inv(st) && DefineCustom(st.book, spec).Ok?
    ensures Inv(st.(book := DefineCustom(st.book, spec).value))
  {
    GrowthKeeps(st, DefineCustom(st.book, spec).value);
  }

  lemma RangeKeeps(st: State, sk: SeriesKey, row: SeriesRow)
    requires Inv(st) && sk in st.book.series && row.id == st.book.series[sk].id
    ensures Inv(st.(book := st.book.(series := st.book.series[sk := row])))
  {
    var b := st.book.(series := st.book.series[sk := row]);
    assert b.series.Keys == st.book.series.Keys;
    GrowthKeeps(st, b);
  }

  lemma ApplyKeeps(st: State, catalog: Catalog, op: Op)
    requires Inv(st) && ValidCatalog(catalog)
    ensures Inv(Apply(st, catalog, op))
  {
    match op
    case Reading(subject, item) => StoreKeeps(st, catalog, subject, item);
    case Custom(spec) => if DefineCustom(st.book, spec).Ok? { CustomKeeps(st, spec); }
    case Alias(alias, target) => if DefineAlias(st.book, alias, target).Ok? { AliasKeeps(st, alias, target); }
    case SetRange(sk, min, max) =>
      if sk in st.book.series { RangeKeeps(st, sk, st.book.series[sk].(min := min, max := max)); }
  }

  lemma {:induction false} RunKeeps(st: State, catalog: Catalog, ops: seq<Op>)
    requires Inv(st) && ValidCatalog(catalog)
    ensures Inv(Run(st, catalog, ops))
    decreases |ops|
  {
    if ops != [] {
      ApplyKeeps(st, catalog, ops[0]);
      RunKeeps(Apply(st, catalog, ops[0]), catalog, ops[1..]);
    }
  }

  /** Keys and aliases never collide, aliases never dangle, and evaluation never fails on them. */
  lemma NamespacesStayDisjoint(catalog: Catalog, ops: seq<Op>, subject: SystemId, item: Item)
    requires ValidCatalog(catalog)
    ensures var b := Run(EMPTY, catalog, ops).book;
            && b.entries.Keys !! b.aliases.Keys
            && (forall a | a in b.aliases :: b.aliases[a] in b.entries)
            && Evaluate(b, catalog, subject, item).Ok?
  {
    RunKeeps(EMPTY, catalog, ops);
    EvaluateFacts(Run(EMPTY, catalog, ops).book, catalog, subject, item);
  }

  /** All readings ever stored for one subject and declared key are stored under one key. */
  lemma HistoryIsNotSplit(catalog: Catalog, ops: seq<Op>, i: nat, j: nat)
    requires ValidCatalog(catalog)
    requires var rs := Run(EMPTY, catalog, ops).records;
             && i < |rs| && j < |rs| && rs[i].subject == rs[j].subject && rs[i].declared == rs[j].declared
    ensures var rs := Run(EMPTY, catalog, ops).records; rs[i].at.key == rs[j].at.key
  {
    RunKeeps(EMPTY, catalog, ops);
    var st := Run(EMPTY, catalog, ops);
    assert Settled(st.book, st.records[i]) && Settled(st.book, st.records[j]);
  }

  /**
   Once a key has a single-channel definition, readings without a channel and readings on channel
   0 go to one and the same series.
   */
  lemma SingleChannelIsOneSeries(catalog: Catalog, ops: seq<Op>, i: nat, j: nat)
    requires ValidCatalog(catalog)
    requires var rs := Run(EMPTY, catalog, ops).records;
             && i < |rs| && j < |rs|
             && rs[i].subject == rs[j].subject && rs[i].at.key == rs[j].at.key && rs[i].variant == rs[j].variant
             && rs[i].mode == rs[j].mode == Some(Single) && NoneOrZero(rs[i].channel) && NoneOrZero(rs[j].channel)
    ensures var rs := Run(EMPTY, catalog, ops).records; rs[i].at == rs[j].at
  {
    RunKeeps(EMPTY, catalog, ops);
    var st := Run(EMPTY, catalog, ops);
    assert Settled(st.book, st.records[i]) && Settled(st.book, st.records[j]);
  }

  /** A stored channel the definition does not have. */
  predicate Lacks(entry: Entry, channel: int) {
    match entry.mode
    case Single => channel != -1 && channel != 0
    case Fixed => channel < 0 || channel >= entry.roles
    case Generic => false
  }

  /**
   Defining an alias releases exactly the series quarantined as unknown under that key whose
   channel the definition has, relabels those whose channel it lacks, and touches no other.
   */
  lemma AliasReleases(b: Book, alias: string, target: string)
    requires DefineAlias(b, alias, target).Ok?
    ensures var b' := DefineAlias(b, alias, target).value;
            && b'.series.Keys == b.series.Keys
            && (forall k | k in b.series ::
                  b'.series[k]
                  == if k.key != alias || !b.series[k].quarantined || b.series[k].reason != Some(UnknownKey) then b.series[k]
                     else if Lacks(b.entries[target], k.channel) then b.series[k].(reason := Some(UndeclaredChannel))
                     else b.series[k].(quarantined := false, reason := None))
  {
  }

  // ---------------------------------------------------------------------------
  // What a verdict means
  // ---------------------------------------------------------------------------

  /** No reading of this type can be made of the values. */
  predicate Unreadable(entry: Entry, values: seq<Float>) {
    || entry.valueType == RecordType || |values| != 1 || values[0].NotFinite?
    || (entry.valueType == BoolType && values[0].r != 0.0 && values[0].r != 1.0)
    || (entry.valueType == IntType && values[0].r.Floor as real != values[0].r)
  }

  /** A channel the definition does not have. */
  predicate Undeclared(entry: Entry, channel: Option<nat>) {
    match entry.mode
    case Single => channel.Some? && channel.value > 0
    case Fixed => channel.None? || channel.value >= entry.roles
    case Generic => false
  }

  /** Below the series' own minimum; without one, below the site's; without that, below the physical one. */
  predicate TooLow(series: Option<real>, entry: Entry, value: real) {
    || (series.Some? && value < series.value)
    || (series.None? && entry.localMin.Some? && value < entry.localMin.value)
    || (series.None? && entry.localMin.None? && entry.physicalMin.Some? && value < entry.physicalMin.value)
  }

  predicate TooHigh(series: Option<real>, entry: Entry, value: real) {
    || (series.Some? && value > series.value)
    || (series.None? && entry.localMax.Some? && value > entry.localMax.value)
    || (series.None? && entry.localMax.None? && entry.physicalMax.Some? && value > entry.physicalMax.value)
  }

  function Minimum(b: Book, sk: SeriesKey): Option<real> {
    if sk in b.series then b.series[sk].min else None
  }

  function Maximum(b: Book, sk: SeriesKey): Option<real> {
    if sk in b.series then b.series[sk].max else None
  }

  /** A single channel keeps the form its series has: channel 0 only if just that series exists. */
  function OneChannel(b: Book, subject: SystemId, key: string, item: Item): int {
    var variant := if item.variant.Some? then item.variant.value else "primary";
    if SeriesKey(subject, key, 0, variant) in b.series && SeriesKey(subject, key, -1, variant) !in b.series then 0 else -1
  }

  lemma JudgeExact(b: Book, subject: SystemId, entry: Entry, key: string, item: Item)
    ensures var v := Judge(b, subject, entry, key, item);
            && (Unreadable(entry, item.values) ==> v == RejectItem(ValueTypeMismatch))
            && (!Unreadable(entry, item.values) ==>
                  && v.Accept? && v.key == key
                  && (entry.mode != Single || Undeclared(entry, item.channel) ==>
                        v.channel == if item.channel.Some? then item.channel.value else -1)
                  && (entry.mode == Single && !Undeclared(entry, item.channel) ==> v.channel == OneChannel(b, subject, key, item))
                  && (v.quarantine == Some(UndeclaredChannel) <==> Undeclared(entry, item.channel))
                  && (var sk := SeriesKey(subject, key, v.channel, Variant(item));
                      v.quarantine == Some(OutOfRange)
                      <==> && !Undeclared(entry, item.channel)
                           && (TooLow(Minimum(b, sk), entry, item.values[0].r)
                               || TooHigh(Maximum(b, sk), entry, item.values[0].r)))
                  && (v.quarantine.None? || v.quarantine == Some(UndeclaredChannel) || v.quarantine == Some(OutOfRange)))
  {
  }

  lemma VerdictOf(b: Book, catalog: Catalog, subject: SystemId, item: Item)
    requires Namespaces(b) && ValidCatalog(catalog)
    ensures Evaluate(b, catalog, subject, item).Ok?
    ensures var (b', v) := Evaluate(b, catalog, subject, item).value;
            var key := KeyFor(b', subject, item.key);
            var def := DefinitionOf(b', key);
            && (def.None? <==> item.key !in b.entries && item.key !in b.aliases && item.key !in catalog)
            && (def.None? ==> v == Accept(key, if item.channel.Some? then item.channel.value else -1, Some(UnknownKey)))
            && (def.Some? ==> v == Judge(b', subject, def.value, key, item))
            && (var first := item.key !in b.entries && item.key !in b.aliases && item.key in catalog;
                b' == if first then b.(entries := b.entries[item.key := catalog[item.key]]) else b)
    ensures var (b', v) := Evaluate(b, catalog, subject, item).value;
            DefinitionOf(b', KeyFor(b', subject, item.key)).Some? && v.Accept? ==> v.quarantine != Some(UnknownKey)
  {
    ResolveGrows(b, catalog, subject, item.key);
  }

  /**
   The verdict v on a reading. An alias stands for its target unless the subject already has a
   series under the alias itself; the catalog enables a key on first sight. The definition then
   decides: without one, and that is exactly when neither entry, alias nor catalog knows the key,
   the reading is quarantined as unknown; values the type
   cannot hold are rejected; a channel the definition lacks is quarantined; and so is a value
   outside the range, each bound taken from the series, else the site, else physics.
   */
  ghost predicate Decided(b: Book, catalog: Catalog, subject: SystemId, item: Item, b': Book, v: Verdict) {
    var key := if item.key in b.aliases && !(exists k :: k in b.series && k.subject == subject && k.key == item.key)
               then b.aliases[item.key] else item.key;
    var def := DefinitionOf(b', key);
    var first := item.key !in b.entries && item.key !in b.aliases && item.key in catalog;
    && b' == (if first then b.(entries := b.entries[item.key := catalog[item.key]]) else b)
    && (def.None? <==> item.key !in b.entries && item.key !in b.aliases && item.key !in catalog)
    && (v == RejectItem(ValueTypeMismatch) <==> def.Some? && Unreadable(def.value, item.values))
    && (v.RejectItem? ==> v.code == ValueTypeMismatch)
    && (v.Accept? ==>
          var sk := SeriesKey(subject, key, v.channel, Variant(item));
          && v.key == key
          && v.channel == (if def.Some? && def.value.mode == Single && !Undeclared(def.value, item.channel)
                           then OneChannel(b', subject, key, item)
                           else if item.channel.Some? then item.channel.value else -1)
          && (v.quarantine == Some(UnknownKey) <==> def.None?)
          && (v.quarantine == Some(UndeclaredChannel) <==> def.Some? && Undeclared(def.value, item.channel))
          && (v.quarantine == Some(OutOfRange)
              <==> && def.Some? && !Undeclared(def.value, item.channel)
                   && (TooLow(Minimum(b', sk), def.value, item.values[0].r)
                       || TooHigh(Maximum(b', sk), def.value, item.values[0].r)))
          && v.quarantine != Some(DeviceQuarantined))
  }

  lemma VerdictDecided(b: Book, catalog: Catalog, subject: SystemId, item: Item)
    requires Namespaces(b) && ValidCatalog(catalog)
    ensures Evaluate(b, catalog, subject, item).Ok?
    ensures var (b', v) := Evaluate(b, catalog, subject, item).value; Decided(b, catalog, subject, item, b', v)
  {
    VerdictOf(b, catalog, subject, item);
    var (b', v) := Evaluate(b, catalog, subject, item).value;
    var key := KeyFor(b', subject, item.key);
    var def := DefinitionOf(b', key);
    if def.Some? { JudgeExact(b', subject, def.value, key, item); }
  }

  /** So over any run of readings, auto-enables, definitions and range changes. */
  lemma VerdictExact(catalog: Catalog, ops: seq<Op>, subject: SystemId, item: Item)
    requires ValidCatalog(catalog)
    ensures var b := Run(EMPTY, catalog, ops).book;
            && Evaluate(b, catalog, subject, item).Ok?
            && var (b', v) := Evaluate(b, catalog, subject, item).value; Decided(b, catalog, subject, item, b', v)
  {
    RunKeeps(EMPTY, catalog, ops);
    VerdictDecided(Run(EMPTY, catalog, ops).book, catalog, subject, item);
  }

  /** What each definition command requires, and that it adds that definition and nothing else. */
  lemma DefinitionsExact(b: Book, spec: Entry, alias: string, target: string)
    ensures DefineCustom(b, spec).Ok?
            <==> && |spec.key| >= 7 && spec.key[..7] == "custom." && ValidKey(spec.key)
                 && (if spec.mode == Fixed then spec.roles > 0 else spec.roles == 0)
                 && (match (spec.physicalMin, spec.physicalMax)
                     case (None, None) => true
                     case (Some(min), Some(max)) => min < max && spec.valueType != RecordType
                     case _ => false)
                 && spec.key !in b.entries && spec.key !in b.aliases
    ensures DefineCustom(b, spec).Ok? ==>
              && DefineCustom(b, spec).value.entries == b.entries[spec.key := spec.(localMin := None, localMax := None)]
              && DefineCustom(b, spec).value.aliases == b.aliases && DefineCustom(b, spec).value.series == b.series
    ensures DefineAlias(b, alias, target).Ok?
            <==> ValidKey(alias) && alias !in b.entries && alias !in b.aliases && target in b.entries
    ensures DefineAlias(b, alias, target).Ok? ==>
              && DefineAlias(b, alias, target).value.aliases == b.aliases[alias := target]
              && DefineAlias(b, alias, target).value.entries == b.entries
  {
  }
}
