/** Envelopes, items and acknowledgements exchanged between ingest clients and the collector. */
module Wire {
  import opened Types

  type SystemId = nat

  datatype TimeSource = DeviceNtp | DeviceRtc | EdgeNode | EdgeNodeAdjusted

  /** `json` is the item's own serialised text, which staging keeps. */
  datatype Item = Item(
    subjectHint: Option<string>, key: string, channel: Option<nat>, variant: Option<string>,
    values: seq<Float>, deviceTime: Option<int>, age: Option<nat>, timeSource: TimeSource, json: string)

  datatype Envelope = Envelope(id: string, source: string, items: seq<Item>)

  datatype ReasonCode =
    | SubjectScopeViolation | BatchTooLarge | UnknownSubject | MalformedMeasurementKey
    | ValueTypeMismatch | StaleTimestamp

  datatype QuarantineReason = UnknownKey | UndeclaredChannel | OutOfRange | DeviceQuarantined

  datatype Disposition = Durable | Quarantined | Staged

  datatype ItemStatus =
    | Stored(disposition: Disposition, quarantine: Option<QuarantineReason>)
    | ItemRejected(code: ReasonCode)

  datatype AckStatus =
    | Accepted(items: seq<ItemStatus>)
    | Duplicate
    | Rejected(code: ReasonCode)
    | Deferred

  const MAX_KEY := 64
  const DEFAULT_VARIANT := "primary"

  predicate Lower(c: char) {
    'a' <= c <= 'z'
  }

  predicate Continues(c: char) {
    Lower(c) || '0' <= c <= '9' || c == '_'
  }

  /** A segment starts with a lower-case letter and goes on with letters, digits, underscores. */
  predicate Fits(key: string, i: nat)
    requires i < |key|
  {
    if i == 0 || key[i - 1] == '.' then Lower(key[i]) else Continues(key[i]) || key[i] == '.'
  }

  predicate WellSpelled(key: string) {
    key != "" && key[|key| - 1] != '.' && forall i | 0 <= i < |key| :: Fits(key, i)
  }

  /** Dot-separated segments within the length limit, checked character by character. */
  predicate ValidKey(key: string) {
    |key| <= MAX_KEY && WellSpelled(key)
  }

  // ---------------------------------------------------------------------------
  // Keys, segment by segment
  // ---------------------------------------------------------------------------

  predicate ValidSegment(segment: string) {
    segment != "" && Lower(segment[0]) && forall i | 0 < i < |segment| :: Continues(segment[i])
  }

  function FirstDot(key: string): (i: nat)
    ensures i <= |key| && (i < |key| ==> key[i] == '.')
    ensures forall j | 0 <= j < i :: key[j] != '.'
  {
    if key == "" || key[0] == '.' then 0 else 1 + FirstDot(key[1..])
  }

  /** What splitting at dots yields; one more segment than there are dots. */
  function Segments(key: string): seq<string>
    decreases |key|
  {
    var i := FirstDot(key);
    if i == |key| then [key] else [key[..i]] + Segments(key[i + 1..])
  }

  /** Without a dot a key is one segment. */
  lemma OneSegment(key: string)
    requires forall j | 0 <= j < |key| :: key[j] != '.'
    ensures WellSpelled(key) <==> ValidSegment(key)
  {
    if WellSpelled(key) {
      forall i | 0 < i < |key| ensures Continues(key[i]) { assert Fits(key, i); }
      assert Fits(key, 0);
    }
    if ValidSegment(key) {
      forall i | 0 <= i < |key| ensures Fits(key, i) {}
    }
  }

  lemma FirstSegment(key: string, i: nat)
    requires i < |key| && key[i] == '.' && forall j | 0 <= j < i :: key[j] != '.'
    ensures WellSpelled(key) <==> ValidSegment(key[..i]) && WellSpelled(key[i + 1..])
  {
    var first, rest := key[..i], key[i + 1..];
    OneSegment(first);
    assert forall j: nat | j < i :: Fits(first, j) == Fits(key, j);
    assert forall j: nat | j < |rest| :: Fits(rest, j) == Fits(key, i + 1 + j);
    if WellSpelled(key) {
      assert rest != "" && rest[|rest| - 1] == key[|key| - 1];
      assert Fits(key, i) && i > 0;
      forall j | 0 <= j < |rest| ensures Fits(rest, j) { assert Fits(key, i + 1 + j); }
    }
    if WellSpelled(first) && WellSpelled(rest) {
      forall j | 0 <= j < |key| ensures Fits(key, j) {
        assert j < i ==> Fits(first, j);
        assert j > i ==> Fits(rest, j - i - 1);
      }
    }
  }

  predicate AllValid(segments: seq<string>) {
    forall j | 0 <= j < |segments| :: ValidSegment(segments[j])
  }

  lemma AllValidSplit(first: string, rest: seq<string>)
    ensures AllValid([first] + rest) <==> ValidSegment(first) && AllValid(rest)
  {
    var all := [first] + rest;
    assert all[0] == first;
    assert forall j | 0 <= j < |rest| :: rest[j] == all[j + 1];
  }

  lemma {:induction false} WellSpelledBySegments(key: string)
    ensures WellSpelled(key) <==> AllValid(Segments(key))
    decreases |key|
  {
    var i := FirstDot(key);
    if i < |key| {
      FirstSegment(key, i);
      WellSpelledBySegments(key[i + 1..]);
      AllValidSplit(key[..i], Segments(key[i + 1..]));
    } else {
      OneSegment(key);
      AllValidSplit(key, []);
      assert [key] + [] == [key];
    }
  }

  /** The loop over the segments accepts exactly the valid keys. */
  method CheckKey(key: string) returns (ok: bool)
    ensures ok == ValidKey(key)
  {
    WellSpelledBySegments(key);
    if key == "" || |key| > MAX_KEY { return false; }
    var segments := Segments(key);
    for i := 0 to |segments|
      invariant forall j | 0 <= j < i :: ValidSegment(segments[j])
    {
      if !ValidSegment(segments[i]) { return false; }
    }
    return true;
  }
}
