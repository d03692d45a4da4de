/**
 Readings and the publications that owe them to a remote archive, and the retention purge that
 deletes old readings in batches without breaking custody.
 */
module Custody {
  import opened Types

  datatype Reading = Reading(receivedAt: int, quarantined: bool)

  datatype Kind = Measurement | Annotation | Smoke

  datatype Publication = Publication(epoch: string, kind: Kind, reading: Option<nat>)

  /** Tables by primary key: reading number, publication number. */
  datatype Store = Store(readings: map<nat, Reading>, publications: map<nat, Publication>)

  const PURGE_BATCH := 5_000

  // ---------------------------------------------------------------------------
  // One set deletion
  // ---------------------------------------------------------------------------

  function PruneAcked(ps: map<nat, Publication>, epoch: string, upto: int): map<nat, Publication> {
    map n | n in ps && !(ps[n].epoch == epoch && n <= upto) :: ps[n]
  }

  predicate PointsInto(p: Publication, gone: set<nat>) {
    p.reading.Some? && p.reading.value in gone
  }

  function PruneReadings(ps: map<nat, Publication>, gone: set<nat>): map<nat, Publication> {
    map n | n in ps && !PointsInto(ps[n], gone) :: ps[n]
  }

  /** The archive still needs this reading: a current-epoch measurement after the cursor names it. */
  predicate Owed(ps: map<nat, Publication>, epoch: string, cursor: int, number: nat) {
    exists n :: n in ps && ps[n].kind == Measurement && ps[n].reading == Some(number) && ps[n].epoch == epoch && n > cursor
  }

  predicate Protected(st: Store, epoch: string, cursor: Option<int>, n: nat)
    requires n in st.readings
  {
    cursor.Some? && !st.readings[n].quarantined && Owed(st.publications, epoch, cursor.value, n)
  }

  function Doomed(st: Store, cutoff: int, epoch: string, cursor: Option<int>): set<nat> {
    set n | n in st.readings && st.readings[n].receivedAt < cutoff && !Protected(st, epoch, cursor, n)
  }

  function WithoutAcked(st: Store, epoch: string, cursor: Option<int>): Store {
    if cursor.Some? then st.(publications := PruneAcked(st.publications, epoch, cursor.value)) else st
  }

  function Delete(st: Store, gone: set<nat>): Store {
    Store(st.readings - gone, PruneReadings(st.publications, gone))
  }

  function Purged(st: Store, cutoff: int, epoch: string, cursor: Option<int>): Store {
    var st1 := WithoutAcked(st, epoch, cursor);
    Delete(st1, Doomed(st1, cutoff, epoch, cursor))
  }

  // ---------------------------------------------------------------------------
  // The batched purge
  // ---------------------------------------------------------------------------

  /** At most `limit` members, in no particular order. */
  method TakeSome(s: set<nat>, limit: nat) returns (batch: set<nat>)
    ensures batch <= s && |batch| <= limit
    ensures |batch| < limit ==> batch == s
  {
    batch := {};
    var rest := s;
    while rest != {} && |batch| < limit
      invariant batch + rest == s && batch !! rest && |batch| <= limit
      decreases |rest|
    {
      var n :| n in rest;
      batch := batch + {n};
      rest := rest - {n};
    }
  }

  lemma DeleteMore(st: Store, gone: set<nat>, more: set<nat>)
    ensures Delete(Delete(st, gone), more) == Delete(st, gone + more)
  {
  }

  /** What is left to delete is what a fresh query selects. */
  lemma DoomedAfter(st: Store, cutoff: int, epoch: string, cursor: Option<int>, gone: set<nat>)
    ensures Doomed(Delete(st, gone), cutoff, epoch, cursor) == Doomed(st, cutoff, epoch, cursor) - gone
  {
    var st' := Delete(st, gone);
    forall n | n in st'.readings ensures Protected(st', epoch, cursor, n) == Protected(st, epoch, cursor, n) {
      if cursor.Some? {
        assert Owed(st'.publications, epoch, cursor.value, n) == Owed(st.publications, epoch, cursor.value, n) by {
          if k :| k in st.publications && st.publications[k].kind == Measurement && st.publications[k].reading == Some(n)
                  && st.publications[k].epoch == epoch && k > cursor.value {
            assert k in st'.publications;
          }
        }
      }
    }
  }

  /** One round: select up to a batch, prune its publications, delete its readings. */
  method PurgeBatch(start: Store, cutoff: int, epoch: string, cursor: Option<int>) returns (st: Store, batch: set<nat>)
    ensures batch <= Doomed(start, cutoff, epoch, cursor) && st == Delete(start, batch)
    ensures |batch| <= PURGE_BATCH && (|batch| < PURGE_BATCH ==> batch == Doomed(start, cutoff, epoch, cursor))
  {
    batch := TakeSome(Doomed(start, cutoff, epoch, cursor), PURGE_BATCH);
    st := Delete(start, batch);
  }

  /** So far `gone` of the doomed readings are deleted. */
  ghost predicate Progress(st1: Store, cutoff: int, epoch: string, cursor: Option<int>, gone: set<nat>, st: Store) {
    gone <= Doomed(st1, cutoff, epoch, cursor) && st == Delete(st1, gone)
  }

  lemma ProgressStarts(st1: Store, cutoff: int, epoch: string, cursor: Option<int>)
    ensures Progress(st1, cutoff, epoch, cursor, {}, st1)
  {
  }

  ghost function Left(st1: Store, cutoff: int, epoch: string, cursor: Option<int>, gone: set<nat>): nat {
    |Doomed(st1, cutoff, epoch, cursor) - gone|
  }

  lemma ProgressStep(
    st1: Store, cutoff: int, epoch: string, cursor: Option<int>, gone: set<nat>, st: Store, batch: set<nat>)
    requires Progress(st1, cutoff, epoch, cursor, gone, st) && batch <= Doomed(st, cutoff, epoch, cursor)
    ensures Progress(st1, cutoff, epoch, cursor, gone + batch, Delete(st, batch))
    ensures |gone + batch| == |gone| + |batch|
    ensures batch != {} ==> Left(st1, cutoff, epoch, cursor, gone + batch) < Left(st1, cutoff, epoch, cursor, gone)
    ensures batch == Doomed(st, cutoff, epoch, cursor) ==> gone + batch == Doomed(st1, cutoff, epoch, cursor)
  {
    DoomedAfter(st1, cutoff, epoch, cursor, gone);
    DeleteMore(st1, gone, batch);
    var doomed := Doomed(st1, cutoff, epoch, cursor);
    assert doomed - gone == (doomed - (gone + batch)) + batch;
  }

  method PurgeReadings(start: Store, cutoff: int, epoch: string, cursor: Option<int>) returns (st: Store, total: nat)
    ensures st == Purged(start, cutoff, epoch, cursor)
    ensures total == |Doomed(WithoutAcked(start, epoch, cursor), cutoff, epoch, cursor)|
  {
    st := WithoutAcked(start, epoch, cursor);
    total := 0;
    ghost var st1, gone := st, {};
    ProgressStarts(st1, cutoff, epoch, cursor);
    var more := true;
    while more
      invariant Progress(st1, cutoff, epoch, cursor, gone, st) && total == |gone|
      invariant !more ==> gone == Doomed(st1, cutoff, epoch, cursor)
      decreases more, Left(st1, cutoff, epoch, cursor, gone)
    {
      var st', batch := PurgeBatch(st, cutoff, epoch, cursor);
      ProgressStep(st1, cutoff, epoch, cursor, gone, st, batch);
      more := batch != {} && |batch| == PURGE_BATCH;
      st := st';
      total := total + |batch|;
      gone := gone + batch;
    }
  }

  // ---------------------------------------------------------------------------
  // Custody
  // ---------------------------------------------------------------------------

  /** Every measurement publication points at a reading that exists. */
  ghost predicate Sound(st: Store) {
    forall n | n in st.publications && st.publications[n].kind == Measurement ::
      st.publications[n].reading.Some? && st.publications[n].reading.value in st.readings
  }

  /** What the archive is still owed is the same before and after pruning acknowledged publications. */
  lemma PruningKeepsOwed(st: Store, epoch: string, cursor: int)
    ensures var st1 := WithoutAcked(st, epoch, Some(cursor));
            forall k :: Owed(st1.publications, epoch, cursor, k) == Owed(st.publications, epoch, cursor, k)
  {
    var st1 := WithoutAcked(st, epoch, Some(cursor));
    forall k: nat ensures Owed(st1.publications, epoch, cursor, k) == Owed(st.publications, epoch, cursor, k) {
      if n :| n in st.publications && st.publications[n].kind == Measurement && st.publications[n].reading == Some(k)
              && st.publications[n].epoch == epoch && n > cursor {
        assert n in st1.publications;
      }
    }
  }

  /** Old enough to go and, if there is an archive, not owed to it. */
  predicate Purgeable(st: Store, cutoff: int, epoch: string, cursor: Option<int>, n: nat)
    requires n in st.readings
  {
    && st.readings[n].receivedAt < cutoff
    && (cursor.None? || st.readings[n].quarantined || !Owed(st.publications, epoch, cursor.value, n))
  }

  /** Acknowledged by the archive, or about a reading that is deleted. */
  predicate Obsolete(st: Store, st': Store, epoch: string, cursor: Option<int>, k: nat)
    requires k in st.publications
  {
    || (cursor.Some? && st.publications[k].epoch == epoch && k <= cursor.value)
    || (st.publications[k].reading.Some? && st.publications[k].reading.value in st.readings.Keys - st'.readings.Keys)
  }

  /**
   The purge deletes exactly the readings before the cutoff that are quarantined or not owed, and
   without an archive all before the cutoff; it drops exactly the acknowledged publications and
   those of deleted readings, so what is owed keeps both its reading and its publication, and no
   measurement publication is left pointing at nothing.
   */
  lemma PurgeKeepsCustody(st: Store, cutoff: int, epoch: string, cursor: Option<int>)
    requires Sound(st)
    ensures var st' := Purged(st, cutoff, epoch, cursor);
            && Sound(st')
            && (forall n | n in st.readings :: n !in st'.readings <==> Purgeable(st, cutoff, epoch, cursor, n))
            && (forall n | n in st'.readings :: n in st.readings && st'.readings[n] == st.readings[n])
            && (forall k | k in st.publications :: k !in st'.publications <==> Obsolete(st, st', epoch, cursor, k))
            && (forall k | k in st'.publications :: k in st.publications && st'.publications[k] == st.publications[k])
            && (cursor.Some? ==>
                  forall k | k in st.publications && st.publications[k].kind == Measurement
                             && st.publications[k].epoch == epoch && k > cursor.value
                             && !st.readings[st.publications[k].reading.value].quarantined ::
                    k in st'.publications && st.publications[k].reading.value in st'.readings)
  {
    if cursor.Some? {
      PruningKeepsOwed(st, epoch, cursor.value);
      forall k | k in st.publications && st.publications[k].kind == Measurement && st.publications[k].epoch == epoch
                 && k > cursor.value
        ensures Owed(st.publications, epoch, cursor.value, st.publications[k].reading.value)
      {
      }
    }
  }
}
