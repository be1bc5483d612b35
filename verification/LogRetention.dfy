/** The retention job for device logs: deletes expired rows in batches until none is left, a batch fails or 100 have run. */
module LogRetention {

  const BATCHES := 100
  const BATCH_SIZE := 10_000

  /** A row's primary key: device and sequence number. */
  datatype Key = Key(device: string, seqNo: nat)

  type Logs = map<Key, int>

  function Expired(logs: Logs, cutoff: int): set<Key> {
    set k | k in logs && logs[k] < cutoff
  }

  /** What each batch reads off the database's clock: a week ago. */
  type Cutoffs = nat -> int

  ghost predicate Forward(cutoff: Cutoffs) {
    forall b, c :: b <= c ==> cutoff(b) <= cutoff(c)
  }

  /** Which expired rows the LIMITed sub-select of a batch returns. */
  type Picker = (nat, set<Key>) -> set<Key>

  ghost predicate Picks(pick: Picker) {
    forall b, s :: pick(b, s) <= s && |pick(b, s)| == Min(|s|, BATCH_SIZE)
  }

  function Min(a: int, b: int): int {
    if a < b then a else b
  }

  /** The DELETE of one batch. */
  function Deleted(logs: Logs, gone: set<Key>): Logs {
    map k | k in logs && k !in gone :: logs[k]
  }

  /** The table after `b` batches, none of which failed. */
  function Left(logs: Logs, cutoff: Cutoffs, pick: Picker, b: nat): Logs {
    if b == 0 then logs
    else
      var before := Left(logs, cutoff, pick, b - 1);
      Deleted(before, pick(b - 1, Expired(before, cutoff(b - 1))))
  }

  /** The job ends before batch `b`: after the last one, with a failing one, or with nothing to delete. */
  ghost predicate EndsBefore(logs: Logs, cutoff: Cutoffs, pick: Picker, fails: nat -> bool, b: nat) {
    && b <= BATCHES
    && (b == BATCHES || fails(b) || Expired(Left(logs, cutoff, pick, b), cutoff(b)) == {})
    && forall c :: 0 <= c < b ==> !fails(c) && Expired(Left(logs, cutoff, pick, c), cutoff(c)) != {}
  }

  method Prune(logs: Logs, cutoff: Cutoffs, pick: Picker, fails: nat -> bool) returns (now: Logs, totalRemoved: nat)
    requires Picks(pick)
    ensures exists b :: EndsBefore(logs, cutoff, pick, fails, b) && now == Left(logs, cutoff, pick, b)
    ensures totalRemoved == |logs| - |now|
  {
    hide Expired, Left, Deleted, Picks;
    NoBatch(logs, cutoff, pick);
    now, totalRemoved := logs, 0;
    var batch := 0;
    while batch < BATCHES
      invariant 0 <= batch <= BATCHES
      invariant now == Left(logs, cutoff, pick, batch)
      invariant totalRemoved == |logs| - |now|
      invariant forall c :: 0 <= c < batch ==> !fails(c) && Expired(Left(logs, cutoff, pick, c), cutoff(c)) != {}
    {
      if fails(batch) {
        break;
      }
      var gone := pick(batch, Expired(now, cutoff(batch)));
      OneBatch(logs, cutoff, pick, batch);
      var removed := |gone|;
      totalRemoved := totalRemoved + removed;
      if removed == 0 {
        break;
      }
      now := Deleted(now, gone);
      batch := batch + 1;
    }
    assert EndsBefore(logs, cutoff, pick, fails, batch);
  }

  lemma SubsetSize(a: set<Key>, b: set<Key>)
    requires a <= b
    ensures |b - a| == |b| - |a| && |a| <= |b|
  {
    assert b == a + (b - a);
  }

  /** A batch deletes as many rows as it picks, expired ones up to its limit. */
  lemma OneBatch(logs: Logs, cutoff: Cutoffs, pick: Picker, b: nat)
    requires Picks(pick)
    ensures var before, after := Left(logs, cutoff, pick, b), Left(logs, cutoff, pick, b + 1);
            var expired := Expired(before, cutoff(b));
            && after == Deleted(before, pick(b, expired))
            && |after| == |before| - |pick(b, expired)| && |pick(b, expired)| == Min(|expired|, BATCH_SIZE)
            && (|pick(b, expired)| == 0 <==> expired == {})
  {
    hide Picks;
    var before := Left(logs, cutoff, pick, b);
    var gone := pick(b, Expired(before, cutoff(b)));
    PickIs(pick, b, Expired(before, cutoff(b)));
    SubsetSize(gone, before.Keys);
    assert Left(logs, cutoff, pick, b + 1).Keys == before.Keys - gone;
  }

  /** What a batch does to one row of the table it finds. */
  lemma OneRow(logs: Logs, cutoff: Cutoffs, pick: Picker, b: nat, k: Key)
    requires Picks(pick)
    ensures var before, after := Left(logs, cutoff, pick, b), Left(logs, cutoff, pick, b + 1);
            && (k in after ==> k in before && after[k] == before[k])
            && (k in before && k !in after ==> before[k] < cutoff(b))
  {
    hide Picks;
    PickIs(pick, b, Expired(Left(logs, cutoff, pick, b), cutoff(b)));
  }

  lemma PickIs(pick: Picker, b: nat, s: set<Key>)
    requires Picks(pick)
    ensures pick(b, s) <= s && |pick(b, s)| == Min(|s|, BATCH_SIZE) && (|pick(b, s)| == 0 <==> s == {})
  {
  }

  // --- What is deleted ---------------------------------------------------------------------------------

  /** Batch `c` deletes the row, which had expired by the clock it read. */
  ghost predicate GoesIn(logs: Logs, cutoff: Cutoffs, pick: Picker, c: nat, k: Key) {
    k in Left(logs, cutoff, pick, c) && k !in Left(logs, cutoff, pick, c + 1) && k in logs && logs[k] < cutoff(c)
  }

  /** Rows are only deleted, and none is changed. */
  lemma {:induction false} RowsOnlyGo(logs: Logs, cutoff: Cutoffs, pick: Picker, b: nat, k: Key)
    requires Picks(pick)
    ensures var now := Left(logs, cutoff, pick, b); k in now ==> k in logs && now[k] == logs[k]
  {
    hide Left, Picks;
    if b == 0 {
      NoBatch(logs, cutoff, pick);
    } else {
      RowsOnlyGo(logs, cutoff, pick, b - 1, k);
      OneRow(logs, cutoff, pick, b - 1, k);
    }
  }

  /** A row that is gone was deleted by one batch, and had expired by the clock that batch read. */
  lemma {:induction false} OnlyExpiredRowsGo(logs: Logs, cutoff: Cutoffs, pick: Picker, b: nat, k: Key)
    requires Picks(pick) && k in logs && k !in Left(logs, cutoff, pick, b)
    ensures exists c :: 0 <= c < b && GoesIn(logs, cutoff, pick, c, k)
  {
    hide Left, Picks;
    if b == 0 {
      NoBatch(logs, cutoff, pick);
    } else if k in Left(logs, cutoff, pick, b - 1) {
      RowsOnlyGo(logs, cutoff, pick, b - 1, k);
      OneRow(logs, cutoff, pick, b - 1, k);
      assert GoesIn(logs, cutoff, pick, b - 1, k);
    } else {
      OnlyExpiredRowsGo(logs, cutoff, pick, b - 1, k);
    }
  }

  lemma NoBatch(logs: Logs, cutoff: Cutoffs, pick: Picker)
    ensures Left(logs, cutoff, pick, 0) == logs
  {
  }

  /** What is expired of a table without some rows. */
  lemma ExpiredLeft(logs: Logs, now: Logs, cutoff: int)
    requires now.Keys <= logs.Keys && forall k :: k in now ==> now[k] == logs[k]
    ensures |Expired(now, cutoff)| >= |Expired(logs, cutoff)| - (|logs| - |now|)
    ensures (forall k :: k in logs && k !in now ==> logs[k] < cutoff) ==>
              |Expired(now, cutoff)| == |Expired(logs, cutoff)| - (|logs| - |now|)
  {
    var gone, expired := logs.Keys - now.Keys, Expired(logs, cutoff);
    var both := gone * expired;
    assert Expired(now, cutoff) == expired - both;
    assert (forall k :: k in logs && k !in now ==> logs[k] < cutoff) ==> both == gone;
    assert both <= gone && both <= expired;
    hide Expired;
    SubsetSize(now.Keys, logs.Keys);
    SubsetSize(both, gone);
    SubsetSize(both, expired);
  }

  lemma MoreExpire(logs: Logs, c: int, c': int)
    requires c <= c'
    ensures |Expired(logs, c)| <= |Expired(logs, c')|
  {
    SubsetSize(Expired(logs, c), Expired(logs, c'));
  }

  /**
   After `b` batches the number of rows gone is what had expired at the start, or grown to by the last reading of
   the clock, up to 10,000 a batch.
  */
  lemma {:induction false} RemovedBounds(logs: Logs, cutoff: Cutoffs, pick: Picker, b: nat)
    requires Picks(pick) && Forward(cutoff) && b > 0
    ensures var removed := |logs| - |Left(logs, cutoff, pick, b)|;
            && Min(|Expired(logs, cutoff(0))|, b * 10_000) <= removed
            && removed <= Min(|Expired(logs, cutoff(b - 1))|, b * 10_000)
  {
    hide Left, Picks, Expired;
    var before := Left(logs, cutoff, pick, b - 1);
    if b > 1 {
      RemovedBounds(logs, cutoff, pick, b - 1);
    } else {
      NoBatch(logs, cutoff, pick);
    }
    OneBatch(logs, cutoff, pick, b - 1);
    AllGoneExpired(logs, cutoff, pick, b - 1, cutoff(b - 1));
    ExpiredLeft(logs, before, cutoff(0));
    ExpiredLeft(logs, before, cutoff(b - 1));
    MoreExpire(before, cutoff(0), cutoff(b - 1));
  }

  lemma AllGoneExpired(logs: Logs, cutoff: Cutoffs, pick: Picker, b: nat, last: int)
    requires Picks(pick) && forall c :: 0 <= c < b ==> cutoff(c) <= last
    ensures var now := Left(logs, cutoff, pick, b);
            && now.Keys <= logs.Keys && (forall k :: k in now ==> now[k] == logs[k])
            && forall k :: k in logs && k !in now ==> logs[k] < last
  {
    hide Left, Picks;
    var now := Left(logs, cutoff, pick, b);
    forall k | k in now
      ensures k in logs && now[k] == logs[k]
    {
      RowsOnlyGo(logs, cutoff, pick, b, k);
    }
    forall k | k in logs && k !in now
      ensures logs[k] < last
    {
      OnlyExpiredRowsGo(logs, cutoff, pick, b, k);
    }
  }

  lemma NoneExpired(now: Logs, cutoff: int)
    ensures Expired(now, cutoff) == {} <==> forall k :: k in now ==> now[k] >= cutoff
  {
    if k :| k in now && now[k] < cutoff {
      assert k in Expired(now, cutoff);
    }
  }

  /**
   The job's outcome. If it found nothing more to delete, exactly the rows expired by then are gone; if all 100
   batches ran, at least a million or all that had expired at the start. With a clock that stands still and no
   failure both come to min(expired, 1,000,000).
  */
  lemma JobOutcome(logs: Logs, cutoff: Cutoffs, pick: Picker, fails: nat -> bool, b: nat)
    requires Picks(pick) && Forward(cutoff) && EndsBefore(logs, cutoff, pick, fails, b)
    ensures var now := Left(logs, cutoff, pick, b);
            && (b < 100 && !fails(b) ==> |logs| - |now| == |Expired(logs, cutoff(b))| && forall k :: k in now ==> now[k] >= cutoff(b))
            && (b == 100 ==> |logs| - |now| >= Min(|Expired(logs, cutoff(0))|, 1_000_000))
            && ((forall c :: cutoff(c) == cutoff(0)) && (b == 100 || !fails(b)) ==>
                  |logs| - |now| == Min(|Expired(logs, cutoff(0))|, 1_000_000))
            && b <= 100
  {
    hide Left, Picks, Expired;
    var now := Left(logs, cutoff, pick, b);
    AllGoneExpired(logs, cutoff, pick, b, cutoff(b));
    ExpiredLeft(logs, now, cutoff(b));
    NoneExpired(now, cutoff(b));
    if b > 0 {
      RemovedBounds(logs, cutoff, pick, b);
    } else {
      NoBatch(logs, cutoff, pick);
    }
  }
}
