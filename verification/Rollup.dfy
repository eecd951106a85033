/** The hourly rollup as a cache of the raw transactions table. */
module Rollup {
  import opened Prelude
  import opened Schema
  import opened Ledger
  import opened LedgerInvariant

  datatype Agg = Agg(count: nat, uniqueAddresses: nat, avgGasPrice: nat, totalValue: int)

  const ZEROS: Agg := Agg(0, 0, 0, 0)

  type Txs = map<Hash, TxRow>
  type Hourly = map<Time, Agg>

  function TruncHour(t: Time): Time { t - t % HOUR }

  // ----- The direct aggregate -----

  function Participants(txs: Txs, s: set<Hash>): set<Address> {
    (set h | h in s && h in txs :: txs[h].from)
    + (set h | h in s && h in txs && txs[h].to.Some? :: txs[h].to.value)
  }

  ghost function SumGas(txs: Txs, s: set<Hash>): nat
    requires s <= txs.Keys
  {
    if s == {} then 0
    else var h :| h in s; txs[h].payload.gasPrice + SumGas(txs, s - {h})
  }

  ghost function SumValue(txs: Txs, s: set<Hash>): int
    requires s <= txs.Keys
  {
    if s == {} then 0
    else var h :| h in s; txs[h].payload.value + SumValue(txs, s - {h})
  }

  /** ROUND(AVG(x)) of non-negative numbers, ties away from zero; 0 of none. */
  function RoundedAverage(sum: nat, count: nat): nat {
    if count == 0 then 0 else (2 * sum + count) / (2 * count)
  }

  ghost function Aggregate(txs: Txs, s: set<Hash>): Agg
    requires s <= txs.Keys
  {
    Agg(|s|, |Participants(txs, s)|, RoundedAverage(SumGas(txs, s), |s|), SumValue(txs, s))
  }

  function RowsIn(txs: Txs, bucket: Time): set<Hash> {
    set h | h in txs && TruncHour(txs[h].timestamp) == bucket
  }

  lemma {:induction false} SumGasSplit(txs: Txs, s: set<Hash>, h: Hash)
    requires s <= txs.Keys && h in s
    ensures SumGas(txs, s) == txs[h].payload.gasPrice + SumGas(txs, s - {h})
    decreases s
  {
    var g :| g in s && SumGas(txs, s) == txs[g].payload.gasPrice + SumGas(txs, s - {g});
    if g != h {
      SumGasSplit(txs, s - {g}, h);
      SumGasSplit(txs, s - {h}, g);
      assert s - {g} - {h} == s - {h} - {g};
    }
  }

  lemma {:induction false} SumValueSplit(txs: Txs, s: set<Hash>, h: Hash)
    requires s <= txs.Keys && h in s
    ensures SumValue(txs, s) == txs[h].payload.value + SumValue(txs, s - {h})
    decreases s
  {
    var g :| g in s && SumValue(txs, s) == txs[g].payload.value + SumValue(txs, s - {g});
    if g != h {
      SumValueSplit(txs, s - {g}, h);
      SumValueSplit(txs, s - {h}, g);
      assert s - {g} - {h} == s - {h} - {g};
    }
  }

  // ----- GROUP BY in one pass -----

  datatype Acc = Acc(count: nat, addresses: set<Address>, gas: nat, value: int)

  ghost predicate Accumulates(acc: Acc, txs: Txs, s: set<Hash>) {
    s <= txs.Keys && CountsRows(acc, txs, s) && SumsRows(acc, txs, s)
  }

  ghost predicate CountsRows(acc: Acc, txs: Txs, s: set<Hash>)
    requires s <= txs.Keys
  {
    acc.count == |s| && acc.addresses == Participants(txs, s)
  }

  ghost predicate SumsRows(acc: Acc, txs: Txs, s: set<Hash>)
    requires s <= txs.Keys
  {
    acc.gas == SumGas(txs, s) && acc.value == SumValue(txs, s)
  }

  function AddRow(acc: Acc, row: TxRow): Acc {
    Acc(acc.count + 1,
        acc.addresses + {row.from} + (if row.to.Some? then {row.to.value} else {}),
        acc.gas + row.payload.gasPrice, acc.value + row.payload.value)
  }

  lemma AddRowAccumulates(acc: Acc, txs: Txs, s: set<Hash>, h: Hash)
    requires Accumulates(acc, txs, s) && h in txs && h !in s
    ensures Accumulates(AddRow(acc, txs[h]), txs, s + {h})
  {
    SumNextRow(acc, txs, s, h);
    CountNextRow(acc, txs, s, h);
  }

  lemma CountNextRow(acc: Acc, txs: Txs, s: set<Hash>, h: Hash)
    requires s <= txs.Keys && CountsRows(acc, txs, s) && h in txs && h !in s
    ensures CountsRows(AddRow(acc, txs[h]), txs, s + {h})
  {
    OneMoreParticipant(txs, s, h);
  }

  lemma SumNextRow(acc: Acc, txs: Txs, s: set<Hash>, h: Hash)
    requires s <= txs.Keys && SumsRows(acc, txs, s) && h in txs && h !in s
    ensures SumsRows(AddRow(acc, txs[h]), txs, s + {h})
  {
    assert s + {h} - {h} == s;
    SumGasSplit(txs, s + {h}, h);
    SumValueSplit(txs, s + {h}, h);
  }

  lemma OneMoreParticipant(txs: Txs, s: set<Hash>, h: Hash)
    requires s <= txs.Keys && h in txs
    ensures Participants(txs, s + {h}) ==
      Participants(txs, s) + {txs[h].from} + (if txs[h].to.Some? then {txs[h].to.value} else {})
  {
  }

  function Finish(acc: Acc): Agg {
    Agg(acc.count, |acc.addresses|, RoundedAverage(acc.gas, acc.count), acc.value)
  }

  /** The rows the refresh reads. */
  function Windowed(txs: Txs, since: Time): set<Hash> {
    set h | h in txs && txs[h].timestamp >= TruncHour(since)
  }

  function WindowRows(txs: Txs, done: set<Hash>, bucket: Time): set<Hash> {
    set h | h in done && h in txs && TruncHour(txs[h].timestamp) == bucket
  }

  /** The groups of the rows read so far. */
  ghost predicate Grouped(groups: map<Time, Acc>, txs: Txs, done: set<Hash>) {
    && (forall b :: b in groups <==> WindowRows(txs, done, b) != {})
    && (forall b | b in groups :: Accumulates(groups[b], txs, WindowRows(txs, done, b)))
  }

  function GroupOf(groups: map<Time, Acc>, b: Time): Acc {
    if b in groups then groups[b] else Acc(0, {}, 0, 0)
  }

  lemma GroupOfAccumulates(groups: map<Time, Acc>, txs: Txs, done: set<Hash>, b: Time)
    requires Grouped(groups, txs, done)
    ensures Accumulates(GroupOf(groups, b), txs, WindowRows(txs, done, b))
  {
    if b !in groups {
      assert WindowRows(txs, done, b) == {};
      assert Participants(txs, {}) == {};
    }
  }

  lemma GroupedStep(groups: map<Time, Acc>, txs: Txs, done: set<Hash>, h: Hash)
    requires Grouped(groups, txs, done) && h in txs && h !in done
    ensures var b := TruncHour(txs[h].timestamp);
      Grouped(groups[b := AddRow(GroupOf(groups, b), txs[h])], txs, done + {h})
  {
    var b := TruncHour(txs[h].timestamp);
    GroupOfAccumulates(groups, txs, done, b);
    assert WindowRows(txs, done + {h}, b) == WindowRows(txs, done, b) + {h};
    AddRowAccumulates(GroupOf(groups, b), txs, WindowRows(txs, done, b), h);
    OtherGroups(groups, txs, done, h, AddRow(GroupOf(groups, b), txs[h]));
  }

  lemma OtherGroups(groups: map<Time, Acc>, txs: Txs, done: set<Hash>, h: Hash, acc: Acc)
    requires Grouped(groups, txs, done) && h in txs && h !in done
    requires Accumulates(acc, txs, WindowRows(txs, done + {h}, TruncHour(txs[h].timestamp)))
    ensures Grouped(groups[TruncHour(txs[h].timestamp) := acc], txs, done + {h})
  {
    var b := TruncHour(txs[h].timestamp);
    assert h in WindowRows(txs, done + {h}, b);
    forall c | c != b ensures WindowRows(txs, done + {h}, c) == WindowRows(txs, done, c) {}
  }

  lemma FinishIsAggregate(acc: Acc, txs: Txs, s: set<Hash>)
    requires Accumulates(acc, txs, s)
    ensures Finish(acc) == Aggregate(txs, s)
  {
  }

  /** The rollup after a refresh: the hours that have rows in the window are recomputed. */
  ghost predicate Refreshed(before: Hourly, after: Hourly, txs: Txs, since: Time) {
    && (forall b :: b in after <==> b in before || WindowRows(txs, Windowed(txs, since), b) != {})
    && (forall b | b in after :: after[b] ==
          if WindowRows(txs, Windowed(txs, since), b) != {}
          then Aggregate(txs, WindowRows(txs, Windowed(txs, since), b)) else before[b])
  }

  /** The hours with rows in the window: the buckets a refresh writes. */
  function WindowHours(txs: Txs, since: Time): set<Time> {
    set h | h in Windowed(txs, since) :: TruncHour(txs[h].timestamp)
  }

  lemma GroupsAreHours(groups: map<Time, Acc>, txs: Txs, since: Time)
    requires Grouped(groups, txs, Windowed(txs, since))
    ensures |groups| == |WindowHours(txs, since)|
  {
    var rows := Windowed(txs, since);
    forall b ensures b in groups.Keys <==> b in WindowHours(txs, since) {
      if b in groups {
        var h :| h in WindowRows(txs, rows, b);
        assert h in rows;
      }
      if b in WindowHours(txs, since) {
        var h :| h in rows && TruncHour(txs[h].timestamp) == b;
        assert h in WindowRows(txs, rows, b);
      }
    }
    assert groups.Keys == WindowHours(txs, since);
    assert |groups| == |groups.Keys|;
  }

  // ----- What a bucket says, in terms of the rows -----

  /** The sum of f over a set of rows. */
  ghost function Sum(s: set<Hash>, f: Hash -> int): int {
    if s == {} then 0 else var h :| h in s; f(h) + Sum(s - {h}, f)
  }

  lemma {:induction false} SumSplit(s: set<Hash>, f: Hash -> int, h: Hash)
    requires h in s
    ensures Sum(s, f) == f(h) + Sum(s - {h}, f)
    decreases s
  {
    var g :| g in s && Sum(s, f) == f(g) + Sum(s - {g}, f);
    if g != h {
      SumSplit(s - {g}, f, h);
      SumSplit(s - {h}, f, g);
      assert s - {g} - {h} == s - {h} - {g};
    }
  }

  function GasPrice(txs: Txs, h: Hash): int { if h in txs then txs[h].payload.gasPrice else 0 }

  function Value(txs: Txs, h: Hash): int { if h in txs then txs[h].payload.value else 0 }

  lemma {:induction false} SumsAre(txs: Txs, s: set<Hash>)
    requires s <= txs.Keys
    ensures SumGas(txs, s) == Sum(s, h => GasPrice(txs, h)) && SumValue(txs, s) == Sum(s, h => Value(txs, h))
    decreases s
  {
    if h :| h in s {
      SumsAre(txs, s - {h});
      SumGasSplit(txs, s, h);
      SumValueSplit(txs, s, h);
      SumSplit(s, g => GasPrice(txs, g), h);
      SumSplit(s, g => Value(txs, g), h);
    }
  }

  /** The rows of the hour that begins at b. */
  function HourRows(txs: Txs, b: Time): set<Hash> {
    set h | h in txs && b <= txs[h].timestamp < b + 3_600_000_000
  }

  /** avg is sum / count rounded to the nearest whole number, halves up; 0 of nothing. */
  predicate IsAverage(avg: nat, sum: int, count: nat) {
    if count == 0 then avg == 0 else 2 * sum - count < 2 * (avg * count) <= 2 * sum + count
  }

  /** The bucket counts the rows, their different senders and recipients, and holds the average gas price and
      the volume. */
  ghost predicate Summarises(agg: Agg, txs: Txs, rows: set<Hash>)
    requires rows <= txs.Keys
  {
    && agg.count == |rows|
    && agg.uniqueAddresses ==
         |(set h | h in rows :: txs[h].from) + (set h | h in rows && txs[h].to.Some? :: txs[h].to.value)|
    && IsAverage(agg.avgGasPrice, Sum(rows, h => GasPrice(txs, h)), |rows|)
    && agg.totalValue == Sum(rows, h => Value(txs, h))
  }

  lemma RoundsExactly(avg: nat, sum: nat, count: nat)
    ensures IsAverage(avg, sum, count) <==> avg == RoundedAverage(sum, count)
  {
    if count > 0 {
      var d := 2 * count;
      var q := (2 * sum + count) / d;
      assert q * d <= 2 * sum + count < q * d + d;
      Quotient(avg, q, d, 2 * sum + count);
      assert avg * d == 2 * (avg * count);
    }
  }

  lemma Quotient(a: nat, q: nat, d: nat, x: nat)
    requires d > 0 && q * d <= x < q * d + d
    ensures a * d <= x < a * d + d <==> a == q
  {
    if a > q { OneMoreTime(a, q, d); }
    if a < q { OneMoreTime(q, a, d); }
  }

  lemma OneMoreTime(a: nat, q: nat, d: nat)
    requires a > q
    ensures a * d >= q * d + d
  {
    var k: nat := a - q - 1;
    NotNegative(k, d);
    assert (k + q + 1) * d == k * d + q * d + d;
  }

  lemma NotNegative(k: nat, d: nat)
    ensures k * d >= 0
  {
  }

  lemma AggregateExactly(agg: Agg, txs: Txs, rows: set<Hash>)
    requires rows <= txs.Keys
    ensures agg == Aggregate(txs, rows) <==> Summarises(agg, txs, rows)
  {
    SumsAre(txs, rows);
    RoundsExactly(agg.avgGasPrice, SumGas(txs, rows), |rows|);
    assert Participants(txs, rows) ==
      (set h | h in rows :: txs[h].from) + (set h | h in rows && txs[h].to.Some? :: txs[h].to.value);
  }

  lemma HourExactly(t: Time, b: Time)
    ensures TruncHour(t) == b <==> b % 3_600_000_000 == 0 && b <= t < b + 3_600_000_000
  {
  }

  lemma RowsOfHour(txs: Txs, b: Time)
    ensures RowsIn(txs, b) == if b % 3_600_000_000 == 0 then HourRows(txs, b) else {}
  {
    forall h | h in txs
      ensures TruncHour(txs[h].timestamp) == b <==>
        b % 3_600_000_000 == 0 && b <= txs[h].timestamp < b + 3_600_000_000
    {
      HourExactly(txs[h].timestamp, b);
    }
  }

  /** The hour is not over at `since`, and has rows. */
  predicate InWindow(txs: Txs, since: Time, b: Time) {
    b % 3_600_000_000 == 0 && since < b + 3_600_000_000 && HourRows(txs, b) != {}
  }

  lemma WindowExactly(txs: Txs, since: Time, b: Time)
    ensures WindowRows(txs, Windowed(txs, since), b) == if InWindow(txs, since, b) then HourRows(txs, b) else {}
  {
    WindowIsWholeHours(txs, since, b);
    RowsOfHour(txs, b);
    HourExactly(since, TruncHour(since));
  }

  /** One bucket after a refresh: the hours of the window with rows are summarised, every other bucket stays. */
  lemma RefreshedBucket(before: Hourly, after: Hourly, txs: Txs, since: Time, b: Time)
    requires Refreshed(before, after, txs, since)
    ensures if InWindow(txs, since, b) then b in after && Summarises(after[b], txs, HourRows(txs, b))
            else (b in after <==> b in before) && (b in before ==> after[b] == before[b])
  {
    WindowExactly(txs, since, b);
    if InWindow(txs, since, b) { AggregateExactly(after[b], txs, HourRows(txs, b)); }
  }

  lemma WindowHoursExactly(txs: Txs, since: Time, b: Time)
    ensures b in WindowHours(txs, since) <==> InWindow(txs, since, b)
  {
    WindowExactly(txs, since, b);
    if b in WindowHours(txs, since) {
      var h :| h in Windowed(txs, since) && TruncHour(txs[h].timestamp) == b;
      assert h in WindowRows(txs, Windowed(txs, since), b);
    }
    if h :| h in WindowRows(txs, Windowed(txs, since), b) {
      assert h in Windowed(txs, since) && TruncHour(txs[h].timestamp) == b;
    }
  }

  /** Where the rollup agrees with the raw table: each hour with rows has a bucket that summarises them, and
      nothing else has one. */
  lemma AgreesExactly(hourly: Hourly, txs: Txs, b: Time)
    ensures AgreesAt(hourly, txs, b) <==>
      && (b in hourly <==> b % 3_600_000_000 == 0 && HourRows(txs, b) != {})
      && (b in hourly ==> Summarises(hourly[b], txs, HourRows(txs, b)))
  {
    RowsOfHour(txs, b);
    if b in hourly && b % 3_600_000_000 == 0 { AggregateExactly(hourly[b], txs, HourRows(txs, b)); }
  }

  datatype Point = Point(bucket: Time, agg: Agg)

  class NetworkRollup {
    var hourly: Hourly

    method GroupRows(txs: Txs, since: Time) returns (groups: map<Time, Acc>)
      ensures Grouped(groups, txs, Windowed(txs, since))
    {
      groups := map[];
      var todo := Windowed(txs, since);
      ghost var done: set<Hash> := {};
      while todo != {}
        invariant done + todo == Windowed(txs, since) && done !! todo
        invariant Grouped(groups, txs, done)
        decreases todo
      {
        var h :| h in todo;
        GroupedStep(groups, txs, done, h);
        var b := TruncHour(txs[h].timestamp);
        groups := groups[b := AddRow(GroupOf(groups, b), txs[h])];
        todo := todo - {h};
        done := done + {h};
      }
      assert done == Windowed(txs, since);
    }

    method RefreshNetworkHourly(txs: Txs, since: Time) returns (affected: nat)
      modifies this
      ensures forall b ::
        if InWindow(txs, since, b) then b in hourly && Summarises(hourly[b], txs, HourRows(txs, b))
        else (b in hourly <==> b in old(hourly)) && (b in old(hourly) ==> hourly[b] == old(hourly)[b])
      ensures Refreshed(old(hourly), hourly, txs, since)
      ensures affected == |WindowHours(txs, since)|
    {
      var groups := GroupRows(txs, since);
      ghost var rows := Windowed(txs, since);
      forall b | b in groups ensures Finish(groups[b]) == Aggregate(txs, WindowRows(txs, rows, b)) {
        FinishIsAggregate(groups[b], txs, WindowRows(txs, rows, b));
      }
      hourly := map b | b in hourly.Keys + groups.Keys ::
        if b in groups then Finish(groups[b]) else hourly[b];
      affected := |groups|;
      GroupsAreHours(groups, txs, since);
      forall b
        ensures if InWindow(txs, since, b) then b in hourly && Summarises(hourly[b], txs, HourRows(txs, b))
                else (b in hourly <==> b in old(hourly)) && (b in old(hourly) ==> hourly[b] == old(hourly)[b])
      {
        RefreshedBucket(old(hourly), hourly, txs, since, b);
      }
    }

    /** One point per hour for the last `hours` hours, oldest first, empty hours as zeros. A negative
        number of hours panics: it is the capacity of the slice to fill. */
    method NetworkMetrics(hours: int, now: Time) returns (panics: bool, points: seq<Point>)
      ensures panics <==> hours < 0
      ensures !panics ==> |points| == hours
      ensures forall i | 0 <= i < |points| ::
        && points[i].bucket % 3_600_000_000 == 0
        && now - 3_600_000_000 < points[i].bucket + (hours - 1 - i) * 3_600_000_000 <= now
        && points[i].agg == if points[i].bucket in hourly then hourly[points[i].bucket] else Agg(0, 0, 0, 0)
    {
      panics, points := hours < 0, [];
      if panics { return; }
      var bucket := TruncHour(now) - (hours - 1) * HOUR;
      while bucket <= TruncHour(now)
        invariant bucket == TruncHour(now) - (hours - 1 - |points|) * HOUR
        invariant |points| <= hours
        invariant forall i | 0 <= i < |points| ::
          && points[i].bucket == TruncHour(now) - (hours - 1 - i) * HOUR
          && points[i].agg == if points[i].bucket in hourly then hourly[points[i].bucket] else ZEROS
        decreases TruncHour(now) - bucket
      {
        points := points + [Point(bucket, if bucket in hourly then hourly[bucket] else ZEROS)];
        bucket := bucket + HOUR;
      }
    }
  }

  // ----- Agreement with the raw table -----

  ghost predicate AgreesAt(hourly: Hourly, txs: Txs, b: Time) {
    && (b in hourly <==> RowsIn(txs, b) != {})
    && (b in hourly ==> hourly[b] == Aggregate(txs, RowsIn(txs, b)))
  }

  ghost predicate Agrees(hourly: Hourly, txs: Txs) {
    forall b :: AgreesAt(hourly, txs, b)
  }

  lemma TruncFacts(t: Time, since: Time)
    ensures t >= TruncHour(since) <==> TruncHour(t) >= TruncHour(since)
  {
  }

  lemma WindowIsWholeHours(txs: Txs, since: Time, b: Time)
    ensures WindowRows(txs, Windowed(txs, since), b) == if b >= TruncHour(since) then RowsIn(txs, b) else {}
  {
    forall h | h in txs
      ensures txs[h].timestamp >= TruncHour(since) <==> TruncHour(txs[h].timestamp) >= TruncHour(since)
    {
      TruncFacts(txs[h].timestamp, since);
    }
  }

  /** After a refresh every bucket is the direct aggregate of its hour if and only if the hours before
      the window already were, and the window holds no bucket of an empty hour. */
  lemma RefreshAgrees(before: Hourly, after: Hourly, txs: Txs, since: Time)
    requires Refreshed(before, after, txs, since)
    ensures Agrees(after, txs) <==>
      && (forall b | b < TruncHour(since) :: AgreesAt(before, txs, b))
      && (forall b | b >= TruncHour(since) && b in before :: RowsIn(txs, b) != {})
  {
    forall b
      ensures b < TruncHour(since) ==> (AgreesAt(after, txs, b) <==> AgreesAt(before, txs, b))
      ensures b >= TruncHour(since) ==> (AgreesAt(after, txs, b) <==> (b in before ==> RowsIn(txs, b) != {}))
    {
      WindowIsWholeHours(txs, since, b);
    }
  }

  /** Where the rollup agrees, a chart point is the aggregate of its hour, zeros for an empty one. */
  lemma PointIsAggregate(hourly: Hourly, txs: Txs, b: Time)
    requires AgreesAt(hourly, txs, b)
    ensures (if b in hourly then hourly[b] else ZEROS) == Aggregate(txs, RowsIn(txs, b))
  {
    if b !in hourly {
      assert Participants(txs, {}) == {};
      assert RowsIn(txs, b) == {};
    }
  }

  // ----- The writers only add rows -----

  ghost predicate OnlyAdds(before: Txs, after: Txs) {
    forall h | h in before :: h in after
      && after[h].from == before[h].from && after[h].to == before[h].to
      && after[h].payload == before[h].payload && after[h].timestamp == before[h].timestamp
  }

  /** Rows are only added, stamped with t. */
  ghost predicate AddsAt(before: Txs, after: Txs, t: Time) {
    OnlyAdds(before, after) && forall h | h in after && h !in before :: after[h].timestamp == t
  }

  lemma AddsAtThrough(a: Txs, b: Txs, c: Txs, t: Time)
    requires OnlyAdds(a, b) && b.Keys == a.Keys && AddsAt(b, c, t)
    ensures AddsAt(a, c, t)
  {
  }

  lemma RecordOnlyAdds(db: Db, mb: MinedBlock, now: Time, after: Db)
    requires RecordBlock(db, mb, now) == Ok(after)
    ensures OnlyAdds(db.txs, after.txs) && after.txs.Keys == db.txs.Keys
  {
  }

  lemma PromoteOrSkipOnlyAdds(db: Db, mb: MinedBlock, now: Time, after: Db)
    requires if mb.transactions == [] then after == db else UpsertMined(db, mb, now) == Ok(after)
    ensures AddsAt(db.txs, after.txs, mb.block.minedAt)
  {
    if mb.transactions != [] { PromoteOnlyAdds(db, mb, now, after); }
  }

  lemma TransfersLeaveTxs(db: Db, mb: MinedBlock, now: Time, after: Db)
    requires if mb.transfers == [] then after == db
             else InsertTransfers(db, mb.block.number, mb.transfers, now) == Ok(after)
    ensures after.txs == db.txs
  {
  }

  lemma SaveBlockOnlyAdds(db: Db, mb: MinedBlock, now: Time, after: Db)
    requires SaveBlock(db, mb, now) == Ok(after)
    ensures AddsAt(db.txs, after.txs, mb.block.minedAt)
  {
    if !AlreadyStored(db, mb) {
      var recorded, promoted := SaveBlockStages(db, mb, now, after);
      RecordOnlyAdds(db, mb, now, recorded);
      PromoteOrSkipOnlyAdds(recorded, mb, now, promoted);
      TransfersLeaveTxs(promoted, mb, now, after);
      AddsAtThrough(db.txs, recorded.txs, promoted.txs, mb.block.minedAt);
    }
  }

  lemma PromotedRowStays(txs: Txs, mb: MinedBlock, h: Hash)
    requires h in PromoteTxs(txs, mb)
    ensures var row := PromoteTxs(txs, mb)[h];
      if h in txs then row.payload == txs[h].payload && row.timestamp == txs[h].timestamp
        && row.from == txs[h].from && row.to == txs[h].to
      else row.timestamp == mb.block.minedAt
  {
    if h in HashSet(mb.transactions) { assert FindTx(mb.transactions, h).hash == h; }
  }

  lemma PromotedOnlyAdds(txs: Txs, mb: MinedBlock)
    ensures AddsAt(txs, PromoteTxs(txs, mb), mb.block.minedAt)
  {
    forall h | h in PromoteTxs(txs, mb)
      ensures h in txs ==>
        && PromoteTxs(txs, mb)[h].payload == txs[h].payload
        && PromoteTxs(txs, mb)[h].timestamp == txs[h].timestamp
        && PromoteTxs(txs, mb)[h].from == txs[h].from && PromoteTxs(txs, mb)[h].to == txs[h].to
      ensures h !in txs ==> PromoteTxs(txs, mb)[h].timestamp == mb.block.minedAt
    {
      PromotedRowStays(txs, mb, h);
    }
  }

  lemma PromoteOnlyAdds(db: Db, mb: MinedBlock, now: Time, after: Db)
    requires UpsertMined(db, mb, now) == Ok(after)
    ensures AddsAt(db.txs, after.txs, mb.block.minedAt)
  {
    PromotedOnlyAdds(db.txs, mb);
    ReplacedOnlyAdds(db.txs, PromoteTxs(db.txs, mb), mb.transactions, mb.block.minedAt);
    UpsertedTxs(db, mb, now, after);
  }

  lemma UpsertedTxs(db: Db, mb: MinedBlock, now: Time, after: Db)
    requires UpsertMined(db, mb, now) == Ok(after)
    ensures after.txs == MarkReplaced(PromoteTxs(db.txs, mb), mb.transactions)
  {
  }

  lemma ReplacedOnlyAdds(before: Txs, txs: Txs, list: seq<Tx>, t: Time)
    requires AddsAt(before, txs, t)
    ensures AddsAt(before, MarkReplaced(txs, list), t)
  {
  }

  /** No writer changes the sender, recipient, amounts or timestamp of a stored transaction, and a
      new row is stamped with the time it was observed or mined. */
  lemma WritersOnlyAdd(db: Db, op: Op)
    ensures OnlyAdds(db.txs, Step(db, op).txs)
    ensures forall h | h in Step(db, op).txs && h !in db.txs ::
      (op.SaveTx? && Step(db, op).txs[h].timestamp == op.tx.timestamp)
      || (op.SaveMined? && Step(db, op).txs[h].timestamp == op.mb.block.minedAt)
  {
    if op.SaveMined? && Attempt(db, op).Ok? {
      SaveBlockOnlyAdds(db, op.mb, op.now, Step(db, op));
    }
  }

  // ----- A maintenance run -----

  /** The raw table and the rollup over time: a step either adds rows or refreshes from `since`. */
  ghost predicate IsMaintenance(txs: seq<Txs>, hourly: seq<Hourly>, refreshes: seq<Option<Time>>) {
    && |txs| == |hourly| == |refreshes| + 1
    && forall k | 0 <= k < |refreshes| ::
         if refreshes[k].None? then OnlyAdds(txs[k], txs[k + 1]) && hourly[k + 1] == hourly[k]
         else txs[k + 1] == txs[k] && Refreshed(hourly[k], hourly[k + 1], txs[k], refreshes[k].value)
  }

  /** The hours of the rows that a step adds. */
  function NewHours(before: Txs, after: Txs): set<Time> {
    set h | h in after && h !in before :: TruncHour(after[h].timestamp)
  }

  /** The hours that miss a row: a write adds hours, and a refresh clears those of its window. */
  function Stale(start: set<Time>, txs: seq<Txs>, refreshes: seq<Option<Time>>, k: nat): set<Time>
    requires |txs| == |refreshes| + 1 && k <= |refreshes|
  {
    if k == 0 then start
    else if refreshes[k - 1].None? then Stale(start, txs, refreshes, k - 1) + NewHours(txs[k - 1], txs[k])
    else Older(Stale(start, txs, refreshes, k - 1), refreshes[k - 1].value)
  }

  function Older(hours: set<Time>, since: Time): set<Time> {
    set b | b in hours && b < TruncHour(since)
  }

  predicate InReach(stale: set<Time>, since: Time) {
    forall b | b in stale :: b >= TruncHour(since)
  }

  /** Clean hours agree; dirty hours miss at least one row. */
  ghost predicate DirtyExact(hourly: Hourly, txs: Txs, dirty: set<Time>) {
    && (forall b | b !in dirty :: AgreesAt(hourly, txs, b))
    && (forall b | b in dirty :: RowsIn(txs, b) != {} && (b in hourly ==> hourly[b].count < |RowsIn(txs, b)|))
  }

  lemma AggregateSame(before: Txs, after: Txs, s: set<Hash>)
    requires OnlyAdds(before, after) && s <= before.Keys
    ensures s <= after.Keys && Aggregate(before, s) == Aggregate(after, s)
  {
    SumsSame(before, after, s);
    assert Participants(before, s) == Participants(after, s);
  }

  lemma {:induction false} SumsSame(before: Txs, after: Txs, s: set<Hash>)
    requires OnlyAdds(before, after) && s <= before.Keys
    ensures s <= after.Keys && SumGas(before, s) == SumGas(after, s) && SumValue(before, s) == SumValue(after, s)
    decreases s
  {
    if h :| h in s {
      SumsSame(before, after, s - {h});
      SumGasSplit(before, s, h);
      SumGasSplit(after, s, h);
      SumValueSplit(before, s, h);
      SumValueSplit(after, s, h);
    }
  }

  lemma WriteDirties(hourly: Hourly, before: Txs, after: Txs, dirty: set<Time>)
    requires DirtyExact(hourly, before, dirty) && OnlyAdds(before, after)
    ensures DirtyExact(hourly, after, dirty + NewHours(before, after))
  {
    forall b ensures RowsIn(before, b) <= RowsIn(after, b)
      ensures b !in NewHours(before, after) ==> RowsIn(after, b) == RowsIn(before, b)
      ensures |RowsIn(before, b)| <= |RowsIn(after, b)|
      ensures b in NewHours(before, after) ==> |RowsIn(before, b)| < |RowsIn(after, b)|
    {
      SubsetSmaller(RowsIn(before, b), RowsIn(after, b));
      if b in NewHours(before, after) {
        var h :| h in after && h !in before && TruncHour(after[h].timestamp) == b;
        assert h in RowsIn(after, b) && h !in RowsIn(before, b);
      }
    }
    forall b | b !in dirty + NewHours(before, after) ensures AgreesAt(hourly, after, b) {
      AggregateSame(before, after, RowsIn(before, b));
    }
    forall b | b in dirty + NewHours(before, after)
      ensures RowsIn(after, b) != {} && (b in hourly ==> hourly[b].count < |RowsIn(after, b)|)
    {
      if b !in dirty { assert AgreesAt(hourly, before, b); }
    }
  }

  lemma SubsetSmaller(a: set<Hash>, b: set<Hash>)
    requires a <= b
    ensures |a| <= |b| && (a != b ==> |a| < |b|)
  {
    assert b == a + (b - a);
    assert |b| == |a| + |b - a|;
  }

  lemma RefreshClears(before: Hourly, after: Hourly, txs: Txs, since: Time, dirty: set<Time>)
    requires DirtyExact(before, txs, dirty) && Refreshed(before, after, txs, since)
    ensures DirtyExact(after, txs, Older(dirty, since))
  {
    forall b
      ensures b !in Older(dirty, since) ==> AgreesAt(after, txs, b)
      ensures b in Older(dirty, since) ==> RowsIn(txs, b) != {} && (b in after ==> after[b].count < |RowsIn(txs, b)|)
    {
      WindowIsWholeHours(txs, since, b);
      if b !in dirty { assert AgreesAt(before, txs, b); }
    }
  }

  lemma {:induction false} StaleHours(
    start: set<Time>, txs: seq<Txs>, hourly: seq<Hourly>, refreshes: seq<Option<Time>>, k: nat)
    requires IsMaintenance(txs, hourly, refreshes) && k <= |refreshes| && DirtyExact(hourly[0], txs[0], start)
    ensures DirtyExact(hourly[k], txs[k], Stale(start, txs, refreshes, k))
  {
    if k > 0 {
      StaleHours(start, txs, hourly, refreshes, k - 1);
      var stale := Stale(start, txs, refreshes, k - 1);
      if refreshes[k - 1].None? {
        WriteDirties(hourly[k], txs[k - 1], txs[k], stale);
      } else {
        RefreshClears(hourly[k - 1], hourly[k], txs[k - 1], refreshes[k - 1].value, stale);
      }
    }
  }

  /** At every moment of every maintenance run, narrow and wide refreshes mixed with writes, the rollup
      agrees with the raw table if and only if no hour is stale. */
  lemma RollupExact(start: set<Time>, txs: seq<Txs>, hourly: seq<Hourly>, refreshes: seq<Option<Time>>, k: nat)
    requires IsMaintenance(txs, hourly, refreshes) && k <= |refreshes| && DirtyExact(hourly[0], txs[0], start)
    ensures Agrees(hourly[k], txs[k]) <==> Stale(start, txs, refreshes, k) == {}
  {
    StaleHours(start, txs, hourly, refreshes, k);
    var stale := Stale(start, txs, refreshes, k);
    if b :| b in stale { assert !AgreesAt(hourly[k], txs[k], b); }
  }

  /** So a refresh, such as the backfill at startup, restores agreement if and only if its window
      reaches back to every stale hour. */
  lemma RefreshExact(start: set<Time>, txs: seq<Txs>, hourly: seq<Hourly>, refreshes: seq<Option<Time>>, k: nat)
    requires IsMaintenance(txs, hourly, refreshes) && k < |refreshes| && DirtyExact(hourly[0], txs[0], start)
    requires refreshes[k].Some?
    ensures Agrees(hourly[k + 1], txs[k + 1]) <==> InReach(Stale(start, txs, refreshes, k), refreshes[k].value)
  {
    RollupExact(start, txs, hourly, refreshes, k + 1);
    var stale, since := Stale(start, txs, refreshes, k), refreshes[k].value;
    if InReach(stale, since) { assert Older(stale, since) == {}; }
    forall b | b in stale && b < TruncHour(since) ensures Older(stale, since) != {} { assert b in Older(stale, since); }
  }

  /** A rollup that agrees has no stale hour, and an empty one misses exactly the hours with rows. */
  lemma StartingPoints(hourly: Hourly, txs: Txs)
    ensures Agrees(hourly, txs) <==> DirtyExact(hourly, txs, {})
    ensures DirtyExact(map[], txs, NewHours(map[], txs))
  {
    forall b ensures b in NewHours(map[], txs) <==> RowsIn(txs, b) != {} {
      if b in NewHours(map[], txs) {
        var h :| h in txs && TruncHour(txs[h].timestamp) == b;
        assert h in RowsIn(txs, b);
      }
      if RowsIn(txs, b) != {} {
        var h :| h in RowsIn(txs, b);
        assert h in txs && TruncHour(txs[h].timestamp) == b;
      }
    }
  }
}
