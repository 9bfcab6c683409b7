/** The text corpus loop: batched model calls, a quality gate and a stateful deduplicator. */
module TextPipeline {
  import opened Sequences
  import opened Strings
  import opened GraphModels

  type Row = map<string, string>

  const MIN_LENGTH := 1
  const MAX_LENGTH := 20000

  predicate PassesQuality(row: Row, primary: string) {
    primary in row && MIN_LENGTH <= |Strip(row[primary])| <= MAX_LENGTH
  }

  /** A missing primary field is keyed by the `repr` of `None`. */
  function DedupKey(row: Row, primary: string): string {
    if primary in row then Strip(row[primary]) else "None"
  }

  function Keyed(primary: string): Row -> string {
    row => DedupKey(row, primary)
  }

  function Gate(primary: string): Row -> bool {
    row => PassesQuality(row, primary)
  }

  class Deduplicator {
    var seen: set<string>

    constructor ()
      ensures seen == {}
    {
      seen := {};
    }

    method IsDuplicate(row: Row, primary: string) returns (duplicate: bool)
      modifies this
      ensures duplicate <==> DedupKey(row, primary) in old(seen)
      ensures seen == old(seen) + {DedupKey(row, primary)}
    {
      var key := DedupKey(row, primary);
      if key in seen {
        return true;
      }
      seen := seen + {key};
      return false;
    }
  }

  /** A JSON item is a row when it is an object holding every target field as a string. */
  predicate IsRow(item: Value, fields: seq<string>) {
    item.Dict? && forall f :: f in fields ==> Get(item.entries, f).Str?
  }

  /** Only the target fields survive; anything else the object holds is dropped. */
  function RowOf(item: Value, fields: seq<string>): Row
    requires IsRow(item, fields)
  {
    map f | f in fields :: Get(item.entries, f).s
  }

  function RowsOf(items: seq<Value>, fields: seq<string>, k: nat): seq<Row>
    requires k <= |items|
  {
    if k == 0 then []
    else RowsOf(items, fields, k - 1) + (if IsRow(items[k - 1], fields) then [RowOf(items[k - 1], fields)] else [])
  }

  /** The item is an object with a string under every target field, and the row holds exactly those strings. */
  ghost predicate ReadFrom(row: Row, item: Value, fields: seq<string>) {
    && item.Dict?
    && (forall f :: f in row <==> f in fields)
    && (forall f :: f in fields ==> f in item.entries && item.entries[f] == Str(row[f]))
  }

  ghost function Readable(fields: seq<string>): Value -> bool { item => IsRow(item, fields) }

  lemma RowRead(item: Value, fields: seq<string>)
    ensures IsRow(item, fields) ==> ReadFrom(RowOf(item, fields), item, fields)
    ensures (exists row :: ReadFrom(row, item, fields)) ==> IsRow(item, fields)
  {
  }

  /** One row for each readable item, in order, with that item's strings; other items give none. */
  lemma {:induction false} RowsInOrder(items: seq<Value>, fields: seq<string>, k: nat)
    requires k <= |items|
    ensures var readable := Filter(items[..k], Readable(fields));
            && |RowsOf(items, fields, k)| == |readable|
            && forall i :: 0 <= i < |readable| ==> ReadFrom(RowsOf(items, fields, k)[i], readable[i], fields)
  {
    hide IsRow, RowOf, ReadFrom;
    if k > 0 {
      RowsInOrder(items, fields, k - 1);
      RowRead(items[k - 1], fields);
      assert items[..k][..k - 1] == items[..k - 1];
      assert Readable(fields)(items[k - 1]) == IsRow(items[k - 1], fields);
    }
  }

  /** What one response contributes: unparseable text and non-arrays contribute nothing. */
  function Batch(response: Option<Value>, fields: seq<string>): seq<Row> {
    if response.Some? && response.value.List?
    then RowsOf(response.value.items, fields, |response.value.items|)
    else []
  }

  method ExtractRows(response: Option<Value>, fields: seq<string>) returns (r: Option<seq<Row>>)
    ensures r.None? <==> response.None? || !response.value.List?
    ensures r.Some? ==> r.value == Batch(response, fields)
  {
    if response.None? || !response.value.List? {
      return None;
    }
    var items := response.value.items;
    var rows: seq<Row> := [];
    for i := 0 to |items|
      invariant rows == RowsOf(items, fields, i)
    {
      if IsRow(items[i], fields) {
        rows := rows + [RowOf(items[i], fields)];
      }
    }
    return Some(rows);
  }

  /** The rows of the first `k` responses, concatenated. */
  function Stream(responses: nat -> Option<Value>, fields: seq<string>, k: nat): seq<Row> {
    if k == 0 then [] else Stream(responses, fields, k - 1) + Batch(responses(k - 1), fields)
  }

  /** The declarative pipeline: gate, then keep the first row of each key. */
  ghost function Sift(xs: seq<Row>, primary: string): seq<Row> {
    FirstOccurrences(Filter(xs, Gate(primary)), Keyed(primary))
  }

  ghost function Pool(responses: nat -> Option<Value>, fields: seq<string>, primary: string, k: nat): seq<Row> {
    Sift(Stream(responses, fields, k), primary)
  }

  function Take<T>(xs: seq<T>, n: int): seq<T> {
    if n <= 0 then [] else if n <= |xs| then xs[..n] else xs
  }

  lemma SiftPrefix(xs: seq<Row>, ys: seq<Row>, primary: string)
    ensures Sift(xs, primary) <= Sift(xs + ys, primary)
  {
    FilterAppend(xs, ys, Gate(primary));
    FirstOccurrencesPrefix(Filter(xs, Gate(primary)), Filter(ys, Gate(primary)), Keyed(primary));
  }

  lemma SiftStep(xs: seq<Row>, x: Row, primary: string)
    ensures Sift(xs + [x], primary) == Sift(xs, primary)
      + (if PassesQuality(x, primary) && DedupKey(x, primary) !in KeySet(Sift(xs, primary), Keyed(primary))
         then [x] else [])
  {
    var kept := Filter(xs, Gate(primary));
    assert (xs + [x])[..|xs| + 1 - 1] == xs;
    if PassesQuality(x, primary) {
      assert Gate(primary)(x);
      assert Filter(xs + [x], Gate(primary)) == kept + [x];
      assert (kept + [x])[..|kept|] == kept;
      FirstOccurrencesKeys(kept, Keyed(primary));
      assert Keyed(primary)(x) == DedupKey(x, primary);
    } else {
      assert !Gate(primary)(x);
      assert Filter(xs + [x], Gate(primary)) == kept;
    }
  }

  /** At most `n` from the front, and all of them when there are no more. */
  lemma TakeExact<T>(xs: seq<T>, n: nat)
    ensures Take(xs, n) <= xs && |Take(xs, n)| <= n
    ensures |xs| <= n ==> Take(xs, n) == xs
    ensures |xs| > n ==> |Take(xs, n)| == n
  {
  }

  lemma TakePrefix<T>(xs: seq<T>, ys: seq<T>, n: int)
    requires xs <= ys && n <= |xs|
    ensures Take(xs, n) == Take(ys, n)
  {
  }

  lemma {:induction false} PoolGrows(responses: nat -> Option<Value>, fields: seq<string>, primary: string,
                                     k: nat, m: nat)
    requires k <= m
    ensures Pool(responses, fields, primary, k) <= Pool(responses, fields, primary, m)
    decreases m - k
  {
    if k < m {
      SiftPrefix(Stream(responses, fields, k), Batch(responses(k), fields), primary);
      PoolGrows(responses, fields, primary, k + 1, m);
    }
  }

  datatype Outcome = Table(rows: seq<Row>) | NoValidRows

  /** Runs the calls until `count` rows are held or the attempts are spent.  `calls` counts the model calls. */
  method Generate(responses: nat -> Option<Value>, fields: seq<string>, primary: string,
                  count: int, maxAttempts: int)
    returns (outcome: Outcome, calls: nat)
    ensures count <= 0 ==> outcome == Table([]) && calls == 0
    ensures var pool := Pool(responses, fields, primary, if maxAttempts < 0 then 0 else maxAttempts);
            count > 0 ==> outcome == if pool == [] then NoValidRows else Table(Take(pool, count))
    ensures maxAttempts < 0 ==> calls == 0
    ensures maxAttempts >= 0 ==> calls <= maxAttempts
    ensures count > 0 ==>
              && (calls < maxAttempts ==> |Pool(responses, fields, primary, calls)| >= count)
              && (forall m: nat :: m < calls ==> |Pool(responses, fields, primary, m)| < count)
  {
    hide Pool, Sift, Batch, DedupKey, PassesQuality;
    if count <= 0 {
      return Table([]), 0;
    }
    var dedup := new Deduplicator();
    var rows: seq<Row> := [];
    var limit := if maxAttempts < 0 then 0 else maxAttempts;
    calls := 0;
    PoolStart(responses, fields, primary);
    while calls < limit && |rows| < count
      invariant calls <= limit
      invariant rows == Take(Pool(responses, fields, primary, calls), count)
      invariant |rows| < count ==> dedup.seen == KeySet(rows, Keyed(primary))
      invariant forall m: nat :: m < calls ==> |Pool(responses, fields, primary, m)| < count
    {
      assert rows == Pool(responses, fields, primary, calls);
      var batch := ExtractRows(responses(calls), fields);
      if batch.None? {
        PoolSkips(responses, fields, primary, calls);
      } else {
        rows := Absorb(dedup, rows, batch.value, primary, count, Stream(responses, fields, calls)) by {
          PoolIsSift(responses, fields, primary, calls);
        }
        PoolIsSift(responses, fields, primary, calls + 1);
      }
      calls := calls + 1;
    }
    if |rows| >= count {
      PoolGrows(responses, fields, primary, calls, limit);
      TakePrefix(Pool(responses, fields, primary, calls), Pool(responses, fields, primary, limit), count);
    }
    if rows == [] {
      return NoValidRows, calls;
    }
    return Table(rows), calls;
  }

  lemma PoolStart(responses: nat -> Option<Value>, fields: seq<string>, primary: string)
    ensures Pool(responses, fields, primary, 0) == []
    ensures KeySet([], Keyed(primary)) == {}
  {
  }

  lemma PoolSkips(responses: nat -> Option<Value>, fields: seq<string>, primary: string, k: nat)
    requires responses(k).None? || !responses(k).value.List?
    ensures Pool(responses, fields, primary, k + 1) == Pool(responses, fields, primary, k)
  {
    assert Stream(responses, fields, k) + [] == Stream(responses, fields, k);
  }

  lemma PoolIsSift(responses: nat -> Option<Value>, fields: seq<string>, primary: string, k: nat)
    ensures Pool(responses, fields, primary, k) == Sift(Stream(responses, fields, k), primary)
    ensures k > 0 ==> Stream(responses, fields, k) == Stream(responses, fields, k - 1) + Batch(responses(k - 1), fields)
  {
  }

  /** The inner loop over one parsed batch, `earlier` being every row offered before it. */
  method Absorb(dedup: Deduplicator, rows0: seq<Row>, batch: seq<Row>, primary: string, count: int,
                ghost earlier: seq<Row>) returns (rows: seq<Row>)
    requires rows0 == Sift(earlier, primary) && |rows0| < count
    requires dedup.seen == KeySet(rows0, Keyed(primary))
    modifies dedup
    ensures rows == Take(Sift(earlier + batch, primary), count)
    ensures |rows| < count ==> dedup.seen == KeySet(rows, Keyed(primary))
  {
    hide Sift, DedupKey, PassesQuality;
    rows := rows0;
    var j := 0;
    assert earlier + batch[..0] == earlier;
    while j < |batch| && |rows| < count
      invariant j <= |batch|
      invariant |rows| <= count
      invariant rows == Sift(earlier + batch[..j], primary)
      invariant dedup.seen == KeySet(rows, Keyed(primary))
    {
      var row := batch[j];
      assert earlier + batch[..j + 1] == earlier + batch[..j] + [row];
      SiftStep(earlier + batch[..j], row, primary);
      if PassesQuality(row, primary) {
        var duplicate := dedup.IsDuplicate(row, primary);
        if !duplicate {
          KeySetOfAppend(rows, row, primary);
          rows := rows + [row];
        }
      }
      j := j + 1;
    }
    assert earlier + batch == (earlier + batch[..j]) + batch[j..];
    SiftPrefix(earlier + batch[..j], batch[j..], primary);
    if j < |batch| {
      TakePrefix(rows, Sift(earlier + batch, primary), count);
    } else {
      assert batch[..j] == batch;
    }
  }

  lemma KeySetOfAppend(rows: seq<Row>, row: Row, primary: string)
    ensures KeySet(rows + [row], Keyed(primary)) == KeySet(rows, Keyed(primary)) + {DedupKey(row, primary)}
  {
    KeySetLast(rows + [row], Keyed(primary));
    assert (rows + [row])[..|rows|] == rows;
  }

  lemma BatchOrigin(response: Option<Value>, fields: seq<string>, row: Row) returns (item: Value)
    requires row in Batch(response, fields)
    ensures response.Some? && response.value.List? && item in response.value.items && ReadFrom(row, item, fields)
  {
    hide ReadFrom, RowsOf, Filter;
    var items := response.value.items;
    var rows := RowsOf(items, fields, |items|);
    RowsInOrder(items, fields, |items|);
    assert items[..|items|] == items;
    var i :| 0 <= i < |rows| && rows[i] == row;
    item := Filter(items, Readable(fields))[i];
    FilterMember(items, Readable(fields), item);
  }

  /** A row of the stream was read from an item of some response. */
  lemma {:induction false} StreamOrigin(responses: nat -> Option<Value>, fields: seq<string>, k: nat, row: Row)
    returns (r: nat, item: Value)
    requires row in Stream(responses, fields, k)
    ensures r < k && responses(r).Some? && responses(r).value.List? && item in responses(r).value.items
    ensures ReadFrom(row, item, fields)
  {
    hide ReadFrom, Batch;
    if row in Stream(responses, fields, k - 1) {
      r, item := StreamOrigin(responses, fields, k - 1, row);
    } else {
      r := k - 1;
      item := BatchOrigin(responses(r), fields, row);
    }
  }

  /** The row comes from an item of one of the first `k` responses. */
  ghost predicate Answered(responses: nat -> Option<Value>, fields: seq<string>, k: nat, row: Row) {
    exists r: nat, item :: r < k && responses(r).Some? && responses(r).value.List? && item in responses(r).value.items
                           && ReadFrom(row, item, fields)
  }

  /**
   * Every row of the table holds the strings of an item of some response, its stripped primary text has 1 to 20000
   * characters, and no two rows share one.
   */
  lemma TableSound(responses: nat -> Option<Value>, fields: seq<string>, primary: string, k: nat, count: int)
    ensures var rows := Take(Pool(responses, fields, primary, k), count);
            && (forall row :: row in rows ==>
                  && Answered(responses, fields, k, row)
                  && primary in row && 1 <= |Strip(row[primary])| <= 20000)
            && (forall i, j :: 0 <= i < j < |rows| ==> Strip(rows[i][primary]) != Strip(rows[j][primary]))
  {
    var kept := Filter(Stream(responses, fields, k), Gate(primary));
    var pool := Pool(responses, fields, primary, k);
    forall row | row in pool ensures PassesQuality(row, primary) && Answered(responses, fields, k, row) {
      FirstOccurrencesMember(kept, Keyed(primary), row);
      FilterMember(Stream(responses, fields, k), Gate(primary), row);
      var r, item := StreamOrigin(responses, fields, k, row);
    }
    hide Answered, Strip, Stream;
    FirstOccurrencesKeys(kept, Keyed(primary));
    forall i | 0 <= i < |pool| ensures primary in pool[i] { assert pool[i] in pool; }
    forall i, j | 0 <= i < j < |pool| ensures Strip(pool[i][primary]) != Strip(pool[j][primary]) {
      assert Keyed(primary)(pool[i]) != Keyed(primary)(pool[j]);
    }
  }

  /**
   * Nothing acceptable is lost: the stripped text of each row of acceptable length is represented by the first row
   * that carries it.
   */
  lemma PoolComplete(responses: nat -> Option<Value>, fields: seq<string>, primary: string, k: nat, row: Row)
    requires row in Stream(responses, fields, k) && primary in row && 1 <= |Strip(row[primary])| <= 20000
    ensures exists kept ::
              && kept in Pool(responses, fields, primary, k)
              && primary in kept && Strip(kept[primary]) == Strip(row[primary])
  {
    hide Strip;
    var stream := Stream(responses, fields, k);
    var passed := Filter(stream, Gate(primary));
    FilterMember(stream, Gate(primary), row);
    FirstOccurrencesKeys(passed, Keyed(primary));
    var i :| 0 <= i < |passed| && passed[i] == row;
    assert Keyed(primary)(passed[i]) in KeySet(passed, Keyed(primary));
    var pool := Pool(responses, fields, primary, k);
    var j :| 0 <= j < |pool| && Keyed(primary)(pool[j]) == DedupKey(row, primary);
    FirstOccurrencesMember(passed, Keyed(primary), pool[j]);
    FilterMember(stream, Gate(primary), pool[j]);
    assert pool[j] in pool;
  }
}
