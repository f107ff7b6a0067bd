/**
 The migration that gives existing progress rows an append order and completions a
 watermark, statement by statement on the tables, and its reversal.
 */
module AppendOrder {
  import opened Wrappers
  import opened Sequences

  /** A progress row; its attempt is the rank of the attempt id in the database's text order. No order means the column is absent. */
  datatype Progress = Progress(attempt: int, sequence: nat, at: int, body: string, order: Option<int>)

  /** A completion row; absent columns are None. */
  datatype Completion = Completion(attempt: int, createdAt: int, terminalAt: Option<int>, updatedAt: Option<int>, watermark: Option<int>)

  /** A database sequence: the last value and whether it has been handed out. */
  datatype Counter = Counter(last: int, called: bool) {
    function Next(): int { if called then last + 1 else last }
  }

  // ---------------------------------------------------------------- the order of rows

  /** ORDER BY at, attempt_id, sequence. */
  predicate Before(a: Progress, b: Progress) {
    a.at < b.at || (a.at == b.at && (a.attempt < b.attempt || (a.attempt == b.attempt && a.sequence < b.sequence)))
  }

  /** The primary key (attempt_id, sequence). */
  ghost predicate KeysUnique(rows: seq<Progress>) {
    forall i, j | 0 <= i < j < |rows| :: rows[i].attempt != rows[j].attempt || rows[i].sequence != rows[j].sequence
  }

  ghost function Earlier(rows: seq<Progress>, row: Progress, n: nat): set<nat>
    requires n <= |rows|
  {
    set j | 0 <= j < n && Before(rows[j], row)
  }

  /** row_number(): one more than the number of rows that come before. */
  ghost function Rank(rows: seq<Progress>, i: nat): nat
    requires i < |rows|
  {
    |Earlier(rows, rows[i], |rows|)| + 1
  }

  lemma RankMonotone(rows: seq<Progress>, i: nat, j: nat)
    requires KeysUnique(rows) && i < |rows| && j < |rows| && Before(rows[i], rows[j])
    ensures Rank(rows, i) < Rank(rows, j)
  {
    var a, b := Earlier(rows, rows[i], |rows|), Earlier(rows, rows[j], |rows|);
    assert i in b && i !in a;
    assert forall k | k in a :: k in b;
    SubsetSize(a + {i}, b);
  }

  function Indices(n: nat): (s: set<nat>)
    ensures forall k: nat :: k in s <==> k < n
    ensures |s| == n
  {
    if n == 0 then {} else Indices(n - 1) + {n - 1}
  }

  /** The ranks are in the order of the rows, both ways, and lie in 1..n. */
  lemma {:induction false} RankOrders(rows: seq<Progress>, i: nat, j: nat)
    requires KeysUnique(rows) && i < |rows| && j < |rows|
    ensures Rank(rows, i) < Rank(rows, j) <==>
              var a, b := rows[i], rows[j];
              || a.at < b.at
              || (a.at == b.at && a.attempt < b.attempt)
              || (a.at == b.at && a.attempt == b.attempt && a.sequence < b.sequence)
    ensures Rank(rows, i) == Rank(rows, j) <==> i == j
    ensures 1 <= Rank(rows, i) <= |rows|
  {
    if Before(rows[i], rows[j]) {
      RankMonotone(rows, i, j);
    } else if i != j {
      assert Before(rows[j], rows[i]);
      RankMonotone(rows, j, i);
    }
    var earlier := Earlier(rows, rows[i], |rows|);
    assert i !in earlier;
    SubsetSize(earlier + {i}, Indices(|rows|));
  }

  ghost function RanksOfFirst(rows: seq<Progress>, n: nat): set<nat>
    requires n <= |rows|
  {
    set i | 0 <= i < n :: Rank(rows, i)
  }

  lemma {:induction false} RanksDistinct(rows: seq<Progress>, n: nat)
    requires KeysUnique(rows) && n <= |rows|
    ensures |RanksOfFirst(rows, n)| == n
  {
    hide Rank, KeysUnique;
    if n > 0 {
      RanksDistinct(rows, n - 1);
      var fewer := RanksOfFirst(rows, n - 1);
      forall i | 0 <= i < n - 1 ensures Rank(rows, i) != Rank(rows, n - 1) {
        RankOrders(rows, i, n - 1);
      }
      assert RanksOfFirst(rows, n) == fewer + {Rank(rows, n - 1)};
    }
  }

  /** Every number from 1 to n is the rank of some row. */
  lemma {:induction false} RanksFill(rows: seq<Progress>, k: nat)
    requires KeysUnique(rows) && 1 <= k <= |rows|
    ensures exists i | 0 <= i < |rows| :: Rank(rows, i) == k
  {
    var n := |rows|;
    var ranks := RanksOfFirst(rows, n);
    RanksDistinct(rows, n);
    if forall i | 0 <= i < n :: Rank(rows, i) != k {
      forall r | r in ranks ensures r in Indices(n + 1) - {0, k} {
        var i :| 0 <= i < n && Rank(rows, i) == r;
        RankOrders(rows, i, i);
      }
      SubsetSize(ranks, Indices(n + 1) - {0, k});
    }
  }

  // ---------------------------------------------------------------- what the columns mean

  ghost predicate OrderedByRank(rows: seq<Progress>, base: seq<Progress>) {
    |rows| == |base| && forall i | 0 <= i < |base| :: rows[i] == base[i].(order := Some(Rank(base, i)))
  }

  /** The greatest order among an attempt's rows, or 0 if it has none. */
  ghost predicate IsWatermark(rows: seq<Progress>, attempt: int, w: int) {
    && (forall r | r in rows && r.attempt == attempt :: r.order.Some? && r.order.value <= w)
    && (if exists r :: r in rows && r.attempt == attempt then exists r :: r in rows && r.attempt == attempt && r.order == Some(w)
        else w == 0)
  }

  function Updated(c: Completion): int {
    if c.terminalAt.Some? then c.terminalAt.value else c.createdAt
  }

  ghost predicate CompletedFrom(rows: seq<Progress>, after: seq<Completion>, base: seq<Completion>) {
    && |after| == |base|
    && forall i | 0 <= i < |base| ::
         && after[i].watermark.Some? && IsWatermark(rows, base[i].attempt, after[i].watermark.value)
         && after[i] == base[i].(updatedAt := after[i].updatedAt, watermark := after[i].watermark)
         && after[i].updatedAt == if base[i].terminalAt.Some? then base[i].terminalAt else Some(base[i].createdAt)
  }

  ghost predicate Unmigrated(rows: seq<Progress>, completions: seq<Completion>) {
    && (forall r | r in rows :: r.order.None?)
    && (forall c | c in completions :: c.updatedAt.None? && c.watermark.None?)
  }

  // ---------------------------------------------------------------- the statements

  class Tables {
    var progress: seq<Progress>
    var completions: seq<Completion>
    var counter: Option<Counter>

    constructor (progress: seq<Progress>, completions: seq<Completion>)
      ensures this.progress == progress && this.completions == completions && counter == None
    {
      this.progress, this.completions, counter := progress, completions, None;
    }

    /** row_number() of one row. */
    method RowNumber(rows: seq<Progress>, i: nat) returns (number: nat)
      requires i < |rows|
      ensures number == Rank(rows, i)
    {
      var before := 0;
      assert Earlier(rows, rows[i], 0) == {};
      for j := 0 to |rows|
        invariant before == |Earlier(rows, rows[i], j)|
      {
        assert Earlier(rows, rows[i], j + 1)
               == Earlier(rows, rows[i], j) + if Before(rows[j], rows[i]) then {j} else {};
        if Before(rows[j], rows[i]) { before := before + 1; }
      }
      number := before + 1;
    }

    method BackfillOrder()
      modifies this`progress
      ensures OrderedByRank(progress, old(progress))
    {
      var base := progress;
      for i := 0 to |base|
        invariant |progress| == |base|
        invariant forall k | 0 <= k < i :: progress[k] == base[k].(order := Some(Rank(base, k)))
        invariant forall k | i <= k < |base| :: progress[k] == base[k]
      {
        var number := RowNumber(base, i);
        progress := progress[i := progress[i].(order := Some(number))];
      }
    }

    /** MAX(append_order) over the rows of one attempt, or over all rows. */
    method MaxOrder(attempt: Option<int>) returns (max: Option<int>)
      requires forall r | r in progress :: r.order.Some?
      ensures max.None? <==> forall r | r in progress :: attempt.Some? && r.attempt != attempt.value
      ensures max.Some? ==> exists r | r in progress :: (attempt == None || r.attempt == attempt.value) && r.order == max
      ensures max.Some? ==> forall r | r in progress && (attempt == None || r.attempt == attempt.value) :: r.order.value <= max.value
    {
      max := None;
      for i := 0 to |progress|
        invariant max.None? <==> forall k | 0 <= k < i :: attempt.Some? && progress[k].attempt != attempt.value
        invariant max.Some? ==> exists k | 0 <= k < i :: (attempt == None || progress[k].attempt == attempt.value) && progress[k].order == max
        invariant max.Some? ==> forall k | 0 <= k < i && (attempt == None || progress[k].attempt == attempt.value) :: progress[k].order.value <= max.value
      {
        var row := progress[i];
        assert row in progress;
        if attempt == None || row.attempt == attempt.value {
          if max.None? || max.value < row.order.value { max := row.order; }
        }
      }
    }

    /** setval with COALESCE(MAX(append_order), 1), called exactly if there is a row. */
    method ReseedCounter()
      requires forall r | r in progress :: r.order.Some?
      modifies this`counter
      ensures counter.Some?
      ensures progress == [] ==> counter.value.Next() == 1
      ensures progress != [] ==> exists r | r in progress :: r.order == Some(counter.value.Next() - 1)
      ensures forall r | r in progress :: r.order.value < counter.value.Next()
    {
      var max := MaxOrder(None);
      if progress != [] { assert progress[0] in progress; }
      counter := Some(Counter(if max.Some? then max.value else 1, progress != []));
    }

    method BackfillUpdatedAt()
      modifies this`completions
      ensures |completions| == |old(completions)|
      ensures forall i | 0 <= i < |completions| ::
                var c := old(completions)[i];
                completions[i] == if c.updatedAt.None? then c.(updatedAt := Some(Updated(c))) else c
    {
      var base := completions;
      for i := 0 to |base|
        invariant |completions| == |base|
        invariant forall k | 0 <= k < i ::
                    completions[k] == if base[k].updatedAt.None? then base[k].(updatedAt := Some(Updated(base[k]))) else base[k]
        invariant forall k | i <= k < |base| :: completions[k] == base[k]
      {
        if completions[i].updatedAt.None? {
          completions := completions[i := completions[i].(updatedAt := Some(Updated(completions[i])))];
        }
      }
    }

    /** The watermark of one completion: from its attempt's rows, then 0 where that left none. */
    method Watermark(attempt: int) returns (w: int)
      requires forall r | r in progress :: r.order.Some?
      ensures IsWatermark(progress, attempt, w)
    {
      var max := MaxOrder(Some(attempt));
      w := if max.Some? then max.value else 0;
    }

    method BackfillWatermarks()
      requires forall r | r in progress :: r.order.Some?
      modifies this`completions
      ensures |completions| == |old(completions)|
      ensures forall i | 0 <= i < |completions| ::
                var c := old(completions)[i];
                if c.watermark.Some? then completions[i] == c
                else completions[i].watermark.Some? && IsWatermark(progress, c.attempt, completions[i].watermark.value)
                     && completions[i] == c.(watermark := completions[i].watermark)
    {
      var base := completions;
      for i := 0 to |base|
        invariant |completions| == |base|
        invariant forall k | 0 <= k < i ::
                    if base[k].watermark.Some? then completions[k] == base[k]
                    else completions[k].watermark.Some? && IsWatermark(progress, base[k].attempt, completions[k].watermark.value)
                         && completions[k] == base[k].(watermark := completions[k].watermark)
        invariant forall k | i <= k < |base| :: completions[k] == base[k]
      {
        if completions[i].watermark.None? {
          var w := Watermark(completions[i].attempt);
          completions := completions[i := completions[i].(watermark := Some(w))];
        }
      }
    }

    /**
     The whole upgrade. Its NOT NULL columns, unique index and check hold by what it ensures:
     orders are the ranks, the next order is one more than their number, and every
     completion has its time and its watermark.
     */
    method Upgrade()
      requires KeysUnique(progress) && Unmigrated(progress, completions)
      modifies this
      ensures OrderedByRank(progress, old(progress))
      ensures CompletedFrom(progress, completions, old(completions))
      ensures counter.Some? && counter.value.Next() == |progress| + 1
      ensures forall c | c in completions :: c.watermark.Some? && c.watermark.value >= 0
    {
      hide KeysUnique, OrderedByRank, IsWatermark, Updated;
      ghost var rows, done := progress, completions;
      counter := Some(Counter(1, false));
      BackfillOrder();
      OrdersPresent(progress, rows);
      ReseedCounter();
      NextIsOneMore(progress, rows, counter.value.Next());
      FillCompletions();
      WatermarksNotNegative(progress, rows, completions, done);
    }

    /** Both new columns of the completions. */
    method FillCompletions()
      requires forall r | r in progress :: r.order.Some?
      requires forall c | c in completions :: c.updatedAt.None? && c.watermark.None?
      modifies this`completions
      ensures CompletedFrom(progress, completions, old(completions))
    {
      hide IsWatermark;
      assert forall i | 0 <= i < |completions| :: completions[i] in completions;
      BackfillUpdatedAt();
      BackfillWatermarks();
    }

    method DropCompletionColumns()
      modifies this`completions
      ensures |completions| == |old(completions)|
      ensures forall i | 0 <= i < |completions| ::
                completions[i] == old(completions)[i].(updatedAt := None, watermark := None)
    {
      var done := completions;
      for i := 0 to |done|
        invariant |completions| == |done|
        invariant forall k | 0 <= k < i :: completions[k] == done[k].(updatedAt := None, watermark := None)
        invariant forall k | i <= k < |done| :: completions[k] == done[k]
      {
        completions := completions[i := completions[i].(updatedAt := None, watermark := None)];
      }
    }

    method DropOrderColumn()
      modifies this`progress
      ensures |progress| == |old(progress)|
      ensures forall i | 0 <= i < |progress| :: progress[i] == old(progress)[i].(order := None)
    {
      var rows := progress;
      for i := 0 to |rows|
        invariant |progress| == |rows|
        invariant forall k | 0 <= k < i :: progress[k] == rows[k].(order := None)
        invariant forall k | i <= k < |rows| :: progress[k] == rows[k]
      {
        progress := progress[i := progress[i].(order := None)];
      }
    }

    method Downgrade()
      modifies this
      ensures counter == None
      ensures |progress| == |old(progress)| && |completions| == |old(completions)|
      ensures forall i | 0 <= i < |progress| :: progress[i] == old(progress)[i].(order := None)
      ensures forall i | 0 <= i < |completions| ::
                completions[i] == old(completions)[i].(updatedAt := None, watermark := None)
    {
      DropCompletionColumns();
      DropOrderColumn();
      counter := None;
    }

    /** The downgrade undoes the upgrade. */
    method UpgradeThenDowngrade()
      requires KeysUnique(progress) && Unmigrated(progress, completions)
      modifies this
      ensures progress == old(progress) && completions == old(completions) && counter == None
    {
      hide KeysUnique, IsWatermark, Updated, Rank;
      ghost var rows, done := progress, completions;
      Upgrade();
      Downgrade();
      assert forall i | 0 <= i < |rows| :: rows[i] in rows;
      assert forall i | 0 <= i < |done| :: done[i] in done;
      assert progress == rows && completions == done;
    }
  }

  lemma OrdersPresent(rows: seq<Progress>, base: seq<Progress>)
    requires OrderedByRank(rows, base)
    ensures forall r | r in rows :: r.order.Some?
  {
  }

  /** After the backfill the next order is one more than the number of rows. */
  lemma NextIsOneMore(rows: seq<Progress>, base: seq<Progress>, next: int)
    requires KeysUnique(base) && OrderedByRank(rows, base)
    requires rows == [] ==> next == 1
    requires rows != [] ==> exists r | r in rows :: r.order == Some(next - 1)
    requires forall r | r in rows :: r.order.Some? && r.order.value < next
    ensures next == |rows| + 1
  {
    if rows != [] {
      RanksFill(base, |base|);
      var i :| 0 <= i < |base| && Rank(base, i) == |base|;
      assert rows[i] in rows;
      var r :| r in rows && r.order == Some(next - 1);
      var j :| 0 <= j < |rows| && rows[j] == r;
      RankOrders(base, j, j);
    }
  }

  lemma WatermarksNotNegative(rows: seq<Progress>, base: seq<Progress>, after: seq<Completion>, done: seq<Completion>)
    requires OrderedByRank(rows, base) && CompletedFrom(rows, after, done)
    ensures forall c | c in after :: c.watermark.Some? && c.watermark.value >= 0
  {
    hide OrderedByRank, IsWatermark, Updated;
    forall i | 0 <= i < |after| ensures after[i].watermark.Some? && after[i].watermark.value >= 0 {
      WatermarkNotNegative(rows, base, done[i].attempt, after[i].watermark.value);
    }
  }

  lemma WatermarkNotNegative(rows: seq<Progress>, base: seq<Progress>, attempt: int, w: int)
    requires OrderedByRank(rows, base) && IsWatermark(rows, attempt, w)
    ensures w >= 0
  {
    if r :| r in rows && r.attempt == attempt && r.order == Some(w) {
      var i :| 0 <= i < |rows| && rows[i] == r;
      assert rows[i].order == Some(Rank(base, i));
    }
  }

  // ---------------------------------------------------------------- order within an attempt

  /**
   Within one attempt the new order follows the sequence numbers exactly when the
   timestamps never go back along them: the order looks at the time first.
   */
  lemma {:induction false} OrderFollowsSequenceIff(rows: seq<Progress>, attempt: int)
    requires KeysUnique(rows)
    ensures (forall i, j | 0 <= i < |rows| && 0 <= j < |rows| && rows[i].attempt == rows[j].attempt == attempt
                             && rows[i].sequence < rows[j].sequence :: Rank(rows, i) < Rank(rows, j))
            <==> (forall i, j | 0 <= i < |rows| && 0 <= j < |rows| && rows[i].attempt == rows[j].attempt == attempt
                                  && rows[i].sequence < rows[j].sequence :: rows[i].at <= rows[j].at)
  {
    forall i, j | 0 <= i < |rows| && 0 <= j < |rows| && rows[i].attempt == rows[j].attempt == attempt
                  && rows[i].sequence < rows[j].sequence
      ensures Rank(rows, i) < Rank(rows, j) <==> rows[i].at <= rows[j].at
    {
      RankOrders(rows, i, j);
    }
  }
}
