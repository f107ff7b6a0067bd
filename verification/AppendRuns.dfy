/**
 The tables after the migration: attempts append progress through the reseeded sequence,
 finish with a completion that takes its watermark then, and are purged. Every operation
 is one transaction.
 */
module AppendRuns {
  import opened Wrappers
  import opened AppendOrder

  datatype Attempt = Attempt(terminal: bool, maxEvents: nat)

  datatype Db = Db(progress: seq<Progress>, completions: seq<Completion>, counter: Counter, attempts: map<int, Attempt>)

  datatype Op =
    | Create(attempt: int, maxEvents: nat)
    | Append(attempt: int, sequence: nat, at: int, body: string)
    | Finish(attempt: int, now: int)
    | Purge(attempt: int)
    | RollBack

  function CountRows(rows: seq<Progress>, attempt: int): nat {
    if rows == [] then 0 else (if rows[0].attempt == attempt then 1 else 0) + CountRows(rows[1..], attempt)
  }

  function RowsOf(rows: seq<Progress>, attempt: int): seq<Progress> {
    if rows == [] then [] else (if rows[0].attempt == attempt then [rows[0]] else []) + RowsOf(rows[1..], attempt)
  }

  function RowsBut(rows: seq<Progress>, attempt: int): seq<Progress> {
    if rows == [] then [] else (if rows[0].attempt == attempt then [] else [rows[0]]) + RowsBut(rows[1..], attempt)
  }

  function DoneBut(done: seq<Completion>, attempt: int): seq<Completion> {
    if done == [] then [] else (if done[0].attempt == attempt then [] else [done[0]]) + DoneBut(done[1..], attempt)
  }

  /** COALESCE(MAX(append_order), 0) over an attempt's rows. */
  function GreatestOrder(rows: seq<Progress>, attempt: int): int {
    if rows == [] then 0
    else
      var rest := GreatestOrder(rows[1..], attempt);
      if rows[0].attempt == attempt && rows[0].order.Some? && rows[0].order.value > rest then rows[0].order.value else rest
  }

  predicate HasKey(rows: seq<Progress>, attempt: int, sequence: nat) {
    exists r | r in rows :: r.attempt == attempt && r.sequence == sequence
  }

  predicate HasCompletion(done: seq<Completion>, attempt: int) {
    exists c | c in done :: c.attempt == attempt
  }

  function Advance(c: Counter): Counter {
    Counter(c.Next(), true)
  }

  /** A refused append changes nothing, except that one that reaches the insert uses up a value of the sequence. */
  function Apply(db: Db, op: Op): Db {
    match op
    case Create(a, maxEvents) => if a in db.attempts then db else db.(attempts := db.attempts[a := Attempt(false, maxEvents)])
    case Append(a, sequence, at, body) =>
      if a !in db.attempts || db.attempts[a].terminal || CountRows(db.progress, a) >= db.attempts[a].maxEvents
         || sequence != CountRows(db.progress, a) then db
      else if HasKey(db.progress, a, sequence) then db.(counter := Advance(db.counter))
      else db.(progress := db.progress + [Progress(a, sequence, at, body, Some(db.counter.Next()))], counter := Advance(db.counter))
    case Finish(a, now) =>
      if a !in db.attempts || db.attempts[a].terminal then db
      else
        db.(attempts := db.attempts[a := db.attempts[a].(terminal := true)],
            completions :=
              if HasCompletion(db.completions, a) then db.completions
              else db.completions + [Completion(a, now, None, Some(now), Some(GreatestOrder(db.progress, a)))])
    case Purge(a) =>
      if a !in db.attempts || !db.attempts[a].terminal then db
      else db.(progress := RowsBut(db.progress, a), completions := DoneBut(db.completions, a), attempts := db.attempts - {a})
    case RollBack => db.(counter := Advance(db.counter))
  }

  // ---------------------------------------------------------------- invariant

  ghost predicate OrdersGood(rows: seq<Progress>, next: int) {
    && (forall r | r in rows :: r.order.Some? && 1 <= r.order.value < next)
    && (forall i, j | 0 <= i < j < |rows| :: rows[i].order != rows[j].order)
  }

  ghost predicate Owned(db: Db) {
    && (forall r | r in db.progress :: r.attempt in db.attempts)
    && (forall c | c in db.completions :: c.attempt in db.attempts && db.attempts[c.attempt].terminal)
  }

  ghost predicate WatermarksGood(db: Db) {
    forall c | c in db.completions :: c.watermark.Some? && IsWatermark(db.progress, c.attempt, c.watermark.value)
  }

  ghost predicate Good(db: Db) {
    && KeysUnique(db.progress)
    && OrdersGood(db.progress, db.counter.Next())
    && Owned(db)
    && WatermarksGood(db)
    && db.counter.Next() >= 1
  }

  /** The migrated tables satisfy the invariant, given that completions exist for finished attempts only. */
  lemma {:induction false} MigratedIsGood(base: seq<Progress>, done: seq<Completion>, db: Db)
    requires KeysUnique(base)
    requires OrderedByRank(db.progress, base) && CompletedFrom(db.progress, db.completions, done)
    requires db.counter.Next() == |db.progress| + 1 && Owned(db)
    ensures Good(db)
  {
    hide Rank, IsWatermark, Updated;
    forall i, j | 0 <= i < |base| && 0 <= j < |base|
      ensures 1 <= Rank(base, i) <= |base| && (Rank(base, i) == Rank(base, j) <==> i == j)
    {
      RankOrders(base, i, j);
    }
    assert forall i | 0 <= i < |base| :: db.progress[i].attempt == base[i].attempt && db.progress[i].sequence == base[i].sequence;
  }

  lemma {:induction false} ButMembers(rows: seq<Progress>, a: int, r: Progress)
    ensures r in RowsBut(rows, a) <==> r in rows && r.attempt != a
  {
    if rows != [] { ButMembers(rows[1..], a, r); }
  }

  lemma {:induction false} DoneMembers(done: seq<Completion>, a: int, c: Completion)
    ensures c in DoneBut(done, a) <==> c in done && c.attempt != a
  {
    if done != [] { DoneMembers(done[1..], a, c); }
  }

  /** What one row's key and order differ in from all others stays so when rows are removed. */
  ghost predicate Apart(rows: seq<Progress>) {
    forall i, j | 0 <= i < j < |rows| ::
      (rows[i].attempt != rows[j].attempt || rows[i].sequence != rows[j].sequence) && rows[i].order != rows[j].order
  }

  lemma {:induction false} ButApart(rows: seq<Progress>, a: int)
    requires Apart(rows)
    ensures Apart(RowsBut(rows, a))
  {
    if rows != [] {
      ButApart(rows[1..], a);
      var rest := RowsBut(rows[1..], a);
      forall j | 0 <= j < |rest|
        ensures (rows[0].attempt != rest[j].attempt || rows[0].sequence != rest[j].sequence) && rows[0].order != rest[j].order
      {
        ButMembers(rows[1..], a, rest[j]);
        var k :| 0 <= k < |rows[1..]| && rows[1..][k] == rest[j];
        assert rows[k + 1] == rest[j];
      }
    }
  }

  lemma {:induction false} GreatestIsWatermark(rows: seq<Progress>, a: int)
    requires forall r | r in rows :: r.order.Some? && r.order.value >= 1
    ensures IsWatermark(rows, a, GreatestOrder(rows, a)) && GreatestOrder(rows, a) >= 0
  {
    if rows != [] {
      assert rows[0] in rows;
      var rest := rows[1..];
      GreatestIsWatermark(rest, a);
      assert forall r | r in rows :: r == rows[0] || r in rest;
      assert forall r | r in rest :: r in rows;
    }
  }

  lemma AppendKeepsWatermarks(rows: seq<Progress>, added: Progress, a: int, w: int)
    requires IsWatermark(rows, a, w) && added.attempt != a
    ensures IsWatermark(rows + [added], a, w)
  {
    assert forall r | r in rows + [added] :: r in rows || r == added;
    if r :| r in rows && r.attempt == a && r.order == Some(w) {
      assert r in rows + [added];
    }
  }

  lemma PurgeKeepsWatermarks(rows: seq<Progress>, purged: int, a: int, w: int)
    requires IsWatermark(rows, a, w) && purged != a
    ensures IsWatermark(RowsBut(rows, purged), a, w)
  {
    forall r ensures r in RowsBut(rows, purged) <==> r in rows && r.attempt != purged {
      ButMembers(rows, purged, r);
    }
  }

  lemma AppendKeepsGood(db: Db, op: Op)
    requires Good(db) && op.Append?
    ensures Good(Apply(db, op))
  {
    hide IsWatermark, CountRows;
    var next := Apply(db, op);
    if next.progress != db.progress {
      var added := next.progress[|db.progress|];
      assert next.progress == db.progress + [added];
      forall i | 0 <= i < |db.progress|
        ensures (db.progress[i].attempt != added.attempt || db.progress[i].sequence != added.sequence) && db.progress[i].order != added.order
      {
        assert db.progress[i] in db.progress;
      }
      forall c | c in next.completions ensures c.watermark.Some? && IsWatermark(next.progress, c.attempt, c.watermark.value) {
        AppendKeepsWatermarks(db.progress, added, c.attempt, c.watermark.value);
      }
    }
  }

  lemma FinishKeepsGood(db: Db, op: Op)
    requires Good(db) && op.Finish?
    ensures Good(Apply(db, op))
  {
    hide IsWatermark, KeysUnique;
    GreatestIsWatermark(db.progress, op.attempt);
  }

  lemma PurgeKeepsGood(db: Db, op: Op)
    requires Good(db) && op.Purge?
    ensures Good(Apply(db, op))
  {
    hide IsWatermark, RowsBut, DoneBut;
    var a, next := op.attempt, Apply(db, op);
    if next != db {
      ButApart(db.progress, a);
      forall r ensures r in RowsBut(db.progress, a) <==> r in db.progress && r.attempt != a {
        ButMembers(db.progress, a, r);
      }
      forall c ensures c in DoneBut(db.completions, a) <==> c in db.completions && c.attempt != a {
        DoneMembers(db.completions, a, c);
      }
      forall c | c in next.completions ensures c.watermark.Some? && IsWatermark(next.progress, c.attempt, c.watermark.value) {
        PurgeKeepsWatermarks(db.progress, a, c.attempt, c.watermark.value);
      }
    }
  }

  lemma {:induction false} ApplyKeepsGood(db: Db, op: Op)
    requires Good(db)
    ensures Good(Apply(db, op))
  {
    hide IsWatermark, KeysUnique, CountRows, GreatestOrder, RowsBut, DoneBut;
    match op
    case Append(_, _, _, _) => AppendKeepsGood(db, op);
    case Finish(_, _) => FinishKeepsGood(db, op);
    case Purge(_) => PurgeKeepsGood(db, op);
    case _ =>
  }

  // ---------------------------------------------------------------- runs

  function Run(db: Db, ops: seq<Op>): Db
    decreases |ops|
  {
    if ops == [] then db else Run(Apply(db, ops[0]), ops[1..])
  }

  /**
   After any run: orders are unique and below the next one, keys unique, and every
   completion's watermark is the greatest order of its attempt, or 0 without any.
   */
  lemma {:induction false} RunKeepsGood(db: Db, ops: seq<Op>)
    requires Good(db)
    ensures Good(Run(db, ops))
    decreases |ops|
  {
    hide Good, Apply;
    if ops != [] {
      ApplyKeepsGood(db, ops[0]);
      RunKeepsGood(Apply(db, ops[0]), ops[1..]);
    }
  }

  /** Whatever is appended later is ordered after everything that was there before. */
  lemma {:induction false} LaterIsGreater(db: Db, ops: seq<Op>, r: Progress)
    requires r in Run(db, ops).progress
    ensures db.counter.Next() <= Run(db, ops).counter.Next()
    ensures r in db.progress || (r.order.Some? && r.order.value >= db.counter.Next())
    decreases |ops|
  {
    hide Apply;
    if ops != [] {
      LaterIsGreater(Apply(db, ops[0]), ops[1..], r);
      AddedIsNext(db, ops[0], r);
    }
  }

  lemma AddedIsNext(db: Db, op: Op, r: Progress)
    ensures db.counter.Next() <= Apply(db, op).counter.Next()
    ensures r in Apply(db, op).progress ==> r in db.progress || r.order == Some(db.counter.Next())
  {
    if op.Purge? { ButMembers(db.progress, op.attempt, r); }
  }

  predicate Purges(ops: seq<Op>, attempt: int) {
    exists op | op in ops :: op.Purge? && op.attempt == attempt
  }

  lemma {:induction false} RowsOfAppend(rows: seq<Progress>, added: Progress, a: int)
    requires added.attempt != a
    ensures RowsOf(rows + [added], a) == RowsOf(rows, a)
  {
    if rows == [] {
      assert (rows + [added])[1..] == [];
    } else {
      RowsOfAppend(rows[1..], added, a);
      assert (rows + [added])[1..] == rows[1..] + [added];
    }
  }

  lemma {:induction false} RowsOfBut(rows: seq<Progress>, purged: int, a: int)
    requires purged != a
    ensures RowsOf(RowsBut(rows, purged), a) == RowsOf(rows, a)
  {
    if rows != [] {
      RowsOfBut(rows[1..], purged, a);
      if rows[0].attempt != purged {
        assert ([rows[0]] + RowsBut(rows[1..], purged))[1..] == RowsBut(rows[1..], purged);
      } else {
        assert [] + RowsBut(rows[1..], purged) == RowsBut(rows[1..], purged);
      }
    }
  }

  lemma ApplyKeepsSettled(db: Db, op: Op, c: Completion)
    requires Good(db) && c in db.completions && !(op.Purge? && op.attempt == c.attempt)
    ensures c in Apply(db, op).completions && RowsOf(Apply(db, op).progress, c.attempt) == RowsOf(db.progress, c.attempt)
  {
    hide IsWatermark, KeysUnique, CountRows, GreatestOrder, OrdersGood;
    match op
    case Append(a, sequence, at, body) =>
      if a != c.attempt {
        RowsOfAppend(db.progress, Progress(a, sequence, at, body, Some(db.counter.Next())), c.attempt);
      }
    case Purge(a) =>
      DoneMembers(db.completions, a, c);
      RowsOfBut(db.progress, a, c.attempt);
    case _ =>
  }

  /**
   Until its attempt is purged, a completion keeps its watermark and its attempt keeps
   exactly the rows it had: the watermark of an upgraded completion bounds those, always.
   */
  lemma {:induction false} SettledStays(db: Db, ops: seq<Op>, c: Completion)
    requires Good(db) && c in db.completions && !Purges(ops, c.attempt)
    ensures c in Run(db, ops).completions
    ensures RowsOf(Run(db, ops).progress, c.attempt) == RowsOf(db.progress, c.attempt)
    ensures c.watermark.Some? && IsWatermark(Run(db, ops).progress, c.attempt, c.watermark.value)
    decreases |ops|
  {
    hide Apply, RowsOf, IsWatermark, KeysUnique, OrdersGood;
    RunKeepsGood(db, ops);
    if ops != [] {
      assert ops[0] in ops && forall op | op in ops[1..] :: op in ops;
      ApplyKeepsGood(db, ops[0]);
      ApplyKeepsSettled(db, ops[0], c);
      SettledStays(Apply(db, ops[0]), ops[1..], c);
    }
  }

  // ---------------------------------------------------------------- the rows of one attempt

  lemma {:induction false} RowsOfAttempt(rows: seq<Progress>, a: int)
    ensures |RowsOf(rows, a)| == CountRows(rows, a)
    ensures forall r :: r in RowsOf(rows, a) <==> r in rows && r.attempt == a
  {
    if rows != [] { RowsOfAttempt(rows[1..], a); }
  }

  lemma {:induction false} RowsOfSame(rows: seq<Progress>, added: Progress)
    ensures RowsOf(rows + [added], added.attempt) == RowsOf(rows, added.attempt) + [added]
  {
    if rows == [] {
      assert ([] + [added])[1..] == [];
    } else {
      RowsOfSame(rows[1..], added);
      assert (rows + [added])[1..] == rows[1..] + [added];
    }
  }

  lemma {:induction false} RowsOfPurged(rows: seq<Progress>, a: int)
    ensures RowsOf(RowsBut(rows, a), a) == []
  {
    if rows != [] {
      RowsOfPurged(rows[1..], a);
      if rows[0].attempt != a {
        assert ([rows[0]] + RowsBut(rows[1..], a))[1..] == RowsBut(rows[1..], a);
      } else {
        assert [] + RowsBut(rows[1..], a) == RowsBut(rows[1..], a);
      }
    }
  }

  /** The append is of the attempt's next sequence number, within its limit, while it runs. */
  predicate Appends(db: Db, op: Op, b: int) {
    && op.Append? && op.attempt == b && b in db.attempts && !db.attempts[b].terminal
    && |RowsOf(db.progress, b)| < db.attempts[b].maxEvents && op.sequence == |RowsOf(db.progress, b)|
    && forall r | r in RowsOf(db.progress, b) :: r.sequence != op.sequence
  }

  /**
   What an operation does to the rows of any attempt: an accepted append adds its row with
   the next order, a purge of the finished attempt removes them all, and nothing else
   touches them.
   */
  lemma {:induction false} RowsPerAttempt(db: Db, op: Op, b: int)
    ensures RowsOf(Apply(db, op).progress, b) ==
              if Appends(db, op, b) then
                RowsOf(db.progress, b) + [Progress(b, op.sequence, op.at, op.body, Some(db.counter.Next()))]
              else if op == Purge(b) && b in db.attempts && db.attempts[b].terminal then []
              else RowsOf(db.progress, b)
  {
    hide RowsOf, RowsBut, CountRows, GreatestOrder;
    RowsOfAttempt(db.progress, b);
    match op
    case Append(a, sequence, at, body) =>
      var added := Progress(a, sequence, at, body, Some(db.counter.Next()));
      if a == b {
        RowsOfSame(db.progress, added);
        assert HasKey(db.progress, a, sequence) <==> exists r | r in RowsOf(db.progress, b) :: r.sequence == sequence;
      } else {
        RowsOfAppend(db.progress, added, b);
      }
    case Purge(a) =>
      if a == b { RowsOfPurged(db.progress, a); } else { RowsOfBut(db.progress, a, b); }
    case _ =>
  }
}
