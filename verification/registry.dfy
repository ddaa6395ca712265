/**
 The harvest record table (`colheita_cana`) as a value, and the effect of the
 tool's create, update-volume and delete operations on it. Every operation
 runs as a single statement: when the database cannot be reached or the
 statement fails, the table is left as it was and a failure is reported.
 */
module Registry {
  import opened Rounding
  import opened Harvest

  /** One row of the table. `registeredAt` is the timestamp the server
      stamps on insert; only its order matters. */
  datatype Record = Record(
    producer: string,
    area: real,
    volume: real,
    loss: real,
    efficiency: Efficiency,
    registeredAt: int)

  type Table = seq<Record>

  /** Whether the database accepts the statement (connection opened and
      statement executed) or not. */
  datatype Db = Reachable | Unreachable

  /** What an operation reports back. */
  datatype Status =
    | Cancelled            // the operator declined the confirmation
    | Failed               // connection or statement failure
    | Affected(rows: nat)  // the statement ran and touched this many rows

  datatype Outcome = Outcome(table: Table, status: Status)

  /** Whether a stored producer name satisfies `produtor = p`. The database
      stores an empty name as NULL and binds an empty p as NULL, and NULL
      equals nothing, so an empty p matches no row; otherwise the match is
      exact and case-sensitive. */
  predicate Matches(producer: string, p: string) {
    p != "" && producer == p
  }

  /** The derived fields of a row agree with its area and volume. */
  predicate Consistent(rec: Record) {
    rec.loss == Loss(rec.area, rec.volume) && rec.efficiency == Classify(rec.loss)
  }

  predicate AllConsistent(t: Table) {
    forall i :: 0 <= i < |t| ==> Consistent(t[i])
  }

  /** What every row the tool writes satisfies, updates included: a
      validated area and volume, a loss in [0, 1] with at most three
      decimals, and the class of that loss. Unlike Consistent, it does not
      tie the loss to the current volume. */
  predicate Stored(rec: Record) {
    && rec.area > 0.0 && rec.volume >= 0.0
    && 0.0 <= rec.loss <= 1.0 && OnGrid(rec.loss)
    && rec.efficiency == Classify(rec.loss)
  }

  predicate AllStored(t: Table) {
    forall i :: 0 <= i < |t| ==> Stored(t[i])
  }

  /** The record the tool builds from validated input: a positive area and
      a non-negative volume. */
  function NewRecord(producer: string, area: real, volume: real, at: int): (rec: Record)
    requires area > 0.0 && volume >= 0.0
    ensures rec.producer == producer && rec.area == area && rec.volume == volume
    ensures rec.registeredAt == at
    ensures Consistent(rec)
    ensures 0.0 <= rec.loss <= 1.0
  {
    LossAtMostOne(area, volume);
    var loss := Loss(area, volume);
    Record(producer, area, volume, loss, Classify(loss), at)
  }

  /** Inserts one record. */
  function Create(t: Table, rec: Record, db: Db): (r: Outcome)
    ensures db == Unreachable ==> r == Outcome(t, Failed)
    ensures db == Reachable ==> r.status == Affected(1)
    ensures db == Reachable ==> |r.table| == |t| + 1 && r.table[..|t|] == t && r.table[|t|] == rec
  {
    match db
    case Unreachable => Outcome(t, Failed)
    case Reachable => Outcome(t + [rec], Affected(1))
  }

  /** The number of rows whose producer matches p. */
  function Count(t: Table, p: string): (n: nat)
    ensures n <= |t|
    ensures n == 0 <==> forall i :: 0 <= i < |t| ==> !Matches(t[i].producer, p)
    ensures n == |t| <==> forall i :: 0 <= i < |t| ==> Matches(t[i].producer, p)
  {
    if |t| == 0 then 0
    else (if Matches(t[0].producer, p) then 1 else 0) + Count(t[1..], p)
  }

  /** The table with every row matching producer p given volume v. */
  function SetVolume(t: Table, p: string, v: real): (r: Table)
    ensures |r| == |t|
    ensures forall i :: 0 <= i < |t| && Matches(t[i].producer, p) ==> r[i] == t[i].(volume := v)
    ensures forall i :: 0 <= i < |t| && !Matches(t[i].producer, p) ==> r[i] == t[i]
  {
    if |t| == 0 then []
    else
      var head := if Matches(t[0].producer, p) then t[0].(volume := v) else t[0];
      [head] + SetVolume(t[1..], p, v)
  }

  /** Sets the volume of every row of producer p to v. Loss and efficiency
      are not recomputed. The reported count is the number of matching rows. */
  function UpdateVolume(t: Table, p: string, v: real, db: Db): (r: Outcome)
    requires v >= 0.0
    ensures db == Unreachable ==> r == Outcome(t, Failed)
    ensures db == Reachable ==> r.status == Affected(Count(t, p))
    ensures |r.table| == |t|
    ensures forall i :: 0 <= i < |t| && t[i].producer == p && p != "" && db == Reachable ==>
      r.table[i] == t[i].(volume := v)
    ensures forall i :: 0 <= i < |t| && (t[i].producer != p || db == Unreachable) ==>
      r.table[i] == t[i]
    ensures r.status == Affected(0) ==> r.table == t
    ensures p == "" && db == Reachable ==> r == Outcome(t, Affected(0))
  {
    match db
    case Unreachable => Outcome(t, Failed)
    case Reachable => Outcome(SetVolume(t, p, v), Affected(Count(t, p)))
  }

  /** One character in lower case (letters A to Z only). */
  function LowerChar(c: char): char {
    if 'A' <= c <= 'Z' then (c as int - 'A' as int + 'a' as int) as char else c
  }

  function Lower(s: string): string {
    seq(|s|, i requires 0 <= i < |s| => LowerChar(s[i]))
  }

  /** The operator's answer confirms a deletion when, lower-cased, it is "s". */
  predicate Confirms(answer: string) {
    Lower(answer) == "s"
  }

  /** Exactly the two answers "s" and "S" confirm. */
  lemma ConfirmsExactly(answer: string)
    ensures Confirms(answer) <==> answer == "s" || answer == "S"
  {
    if Confirms(answer) {
      assert |answer| == 1;
      assert LowerChar(answer[0]) == Lower(answer)[0] == 's';
    }
  }

  /** a is obtained from b by deleting some of its elements, the rest
      keeping their order. */
  predicate Subsequence(a: Table, b: Table)
    decreases |b|
  {
    |a| == 0 ||
    (|b| > 0 && ((a[0] == b[0] && Subsequence(a[1..], b[1..])) || Subsequence(a, b[1..])))
  }

  /** The table without the rows matching producer p. */
  function RemoveProducer(t: Table, p: string): (r: Table)
    ensures |r| == |t| - Count(t, p)
    ensures forall x :: x in r <==> x in t && !Matches(x.producer, p)
    ensures Count(t, p) == 0 ==> r == t
  {
    if |t| == 0 then []
    else if Matches(t[0].producer, p) then RemoveProducer(t[1..], p)
    else [t[0]] + RemoveProducer(t[1..], p)
  }

  /** The rows that survive a deletion keep their relative order. */
  lemma {:induction false} RemoveKeepsOrder(t: Table, p: string)
    ensures Subsequence(RemoveProducer(t, p), t)
    decreases |t|
  {
    if |t| > 0 {
      RemoveKeepsOrder(t[1..], p);
      var rest := RemoveProducer(t[1..], p);
      if !Matches(t[0].producer, p) {
        assert ([t[0]] + rest)[1..] == rest;
      }
    }
  }

  /** Deletes every row of producer p, but only after the operator confirms.
      The reported count is the number of rows removed. */
  function DeleteProducer(t: Table, p: string, answer: string, db: Db): (r: Outcome)
    ensures !Confirms(answer) ==> r == Outcome(t, Cancelled)
    ensures Confirms(answer) && db == Unreachable ==> r == Outcome(t, Failed)
    ensures Confirms(answer) && db == Reachable ==>
      && r.status == Affected(Count(t, p))
      && r.status.rows == |t| - |r.table|
      && (forall x :: x in r.table <==> x in t && (x.producer != p || p == ""))
      && Subsequence(r.table, t)
    ensures Confirms(answer) && db == Reachable && p == "" ==> r == Outcome(t, Affected(0))
  {
    if !Confirms(answer) then Outcome(t, Cancelled)
    else match db
      case Unreachable => Outcome(t, Failed)
      case Reachable =>
        RemoveKeepsOrder(t, p);
        Outcome(RemoveProducer(t, p), Affected(Count(t, p)))
  }

  lemma {:induction false} CountAppend(t1: Table, t2: Table, p: string)
    ensures Count(t1 + t2, p) == Count(t1, p) + Count(t2, p)
    decreases |t1|
  {
    if |t1| == 0 {
      assert t1 + t2 == t2;
    } else {
      assert (t1 + t2)[1..] == t1[1..] + t2;
      CountAppend(t1[1..], t2, p);
    }
  }

  lemma {:induction false} RemoveAppend(t1: Table, t2: Table, p: string)
    ensures RemoveProducer(t1 + t2, p) == RemoveProducer(t1, p) + RemoveProducer(t2, p)
    decreases |t1|
  {
    if |t1| == 0 {
      assert t1 + t2 == t2;
    } else {
      var u := t1 + t2;
      assert u[0] == t1[0] && u[1..] == t1[1..] + t2;
      RemoveAppend(t1[1..], t2, p);
      var tail := RemoveProducer(t1[1..], p) + RemoveProducer(t2, p);
      assert RemoveProducer(u[1..], p) == tail;
      if Matches(t1[0].producer, p) {
        assert RemoveProducer(u, p) == tail;
      } else {
        assert RemoveProducer(u, p) == [t1[0]] + tail;
        assert RemoveProducer(t1, p) == [t1[0]] + RemoveProducer(t1[1..], p);
      }
    }
  }

  /** Creating a record adds one to the count of its producer, unless the
      name is empty, and leaves every other producer's count alone. */
  lemma CountAfterCreate(t: Table, rec: Record, q: string)
    ensures Count(Create(t, rec, Reachable).table, q) ==
      Count(t, q) + (if rec.producer == q && q != "" then 1 else 0)
  {
    CountAppend(t, [rec], q);
  }

  /** Deleting a producer right after creating one of its records removes
      the new record too; a record with an empty name cannot be deleted. */
  lemma DeleteAfterCreate(t: Table, rec: Record)
    ensures rec.producer != "" ==>
      RemoveProducer(Create(t, rec, Reachable).table, rec.producer) == RemoveProducer(t, rec.producer)
    ensures rec.producer == "" ==>
      RemoveProducer(Create(t, rec, Reachable).table, rec.producer) == t + [rec]
  {
    RemoveAppend(t, [rec], rec.producer);
    if rec.producer == "" {
      assert RemoveProducer([rec], rec.producer) == [rec];
    } else {
      assert RemoveProducer([rec], rec.producer) == [];
    }
  }

  /** Deleting a producer twice is the same as deleting it once. */
  lemma DeleteIdempotent(t: Table, p: string)
    ensures RemoveProducer(RemoveProducer(t, p), p) == RemoveProducer(t, p)
  {
    var r := RemoveProducer(t, p);
    assert forall i :: 0 <= i < |r| ==> r[i] in r && !Matches(r[i].producer, p);
  }

  /** Updating the volume never changes how many rows any producer has. */
  lemma {:induction false} UpdateKeepsCounts(t: Table, p: string, v: real, q: string)
    ensures Count(SetVolume(t, p, v), q) == Count(t, q)
    decreases |t|
  {
    if |t| > 0 {
      UpdateKeepsCounts(t[1..], p, v, q);
      var r := SetVolume(t, p, v);
      assert r[1..] == SetVolume(t[1..], p, v);
    }
  }

  /** Deleting a producer right after updating its volume gives the same
      table as deleting it straight away. */
  lemma {:induction false} DeleteAfterUpdate(t: Table, p: string, v: real)
    ensures RemoveProducer(SetVolume(t, p, v), p) == RemoveProducer(t, p)
    decreases |t|
  {
    if |t| > 0 {
      DeleteAfterUpdate(t[1..], p, v);
      var r := SetVolume(t, p, v);
      assert r[1..] == SetVolume(t[1..], p, v);
    }
  }

  /** Of two successive updates of the same producer the last one wins. */
  lemma UpdateLastWins(t: Table, p: string, v1: real, v2: real)
    ensures SetVolume(SetVolume(t, p, v1), p, v2) == SetVolume(t, p, v2)
  {
  }

  /** Inserting a consistent record and deleting rows both keep every row
      consistent. */
  lemma CreateDeleteKeepConsistent(t: Table, rec: Record, p: string, answer: string, db: Db)
    requires AllConsistent(t) && Consistent(rec)
    ensures AllConsistent(Create(t, rec, db).table)
    ensures AllConsistent(DeleteProducer(t, p, answer, db).table)
  {
    var d := DeleteProducer(t, p, answer, db).table;
    forall i | 0 <= i < |d|
      ensures Consistent(d[i])
    {
      assert d[i] in t;
    }
  }

  /** A consistent row of validated input satisfies the row invariant. */
  lemma ConsistentIsStored(rec: Record)
    requires Consistent(rec) && rec.area > 0.0 && rec.volume >= 0.0
    ensures Stored(rec)
  {
    LossAtMostOne(rec.area, rec.volume);
  }

  /** Creating a record from validated input keeps the row invariant. */
  lemma CreateKeepsStored(t: Table, producer: string, area: real, volume: real, at: int, db: Db)
    requires AllStored(t) && area > 0.0 && volume >= 0.0
    ensures AllStored(Create(t, NewRecord(producer, area, volume, at), db).table)
  {
    var rec := NewRecord(producer, area, volume, at);
    assert Stored(rec);
  }

  /** An update to a non-negative volume keeps the row invariant, although
      it may leave the row inconsistent. */
  lemma UpdateKeepsStored(t: Table, p: string, v: real, db: Db)
    requires AllStored(t) && v >= 0.0
    ensures AllStored(UpdateVolume(t, p, v, db).table)
  {
    var u := UpdateVolume(t, p, v, db).table;
    forall i | 0 <= i < |u|
      ensures Stored(u[i])
    {
      assert Stored(t[i]);
    }
  }

  /** A deletion keeps the row invariant. */
  lemma DeleteKeepsStored(t: Table, p: string, answer: string, db: Db)
    requires AllStored(t)
    ensures AllStored(DeleteProducer(t, p, answer, db).table)
  {
    var d := DeleteProducer(t, p, answer, db).table;
    forall i | 0 <= i < |d|
      ensures Stored(d[i])
    {
      assert d[i] in t;
    }
  }

  /** An updated row stays consistent exactly when the new volume happens
      to give the loss already stored: loss and efficiency are left stale. */
  lemma UpdateStaleness(rec: Record, v: real)
    requires Consistent(rec)
    ensures Consistent(rec.(volume := v)) <==> Loss(rec.area, v) == rec.loss
  {
  }

  /** A concrete stale row: 100 t on 1 ha has loss 0; after the volume is
      updated to 0 t the row still claims loss 0 and high efficiency,
      although its own area and volume give loss 1. */
  lemma UpdateLeavesStaleRow()
    ensures var t := [NewRecord("Ana", 1.0, 100.0, 0)];
            var u := UpdateVolume(t, "Ana", 0.0, Reachable);
            && u.status == Affected(1)
            && u.table[0].loss == 0.0
            && u.table[0].efficiency == High
            && Loss(u.table[0].area, u.table[0].volume) == 1.0
            && !Consistent(u.table[0])
  {
    LossZeroIff(1.0, 100.0);
    Round3OnGrid(1.0);
  }

  /** A record with an empty producer name can be created but is out of
      reach of update and delete: both report no rows and change nothing. */
  lemma EmptyProducerUnreachable(t: Table, area: real, volume: real, at: int)
    requires area > 0.0 && volume >= 0.0
    ensures var u := Create(t, NewRecord("", area, volume, at), Reachable).table;
            && UpdateVolume(u, "", 10.0, Reachable) == Outcome(u, Affected(0))
            && DeleteProducer(u, "", "s", Reachable) == Outcome(u, Affected(0))
  {
    ConfirmsExactly("s");
  }
}
