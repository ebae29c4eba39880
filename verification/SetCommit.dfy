/** The SET that succeeds: RESERVE2, ACTION and COMMIT, three passes over the varbinds,
    come to applying each varbind once, in order, to a map. */
module SetCommit {
  import opened SetCore

  /** The meaning of one varbind on its own. */
  function ApplyOne<K, C, V>(t: Table<K, C, V>, q: Request<K, C, V>, blank: map<C, V>): Table<K, C, V> {
    var made := if q.rule != MustExist && q.key !in t then t[q.key := blank] else t;
    FinishOne(WriteOne(made, q), q)
  }

  function Applied<K, C, V>(t: Table<K, C, V>, qs: seq<Request<K, C, V>>, blank: map<C, V>, m: nat): Table<K, C, V>
    requires m <= |qs|
  {
    if m == 0 then t else ApplyOne(Applied(t, qs, blank, m - 1), qs[m - 1], blank)
  }

  function Finished<K, C, V>(t: Table<K, C, V>, qs: seq<Request<K, C, V>>, m: nat): Table<K, C, V>
    requires m <= |qs|
  {
    if m == 0 then t else FinishOne(Finished(t, qs, m - 1), qs[m - 1])
  }

  lemma {:induction false} CommitIs<K, C, V>(s: Txn<K, C, V>, qs: seq<Request<K, C, V>>, m: nat)
    requires m <= |qs| == |s.buf|
    ensures Commit(s, qs, m).table == Finished(s.table, qs, m)
  {
    if m > 0 {
      CommitIs(s, qs, m - 1);
    }
  }

  /** What every table's varbinds obey: only the row-status column has a part in COMMIT, it
      is no column of ACTION, and a table that creates rows on demand destroys none. */
  ghost predicate Separate<K(!new), C(!new), V>(qs: seq<Request<K, C, V>>) {
    && (forall i | 0 <= i < |qs| :: qs[i].finish != Keep ==> qs[i].change == NoWrite)
    && (forall i, j | 0 <= i < |qs| && 0 <= j < |qs| ::
          qs[i].change.Write? && qs[j].finish.Put? ==> qs[i].change.col != qs[j].finish.col)
    && (forall i, j | 0 <= i < |qs| && 0 <= j < |qs| :: qs[i].rule == OnDemand ==> qs[j].finish != Destroy)
  }

  // ---- Moving one varbind's part past the earlier varbinds' later phases -----------------------

  lemma {:induction false} WrittenApart<K, C, V>(t: Table<K, C, V>, qs: seq<Request<K, C, V>>, m: nat, k: K,
      row: map<C, V>)
    requires m <= |qs| && forall i | 0 <= i < m :: qs[i].key != k
    ensures Written(t[k := row], qs, m) == Written(t, qs, m)[k := row]
  {
    if m > 0 {
      WrittenApart(t, qs, m - 1, k, row);
    }
  }

  lemma {:induction false} FinishedApart<K, C, V>(t: Table<K, C, V>, qs: seq<Request<K, C, V>>, m: nat, k: K,
      row: map<C, V>)
    requires m <= |qs| && forall i | 0 <= i < m :: qs[i].key != k
    ensures Finished(t[k := row], qs, m) == Finished(t, qs, m)[k := row]
  {
    if m > 0 {
      FinishedApart(t, qs, m - 1, k, row);
    }
  }

  lemma FinishPastWrite<K, C, V>(t: Table<K, C, V>, p: Request<K, C, V>, q: Request<K, C, V>)
    requires p.finish.Put? && q.change.Write? ==> p.finish.col != q.change.col
    ensures FinishOne(WriteOne(t, q), p) == WriteOne(FinishOne(t, p), q)
  {
    if q.change.Write? && q.key in t && p.finish.Put? && p.key == q.key {
      var r := t[q.key];
      assert r[q.change.col := q.change.val][p.finish.col := p.finish.val]
        == r[p.finish.col := p.finish.val][q.change.col := q.change.val];
    }
  }

  lemma {:induction false} FinishedPastWrite<K, C, V>(t: Table<K, C, V>, qs: seq<Request<K, C, V>>, m: nat,
      q: Request<K, C, V>)
    requires m <= |qs|
    requires forall i | 0 <= i < m :: qs[i].finish.Put? && q.change.Write? ==> qs[i].finish.col != q.change.col
    ensures Finished(WriteOne(t, q), qs, m) == WriteOne(Finished(t, qs, m), q)
  {
    if m > 0 {
      FinishedPastWrite(t, qs, m - 1, q);
      FinishPastWrite(Finished(t, qs, m - 1), qs[m - 1], q);
    }
  }

  /** COMMIT removes the destroyed rows and no others. */
  lemma {:induction false} FinishedKeys<K(!new), C, V>(t: Table<K, C, V>, qs: seq<Request<K, C, V>>, m: nat)
    requires m <= |qs|
    ensures forall k :: k in Finished(t, qs, m) <==>
      k in t && !exists i :: 0 <= i < m && qs[i].key == k && qs[i].finish == Destroy
  {
    if m > 0 {
      FinishedKeys(t, qs, m - 1);
    }
  }

  lemma {:induction false} ReservePassed<K, C, V>(s: Txn<K, C, V>, qs: seq<Request<K, C, V>>, blank: map<C, V>,
      mem: seq<bool>, i: nat, m: nat)
    requires i <= m <= |qs| == |s.buf| == |mem|
    requires !Reserve(s, qs, blank, mem, m).err
    ensures !Reserve(s, qs, blank, mem, i).err
  {
    if i < m {
      ReservePassed(s, qs, blank, mem, i, m - 1);
    }
  }

  lemma StepOnNewRow<K(!new), C(!new), V>(t: Table<K, C, V>, qs: seq<Request<K, C, V>>, blank: map<C, V>, i: nat)
    requires i < |qs| && Separate(qs) && qs[i].key !in t && qs[i].rule != MustExist
    requires forall j | 0 <= j < i :: qs[j].key in t
    ensures Finished(Written(t[qs[i].key := blank], qs, i + 1), qs, i + 1)
         == ApplyOne(Finished(Written(t, qs, i), qs, i), qs[i], blank)
  {
    var q := qs[i];
    var w := Written(t, qs, i);
    WrittenRows(t, qs, i);
    FinishedKeys(w, qs, i);
    WrittenApart(t, qs, i, q.key, blank);
    FinishedApart(w, qs, i, q.key, blank);
    FinishedPastWrite(w[q.key := blank], qs, i, q);
  }

  lemma StepOnOldRow<K(!new), C(!new), V>(t: Table<K, C, V>, qs: seq<Request<K, C, V>>, blank: map<C, V>, i: nat)
    requires i < |qs| && Separate(qs) && qs[i].key in t && qs[i].rule != MustCreate
    ensures Finished(Written(t, qs, i + 1), qs, i + 1) == ApplyOne(Finished(Written(t, qs, i), qs, i), qs[i], blank)
  {
    WrittenRows(t, qs, i);
    FinishedKeys(Written(t, qs, i), qs, i);
    FinishedPastWrite(Written(t, qs, i), qs, i, qs[i]);
  }

  /** A varbind that passes RESERVE2 finds its row, or makes it. */
  lemma FoundOrMade<K(!new), C(!new), V>(t: Table<K, C, V>, qs: seq<Request<K, C, V>>, blank: map<C, V>,
      mem: seq<bool>, i: nat)
    requires i < |qs| == |mem| && !Reserve(Fresh(t, |qs|), qs, blank, mem, i + 1).err
    ensures !Reserve(Fresh(t, |qs|), qs, blank, mem, i).err
    ensures var a := Reserve(Fresh(t, |qs|), qs, blank, mem, i).table;
      Reserve(Fresh(t, |qs|), qs, blank, mem, i + 1).table == if qs[i].key in a then a else a[qs[i].key := blank]
    ensures var a := Reserve(Fresh(t, |qs|), qs, blank, mem, i).table;
      && qs[i].rule != (if qs[i].key in a then MustCreate else MustExist)
      && forall j | 0 <= j < i :: qs[j].key in a
  {
    ReservePassed(Fresh(t, |qs|), qs, blank, mem, i, i + 1);
    ReserveKeeps(t, qs, blank, mem, i);
  }

  /** A committed SET is the varbinds applied in order: no distinctness is needed. */
  lemma {:induction false} PhasesAreApplied<K(!new), C(!new), V>(t: Table<K, C, V>, qs: seq<Request<K, C, V>>,
      blank: map<C, V>, mem: seq<bool>, m: nat)
    requires m <= |qs| == |mem| && Separate(qs)
    requires !Reserve(Fresh(t, |qs|), qs, blank, mem, m).err
    ensures Finished(Written(Reserve(Fresh(t, |qs|), qs, blank, mem, m).table, qs, m), qs, m)
      == Applied(t, qs, blank, m)
  {
    if m > 0 {
      var i := m - 1;
      var a := Reserve(Fresh(t, |qs|), qs, blank, mem, i).table;
      FoundOrMade(t, qs, blank, mem, i);
      PhasesAreApplied(t, qs, blank, mem, i);
      if qs[i].key in a {
        StepOnOldRow(a, qs, blank, i);
      } else {
        StepOnNewRow(a, qs, blank, i);
      }
    }
  }

  // ---- The whole PDU ------------------------------------------------------------------------------

  ghost predicate Succeeds<K, C, V>(t: Table<K, C, V>, qs: seq<Request<K, C, V>>, blank: map<C, V>,
      mr: seq<bool>, ma: seq<bool>)
    requires |qs| == |mr| == |ma|
  {
    var s := Reserve(Fresh(t, |qs|), qs, blank, mr, |qs|);
    !s.err && !Action(s, qs, ma, |qs|).err
  }

  /** The agent's phase order. `late` is a failure reported by another handler of the PDU
      after this table's ACTION succeeded. */
  ghost function Pdu<K, C, V>(t: Table<K, C, V>, qs: seq<Request<K, C, V>>, blank: map<C, V>, mr: seq<bool>,
      ma: seq<bool>, late: bool)
    : Table<K, C, V>
    requires |qs| == |mr| == |ma|
  {
    var s := Reserve(Fresh(t, |qs|), qs, blank, mr, |qs|);
    if s.err then Free(s, qs, |qs|).table
    else
      var a := Action(s, qs, ma, |qs|);
      if a.err || late then Undo(a, qs, |qs|).table else Commit(a, qs, |qs|).table
  }

  lemma {:induction false} ActionErrs<K, C, V>(s: Txn<K, C, V>, qs: seq<Request<K, C, V>>, mem: seq<bool>, m: nat)
    requires m <= |qs| == |s.buf| == |mem| && !s.err && !s.stop
    ensures Action(s, qs, mem, m).err <==> Action(s, qs, mem, m).stop
  {
    if m > 0 {
      ActionErrs(s, qs, mem, m - 1);
    }
  }

  lemma ActionCompletes<K(!new), C, V>(s: Txn<K, C, V>, qs: seq<Request<K, C, V>>, blank: map<C, V>, mem: seq<bool>)
    requires Ready(s, qs, blank) && |qs| == |mem| && !s.err
    ensures !Action(s, qs, mem, |qs|).err ==> Action(s, qs, mem, |qs|).table == Written(s.table, qs, |qs|)
  {
    ActionErrs(s, qs, mem, |qs|);
    ActionIs(s, qs, blank, mem, |qs|);
  }

  /** A SET that succeeds leaves the table its varbinds describe, duplicates included. */
  lemma CommittedIsApplied<K(!new), C(!new), V>(t: Table<K, C, V>, qs: seq<Request<K, C, V>>, blank: map<C, V>,
      mr: seq<bool>, ma: seq<bool>)
    requires |qs| == |mr| == |ma| && Shaped(t, qs, blank) && Separate(qs) && Succeeds(t, qs, blank, mr, ma)
    ensures Pdu(t, qs, blank, mr, ma, false) == Applied(t, qs, blank, |qs|)
  {
    var s := Reserve(Fresh(t, |qs|), qs, blank, mr, |qs|);
    ReadyAfterReserve(t, qs, blank, mr);
    ActionCompletes(s, qs, blank, ma);
    CommitIs(Action(s, qs, ma, |qs|), qs, |qs|);
    PhasesAreApplied(t, qs, blank, mr, |qs|);
  }

  /** Section 4.2.5 of RFC 3416: the varbinds of a SET take effect as if simultaneously, or
      none does. */
  lemma AllOrNothing<K(!new), C(!new), V>(t: Table<K, C, V>, qs: seq<Request<K, C, V>>, blank: map<C, V>,
      mr: seq<bool>, ma: seq<bool>, late: bool)
    requires |qs| == |mr| == |ma| && Shaped(t, qs, blank) && Distinct(qs) && Separate(qs)
    ensures Pdu(t, qs, blank, mr, ma, late)
         == if Succeeds(t, qs, blank, mr, ma) && !late then Applied(t, qs, blank, |qs|) else t
  {
    if Reserve(Fresh(t, |qs|), qs, blank, mr, |qs|).err {
      FreeUndoesReserve(t, qs, blank, mr);
    } else if !Succeeds(t, qs, blank, mr, ma) || late {
      RollbackExact(t, qs, blank, mr, ma);
    } else {
      CommittedIsApplied(t, qs, blank, mr, ma);
    }
  }

  /** A SET succeeds exactly when RESERVE2 refuses no varbind and ACTION starves none. */
  lemma SucceedsIff<K(!new), C, V>(t: Table<K, C, V>, qs: seq<Request<K, C, V>>, blank: map<C, V>,
      mr: seq<bool>, ma: seq<bool>)
    requires |qs| == |mr| == |ma| && Shaped(t, qs, blank)
    ensures Succeeds(t, qs, blank, mr, ma) <==>
      forall i | 0 <= i < |qs| :: !Refused(t, qs, mr, i) && !Starved(t, qs, ma, i)
  {
    var s := Reserve(Fresh(t, |qs|), qs, blank, mr, |qs|);
    ReserveFailsIff(t, qs, blank, mr, |qs|);
    if !s.err {
      DoneAfterReserve(t, qs, blank, mr, ma);
      ReadyAfterReserve(t, qs, blank, mr);
      ActionErrs(s, qs, ma, |qs|);
      ActionIs(s, qs, blank, ma, |qs|);
    }
  }

  /** With duplicates among the varbinds a failed SET leaves nothing behind exactly when
      RESERVE2 refuses a varbind, or the assignment before the last one to each old cell,
      among those before the first starved varbind, writes the value the cell had. */
  lemma NothingLeftIff<K(!new), C(!new), V>(t: Table<K, C, V>, qs: seq<Request<K, C, V>>, blank: map<C, V>,
      mr: seq<bool>, ma: seq<bool>, late: bool)
    requires |qs| == |mr| == |ma| && Shaped(t, qs, blank)
    requires late || exists i | 0 <= i < |qs| :: Refused(t, qs, mr, i) || Starved(t, qs, ma, i)
    ensures Pdu(t, qs, blank, mr, ma, late) == t <==>
      || (exists i :: 0 <= i < |qs| && Refused(t, qs, mr, i))
      || forall k, c | k in t && c in blank :: Previous(t[k], qs, Completed(t, qs, ma, |qs|), k, c) == t[k][c]
  {
    SucceedsIff(t, qs, blank, mr, ma);
    ReserveFailsIff(t, qs, blank, mr, |qs|);
    if Reserve(Fresh(t, |qs|), qs, blank, mr, |qs|).err {
      FreeUndoesReserve(t, qs, blank, mr);
    } else {
      RollbackExactIff(t, qs, blank, mr, ma);
    }
  }

  // ---- Order independence ----------------------------------------------------------------------------

  ghost predicate Puts<K, C, V>(q: Request<K, C, V>, k: K, c: C) {
    q.key == k && q.finish.Put? && q.finish.col == c
  }

  lemma {:induction false} WrittenCell<K(!new), C(!new), V>(row: map<C, V>, qs: seq<Request<K, C, V>>, m: nat,
      k: K, c: C, i: nat)
    requires i < m <= |qs| && Distinct(qs) && Writes(qs[i], k, c)
    ensures c in RowWritten(row, qs, m, k) && RowWritten(row, qs, m, k)[c] == qs[i].change.val
  {
    if i < m - 1 {
      WrittenCell(row, qs, m - 1, k, c, i);
      assert !Writes(qs[m - 1], k, c);
    }
  }

  lemma {:induction false} FinishedCell<K(!new), C(!new), V>(t: Table<K, C, V>, qs: seq<Request<K, C, V>>,
      m: nat, k: K, c: C, i: nat)
    requires i < m <= |qs| && Distinct(qs) && Separate(qs) && Puts(qs[i], k, c) && k in Finished(t, qs, m)
    ensures c in Finished(t, qs, m)[k] && Finished(t, qs, m)[k][c] == qs[i].finish.val
  {
    assert k in Finished(t, qs, m - 1);
    if i < m - 1 {
      FinishedCell(t, qs, m - 1, k, c, i);
      assert !Puts(qs[m - 1], k, c);
    }
  }

  lemma {:induction false} UnfinishedCell<K, C, V>(t: Table<K, C, V>, qs: seq<Request<K, C, V>>, m: nat, k: K, c: C)
    requires m <= |qs| && k in Finished(t, qs, m) && forall i | 0 <= i < m :: !Puts(qs[i], k, c)
    ensures k in t && (c in Finished(t, qs, m)[k] <==> c in t[k])
    ensures c in t[k] ==> Finished(t, qs, m)[k][c] == t[k][c]
  {
    if m > 0 {
      UnfinishedCell(t, qs, m - 1, k, c);
    }
  }

  ghost function Named<K, C, V>(qs: seq<Request<K, C, V>>): set<K> {
    set q | q in qs :: q.key
  }

  ghost function Extended<K, C, V>(t: Table<K, C, V>, ks: set<K>, blank: map<C, V>): Table<K, C, V> {
    map k | k in t.Keys + ks :: if k in t then t[k] else blank
  }

  /** The table a successful RESERVE2 leaves depends on the set of rows named only. */
  lemma ReservedTable<K(!new), C, V>(t: Table<K, C, V>, qs: seq<Request<K, C, V>>, blank: map<C, V>, mem: seq<bool>)
    requires |qs| == |mem| && !Reserve(Fresh(t, |qs|), qs, blank, mem, |qs|).err
    ensures Reserve(Fresh(t, |qs|), qs, blank, mem, |qs|).table == Extended(t, Named(qs), blank)
  {
    ReserveKeeps(t, qs, blank, mem, |qs|);
    var s := Reserve(Fresh(t, |qs|), qs, blank, mem, |qs|);
    forall k | k in s.table && k !in t
      ensures k in Named(qs)
    {
      var i :| 0 <= i < |qs| && s.buf[i] == TheRow && qs[i].key == k;
      assert qs[i] in qs;
    }
  }

  ghost function Outcome<K, C, V>(t: Table<K, C, V>, qs: seq<Request<K, C, V>>): Table<K, C, V> {
    Finished(Written(t, qs, |qs|), qs, |qs|)
  }

  lemma AppliedIsOutcome<K(!new), C(!new), V>(t: Table<K, C, V>, qs: seq<Request<K, C, V>>, blank: map<C, V>,
      mem: seq<bool>)
    requires |qs| == |mem| && Separate(qs) && !Reserve(Fresh(t, |qs|), qs, blank, mem, |qs|).err
    ensures Applied(t, qs, blank, |qs|) == Outcome(Extended(t, Named(qs), blank), qs)
  {
    ReservedTable(t, qs, blank, mem);
    PhasesAreApplied(t, qs, blank, mem, |qs|);
  }

  // ---- What a SET that succeeds leaves, row by row and cell by cell ---------------------------------

  lemma {:induction false} MadeIff<K(!new), C, V>(t: Table<K, C, V>, qs: seq<Request<K, C, V>>, m: nat, k: K)
    requires m <= |qs|
    ensures Made(t, qs, m, k) <==> k in t || exists i :: 0 <= i < m && qs[i].key == k && qs[i].rule != MustExist
  {
    if m > 0 {
      MadeIff(t, qs, m - 1, k);
    }
  }

  /** Row k of the table u that a SET leaves: it was there or a varbind made it, and none
      destroyed it. */
  ghost predicate RowIs<K, C, V>(t: Table<K, C, V>, qs: seq<Request<K, C, V>>, u: Table<K, C, V>, k: K) {
    k in u <==>
      && (k in t || exists i :: 0 <= i < |qs| && qs[i].key == k && qs[i].rule != MustExist)
      && !exists i :: 0 <= i < |qs| && qs[i].key == k && qs[i].finish == Destroy
  }

  lemma CommittedRow<K(!new), C(!new), V>(t: Table<K, C, V>, qs: seq<Request<K, C, V>>, blank: map<C, V>,
      mem: seq<bool>, k: K)
    requires |qs| == |mem| && Separate(qs) && !Reserve(Fresh(t, |qs|), qs, blank, mem, |qs|).err
    ensures RowIs(t, qs, Applied(t, qs, blank, |qs|), k)
  {
    var made := Reserve(Fresh(t, |qs|), qs, blank, mem, |qs|).table;
    PhasesAreApplied(t, qs, blank, mem, |qs|);
    ReserveFailsIff(t, qs, blank, mem, |qs|);
    MadeIff(t, qs, |qs|, k);
    WrittenRows(made, qs, |qs|);
    FinishedKeys(Written(made, qs, |qs|), qs, |qs|);
  }

  /** The row a varbind starts from. */
  function Base<K, C, V>(t: Table<K, C, V>, blank: map<C, V>, k: K): map<C, V> {
    if k in t then t[k] else blank
  }

  /** Cell c of a row that is there: what the one varbind naming it put in, or what the row
      started with. */
  ghost predicate CellIs<K, C(!new), V>(row: map<C, V>, base: map<C, V>, qs: seq<Request<K, C, V>>, k: K, c: C)
    requires c in base
  {
    && c in row
    && (forall i | 0 <= i < |qs| && Writes(qs[i], k, c) :: row[c] == qs[i].change.val)
    && (forall i | 0 <= i < |qs| && Puts(qs[i], k, c) :: row[c] == qs[i].finish.val)
    && ((forall i | 0 <= i < |qs| :: !Writes(qs[i], k, c) && !Puts(qs[i], k, c)) ==> row[c] == base[c])
  }

  lemma CommittedCell<K(!new), C(!new), V>(t: Table<K, C, V>, qs: seq<Request<K, C, V>>, blank: map<C, V>,
      mem: seq<bool>, k: K, c: C)
    requires |qs| == |mem| && Separate(qs) && Distinct(qs)
    requires !Reserve(Fresh(t, |qs|), qs, blank, mem, |qs|).err
    requires k in Applied(t, qs, blank, |qs|) && c in Base(t, blank, k)
    ensures CellIs(Applied(t, qs, blank, |qs|)[k], Base(t, blank, k), qs, k, c)
  {
    AppliedIsOutcome(t, qs, blank, mem);
    ExtendedCell(t, qs, blank, k, c);
  }

  lemma ExtendedCell<K(!new), C(!new), V>(t: Table<K, C, V>, qs: seq<Request<K, C, V>>, blank: map<C, V>, k: K, c: C)
    requires Separate(qs) && Distinct(qs)
    requires k in Outcome(Extended(t, Named(qs), blank), qs) && c in Base(t, blank, k)
    ensures CellIs(Outcome(Extended(t, Named(qs), blank), qs)[k], Base(t, blank, k), qs, k, c)
  {
    var made := Extended(t, Named(qs), blank);
    OutcomeRow(made, qs, k);
    OutcomeCell(made, qs, k, c);
  }

  /** Table u is what the varbinds make of table t, row by row and cell by cell. */
  ghost predicate TableIs<K(!new), C(!new), V>(t: Table<K, C, V>, qs: seq<Request<K, C, V>>, blank: map<C, V>,
      u: Table<K, C, V>)
  {
    && (forall k :: RowIs(t, qs, u, k))
    && (forall k, c | k in u && c in Base(t, blank, k) :: CellIs(u[k], Base(t, blank, k), qs, k, c))
  }

  /** A SET that succeeds leaves what its varbinds say, if no cell is named twice. */
  lemma CommittedTable<K(!new), C(!new), V>(t: Table<K, C, V>, qs: seq<Request<K, C, V>>, blank: map<C, V>,
      mr: seq<bool>, ma: seq<bool>, u: Table<K, C, V>)
    requires |qs| == |mr| == |ma| && Separate(qs) && Distinct(qs)
    requires Succeeds(t, qs, blank, mr, ma) && u == Applied(t, qs, blank, |qs|)
    ensures TableIs(t, qs, blank, u)
  {
    forall k
      ensures RowIs(t, qs, u, k)
    {
      CommittedRow(t, qs, blank, mr, k);
    }
    forall k, c | k in u && c in Base(t, blank, k)
      ensures CellIs(u[k], Base(t, blank, k), qs, k, c)
    {
      CommittedCell(t, qs, blank, mr, k, c);
    }
  }

  lemma OutcomeRow<K(!new), C, V>(t: Table<K, C, V>, qs: seq<Request<K, C, V>>, k: K)
    requires k in Outcome(t, qs)
    ensures k in t
  {
    WrittenRows(t, qs, |qs|);
    FinishedKeys(Written(t, qs, |qs|), qs, |qs|);
  }

  lemma OutcomeCell<K(!new), C(!new), V>(t: Table<K, C, V>, qs: seq<Request<K, C, V>>, k: K, c: C)
    requires Separate(qs) && Distinct(qs) && k in Outcome(t, qs) && k in t && c in t[k]
    ensures CellIs(Outcome(t, qs)[k], t[k], qs, k, c)
  {
    var written := Written(t, qs, |qs|);
    WrittenRows(t, qs, |qs|);
    if i :| 0 <= i < |qs| && Writes(qs[i], k, c) {
      WrittenCell(t[k], qs, |qs|, k, c, i);
      OneWriter(qs, k, c, i);
      UnfinishedCell(written, qs, |qs|, k, c);
    } else {
      UnwrittenCell(t[k], qs, |qs|, k, c);
      if j :| 0 <= j < |qs| && Puts(qs[j], k, c) {
        FinishedCell(written, qs, |qs|, k, c, j);
        OnePutter(qs, k, c, j);
      } else {
        UnfinishedCell(written, qs, |qs|, k, c);
      }
    }
  }

  lemma OneWriter<K(!new), C(!new), V>(qs: seq<Request<K, C, V>>, k: K, c: C, i: nat)
    requires i < |qs| && Distinct(qs) && Writes(qs[i], k, c)
    ensures forall j | 0 <= j < |qs| && Writes(qs[j], k, c) :: j == i
  {
  }

  lemma OnePutter<K(!new), C(!new), V>(qs: seq<Request<K, C, V>>, k: K, c: C, i: nat)
    requires i < |qs| && Distinct(qs) && Separate(qs) && Puts(qs[i], k, c)
    ensures forall j | 0 <= j < |qs| && Puts(qs[j], k, c) :: j == i
  {
  }

  ghost predicate SameCell<K, C, V>(f: Table<K, C, V>, g: Table<K, C, V>, k: K, c: C)
    requires k in f && k in g
  {
    (c in f[k] <==> c in g[k]) && (c in f[k] ==> f[k][c] == g[k][c])
  }

  lemma SameRow<K, C(!new), V>(f: Table<K, C, V>, g: Table<K, C, V>, k: K)
    requires k in f && k in g && forall c :: SameCell(f, g, k, c)
    ensures f[k] == g[k]
  {
    forall c
      ensures (c in f[k] <==> c in g[k]) && (c in f[k] ==> f[k][c] == g[k][c])
    {
      assert SameCell(f, g, k, c);
    }
  }

  /** Two lists of the same varbinds, run over the same rows, leave the same cells. */
  lemma SameCellEitherOrder<K(!new), C(!new), V(!new)>(t: Table<K, C, V>, qs: seq<Request<K, C, V>>,
      ps: seq<Request<K, C, V>>, k: K, c: C)
    requires Distinct(qs) && Distinct(ps) && Separate(qs) && Separate(ps) && multiset(qs) == multiset(ps)
    requires k in Outcome(t, qs) && k in Outcome(t, ps)
    ensures SameCell(Outcome(t, qs), Outcome(t, ps), k, c)
  {
    if i :| 0 <= i < |qs| && Puts(qs[i], k, c) {
      assert qs[i] in multiset(ps);
      var j :| 0 <= j < |ps| && ps[j] == qs[i];
      FinishedCell(Written(t, qs, |qs|), qs, |qs|, k, c, i);
      FinishedCell(Written(t, ps, |ps|), ps, |ps|, k, c, j);
    } else {
      assert forall j | 0 <= j < |ps| :: ps[j] in multiset(qs);
      UnfinishedCell(Written(t, qs, |qs|), qs, |qs|, k, c);
      UnfinishedCell(Written(t, ps, |ps|), ps, |ps|, k, c);
      SameWritten(t, qs, ps, k, c);
    }
  }

  lemma SameWritten<K(!new), C(!new), V(!new)>(t: Table<K, C, V>, qs: seq<Request<K, C, V>>,
      ps: seq<Request<K, C, V>>, k: K, c: C)
    requires Distinct(qs) && Distinct(ps) && multiset(qs) == multiset(ps)
    requires k in Written(t, qs, |qs|)
    ensures k in Written(t, ps, |ps|) && SameCell(Written(t, qs, |qs|), Written(t, ps, |ps|), k, c)
  {
    WrittenRows(t, qs, |qs|);
    WrittenRows(t, ps, |ps|);
    if i :| 0 <= i < |qs| && Writes(qs[i], k, c) {
      assert qs[i] in multiset(ps);
      var j :| 0 <= j < |ps| && ps[j] == qs[i];
      WrittenCell(t[k], qs, |qs|, k, c, i);
      WrittenCell(t[k], ps, |ps|, k, c, j);
    } else {
      assert forall j | 0 <= j < |ps| :: ps[j] in multiset(qs);
      UnwrittenCell(t[k], qs, |qs|, k, c);
      UnwrittenCell(t[k], ps, |ps|, k, c);
    }
  }

  lemma {:induction false} UnwrittenCell<K, C, V>(row: map<C, V>, qs: seq<Request<K, C, V>>, m: nat, k: K, c: C)
    requires m <= |qs| && forall i | 0 <= i < m :: !Writes(qs[i], k, c)
    ensures c in RowWritten(row, qs, m, k) <==> c in row
    ensures c in row ==> RowWritten(row, qs, m, k)[c] == row[c]
  {
    if m > 0 {
      UnwrittenCell(row, qs, m - 1, k, c);
    }
  }

  lemma TwoOf<T>(xs: seq<T>, x: T) returns (a: nat, b: nat)
    requires multiset(xs)[x] >= 2
    ensures a < |xs| && b < |xs| && a != b && xs[a] == xs[b] == x
  {
    a :| a < |xs| && xs[a] == x;
    var rest := xs[..a] + xs[a + 1..];
    assert xs == xs[..a] + [x] + xs[a + 1..];
    assert x in multiset(rest);
    var c: nat :| c < |rest| && rest[c] == x;
    b := if c < a then c else c + 1;
  }

  lemma TwoAmong<T>(xs: seq<T>, ys: seq<T>, i: nat, j: nat) returns (a: nat, b: nat)
    requires multiset(xs) == multiset(ys) && i < j < |ys|
    ensures a < |xs| && b < |xs| && a != b && xs[a] == ys[i] && xs[b] == ys[j]
  {
    var x, y := ys[i], ys[j];
    assert x in multiset(xs) && y in multiset(xs);
    if x == y {
      assert ys == ys[..j] + [y] + ys[j + 1..];
      assert x in multiset(ys[..j]);
      a, b := TwoOf(xs, x);
    } else {
      a :| a < |xs| && xs[a] == x;
      b :| b < |xs| && xs[b] == y;
    }
  }

  lemma DistinctPermuted<K(!new), C(!new), V>(qs: seq<Request<K, C, V>>, ps: seq<Request<K, C, V>>)
    requires multiset(qs) == multiset(ps) && Distinct(qs)
    ensures Distinct(ps)
  {
    forall i, j | 0 <= i < j < |ps|
      ensures exists a, b :: 0 <= a < |qs| && 0 <= b < |qs| && a != b && qs[a] == ps[i] && qs[b] == ps[j]
    {
      var a, b := TwoAmong(qs, ps, i, j);
    }
  }

  /** Any two orders of the same distinct varbinds that both pass RESERVE2 commit the same
      table. */
  lemma OrderIndependence<K(!new), C(!new), V(!new)>(t: Table<K, C, V>, qs: seq<Request<K, C, V>>,
      ps: seq<Request<K, C, V>>, blank: map<C, V>, mq: seq<bool>, mp: seq<bool>)
    requires |qs| == |mq| && |ps| == |mp| && multiset(qs) == multiset(ps) && Distinct(qs) && Separate(qs)
    requires !Reserve(Fresh(t, |qs|), qs, blank, mq, |qs|).err && !Reserve(Fresh(t, |ps|), ps, blank, mp, |ps|).err
    ensures Applied(t, qs, blank, |qs|) == Applied(t, ps, blank, |ps|)
  {
    SeparatePermuted(qs, ps);
    AppliedIsOutcome(t, qs, blank, mq);
    AppliedIsOutcome(t, ps, blank, mp);
    NamedPermuted(qs, ps);
    SameOutcome(Extended(t, Named(qs), blank), qs, ps);
  }

  lemma NamedPermuted<K, C, V>(qs: seq<Request<K, C, V>>, ps: seq<Request<K, C, V>>)
    requires multiset(qs) == multiset(ps)
    ensures Named(qs) == Named(ps)
  {
    assert forall q | q in qs :: q in multiset(qs);
    assert forall q | q in ps :: q in multiset(ps);
    assert forall q :: q in multiset(qs) <==> q in multiset(ps);
  }

  lemma SeparatePermuted<K(!new), C(!new), V(!new)>(qs: seq<Request<K, C, V>>, ps: seq<Request<K, C, V>>)
    requires multiset(qs) == multiset(ps) && Separate(qs)
    ensures Separate(ps)
  {
    forall j | 0 <= j < |ps|
      ensures exists i :: 0 <= i < |qs| && qs[i] == ps[j]
    {
      assert ps[j] in multiset(qs);
    }
  }

  lemma SameOutcome<K(!new), C(!new), V(!new)>(t: Table<K, C, V>, qs: seq<Request<K, C, V>>,
      ps: seq<Request<K, C, V>>)
    requires Distinct(qs) && Separate(qs) && multiset(qs) == multiset(ps)
    ensures Outcome(t, qs) == Outcome(t, ps)
  {
    DistinctPermuted(qs, ps);
    SeparatePermuted(qs, ps);
    forall k
      ensures k in Outcome(t, qs) <==> k in Outcome(t, ps)
    {
      SurvivesPermuted(t, qs, ps, k);
      SurvivesPermuted(t, ps, qs, k);
    }
    forall k | k in Outcome(t, qs)
      ensures Outcome(t, qs)[k] == Outcome(t, ps)[k]
    {
      forall c
        ensures SameCell(Outcome(t, qs), Outcome(t, ps), k, c)
      {
        SameCellEitherOrder(t, qs, ps, k, c);
      }
      SameRow(Outcome(t, qs), Outcome(t, ps), k);
    }
  }

  lemma SurvivesPermuted<K(!new), C, V>(t: Table<K, C, V>, qs: seq<Request<K, C, V>>, ps: seq<Request<K, C, V>>, k: K)
    requires multiset(qs) == multiset(ps)
    ensures k in Outcome(t, qs) ==> k in Outcome(t, ps)
  {
    FinishedKeys(Written(t, qs, |qs|), qs, |qs|);
    FinishedKeys(Written(t, ps, |ps|), ps, |ps|);
    WrittenRows(t, qs, |qs|);
    WrittenRows(t, ps, |ps|);
    assert forall j | 0 <= j < |ps| :: ps[j] in multiset(qs);
  }
}
