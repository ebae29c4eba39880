/** The multi-phase SNMP SET transaction on values: what RESERVE2, FREE, ACTION, UNDO and
    COMMIT do to a table of rows and to the rollback buffer each varbind carries. The
    table mappers of MdTable and PgTable are proved to compute these functions; the
    all-or-nothing rule of section 4.2.5 of RFC 3416 is proved here, once for both. */
module SetCore {

  /** What RESERVE2 does about the row a varbind names. */
  datatype Rule =
    | MustExist   // a missing row is an error, but the scan goes on
    | MustCreate  // createAndGo, createAndWait: an existing row is an error
    | OnDemand    // the first varbind of a missing row creates it

  datatype Change<C, V> = NoWrite | Write(col: C, val: V)

  datatype Finish<C, V> = Keep | Put(col: C, val: V) | Destroy

  /** A varbind: the row it names and its part in RESERVE2, ACTION and COMMIT. */
  datatype Request<K, C, V> = Request(key: K, rule: Rule, change: Change<C, V>, finish: Finish<C, V>)

  /** The rollback buffer of one varbind. `TheRow` is the sentinel "the buffer is the row
      itself": the row was born in this PDU. */
  datatype Rollback<V> = Nothing | TheRow | Saved(val: V)

  type Table<K, C, V> = map<K, map<C, V>>

  datatype Txn<K, C, V> = Txn(table: Table<K, C, V>, buf: seq<Rollback<V>>, err: bool, stop: bool)

  function Fresh<K, C, V>(t: Table<K, C, V>, n: nat): Txn<K, C, V> {
    Txn(t, seq(n, _ => Nothing), false, false)
  }

  // ---- The phases, one varbind at a time -----------------------------------------------

  function WriteOne<K, C, V>(t: Table<K, C, V>, q: Request<K, C, V>): Table<K, C, V> {
    if q.change.Write? && q.key in t then t[q.key := t[q.key][q.change.col := q.change.val]] else t
  }

  function FinishOne<K, C, V>(t: Table<K, C, V>, q: Request<K, C, V>): Table<K, C, V> {
    if q.key !in t then t
    else match q.finish
      case Keep => t
      case Put(c, v) => t[q.key := t[q.key][c := v]]
      case Destroy => t - {q.key}
  }

  function ReserveStep<K, C, V>(s: Txn<K, C, V>, i: nat, q: Request<K, C, V>, blank: map<C, V>, mem: bool)
    : Txn<K, C, V>
    requires i < |s.buf|
  {
    if s.stop then s
    else if q.rule == MustCreate || (q.rule == OnDemand && q.key !in s.table) then
      if mem && q.key !in s.table then s.(table := s.table[q.key := blank], buf := s.buf[i := TheRow])
      else s.(err := true, stop := true)
    else s.(err := s.err || q.key !in s.table)
  }

  function FreeStep<K, C, V>(s: Txn<K, C, V>, i: nat, q: Request<K, C, V>): Txn<K, C, V>
    requires i < |s.buf|
  {
    if s.buf[i] == TheRow then s.(table := s.table - {q.key}, buf := s.buf[i := Nothing]) else s
  }

  function ActionStep<K, C, V>(s: Txn<K, C, V>, i: nat, q: Request<K, C, V>, mem: bool): Txn<K, C, V>
    requires i < |s.buf|
  {
    if s.stop || q.change.NoWrite? || q.key !in s.table || q.change.col !in s.table[q.key] then s
    else if s.buf[i] != Nothing then s.(table := WriteOne(s.table, q))
    else if !mem then s.(err := true, stop := true)
    else s.(table := WriteOne(s.table, q), buf := s.buf[i := Saved(s.table[q.key][q.change.col])])
  }

  function UndoStep<K, C, V>(s: Txn<K, C, V>, i: nat, q: Request<K, C, V>): Txn<K, C, V>
    requires i < |s.buf|
  {
    match s.buf[i]
    case Nothing => s
    case TheRow => s.(table := s.table - {q.key}, buf := s.buf[i := Nothing])
    case Saved(v) =>
      if q.change.Write? && q.key in s.table
      then s.(table := s.table[q.key := s.table[q.key][q.change.col := v]])
      else s
  }

  function CommitStep<K, C, V>(s: Txn<K, C, V>, i: nat, q: Request<K, C, V>): Txn<K, C, V>
    requires i < |s.buf|
  {
    s.(table := FinishOne(s.table, q), buf := if q.rule == MustCreate then s.buf[i := Nothing] else s.buf)
  }

  // ---- The phases over the first m varbinds -----------------------------------------------

  function Reserve<K, C, V>(s: Txn<K, C, V>, qs: seq<Request<K, C, V>>, blank: map<C, V>, mem: seq<bool>, m: nat)
    : (r: Txn<K, C, V>)
    requires m <= |qs| == |s.buf| == |mem|
    ensures |r.buf| == |qs|
  {
    if m == 0 then s else ReserveStep(Reserve(s, qs, blank, mem, m - 1), m - 1, qs[m - 1], blank, mem[m - 1])
  }

  function Free<K, C, V>(s: Txn<K, C, V>, qs: seq<Request<K, C, V>>, m: nat): (r: Txn<K, C, V>)
    requires m <= |qs| == |s.buf|
    ensures |r.buf| == |qs|
  {
    if m == 0 then s else FreeStep(Free(s, qs, m - 1), m - 1, qs[m - 1])
  }

  function Action<K, C, V>(s: Txn<K, C, V>, qs: seq<Request<K, C, V>>, mem: seq<bool>, m: nat): (r: Txn<K, C, V>)
    requires m <= |qs| == |s.buf| == |mem|
    ensures |r.buf| == |qs|
  {
    if m == 0 then s else ActionStep(Action(s, qs, mem, m - 1), m - 1, qs[m - 1], mem[m - 1])
  }

  function Undo<K, C, V>(s: Txn<K, C, V>, qs: seq<Request<K, C, V>>, m: nat): (r: Txn<K, C, V>)
    requires m <= |qs| == |s.buf|
    ensures |r.buf| == |qs|
  {
    if m == 0 then s else UndoStep(Undo(s, qs, m - 1), m - 1, qs[m - 1])
  }

  function Commit<K, C, V>(s: Txn<K, C, V>, qs: seq<Request<K, C, V>>, m: nat): (r: Txn<K, C, V>)
    requires m <= |qs| == |s.buf|
    ensures |r.buf| == |qs|
  {
    if m == 0 then s else CommitStep(Commit(s, qs, m - 1), m - 1, qs[m - 1])
  }

  /** Once a phase has stopped the remaining varbinds change nothing: leaving the loop early
      and running it to its end come to the same. */
  lemma {:induction false} ReserveStopped<K, C, V>(s: Txn<K, C, V>, qs: seq<Request<K, C, V>>, blank: map<C, V>,
      mem: seq<bool>, i: nat, m: nat)
    requires i <= m <= |qs| == |s.buf| == |mem|
    requires Reserve(s, qs, blank, mem, i).stop
    ensures Reserve(s, qs, blank, mem, m) == Reserve(s, qs, blank, mem, i)
  {
    if i < m {
      ReserveStopped(s, qs, blank, mem, i, m - 1);
    }
  }

  /** RESERVE2 makes no row after the first it could not make. */
  lemma {:induction false} CreationFailureStops<K, C, V>(s: Txn<K, C, V>, qs: seq<Request<K, C, V>>, blank: map<C, V>,
      mem: seq<bool>, i: nat, m: nat, a: Txn<K, C, V>)
    requires i < m <= |qs| == |s.buf| == |mem| && a == Reserve(s, qs, blank, mem, i) && !a.stop
    requires qs[i].rule == MustCreate || (qs[i].rule == OnDemand && qs[i].key !in a.table)
    requires !mem[i] || qs[i].key in a.table
    ensures Reserve(s, qs, blank, mem, m) == a.(err := true, stop := true)
  {
    FailedStep(a, i, qs[i], blank, mem[i]);
    if i + 1 < m {
      CreationFailureStops(s, qs, blank, mem, i, m - 1, a);
    }
  }

  lemma FailedStep<K, C, V>(a: Txn<K, C, V>, i: nat, q: Request<K, C, V>, blank: map<C, V>, mem: bool)
    requires i < |a.buf| && !a.stop && (q.rule == MustCreate || (q.rule == OnDemand && q.key !in a.table))
    requires !mem || q.key in a.table
    ensures ReserveStep(a, i, q, blank, mem) == a.(err := true, stop := true)
  {
  }

  lemma {:induction false} ActionStopped<K, C, V>(s: Txn<K, C, V>, qs: seq<Request<K, C, V>>, mem: seq<bool>,
      i: nat, m: nat)
    requires i <= m <= |qs| == |s.buf| == |mem|
    requires Action(s, qs, mem, i).stop
    ensures Action(s, qs, mem, m) == Action(s, qs, mem, i)
  {
    if i < m {
      ActionStopped(s, qs, mem, i, m - 1);
    }
  }

  /** FREE and UNDO leave no row in a buffer, and COMMIT none of a row that a varbind had to
      make: the row is the table's, and the buffers are given back. */
  lemma {:induction false} BuffersLetGo<K, C, V>(s: Txn<K, C, V>, qs: seq<Request<K, C, V>>, m: nat)
    requires m <= |qs| == |s.buf|
    ensures forall i | 0 <= i < m :: Free(s, qs, m).buf[i] != TheRow && Undo(s, qs, m).buf[i] != TheRow
    ensures forall i | 0 <= i < |qs| ::
      Commit(s, qs, m).buf[i] == if i < m && qs[i].rule == MustCreate then Nothing else s.buf[i]
  {
    if m > 0 {
      BuffersLetGo(s, qs, m - 1);
    }
  }

  // ---- RESERVE2 and FREE ---------------------------------------------------------------------

  /** After m varbinds of RESERVE2: old rows untouched, every new row blank and owned by
      exactly one varbind's sentinel. */
  ghost predicate Reserved<K(!new), C, V>(t0: Table<K, C, V>, s: Txn<K, C, V>, qs: seq<Request<K, C, V>>,
      blank: map<C, V>, m: nat)
    requires m <= |qs| == |s.buf|
  {
    && (forall k | k in t0 :: k in s.table && s.table[k] == t0[k])
    && (forall k | k in s.table && k !in t0 :: s.table[k] == blank && exists i ::
      0 <= i < m && s.buf[i] == TheRow && qs[i].key == k)
    && (forall i | 0 <= i < |qs| ::
      s.buf[i] == Nothing || (i < m && s.buf[i] == TheRow && qs[i].key in s.table && qs[i].key !in t0))
    && (!s.err ==> forall i | 0 <= i < m :: qs[i].key in s.table)
  }

  lemma ReserveStepKeeps<K(!new), C, V>(t0: Table<K, C, V>, a: Txn<K, C, V>, b: Txn<K, C, V>,
      qs: seq<Request<K, C, V>>, blank: map<C, V>, mem: bool, i: nat)
    requires i < |qs| == |a.buf| && Reserved(t0, a, qs, blank, i)
    requires (a.stop ==> a.err) && b == ReserveStep(a, i, qs[i], blank, mem)
    ensures Reserved(t0, b, qs, blank, i + 1) && (b.stop ==> b.err)
  {
    forall k | k in b.table && k !in t0
      ensures b.table[k] == blank && exists j :: 0 <= j < i + 1 && b.buf[j] == TheRow && qs[j].key == k
    {
      if k in a.table {
        var j :| 0 <= j < i && a.buf[j] == TheRow && qs[j].key == k;
        assert b.buf[j] == TheRow;
      } else {
        assert b.buf[i] == TheRow && qs[i].key == k;
      }
    }
  }

  lemma {:induction false} ReserveKeeps<K(!new), C, V>(t: Table<K, C, V>, qs: seq<Request<K, C, V>>,
      blank: map<C, V>, mem: seq<bool>, m: nat)
    requires m <= |qs| == |mem|
    ensures var s := Reserve(Fresh(t, |qs|), qs, blank, mem, m); Reserved(t, s, qs, blank, m) && (s.stop ==> s.err)
  {
    if m > 0 {
      ReserveKeeps(t, qs, blank, mem, m - 1);
      var a, b := Reserve(Fresh(t, |qs|), qs, blank, mem, m - 1), Reserve(Fresh(t, |qs|), qs, blank, mem, m);
      ReserveStepKeeps(t, a, b, qs, blank, mem[m - 1], m - 1);
    }
  }

  /** What RESERVE2 leaves for the phase after it. */
  ghost predicate Settled<K(!new), C, V>(s: Txn<K, C, V>, qs: seq<Request<K, C, V>>) {
    && |s.buf| == |qs| && (s.stop ==> s.err)
    && forall i: nat | i < |qs| :: SettledAt(s, qs, i)
  }

  ghost predicate SettledAt<K(!new), C, V>(s: Txn<K, C, V>, qs: seq<Request<K, C, V>>, i: nat)
    requires i < |qs| == |s.buf|
  {
    !s.buf[i].Saved? && (s.buf[i] == TheRow || !s.err ==> qs[i].key in s.table)
  }

  lemma ReserveSettles<K(!new), C, V>(t: Table<K, C, V>, qs: seq<Request<K, C, V>>, blank: map<C, V>, mem: seq<bool>)
    requires |qs| == |mem|
    ensures Settled(Reserve(Fresh(t, |qs|), qs, blank, mem, |qs|), qs)
  {
    ReserveKeeps(t, qs, blank, mem, |qs|);
  }

  lemma {:induction false} FreeRemoves<K(!new), C, V>(s: Txn<K, C, V>, qs: seq<Request<K, C, V>>, m: nat)
    requires m <= |qs| == |s.buf|
    ensures var f := Free(s, qs, m);
      && (forall k :: k in f.table <==>
        k in s.table && !exists i :: 0 <= i < m && s.buf[i] == TheRow && qs[i].key == k)
      && (forall k | k in f.table :: f.table[k] == s.table[k])
      && (forall i | m <= i < |qs| :: f.buf[i] == s.buf[i])
  {
    if m > 0 {
      FreeRemoves(s, qs, m - 1);
    }
  }

  /** FREE undoes RESERVE2: whichever varbind RESERVE2 stopped at, for any list at all,
      duplicates and competing creations included. */
  lemma FreeUndoesReserve<K(!new), C, V>(t: Table<K, C, V>, qs: seq<Request<K, C, V>>, blank: map<C, V>,
      mem: seq<bool>)
    requires |qs| == |mem|
    ensures Free(Reserve(Fresh(t, |qs|), qs, blank, mem, |qs|), qs, |qs|).table == t
  {
    ReserveKeeps(t, qs, blank, mem, |qs|);
    FreeRemoves(Reserve(Fresh(t, |qs|), qs, blank, mem, |qs|), qs, |qs|);
  }

  // ---- ACTION and UNDO ---------------------------------------------------------------------------

  ghost predicate Shaped<K(!new), C, V>(t: Table<K, C, V>, qs: seq<Request<K, C, V>>, blank: map<C, V>) {
    && (forall k | k in t :: t[k].Keys == blank.Keys)
    && (forall i | 0 <= i < |qs| :: qs[i].change.Write? ==> qs[i].change.col in blank)
    && (forall i | 0 <= i < |qs| :: qs[i].finish.Put? ==> qs[i].finish.col in blank)
  }

  ghost predicate Writes<K, C, V>(q: Request<K, C, V>, k: K, c: C) {
    q.key == k && q.change.Write? && q.change.col == c
  }

  /** The table, and one row of it, after the column assignments of the first m varbinds. */
  function Written<K, C, V>(t: Table<K, C, V>, qs: seq<Request<K, C, V>>, m: nat): Table<K, C, V>
    requires m <= |qs|
  {
    if m == 0 then t else WriteOne(Written(t, qs, m - 1), qs[m - 1])
  }

  ghost function RowWritten<K, C, V>(row: map<C, V>, qs: seq<Request<K, C, V>>, m: nat, k: K): map<C, V>
    requires m <= |qs|
  {
    if m == 0 then row
    else
      var r := RowWritten(row, qs, m - 1, k);
      if qs[m - 1].key == k && qs[m - 1].change.Write? then r[qs[m - 1].change.col := qs[m - 1].change.val] else r
  }

  lemma {:induction false} WrittenRows<K(!new), C, V>(t: Table<K, C, V>, qs: seq<Request<K, C, V>>, m: nat)
    requires m <= |qs|
    ensures Written(t, qs, m).Keys == t.Keys
    ensures forall k | k in t :: Written(t, qs, m)[k] == RowWritten(t[k], qs, m, k)
  {
    if m > 0 {
      WrittenRows(t, qs, m - 1);
    }
  }

  lemma {:induction false} RowKeys<K, C, V>(row: map<C, V>, qs: seq<Request<K, C, V>>, m: nat, k: K)
    requires m <= |qs|
    requires forall i | 0 <= i < |qs| :: qs[i].change.Write? ==> qs[i].change.col in row
    ensures RowWritten(row, qs, m, k).Keys == row.Keys
  {
    if m > 0 {
      RowKeys(row, qs, m - 1, k);
    }
  }

  /** The number of varbinds ACTION completes before an allocation fails. */
  function Done<K, C, V>(s: Txn<K, C, V>, qs: seq<Request<K, C, V>>, mem: seq<bool>, m: nat): (n: nat)
    requires m <= |qs| == |s.buf| == |mem|
    ensures n <= m
  {
    if m == 0 then 0
    else if Action(s, qs, mem, m).stop then Done(s, qs, mem, m - 1)
    else m
  }

  ghost predicate Ready<K(!new), C, V>(s: Txn<K, C, V>, qs: seq<Request<K, C, V>>, blank: map<C, V>) {
    && !s.stop && |s.buf| == |qs| && Shaped(s.table, qs, blank)
    && (forall i | 0 <= i < |qs| :: qs[i].key in s.table && !s.buf[i].Saved?)
  }

  /** What ACTION leaves in varbind j's rollback buffer when n varbinds were completed. */
  ghost function BufferAfter<K(!new), C, V>(s: Txn<K, C, V>, qs: seq<Request<K, C, V>>, blank: map<C, V>,
      n: nat, j: nat): Rollback<V>
    requires Ready(s, qs, blank) && n <= |qs| && j < |qs|
  {
    if j < n && s.buf[j] == Nothing && qs[j].change.Write? then
      RowKeys(s.table[qs[j].key], qs, j, qs[j].key);
      Saved(RowWritten(s.table[qs[j].key], qs, j, qs[j].key)[qs[j].change.col])
    else s.buf[j]
  }

  ghost predicate Acted<K(!new), C, V>(s: Txn<K, C, V>, a: Txn<K, C, V>, qs: seq<Request<K, C, V>>,
      blank: map<C, V>, n: nat)
    requires Ready(s, qs, blank) && n <= |qs|
  {
    && a.table == Written(s.table, qs, n)
    && |a.buf| == |qs|
    && forall j | 0 <= j < |qs| :: a.buf[j] == BufferAfter(s, qs, blank, n, j)
  }

  lemma ActionStepIs<K(!new), C, V>(s: Txn<K, C, V>, a: Txn<K, C, V>, qs: seq<Request<K, C, V>>,
      blank: map<C, V>, mem: bool, i: nat)
    requires Ready(s, qs, blank) && i < |qs| && !a.stop && Acted(s, a, qs, blank, i)
    ensures var b := ActionStep(a, i, qs[i], mem); Acted(s, b, qs, blank, if b.stop then i else i + 1)
  {
    WrittenRows(s.table, qs, i);
    RowKeys(s.table[qs[i].key], qs, i, qs[i].key);
    assert a.buf[i] == s.buf[i];
  }

  lemma {:induction false} ActionIs<K(!new), C, V>(s: Txn<K, C, V>, qs: seq<Request<K, C, V>>, blank: map<C, V>,
      mem: seq<bool>, m: nat)
    requires Ready(s, qs, blank) && m <= |qs| == |mem|
    ensures var n := Done(s, qs, mem, m);
      Acted(s, Action(s, qs, mem, m), qs, blank, n) && (Action(s, qs, mem, m).stop <==> n < m)
  {
    if m > 0 {
      ActionIs(s, qs, blank, mem, m - 1);
      if !Action(s, qs, mem, m - 1).stop {
        ActionStepIs(s, Action(s, qs, mem, m - 1), qs, blank, mem[m - 1], m - 1);
      }
    }
  }

  /** The value the last saved buffer among the first m varbinds holds for a cell. */
  ghost function LastSaved<K, C, V>(buf: seq<Rollback<V>>, qs: seq<Request<K, C, V>>, m: nat, k: K, c: C,
      otherwise: V): V
    requires m <= |qs| == |buf|
  {
    if m == 0 then otherwise
    else if Writes(qs[m - 1], k, c) && buf[m - 1].Saved? then buf[m - 1].val
    else LastSaved(buf, qs, m - 1, k, c, otherwise)
  }

  /** One of the first m varbinds carries the sentinel of row k. */
  ghost predicate Reborn<K(!new), C, V>(s: Txn<K, C, V>, qs: seq<Request<K, C, V>>, m: nat, k: K)
    requires m <= |qs| == |s.buf|
  {
    m > 0 && (Reborn(s, qs, m - 1, k) || (s.buf[m - 1] == TheRow && qs[m - 1].key == k))
  }

  lemma {:induction false} RebornBy<K(!new), C, V>(s: Txn<K, C, V>, qs: seq<Request<K, C, V>>, m: nat, k: K)
    requires m <= |qs| == |s.buf|
    ensures Reborn(s, qs, m, k) <==> exists i :: 0 <= i < m && s.buf[i] == TheRow && qs[i].key == k
  {
    if m > 0 {
      RebornBy(s, qs, m - 1, k);
    }
  }

  ghost predicate UndoneRows<K(!new), C, V>(s: Txn<K, C, V>, u: Txn<K, C, V>, qs: seq<Request<K, C, V>>,
      blank: map<C, V>, m: nat)
    requires m <= |qs| == |s.buf|
  {
    && |u.buf| == |qs|
    && (forall i | m <= i < |qs| :: u.buf[i] == s.buf[i])
    && (forall k :: k in u.table <==> k in s.table && !Reborn(s, qs, m, k))
    && (forall k | k in u.table :: u.table[k].Keys == blank.Keys)
  }

  lemma UndoStepRows<K(!new), C, V>(a: Txn<K, C, V>, i: nat, q: Request<K, C, V>)
    requires i < |a.buf|
    ensures var b := UndoStep(a, i, q);
      && (forall k :: k in b.table <==> k in a.table && !(a.buf[i] == TheRow && q.key == k))
      && (forall k | k in b.table :: b.table[k] ==
           if a.buf[i].Saved? && q.change.Write? && q.key == k
             then a.table[k][q.change.col := a.buf[i].val] else a.table[k])
  {
  }

  lemma UndoStepKeepsRows<K(!new), C, V>(s: Txn<K, C, V>, a: Txn<K, C, V>, qs: seq<Request<K, C, V>>,
      blank: map<C, V>, i: nat)
    requires i < |qs| == |s.buf| && Shaped(s.table, qs, blank) && UndoneRows(s, a, qs, blank, i)
    ensures UndoneRows(s, UndoStep(a, i, qs[i]), qs, blank, i + 1)
  {
    UndoStepRows(a, i, qs[i]);
  }

  lemma {:induction false} UndoIsRows<K(!new), C, V>(s: Txn<K, C, V>, qs: seq<Request<K, C, V>>,
      blank: map<C, V>, m: nat)
    requires m <= |qs| == |s.buf| && Shaped(s.table, qs, blank)
    ensures UndoneRows(s, Undo(s, qs, m), qs, blank, m)
  {
    if m > 0 {
      UndoIsRows(s, qs, blank, m - 1);
      UndoStepKeepsRows(s, Undo(s, qs, m - 1), qs, blank, m - 1);
    }
  }

  lemma {:induction false} UndoKeepsBuf<K, C, V>(s: Txn<K, C, V>, qs: seq<Request<K, C, V>>, m: nat, i: nat)
    requires m <= i < |qs| == |s.buf|
    ensures Undo(s, qs, m).buf[i] == s.buf[i]
  {
    if m > 0 {
      UndoKeepsBuf(s, qs, m - 1, i);
    }
  }

  lemma {:induction false} UndoIsCell<K(!new), C, V>(s: Txn<K, C, V>, qs: seq<Request<K, C, V>>, m: nat, k: K, c: C)
    requires m <= |qs| == |s.buf|
    requires k in Undo(s, qs, m).table && k in s.table && c in s.table[k]
    ensures c in Undo(s, qs, m).table[k] && Undo(s, qs, m).table[k][c] == LastSaved(s.buf, qs, m, k, c, s.table[k][c])
  {
    if m > 0 {
      var a := Undo(s, qs, m - 1);
      UndoKeepsBuf(s, qs, m - 1, m - 1);
      UndoStepRows(a, m - 1, qs[m - 1]);
      assert k in a.table;
      UndoIsCell(s, qs, m - 1, k, c);
    }
  }

  /** The value a cell had just before its last assignment among the first n varbinds (its
      first value if there is none): what forward-order UNDO puts back. */
  ghost function Previous<K, C, V>(row: map<C, V>, qs: seq<Request<K, C, V>>, n: nat, k: K, c: C): V
    requires n <= |qs| && c in row
    requires forall i | 0 <= i < |qs| :: qs[i].change.Write? ==> qs[i].change.col in row
  {
    if n == 0 then row[c]
    else if Writes(qs[n - 1], k, c) then RowKeys(row, qs, n - 1, k); RowWritten(row, qs, n - 1, k)[c]
    else Previous(row, qs, n - 1, k, c)
  }

  /** Varbind j's rollback buffer holds what its cell of row k was before the assignment. */
  ghost predicate SavedAt<K, C, V>(row: map<C, V>, buf: seq<Rollback<V>>, qs: seq<Request<K, C, V>>, k: K, j: nat)
    requires j < |qs| == |buf| && qs[j].change.Write?
  {
    qs[j].change.col in RowWritten(row, qs, j, k) && buf[j] == Saved(RowWritten(row, qs, j, k)[qs[j].change.col])
  }

  lemma {:induction false} LastSavedIsPrevious<K, C, V>(row: map<C, V>, buf: seq<Rollback<V>>,
      qs: seq<Request<K, C, V>>, m: nat, k: K, c: C)
    requires m <= |qs| == |buf| && c in row
    requires forall i | 0 <= i < |qs| :: qs[i].change.Write? ==> qs[i].change.col in row
    requires forall j | 0 <= j < m && qs[j].key == k && qs[j].change.Write? :: SavedAt(row, buf, qs, k, j)
    ensures c in RowWritten(row, qs, m, k)
    ensures LastSaved(buf, qs, m, k, c, RowWritten(row, qs, m, k)[c]) == Previous(row, qs, m, k, c)
  {
    RowKeys(row, qs, m, k);
    if m > 0 {
      if Writes(qs[m - 1], k, c) {
        assert SavedAt(row, buf, qs, k, m - 1);
      } else {
        LastSavedIsPrevious(row, buf, qs, m - 1, k, c);
      }
    }
  }

  /** ACTION saved every cell it assigned in a row that was there before the PDU. */
  lemma OldCellsSaved<K(!new), C, V>(t: Table<K, C, V>, s: Txn<K, C, V>, a: Txn<K, C, V>,
      qs: seq<Request<K, C, V>>, blank: map<C, V>, n: nat, k: K)
    requires n <= |qs| && Ready(s, qs, blank) && Reserved(t, s, qs, blank, |qs|) && Acted(s, a, qs, blank, n)
      && k in t
    ensures forall j | 0 <= j < n && qs[j].key == k && qs[j].change.Write? :: SavedAt(s.table[k], a.buf, qs, k, j)
    ensures forall j | n <= j < |qs| && qs[j].key == k :: a.buf[j] == Nothing
  {
    forall j | 0 <= j < n && qs[j].key == k && qs[j].change.Write?
      ensures SavedAt(s.table[k], a.buf, qs, k, j)
    {
      RowKeys(s.table[k], qs, j, k);
      assert s.buf[j] == Nothing;
      assert a.buf[j] == BufferAfter(s, qs, blank, n, j);
    }
  }

  lemma {:induction false} NothingSavedLater<K, C, V>(buf: seq<Rollback<V>>, qs: seq<Request<K, C, V>>, n: nat,
      m: nat, k: K, c: C, otherwise: V)
    requires n <= m <= |qs| == |buf|
    requires forall j | n <= j < m && qs[j].key == k :: buf[j] == Nothing
    ensures LastSaved(buf, qs, m, k, c, otherwise) == LastSaved(buf, qs, n, k, c, otherwise)
  {
    if n < m {
      NothingSavedLater(buf, qs, n, m - 1, k, c, otherwise);
    }
  }

  lemma ReadyAfterReserve<K(!new), C, V>(t: Table<K, C, V>, qs: seq<Request<K, C, V>>, blank: map<C, V>,
      mem: seq<bool>)
    requires |qs| == |mem| && Shaped(t, qs, blank)
    requires !Reserve(Fresh(t, |qs|), qs, blank, mem, |qs|).err
    ensures var s := Reserve(Fresh(t, |qs|), qs, blank, mem, |qs|);
      Ready(s, qs, blank) && Reserved(t, s, qs, blank, |qs|)
  {
    ReserveKeeps(t, qs, blank, mem, |qs|);
  }

  lemma ShapedAfterAction<K(!new), C, V>(s: Txn<K, C, V>, qs: seq<Request<K, C, V>>, blank: map<C, V>, n: nat)
    requires Ready(s, qs, blank) && n <= |qs|
    ensures Shaped(Written(s.table, qs, n), qs, blank)
  {
  }

  // ---- When the phases fail, in terms of the table, the varbinds and the memory ------------------

  /** Row k is there when RESERVE2 comes to varbind i, if nothing was refused before. */
  predicate Made<K, C, V>(t: Table<K, C, V>, qs: seq<Request<K, C, V>>, i: nat, k: K)
    requires i <= |qs|
  {
    k in t || (i > 0 && ((qs[i - 1].key == k && qs[i - 1].rule != MustExist) || Made(t, qs, i - 1, k)))
  }

  /** RESERVE2 refuses varbind i: its row is missing, or cannot be created. */
  predicate Refused<K, C, V>(t: Table<K, C, V>, qs: seq<Request<K, C, V>>, mem: seq<bool>, i: nat)
    requires i < |qs| == |mem|
  {
    match qs[i].rule
    case MustExist => !Made(t, qs, i, qs[i].key)
    case MustCreate => !mem[i] || Made(t, qs, i, qs[i].key)
    case OnDemand => !mem[i] && !Made(t, qs, i, qs[i].key)
  }

  /** Varbind i is the one that makes its row. */
  predicate Makes<K, C, V>(t: Table<K, C, V>, qs: seq<Request<K, C, V>>, i: nat)
    requires i < |qs|
  {
    qs[i].rule == MustCreate || (qs[i].rule == OnDemand && !Made(t, qs, i, qs[i].key))
  }

  /** RESERVE2 went through the first m varbinds: the rows are those made, each carried by
      the varbind that made it. */
  ghost predicate Passing<K(!new), C, V>(t: Table<K, C, V>, s: Txn<K, C, V>, qs: seq<Request<K, C, V>>, m: nat)
    requires m <= |qs| == |s.buf|
  {
    && !s.err && !s.stop
    && (forall k :: k in s.table <==> Made(t, qs, m, k))
    && (forall i | 0 <= i < |qs| :: s.buf[i] == if i < m && Makes(t, qs, i) then TheRow else Nothing)
  }

  lemma PassingStep<K(!new), C, V>(t: Table<K, C, V>, a: Txn<K, C, V>, b: Txn<K, C, V>,
      qs: seq<Request<K, C, V>>, blank: map<C, V>, mem: seq<bool>, i: nat)
    requires i < |qs| == |a.buf| == |mem| && Passing(t, a, qs, i) && b == ReserveStep(a, i, qs[i], blank, mem[i])
    ensures if Refused(t, qs, mem, i) then b.err else Passing(t, b, qs, i + 1)
  {
    assert forall k :: Made(t, qs, i + 1, k) <==> (qs[i].key == k && qs[i].rule != MustExist) || Made(t, qs, i, k);
  }

  /** RESERVE2 fails exactly when it refuses some varbind. */
  lemma {:induction false} ReserveFailsIff<K(!new), C, V>(t: Table<K, C, V>, qs: seq<Request<K, C, V>>,
      blank: map<C, V>, mem: seq<bool>, m: nat)
    requires m <= |qs| == |mem|
    ensures var s := Reserve(Fresh(t, |qs|), qs, blank, mem, m);
      && (s.err <==> exists i :: 0 <= i < m && Refused(t, qs, mem, i))
      && (!s.err ==> Passing(t, s, qs, m))
  {
    if m > 0 {
      ReserveFailsIff(t, qs, blank, mem, m - 1);
      var a, b := Reserve(Fresh(t, |qs|), qs, blank, mem, m - 1), Reserve(Fresh(t, |qs|), qs, blank, mem, m);
      if !a.err {
        PassingStep(t, a, b, qs, blank, mem, m - 1);
      }
    }
  }

  /** ACTION stops at varbind i: it needs a rollback buffer and gets none. */
  predicate Starved<K, C, V>(t: Table<K, C, V>, qs: seq<Request<K, C, V>>, mem: seq<bool>, i: nat)
    requires i < |qs| == |mem|
  {
    qs[i].change.Write? && !Makes(t, qs, i) && !mem[i]
  }

  /** The number of varbinds before the first that is starved. */
  function Completed<K, C, V>(t: Table<K, C, V>, qs: seq<Request<K, C, V>>, mem: seq<bool>, m: nat): (n: nat)
    requires m <= |qs| == |mem|
    ensures n <= m && (n < m ==> Starved(t, qs, mem, n)) && forall i | 0 <= i < n :: !Starved(t, qs, mem, i)
  {
    if m == 0 then 0
    else
      var n := Completed(t, qs, mem, m - 1);
      if n == m - 1 && !Starved(t, qs, mem, n) then m else n
  }

  lemma StarvedStops<K(!new), C, V>(t: Table<K, C, V>, s: Txn<K, C, V>, a: Txn<K, C, V>,
      qs: seq<Request<K, C, V>>, blank: map<C, V>, mem: seq<bool>, i: nat)
    requires i < |qs| == |mem| && Ready(s, qs, blank) && !a.stop && Acted(s, a, qs, blank, i)
    requires s.buf[i] == if Makes(t, qs, i) then TheRow else Nothing
    ensures ActionStep(a, i, qs[i], mem[i]).stop <==> Starved(t, qs, mem, i)
  {
    WrittenRows(s.table, qs, i);
    RowKeys(s.table[qs[i].key], qs, i, qs[i].key);
    assert a.buf[i] == s.buf[i];
  }

  lemma StoppedIffShort<K(!new), C, V>(s: Txn<K, C, V>, qs: seq<Request<K, C, V>>, blank: map<C, V>,
      mem: seq<bool>, m: nat)
    requires m <= |qs| == |mem| && Ready(s, qs, blank)
    ensures Action(s, qs, mem, m).stop <==> Done(s, qs, mem, m) < m
  {
    ActionIs(s, qs, blank, mem, m);
  }

  lemma {:induction false} DoneIsCompleted<K(!new), C, V>(t: Table<K, C, V>, s: Txn<K, C, V>,
      qs: seq<Request<K, C, V>>, blank: map<C, V>, mem: seq<bool>, m: nat)
    requires m <= |qs| == |mem| && Ready(s, qs, blank) && Passing(t, s, qs, |qs|)
    ensures Done(s, qs, mem, m) == Completed(t, qs, mem, m)
  {
    if m > 0 {
      DoneIsCompleted(t, s, qs, blank, mem, m - 1);
      StoppedIffShort(s, qs, blank, mem, m - 1);
      var a := Action(s, qs, mem, m - 1);
      if !a.stop {
        ActionIs(s, qs, blank, mem, m - 1);
        StarvedStops(t, s, a, qs, blank, mem, m - 1);
      }
    }
  }

  lemma DoneAfterReserve<K(!new), C, V>(t: Table<K, C, V>, qs: seq<Request<K, C, V>>, blank: map<C, V>,
      mr: seq<bool>, ma: seq<bool>)
    requires |qs| == |mr| == |ma| && Shaped(t, qs, blank)
    requires !Reserve(Fresh(t, |qs|), qs, blank, mr, |qs|).err
    ensures Done(Reserve(Fresh(t, |qs|), qs, blank, mr, |qs|), qs, ma, |qs|) == Completed(t, qs, ma, |qs|)
  {
    ReserveFailsIff(t, qs, blank, mr, |qs|);
    ReadyAfterReserve(t, qs, blank, mr);
    DoneIsCompleted(t, Reserve(Fresh(t, |qs|), qs, blank, mr, |qs|), qs, blank, ma, |qs|);
  }

  /** What a failed SET leaves behind: the old keys, and in every old cell the value before
      its last assignment. */
  lemma RollbackIs<K(!new), C, V>(t: Table<K, C, V>, qs: seq<Request<K, C, V>>, blank: map<C, V>, mr: seq<bool>,
      ma: seq<bool>)
    requires |qs| == |mr| == |ma| && Shaped(t, qs, blank)
    requires !Reserve(Fresh(t, |qs|), qs, blank, mr, |qs|).err
    ensures var s := Reserve(Fresh(t, |qs|), qs, blank, mr, |qs|);
      var u := Undo(Action(s, qs, ma, |qs|), qs, |qs|).table;
      var n := Completed(t, qs, ma, |qs|);
      && (forall k :: k in u <==> k in t)
      && forall k | k in t :: u[k].Keys == blank.Keys && forall c | c in blank ::
        u[k][c] == Previous(t[k], qs, n, k, c)
  {
    var s := Reserve(Fresh(t, |qs|), qs, blank, mr, |qs|);
    var n := Done(s, qs, ma, |qs|);
    DoneAfterReserve(t, qs, blank, mr, ma);
    ReadyAfterReserve(t, qs, blank, mr);
    ActionIs(s, qs, blank, ma, |qs|);
    ShapedAfterAction(s, qs, blank, n);
    WrittenRows(s.table, qs, n);
    RollbackCells(t, s, Action(s, qs, ma, |qs|), qs, blank, n);
  }

  lemma RollbackKeys<K(!new), C, V>(t: Table<K, C, V>, s: Txn<K, C, V>, a: Txn<K, C, V>,
      qs: seq<Request<K, C, V>>, blank: map<C, V>, n: nat, k: K)
    requires n <= |qs| && Ready(s, qs, blank) && Reserved(t, s, qs, blank, |qs|) && Acted(s, a, qs, blank, n)
    ensures k in a.table && !Reborn(a, qs, |qs|, k) <==> k in t
  {
    WrittenRows(s.table, qs, n);
    RebornBy(a, qs, |qs|, k);
    if k in s.table && k !in t {
      var i :| 0 <= i < |qs| && s.buf[i] == TheRow && qs[i].key == k;
      assert a.buf[i] == TheRow;
    }
  }

  lemma RollbackCells<K(!new), C, V>(t: Table<K, C, V>, s: Txn<K, C, V>, a: Txn<K, C, V>,
      qs: seq<Request<K, C, V>>, blank: map<C, V>, n: nat)
    requires n <= |qs| && Shaped(t, qs, blank) && Ready(s, qs, blank) && Reserved(t, s, qs, blank, |qs|)
    requires Acted(s, a, qs, blank, n) && Shaped(a.table, qs, blank)
    ensures var u := Undo(a, qs, |qs|).table;
      && (forall k :: k in u <==> k in t)
      && forall k | k in t :: u[k].Keys == blank.Keys && forall c | c in blank ::
        u[k][c] == Previous(t[k], qs, n, k, c)
  {
    var u := Undo(a, qs, |qs|).table;
    UndoIsRows(a, qs, blank, |qs|);
    forall k
      ensures k in u <==> k in t
    {
      RollbackKeys(t, s, a, qs, blank, n, k);
    }
    forall k, c | k in t && c in blank
      ensures k in u && c in u[k] && u[k][c] == Previous(t[k], qs, n, k, c)
    {
      OldCellRestored(t, s, a, qs, blank, n, k, c);
    }
  }

  lemma OldCellRestored<K(!new), C, V>(t: Table<K, C, V>, s: Txn<K, C, V>, a: Txn<K, C, V>,
      qs: seq<Request<K, C, V>>, blank: map<C, V>, n: nat, k: K, c: C)
    requires n <= |qs| && Shaped(t, qs, blank) && Ready(s, qs, blank) && Reserved(t, s, qs, blank, |qs|)
    requires Acted(s, a, qs, blank, n) && k in t && c in blank && k in Undo(a, qs, |qs|).table
    ensures c in Undo(a, qs, |qs|).table[k] && Undo(a, qs, |qs|).table[k][c] == Previous(t[k], qs, n, k, c)
  {
    var row := s.table[k];
    WrittenRows(s.table, qs, n);
    OldCellsSaved(t, s, a, qs, blank, n, k);
    LastSavedIsPrevious(row, a.buf, qs, n, k, c);
    NothingSavedLater(a.buf, qs, n, |qs|, k, c, a.table[k][c]);
    UndoIsCell(a, qs, |qs|, k, c);
  }

  lemma SameCells<K(!new), C(!new), V>(t: Table<K, C, V>, u: Table<K, C, V>, blank: map<C, V>)
    requires forall k :: k in u <==> k in t
    requires forall k | k in t :: t[k].Keys == u[k].Keys == blank.Keys
    ensures u == t <==> forall k, c | k in t && c in blank :: u[k][c] == t[k][c]
  {
    if forall k, c | k in t && c in blank :: u[k][c] == t[k][c] {
      forall k | k in t
        ensures u[k] == t[k]
      {
        assert forall c | c in blank :: u[k][c] == t[k][c];
      }
    }
  }

  /** Rollback is exact precisely when, in every old cell, the assignment before the last one
      ACTION completed (if any) had left the cell's first value. */
  lemma RollbackExactIff<K(!new), C(!new), V>(t: Table<K, C, V>, qs: seq<Request<K, C, V>>, blank: map<C, V>,
      mr: seq<bool>, ma: seq<bool>)
    requires |qs| == |mr| == |ma| && Shaped(t, qs, blank)
    requires !Reserve(Fresh(t, |qs|), qs, blank, mr, |qs|).err
    ensures var s := Reserve(Fresh(t, |qs|), qs, blank, mr, |qs|);
      Undo(Action(s, qs, ma, |qs|), qs, |qs|).table == t
      <==> forall k, c | k in t && c in blank :: Previous(t[k], qs, Completed(t, qs, ma, |qs|), k, c) == t[k][c]
  {
    RollbackIs(t, qs, blank, mr, ma);
    var s := Reserve(Fresh(t, |qs|), qs, blank, mr, |qs|);
    SameCells(t, Undo(Action(s, qs, ma, |qs|), qs, |qs|).table, blank);
  }

  /** The varbinds name distinct (row, column) pairs; the row status is one more column. */
  ghost predicate Distinct<K(!new), C(!new), V>(qs: seq<Request<K, C, V>>) {
    forall i, j | 0 <= i < j < |qs| && qs[i].key == qs[j].key ::
      match (qs[i].change, qs[j].change)
      case (Write(c, _), Write(d, _)) => c != d
      case (NoWrite, NoWrite) => false
      case _ => true
  }

  lemma {:induction false} NotWrittenBefore<K, C, V>(row: map<C, V>, qs: seq<Request<K, C, V>>, m: nat, k: K, c: C)
    requires m <= |qs| && c in row && forall i | 0 <= i < m :: !Writes(qs[i], k, c)
    ensures c in RowWritten(row, qs, m, k) && RowWritten(row, qs, m, k)[c] == row[c]
  {
    if m > 0 {
      NotWrittenBefore(row, qs, m - 1, k, c);
    }
  }

  lemma {:induction false} PreviousWhenDistinct<K(!new), C(!new), V>(row: map<C, V>, qs: seq<Request<K, C, V>>,
      n: nat, k: K, c: C)
    requires n <= |qs| && c in row && Distinct(qs)
    requires forall i | 0 <= i < |qs| :: qs[i].change.Write? ==> qs[i].change.col in row
    ensures Previous(row, qs, n, k, c) == row[c]
  {
    if n > 0 {
      if Writes(qs[n - 1], k, c) {
        NotWrittenBefore(row, qs, n - 1, k, c);
      } else {
        PreviousWhenDistinct(row, qs, n - 1, k, c);
      }
    }
  }

  /** Rollback of a SET naming distinct pairs is exact, whichever allocation of ACTION fails
      (or none: another handler's failure undoes a completed ACTION too). */
  lemma RollbackExact<K(!new), C(!new), V>(t: Table<K, C, V>, qs: seq<Request<K, C, V>>, blank: map<C, V>,
      mr: seq<bool>, ma: seq<bool>)
    requires |qs| == |mr| == |ma| && Shaped(t, qs, blank) && Distinct(qs)
    requires !Reserve(Fresh(t, |qs|), qs, blank, mr, |qs|).err
    ensures Undo(Action(Reserve(Fresh(t, |qs|), qs, blank, mr, |qs|), qs, ma, |qs|), qs, |qs|).table == t
  {
    RollbackExactIff(t, qs, blank, mr, ma);
    var n := Completed(t, qs, ma, |qs|);
    forall k, c | k in t && c in blank
      ensures Previous(t[k], qs, n, k, c) == t[k][c]
    {
      PreviousWhenDistinct(t[k], qs, n, k, c);
    }
  }

  /** Distinctness is needed: UNDO runs forwards, so of two assignments to one cell the
      second one's buffer, holding the first one's value, is restored last. */
  lemma DuplicatesBreakRollback<K, C, V>(k: K, c: C, first: V, second: V, third: V)
    requires first != second
    ensures var t: Table<K, C, V> := map[k := map[c := first]];
      var qs := [Request(k, MustExist, Write(c, second), Keep), Request(k, MustExist, Write(c, third), Keep)];
      var s := Reserve(Fresh(t, 2), qs, map[c := first], [true, true], 2);
      && !s.err && !Action(s, qs, [true, true], 2).err
      && Undo(Action(s, qs, [true, true], 2), qs, 2).table == map[k := map[c := second]] != t
  {
    var t: Table<K, C, V> := map[k := map[c := first]];
    var q1: Request<K, C, V>, q2: Request<K, C, V> := Request(k, MustExist, Write(c, second), Keep),
      Request(k, MustExist, Write(c, third), Keep);
    var qs, mem := [q1, q2], [true, true];
    var s0: Txn<K, C, V> := Fresh(t, 2);
    assert Reserve(s0, qs, map[c := first], mem, 1) == s0;
    assert Reserve(s0, qs, map[c := first], mem, 2) == s0;
    assert Action(s0, qs, mem, 0) == s0 && qs[0] == q1 && qs[1] == q2;
    var a1, a2 := Action(s0, qs, mem, 1), Action(s0, qs, mem, 2);
    var r1: map<C, V>, r2: map<C, V>, r3: map<C, V> := map[c := first], map[c := second], map[c := third];
    assert r1[c := second] == r2 && r2[c := third] == r3 && r3[c := first] == r1 && r1[c := second] == r2;
    assert a1 == ActionStep(s0, 0, q1, true);
    assert a1.table == map[k := map[c := second]] && a1.buf == [Saved(first), Nothing];
    assert a2 == ActionStep(a1, 1, q2, true);
    assert a2.table == map[k := map[c := third]] && a2.buf == [Saved(first), Saved(second)];
    assert Undo(a2, qs, 0) == a2;
    var u1, u2 := Undo(a2, qs, 1), Undo(a2, qs, 2);
    assert u1 == UndoStep(a2, 0, q1);
    assert u1.table == map[k := map[c := first]] && u1.buf == a2.buf;
    assert u2 == UndoStep(u1, 1, q2);
    assert u2.table == map[k := map[c := second]];
    assert t[k][c] == first;
  }
}
