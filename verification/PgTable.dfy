/** The Protection Group Config table of bridge/ieee8021PbbTeMib.c: its rows are created on
    demand, by the first varbind of a SET that names a missing row. That varbind's rollback
    buffer is the row itself; the mapper tells rows born in the PDU from edited ones by that
    sentinel. Every phase is proved to compute the function of SetCore of the same name. */
module PgTable {
  import opened SetCore
  import opened SetCommit

  datatype Key = Key(component: nat, group: nat)

  datatype Column =
    | State | CommandStatus | CommandLast | CommandAdmin | ActiveRequests
    | WTR | HoldOff | NotifyEnable | StorageType

  datatype VarBind = VarBind(key: Key, col: Column, val: int) {
    /** What RESERVE1 checked: the column is writable. */
    predicate Writable() {
      col == CommandAdmin || col == WTR || col == HoldOff || col == NotifyEnable || col == StorageType
    }
  }

  /** Assignment of a C long to the column's own width. */
  function Stored(col: Column, i: int): int {
    match col
    case WTR => i % 0x1_0000_0000
    case HoldOff => i % 0x1_0000_0000
    case NotifyEnable => i % 0x100
    case StorageType => i % 0x100
    case _ => (i + 0x8000_0000) % 0x1_0000_0000 - 0x8000_0000
  }

  function RequestOf(vb: VarBind): Request<Key, Column, int> {
    Request(vb.key, OnDemand, Write(vb.col, Stored(vb.col, vb.val)), Keep)
  }

  /** No two varbinds name the same column of the same row. */
  ghost predicate DistinctCells(vbs: seq<VarBind>) {
    forall i, j | 0 <= i < j < |vbs| :: vbs[i].key != vbs[j].key || vbs[i].col != vbs[j].col
  }

  lemma RequestsObey(vbs: seq<VarBind>, qs: seq<Request<Key, Column, int>>)
    requires |qs| == |vbs| && forall i | 0 <= i < |vbs| :: qs[i] == RequestOf(vbs[i])
    ensures Separate(qs)
    ensures DistinctCells(vbs) ==> Distinct(qs)
  {
  }

  function Blank(): map<Column, int> {
    map[State := 0, CommandStatus := 0, CommandLast := 0, CommandAdmin := 1, ActiveRequests := 0,
        WTR := 5, HoldOff := 0, NotifyEnable := 2, StorageType := 3]
  }

  // ---- What a SET does, in the values of its varbinds ------------------------------------------------

  /** The key has a row when RESERVE2 comes to varbind i: it had one, or a varbind before i
      names it. */
  ghost predicate Present(t: Table<Key, Column, int>, list: seq<VarBind>, i: nat, k: Key)
    requires i <= |list|
  {
    k in t || exists j :: 0 <= j < i && list[j].key == k
  }

  /** Varbind i passes: the first of a missing row needs memory for the row, any other memory
      for its rollback buffer. */
  ghost predicate Passes(t: Table<Key, Column, int>, list: seq<VarBind>, mr: seq<bool>, ma: seq<bool>, i: nat)
    requires i < |list| == |mr| == |ma|
  {
    if Present(t, list, i, list[i].key) then ma[i] else mr[i]
  }

  /** What a new row shows in the columns nobody sets. */
  function Default(col: Column): int {
    match col
    case CommandAdmin => 1
    case WTR => 5
    case NotifyEnable => 2
    case StorageType => 3
    case _ => 0
  }

  function Before(t: Table<Key, Column, int>, k: Key, col: Column): int
    requires k in t ==> col in t[k]
  {
    if k in t then t[k][col] else Default(col)
  }

  /** What a column shows of an integer between low and high, and what is left of another. */
  predicate Narrowed(shown: int, i: int, low: int, high: int)
    requires low < high
  {
    low <= shown < high && (shown - i) % (high - low) == 0 && (low <= i < high ==> shown == i)
  }

  /** The command is a signed and the two timers are unsigned 32-bit columns, the last two
      take a byte. */
  predicate Leaves(vb: VarBind, shown: int) {
    match vb.col
    case CommandAdmin => Narrowed(shown, vb.val, -0x8000_0000, 0x8000_0000)
    case WTR => Narrowed(shown, vb.val, 0, 0x1_0000_0000)
    case HoldOff => Narrowed(shown, vb.val, 0, 0x1_0000_0000)
    case NotifyEnable => Narrowed(shown, vb.val, 0, 0x100)
    case StorageType => Narrowed(shown, vb.val, 0, 0x100)
    case _ => false
  }

  /** Table u is table t after the varbinds: the rows that were there or are named; every cell
      that a varbind names holds what the varbind leaves, and every other what it held, or its
      default in a new row. */
  ghost predicate Reflects(t: Table<Key, Column, int>, list: seq<VarBind>, u: Table<Key, Column, int>) {
    && (forall k :: k in u <==> Present(t, list, |list|, k))
    && (forall k, c | k in u :: CellReflects(t, list, u, k, c))
  }

  ghost predicate CellReflects(t: Table<Key, Column, int>, list: seq<VarBind>, u: Table<Key, Column, int>,
      k: Key, c: Column)
    requires k in u
  {
    && c in u[k] && (k in t ==> c in t[k])
    && (forall i | 0 <= i < |list| && list[i].key == k && list[i].col == c :: Leaves(list[i], u[k][c]))
    && ((forall i | 0 <= i < |list| :: list[i].key != k || list[i].col != c) ==> u[k][c] == Before(t, k, c))
  }

  /** The requests of a list of varbinds. */
  ghost predicate RequestsOf(list: seq<VarBind>, qs: seq<Request<Key, Column, int>>) {
    |qs| == |list| && forall i | 0 <= i < |list| :: list[i].Writable() && qs[i] == RequestOf(list[i])
  }

  /** The request of a varbind writes its own cell, with what it leaves. */
  lemma RequestIs(vb: VarBind, k: Key, c: Column)
    requires vb.Writable()
    ensures var q := RequestOf(vb);
      && q.key == vb.key && q.rule == OnDemand && q.finish == Keep && q.change.Write?
      && (Writes(q, k, c) <==> vb.key == k && vb.col == c)
      && Leaves(vb, q.change.val)
  {
    SignedNarrows(vb.val);
    UnsignedNarrows(vb.val);
    ByteNarrows(vb.val);
  }

  lemma SignedNarrows(i: int)
    ensures Narrowed((i + 0x8000_0000) % 0x1_0000_0000 - 0x8000_0000, i, -0x8000_0000, 0x8000_0000)
  {
  }

  lemma UnsignedNarrows(i: int)
    ensures Narrowed(i % 0x1_0000_0000, i, 0, 0x1_0000_0000)
  {
  }

  lemma ByteNarrows(i: int)
    ensures Narrowed(i % 0x100, i, 0, 0x100)
  {
  }

  lemma DefaultIs(c: Column)
    ensures c in Blank() && Blank()[c] == Default(c)
  {
    match c
    case State | CommandStatus | CommandLast | CommandAdmin | ActiveRequests
       | WTR | HoldOff | NotifyEnable | StorageType =>
  }

  lemma RowTranslates(t: Table<Key, Column, int>, list: seq<VarBind>, qs: seq<Request<Key, Column, int>>,
      u: Table<Key, Column, int>, k: Key)
    requires RequestsOf(list, qs) && RowIs(t, qs, u, k)
    ensures k in u <==> Present(t, list, |list|, k)
  {
    forall i | 0 <= i < |list|
      ensures qs[i].key == list[i].key && qs[i].rule == OnDemand && qs[i].finish == Keep
    {
      RequestIs(list[i], k, State);
    }
  }

  lemma CellTranslates(t: Table<Key, Column, int>, list: seq<VarBind>, qs: seq<Request<Key, Column, int>>,
      u: Table<Key, Column, int>, k: Key, c: Column)
    requires RequestsOf(list, qs)
    requires k in u && (k in t ==> c in t[k]) && c in Blank() && CellIs(u[k], Base(t, Blank(), k), qs, k, c)
    ensures CellReflects(t, list, u, k, c)
  {
    DefaultIs(c);
    forall i | 0 <= i < |list|
      ensures !Puts(qs[i], k, c) && (Writes(qs[i], k, c) <==> list[i].key == k && list[i].col == c)
      ensures Leaves(list[i], qs[i].change.val)
    {
      RequestIs(list[i], k, c);
    }
  }

  lemma SetReflects(t: Table<Key, Column, int>, list: seq<VarBind>, qs: seq<Request<Key, Column, int>>,
      u: Table<Key, Column, int>)
    requires RequestsOf(list, qs) && TableIs(t, qs, Blank(), u)
    requires forall k | k in t :: t[k].Keys == Blank().Keys
    ensures Reflects(t, list, u)
  {
    forall k: Key
      ensures k in u <==> Present(t, list, |list|, k)
    {
      assert RowIs(t, qs, u, k);
      RowTranslates(t, list, qs, u, k);
    }
    forall k, c | k in u
      ensures CellReflects(t, list, u, k, c)
    {
      DefaultIs(c);
      assert k in t ==> c in t[k];
      assert CellIs(u[k], Base(t, Blank(), k), qs, k, c);
      CellTranslates(t, list, qs, u, k, c);
    }
  }

  /** A SET succeeds exactly when every varbind passes. */
  lemma SucceedsIffAllPass(t: Table<Key, Column, int>, list: seq<VarBind>, qs: seq<Request<Key, Column, int>>,
      mr: seq<bool>, ma: seq<bool>)
    requires RequestsOf(list, qs) && |qs| == |mr| == |ma| && Shaped(t, qs, Blank())
    ensures Succeeds(t, qs, Blank(), mr, ma) <==> forall i | 0 <= i < |list| :: Passes(t, list, mr, ma, i)
  {
    SucceedsIff(t, qs, Blank(), mr, ma);
    forall i | 0 <= i < |list|
      ensures Passes(t, list, mr, ma, i) <==> !Refused(t, qs, mr, i) && !Starved(t, qs, ma, i)
    {
      PassesIff(t, list, qs, mr, ma, i);
    }
  }

  lemma PassesIff(t: Table<Key, Column, int>, list: seq<VarBind>, qs: seq<Request<Key, Column, int>>,
      mr: seq<bool>, ma: seq<bool>, i: nat)
    requires RequestsOf(list, qs) && |qs| == |mr| == |ma| && i < |list|
    ensures Passes(t, list, mr, ma, i) <==> !Refused(t, qs, mr, i) && !Starved(t, qs, ma, i)
  {
    MadeIff(t, qs, i, list[i].key);
    forall j | 0 <= j <= i
      ensures qs[j].key == list[j].key && qs[j].rule == OnDemand && qs[j].change.Write?
    {
      RequestIs(list[j], list[i].key, State);
    }
  }

  class PgRow {
    const key: Key
    var state: int
    var commandStatus: int
    var commandLast: int
    var commandAdmin: int
    var activeRequests: int
    var wtr: int
    var holdOff: int
    var notifyEnable: int
    var storageType: int

    /** What GET shows. */
    ghost function View(): map<Column, int>
      reads this
    {
      map[State := state, CommandStatus := commandStatus, CommandLast := commandLast, CommandAdmin := commandAdmin,
          ActiveRequests := activeRequests, WTR := wtr, HoldOff := holdOff, NotifyEnable := notifyEnable,
            StorageType := storageType]
    }

    constructor (key: Key)
      ensures this.key == key && View() == Blank()
    {
      this.key := key;
      state, commandStatus, commandLast, activeRequests := 0, 0, 0, 0;
      commandAdmin := 1;
      wtr := 5;
      holdOff := 0;
      notifyEnable := 2;
      storageType := 3;
    }

    /** ACTION's assignment to a column. */
    method Assign(col: Column, i: int)
      requires VarBind(key, col, i).Writable()
      modifies this
      ensures View() == old(View())[col := Stored(col, i)]
    {
      Copy(col, Stored(col, i));
    }

    /** ACTION's copy of a column into a rollback buffer. */
    method Save(col: Column) returns (i: int)
      requires VarBind(key, col, 0).Writable()
      ensures i == View()[col]
    {
      match col
      case CommandAdmin => i := commandAdmin;
      case WTR => i := wtr;
      case HoldOff => i := holdOff;
      case NotifyEnable => i := notifyEnable;
      case StorageType => i := storageType;
    }

    /** UNDO's copy back. */
    method Copy(col: Column, i: int)
      requires VarBind(key, col, i).Writable()
      modifies this
      ensures View() == old(View())[col := i]
    {
      match col
      case CommandAdmin => commandAdmin := i;
      case WTR => wtr := i;
      case HoldOff => holdOff := i;
      case NotifyEnable => notifyEnable := i;
      case StorageType => storageType := i;
    }
  }

  datatype Buffer = NoBuffer | RowBuffer(row: PgRow) | IntBuffer(i: int) {
    function Abs(): Rollback<int> {
      match this
      case NoBuffer => Nothing
      case RowBuffer(_) => TheRow
      case IntBuffer(i) => Saved(i)
    }
  }

  /** The table and, during a SET, its request list: the row each request is about (the
      iterator context) and each request's rollback buffer. A row removed from the table
      stays in `all`: later requests may still hold it. `txn` is the value of all this in
      SetCore's terms and `qs` that of the varbinds; Valid() ties them to the fields. */
  class PgMapper {
    var rows: map<Key, PgRow>
    var vbs: seq<VarBind>
    var context: seq<PgRow?>
    var buf: seq<Buffer>
    var failed: bool
    ghost var all: set<PgRow>
    ghost var qs: seq<Request<Key, Column, int>>
    ghost var txn: Txn<Key, Column, int>

    ghost predicate RowAt(k: Key)
      reads this, all
    {
      && (k in rows <==> k in txn.table)
      && (k in rows ==> rows[k] in all && rows[k].key == k && rows[k].View() == txn.table[k])
    }

    ghost predicate ValidRows()
      reads this, all
    {
      forall k: Key :: RowAt(k)
    }

    ghost predicate RequestAt(i: nat)
      reads this
      requires i < |vbs| == |context| == |buf| == |qs| == |txn.buf|
    {
      && vbs[i].Writable() && qs[i] == RequestOf(vbs[i])
      && txn.buf[i] == buf[i].Abs()
      && (buf[i].RowBuffer? ==> buf[i].row == context[i])
      && (context[i] != null ==> context[i] in all && context[i].key == vbs[i].key)
      && (context[i] != null && vbs[i].key in rows ==> context[i] == rows[vbs[i].key])
    }

    ghost predicate Valid()
      reads this, all
    {
      && ValidRows()
      && failed == txn.err
      && |vbs| == |context| == |buf| == |qs| == |txn.buf|
      && forall i: nat | i < |vbs| :: RequestAt(i)
    }

    ghost predicate ContextAt(i: nat)
      reads this
      requires i < |vbs| == |context|
    {
      context[i] != null <==> vbs[i].key in rows
    }

    /** Every request has its row if there is one: how the table iterator sets the list up,
        and how insert_iterator_context keeps it. */
    ghost predicate InStep()
      reads this
      requires |vbs| == |context|
    {
      forall i: nat | i < |vbs| :: ContextAt(i)
    }

    constructor ()
      ensures Valid() && txn == Fresh(map[], 0)
    {
      rows, vbs, context, buf, failed := map[], [], [], [], false;
      all, qs, txn := {}, [], Fresh(map[], 0);
    }

    /** The start of a SET: the iterator finds each request's row. */
    method Begin(list: seq<VarBind>)
      requires ValidRows() && forall i | 0 <= i < |list| :: list[i].Writable()
      modifies this
      ensures Valid() && InStep() && vbs == list && all == old(all) && txn == Fresh(old(txn.table), |list|)
    {
      var index := rows;
      vbs := list;
      context := seq(|list|, i requires 0 <= i < |list| => if list[i].key in index then index[list[i].key] else null);
      buf := seq(|list|, _ => NoBuffer);
      failed := false;
      qs := seq(|list|, i requires 0 <= i < |list| => RequestOf(list[i]));
      txn := Fresh(txn.table, |list|);
      assert forall k: Key :: old(RowAt(k)) ==> RowAt(k);
      forall i: nat | i < |vbs|
        ensures RequestAt(i) && ContextAt(i)
      {
        assert RowAt(vbs[i].key);
      }
    }

    /** A new row, unless memory is short or the index is taken. */
    method CreateEntry(key: Key, mem: bool) returns (e: PgRow?)
      requires ValidRows()
      modifies this`rows, this`all, this`txn
      ensures ValidRows()
      ensures e == null <==> !mem || key in old(rows)
      ensures rows == if e == null then old(rows) else old(rows)[key := e]
      ensures all == if e == null then old(all) else old(all) + {e}
      ensures txn == if e == null then old(txn) else old(txn).(table := old(txn.table)[key := Blank()])
      ensures e != null ==> e.key == key && fresh(e)
    {
      e := null;
      if mem {
        var row := new PgRow(key);
        if key !in rows {
          rows := rows[key := row];
          all := all + {row};
          txn := txn.(table := txn.table[key := Blank()]);
          e := row;
          assert forall k: Key :: old(RowAt(k)) ==> RowAt(k);
        }
      }
    }

    /** netsnmp_insert_iterator_context: the new row is given to every request naming it. */
    method InsertContext(e: PgRow)
      requires |context| == |vbs|
      modifies this`context
      ensures |context| == |vbs|
      ensures forall j | 0 <= j < |vbs| :: context[j] == if vbs[j].key == e.key then e else old(context[j])
    {
      for j := 0 to |vbs|
        invariant |context| == |vbs|
        invariant forall i | 0 <= i < |vbs| :: context[i] == if i < j && vbs[i].key == e.key
          then e else old(context[i])
      {
        if vbs[j].key == e.key {
          context := context[j := e];
        }
      }
    }

    /** The new row goes to the requests that name it, and into the buffer of the one that
        made it. */
    method Adopt(i: nat, e: PgRow)
      requires Valid() && i < |vbs| && vbs[i].key == e.key && e in all && e.key in rows && rows[e.key] == e
      requires forall j: nat | j < |vbs| :: if vbs[j].key == e.key then context[j] == null else ContextAt(j)
      modifies this`context, this`buf, this`txn
      ensures Valid() && InStep() && txn == old(txn).(buf := old(txn.buf)[i := TheRow])
    {
      InsertContext(e);
      buf := buf[i := RowBuffer(e)];
      txn := txn.(buf := txn.buf[i := TheRow]);
      assert forall k: Key :: old(RowAt(k)) ==> RowAt(k);
      forall j: nat | j < |vbs|
        ensures RequestAt(j) && ContextAt(j)
      {
        assert old(RequestAt(j)) && (vbs[j].key != e.key ==> old(ContextAt(j)));
      }
    }

    method ReserveCreate(i: nat, mem: bool) returns (created: bool)
      requires Valid() && InStep() && i < |vbs| && context[i] == null
      modifies this`rows, this`context, this`buf, this`all, this`txn
      ensures Valid() && InStep() && fresh(all - old(all))
      ensures created <==> mem && vbs[i].key !in old(txn.table)
      ensures txn == if created
        then old(txn).(table := old(txn.table)[vbs[i].key := Blank()], buf := old(txn.buf)[i := TheRow])
        else old(txn)
    {
      assert RowAt(vbs[i].key);
      var e := CreateEntry(vbs[i].key, mem);
      created := e != null;
      assert forall j: nat | j < |vbs| :: old(RequestAt(j)) && old(ContextAt(j)) ==> RequestAt(j);
      if created {
        assert forall j: nat | j < |vbs| :: old(ContextAt(j)) ==> if vbs[j].key == e.key
          then context[j] == null else ContextAt(j);
        Adopt(i, e);
      } else {
        assert forall j: nat | j < |vbs| :: old(ContextAt(j)) ==> ContextAt(j);
      }
    }

    /** A request error is recorded. */
    method Fail(ghost stop: bool)
      requires Valid() && InStep()
      modifies this`failed, this`txn
      ensures Valid() && InStep() && txn == old(txn).(err := true, stop := stop)
    {
      failed := true;
      txn := txn.(err := true, stop := stop);
      assert forall k: Key :: old(RowAt(k)) ==> RowAt(k);
      assert forall j: nat | j < |vbs| :: old(RequestAt(j)) ==> RequestAt(j);
      assert forall j: nat | j < |vbs| :: old(ContextAt(j)) ==> ContextAt(j);
    }

    method ReserveOne(i: nat, mem: bool) returns (stop: bool)
      requires Valid() && InStep() && i < |vbs| && !txn.stop
      modifies this`rows, this`context, this`buf, this`failed, this`all, this`txn
      ensures Valid() && InStep() && fresh(all - old(all))
      ensures txn == ReserveStep(old(txn), i, qs[i], Blank(), mem) && stop == txn.stop
    {
      assert RequestAt(i) && ContextAt(i) && RowAt(vbs[i].key);
      stop := false;
      if context[i] == null {
        var created := ReserveCreate(i, mem);
        if !created {
          Fail(true);
          stop := true;
        }
      }
    }

    /** RESERVE2. `mem[i]` tells whether the allocation for request i would succeed. */
    method SetReserve2(mem: seq<bool>)
      requires Valid() && InStep() && |mem| == |vbs| && !txn.stop
      modifies this`rows, this`context, this`buf, this`failed, this`all, this`txn
      ensures Valid() && InStep() && fresh(all - old(all))
      ensures txn == Reserve(old(txn), qs, Blank(), mem, |vbs|)
    {
      for i := 0 to |vbs|
        invariant Valid() && InStep() && fresh(all - old(all))
        invariant txn == Reserve(old(txn), qs, Blank(), mem, i) && !txn.stop
      {
        var stop := ReserveOne(i, mem[i]);
        if stop {
          ReserveStopped(old(txn), qs, Blank(), mem, i + 1, |vbs|);
          return;
        }
      }
    }

    /** Removal by key; a row not in the table is left alone. */
    method RemoveEntry(e: PgRow?)
      requires Valid()
      modifies this`rows, this`txn
      ensures Valid()
      ensures txn == if e == null then old(txn) else old(txn).(table := old(txn.table) - {e.key})
    {
      if e != null {
        assert RowAt(e.key);
        if e.key in rows {
          rows := rows - {e.key};
        }
        txn := txn.(table := txn.table - {e.key});
        assert forall k: Key :: old(RowAt(k)) ==> RowAt(k);
        assert forall j: nat | j < |vbs| :: old(RequestAt(j)) ==> RequestAt(j);
      }
    }

    method ClearBuffer(i: nat)
      requires Valid() && i < |vbs|
      modifies this`buf, this`txn
      ensures Valid() && buf == old(buf)[i := NoBuffer] && txn == old(txn).(buf := old(txn.buf)[i := Nothing])
    {
      buf := buf[i := NoBuffer];
      txn := txn.(buf := txn.buf[i := Nothing]);
      assert forall k: Key :: old(RowAt(k)) ==> RowAt(k);
      assert forall j: nat | j < |vbs| :: old(RequestAt(j)) ==> RequestAt(j);
    }

    /** A request holds its row whenever it holds a rollback buffer. */
    ghost predicate Held()
      reads this
      requires |vbs| == |context| == |buf|
    {
      forall i: nat | i < |vbs| :: HeldAt(i)
    }

    ghost predicate HeldAt(i: nat)
      reads this
      requires i < |vbs| == |context| == |buf|
    {
      buf[i] == NoBuffer || context[i] != null
    }

    method FreeOne(i: nat)
      requires Valid() && Held() && i < |vbs| && !txn.buf[i].Saved?
      modifies this`rows, this`buf, this`txn
      ensures Valid() && Held() && txn == FreeStep(old(txn), i, qs[i])
    {
      assert RequestAt(i) && HeldAt(i);
      if context[i] != null && buf[i] != NoBuffer {
        RemoveEntry(context[i]);
        ClearBuffer(i);
      }
      assert forall j: nat | j < |vbs| :: old(HeldAt(j)) ==> HeldAt(j);
    }

    /** FREE. */
    method SetFree()
      requires Valid() && Held()
      requires forall i | 0 <= i < |vbs| :: !txn.buf[i].Saved?
      modifies this`rows, this`buf, this`txn
      ensures Valid() && txn == Free(old(txn), qs, |vbs|)
    {
      for i := 0 to |vbs|
        invariant Valid() && Held()
        invariant txn == Free(old(txn), qs, i)
        invariant forall j | 0 <= j < |vbs| :: !txn.buf[j].Saved?
      {
        FreeOne(i);
      }
    }

    /** Every request has its row in the table: what a RESERVE2 without errors leaves. */
    ghost predicate Bound()
      reads this
      requires |vbs| == |context|
    {
      forall i: nat | i < |vbs| :: context[i] != null
    }

    method SaveColumn(i: nat)
      requires Valid() && i < |vbs| && context[i] != null && vbs[i].key in rows
      modifies this`buf, this`txn
      ensures Valid() && vbs[i].key in txn.table && vbs[i].col in txn.table[vbs[i].key]
      ensures txn == old(txn).(buf := old(txn.buf)[i := Saved(txn.table[vbs[i].key][vbs[i].col])])
    {
      assert RequestAt(i) && RowAt(vbs[i].key);
      var v := context[i].Save(vbs[i].col);
      buf := buf[i := IntBuffer(v)];
      txn := txn.(buf := txn.buf[i := Saved(v)]);
      assert forall k: Key :: old(RowAt(k)) ==> RowAt(k);
      assert forall j: nat | j < |vbs| :: old(RequestAt(j)) ==> RequestAt(j);
    }

    method WriteColumn(i: nat)
      requires Valid() && i < |vbs| && context[i] != null && vbs[i].key in rows
      modifies this`txn, all
      ensures Valid() && txn == old(txn).(table := WriteOne(old(txn.table), qs[i]))
    {
      assert RequestAt(i) && RowAt(vbs[i].key);
      context[i].Assign(vbs[i].col, vbs[i].val);
      txn := txn.(table := WriteOne(txn.table, qs[i]));
      forall k: Key
        ensures RowAt(k)
      {
        assert old(RowAt(k));
      }
      assert forall j: nat | j < |vbs| :: old(RequestAt(j)) ==> RequestAt(j);
    }

    method ActionOne(i: nat, mem: bool) returns (stop: bool)
      requires Valid() && InStep() && Bound() && i < |vbs| && !txn.stop && !txn.buf[i].Saved?
      modifies this`buf, this`failed, this`txn, all
      ensures Valid() && InStep()
      ensures txn == ActionStep(old(txn), i, qs[i], mem) && stop == txn.stop
    {
      assert RequestAt(i) && ContextAt(i) && RowAt(vbs[i].key);
      stop := false;
      if buf[i] == NoBuffer && !mem {
        Fail(true);
        return true;
      } else if buf[i] != RowBuffer(context[i]) {
        SaveColumn(i);
      }
      WriteColumn(i);
      assert forall j: nat | j < |vbs| :: old(ContextAt(j)) ==> ContextAt(j);
    }

    /** ACTION; RESERVE2 found or made every row. */
    method SetAction(mem: seq<bool>)
      requires Valid() && InStep() && Bound() && |mem| == |vbs| && !txn.stop
      requires forall i | 0 <= i < |vbs| :: !txn.buf[i].Saved?
      modifies this`buf, this`failed, this`txn, all
      ensures Valid() && InStep()
      ensures txn == Action(old(txn), qs, mem, |vbs|)
    {
      for i := 0 to |vbs|
        invariant Valid() && InStep()
        invariant txn == Action(old(txn), qs, mem, i) && !txn.stop
        invariant forall j | i <= j < |vbs| :: txn.buf[j] == old(txn.buf[j])
      {
        var stop := ActionOne(i, mem[i]);
        if stop {
          ActionStopped(old(txn), qs, mem, i + 1, |vbs|);
          return;
        }
      }
    }

    method RestoreColumn(i: nat)
      requires Valid() && i < |vbs| && context[i] != null && txn.buf[i].Saved?
      modifies this`txn, all
      ensures Valid() && txn == UndoStep(old(txn), i, qs[i])
    {
      assert RequestAt(i) && RowAt(vbs[i].key);
      context[i].Copy(vbs[i].col, buf[i].i);
      txn := UndoStep(txn, i, qs[i]);
      forall k: Key
        ensures RowAt(k)
      {
        assert old(RowAt(k));
      }
      assert forall j: nat | j < |vbs| :: old(RequestAt(j)) ==> RequestAt(j);
    }

    method UndoOne(i: nat)
      requires Valid() && Bound() && i < |vbs|
      modifies this`rows, this`buf, this`txn, all
      ensures Valid() && txn == UndoStep(old(txn), i, qs[i])
    {
      assert RequestAt(i);
      if context[i] != null && buf[i] != NoBuffer {
        if buf[i] == RowBuffer(context[i]) {
          RemoveEntry(context[i]);
          ClearBuffer(i);
        } else {
          RestoreColumn(i);
        }
      }
    }

    /** UNDO, first varbind first. */
    method SetUndo()
      requires Valid() && Bound()
      modifies this`rows, this`buf, this`txn, all
      ensures Valid() && txn == Undo(old(txn), qs, |vbs|)
    {
      for i := 0 to |vbs|
        invariant Valid()
        invariant txn == Undo(old(txn), qs, i)
      {
        UndoOne(i);
      }
    }

    lemma SetFacts()
      requires Valid()
      ensures Shaped(txn.table, qs, Blank()) && Separate(qs)
      ensures DistinctCells(vbs) ==> Distinct(qs)
      ensures forall i | 0 <= i < |qs| :: vbs[i].Writable() && qs[i] == RequestOf(vbs[i])
    {
      forall k | k in txn.table
        ensures txn.table[k].Keys == Blank().Keys
      {
        assert RowAt(k);
      }
      forall i: nat | i < |qs|
        ensures vbs[i].Writable() && qs[i] == RequestOf(vbs[i])
      {
        assert RequestAt(i);
      }
      RequestsObey(vbs, qs);
    }

    lemma AfterReserve()
      requires Valid() && InStep() && Settled(txn, qs)
      ensures Held() && (failed || (Bound() && !txn.stop))
      ensures forall i | 0 <= i < |vbs| :: !txn.buf[i].Saved?
    {
      forall i: nat | i < |vbs|
        ensures HeldAt(i) && (failed || context[i] != null) && !txn.buf[i].Saved?
      {
        assert SettledAt(txn, qs, i) && RequestAt(i) && ContextAt(i) && RowAt(vbs[i].key);
      }
    }

    /** ACTION and what follows it. */
    method Finish(ma: seq<bool>, late: bool) returns (done: bool)
      requires Valid() && InStep() && Bound() && |ma| == |vbs| && !txn.stop && !failed
      requires forall i | 0 <= i < |vbs| :: !txn.buf[i].Saved?
      modifies this`rows, this`buf, this`failed, this`txn, all
      ensures Valid() && done == (!Action(old(txn), qs, ma, |vbs|).err && !late)
      ensures var a := Action(old(txn), qs, ma, |vbs|);
        txn == if done then Commit(a, qs, |vbs|) else Undo(a, qs, |vbs|)
    {
      SetAction(ma);
      done := !failed && !late;
      if done {
        forall i: nat | i < |qs|
          ensures qs[i].finish == Keep && qs[i].rule == OnDemand
        {
          assert RequestAt(i);
        }
        CommitNothing(txn, qs, |vbs|);
      } else {
        SetUndo();
      }
    }

    /** A whole SET as the agent drives it: `late` is the failure of another handler of the
        PDU once this table's ACTION is done. A SET that succeeds applies the varbinds in
        order; one that fails leaves the table as it was, if no cell is named twice. */
    method SetPdu(list: seq<VarBind>, mr: seq<bool>, ma: seq<bool>, late: bool) returns (done: bool)
      requires Valid() && |list| == |mr| == |ma|
      requires forall i | 0 <= i < |list| :: list[i].Writable()
      modifies this, all
      ensures Valid() && |qs| == |list| && forall i | 0 <= i < |list| :: qs[i] == RequestOf(list[i])
      ensures done == (Succeeds(old(txn.table), qs, Blank(), mr, ma) && !late)
      ensures txn.table == Pdu(old(txn.table), qs, Blank(), mr, ma, late)
      ensures done ==> txn.table == Applied(old(txn.table), qs, Blank(), |qs|)
      ensures done <==> !late && forall i | 0 <= i < |list| :: Passes(old(txn.table), list, mr, ma, i)
      ensures done && DistinctCells(list) ==> Reflects(old(txn.table), list, txn.table)
      ensures !done && DistinctCells(list) ==> txn.table == old(txn.table)
    {
      Begin(list);
      ghost var t := txn.table;
      SetFacts();
      SucceedsIffAllPass(t, list, qs, mr, ma);
      if DistinctCells(vbs) {
        AllOrNothing(t, qs, Blank(), mr, ma, late);
      }
      SetReserve2(mr);
      ReserveSettles(t, qs, Blank(), mr);
      AfterReserve();
      if failed {
        done := false;
        SetFree();
      } else {
        done := Finish(ma, late);
        if done {
          CommittedIsApplied(t, qs, Blank(), mr, ma);
          if DistinctCells(list) {
            CommittedTable(t, qs, Blank(), mr, ma, txn.table);
            SetReflects(t, list, qs, txn.table);
          }
        }
      }
    }
  }

  /** This table's COMMIT does nothing, and nothing is left for it to do. */
  lemma {:induction false} CommitNothing(s: Txn<Key, Column, int>, qs: seq<Request<Key, Column, int>>, m: nat)
    requires m <= |qs| == |s.buf| && forall i | 0 <= i < |qs| :: qs[i].finish == Keep && qs[i].rule == OnDemand
    ensures Commit(s, qs, m) == s
  {
    if m > 0 {
      CommitNothing(s, qs, m - 1);
    }
  }
}
