/** The Maintenance Domain table of cfm/ieee8021CfmMib.c: row objects in an index tree, and
    the mapper that runs the SET phases over a list of varbinds. Every phase is proved to
    compute the function of SetCore of the same name. */
module MdTable {
  import opened SetCore
  import opened SetCommit

  type byte = b: int | 0 <= b < 256

  const NAME_SIZE: nat := 43

  datatype Column = Format | Name | MdLevel | MhfCreation | MhfIdPermission | RowStatus

  datatype Value = Int(i: int) | Octets(s: seq<byte>)

  datatype VarBind = VarBind(index: nat, col: Column, val: Value) {
    /** What RESERVE1 checked: the type, and the size of an octet string. */
    predicate WellTyped() {
      if col == Name then val.Octets? && |val.s| <= NAME_SIZE else val.Int?
    }

    predicate Creates() {
      col == RowStatus && val.Int? && (val.i == CREATE_AND_GO || val.i == CREATE_AND_WAIT)
    }
  }

  const ACTIVE := 1
  const NOT_IN_SERVICE := 2
  const CREATE_AND_GO := 4
  const CREATE_AND_WAIT := 5
  const DESTROY := 6

  /** Assignment of a C long to a 32-bit column. */
  function Int32(i: int): int {
    (i + 0x8000_0000) % 0x1_0000_0000 - 0x8000_0000
  }

  function Stored(v: Value): Value {
    match v
    case Int(i) => Int(Int32(i))
    case Octets(s) => v
  }

  function StatusFinish(status: int): Finish<Column, Value> {
    if status == CREATE_AND_GO || status == ACTIVE then Put(RowStatus, Int(ACTIVE))
    else if status == CREATE_AND_WAIT || status == NOT_IN_SERVICE then Put(RowStatus, Int(NOT_IN_SERVICE))
    else if status == DESTROY then Destroy
    else Keep
  }

  function RequestOf(vb: VarBind): Request<nat, Column, Value>
    requires vb.WellTyped()
  {
    if vb.col == RowStatus
    then Request(vb.index, if vb.Creates() then MustCreate else MustExist, NoWrite, StatusFinish(vb.val.i))
    else Request(vb.index, MustExist, Write(vb.col, Stored(vb.val)), Keep)
  }

  /** No two varbinds name the same column of the same row. */
  ghost predicate DistinctCells(vbs: seq<VarBind>) {
    forall i, j | 0 <= i < j < |vbs| :: vbs[i].index != vbs[j].index || vbs[i].col != vbs[j].col
  }

  lemma RequestsObey(vbs: seq<VarBind>, qs: seq<Request<nat, Column, Value>>)
    requires |qs| == |vbs| && forall i | 0 <= i < |vbs| :: vbs[i].WellTyped() && qs[i] == RequestOf(vbs[i])
    ensures Separate(qs)
    ensures DistinctCells(vbs) ==> Distinct(qs)
  {
  }

  function Blank(): map<Column, Value> {
    map[Format := Int(4), Name := Octets([]), MdLevel := Int(0), MhfCreation := Int(1),
        MhfIdPermission := Int(1), RowStatus := Int(NOT_IN_SERVICE)]
  }

  // ---- What a SET does, in the values of its varbinds ------------------------------------------------

  /** The varbind is a row status with value v. */
  predicate StatusIs(vb: VarBind, v: int) {
    vb.col == RowStatus && vb.val == Int(v)
  }

  /** The index has a row when RESERVE2 comes to varbind i: it had one, or a status of
      createAndGo or createAndWait before i makes it. */
  ghost predicate Present(t: Table<nat, Column, Value>, list: seq<VarBind>, i: nat, k: nat)
    requires i <= |list|
  {
    k in t || exists j :: 0 <= j < i && list[j].index == k && (StatusIs(list[j], 4) || StatusIs(list[j], 5))
  }

  /** Varbind i passes: the two creating statuses need memory for a row and an index that has
      none; any other varbind needs the row, and a column other than the status needs memory
      for its rollback buffer. */
  ghost predicate Passes(t: Table<nat, Column, Value>, list: seq<VarBind>, mr: seq<bool>, ma: seq<bool>, i: nat)
    requires i < |list| == |mr| == |ma|
  {
    if StatusIs(list[i], 4) || StatusIs(list[i], 5) then mr[i] && !Present(t, list, i, list[i].index)
    else Present(t, list, i, list[i].index) && (list[i].col != RowStatus ==> ma[i])
  }

  /** What a 32-bit column shows of an integer: itself if it fits, else what is left of it. */
  predicate Narrowed(shown: Value, i: int) {
    && shown.Int? && -0x8000_0000 <= shown.i < 0x8000_0000 && (shown.i - i) % 0x1_0000_0000 == 0
    && (-0x8000_0000 <= i < 0x8000_0000 ==> shown.i == i)
  }

  /** What a new row shows in the columns nobody sets. */
  function Default(col: Column): Value {
    match col
    case Format => Int(4)
    case Name => Octets([])
    case MdLevel => Int(0)
    case MhfCreation => Int(1)
    case MhfIdPermission => Int(1)
    case RowStatus => Int(2)
  }

  function Before(t: Table<nat, Column, Value>, k: nat, col: Column): Value
    requires k in t ==> col in t[k]
  {
    if k in t then t[k][col] else Default(col)
  }

  /** What a varbind leaves in its cell, which held `was`: an octet string as given, an integer
      as given if it fits; status 1 or 4 leaves 1, status 2 or 5 leaves 2. */
  predicate Leaves(vb: VarBind, was: Value, shown: Value) {
    match (vb.col, vb.val)
    case (RowStatus, Int(v)) => shown == if v == 1 || v == 4 then Int(1) else if v == 2 || v == 5 then Int(2) else was
    case (Name, _) => shown == vb.val
    case (_, Int(v)) => Narrowed(shown, v)
    case _ => false
  }

  /** Table u is table t after the varbinds: the rows that were there or were made, without
      the destroyed ones; every cell that a varbind names holds what the varbind leaves, and
      every other what it held, or its default in a new row. */
  ghost predicate Reflects(t: Table<nat, Column, Value>, list: seq<VarBind>, u: Table<nat, Column, Value>) {
    && (forall k :: RowReflects(t, list, u, k))
    && (forall k, c | k in u :: CellReflects(t, list, u, k, c))
  }

  ghost predicate RowReflects(t: Table<nat, Column, Value>, list: seq<VarBind>, u: Table<nat, Column, Value>,
      k: nat) {
    k in u <==> Present(t, list, |list|, k) && !exists i ::
      0 <= i < |list| && list[i].index == k && StatusIs(list[i], 6)
  }

  ghost predicate CellReflects(t: Table<nat, Column, Value>, list: seq<VarBind>, u: Table<nat, Column, Value>,
      k: nat, c: Column)
    requires k in u
  {
    && c in u[k] && (k in t ==> c in t[k])
    && (forall i | 0 <= i < |list| && list[i].index == k && list[i].col == c ::
      Leaves(list[i], Before(t, k, c), u[k][c]))
    && ((forall i | 0 <= i < |list| :: list[i].index != k || list[i].col != c) ==> u[k][c] == Before(t, k, c))
  }

  /** The requests of a list of varbinds. */
  ghost predicate RequestsOf(list: seq<VarBind>, qs: seq<Request<nat, Column, Value>>) {
    |qs| == |list| && forall i | 0 <= i < |list| :: list[i].WellTyped() && qs[i] == RequestOf(list[i])
  }

  lemma RowTranslates(t: Table<nat, Column, Value>, list: seq<VarBind>, qs: seq<Request<nat, Column, Value>>,
      u: Table<nat, Column, Value>, k: nat)
    requires RequestsOf(list, qs) && RowIs(t, qs, u, k)
    ensures RowReflects(t, list, u, k)
  {
    forall i | 0 <= i < |list|
      ensures (qs[i].rule != MustExist <==> StatusIs(list[i], 4) || StatusIs(list[i], 5))
      ensures qs[i].key == list[i].index && (qs[i].finish == Destroy <==> StatusIs(list[i], 6))
    {
      RequestIs(list[i]);
    }
  }

  lemma RequestIs(vb: VarBind)
    requires vb.WellTyped()
    ensures var q := RequestOf(vb);
      && q.key == vb.index
      && (q.rule == if StatusIs(vb, 4) || StatusIs(vb, 5) then MustCreate else MustExist)
      && (q.finish == Destroy <==> StatusIs(vb, 6))
      && (q.change.Write? <==> vb.col != RowStatus)
  {
  }

  /** The request of a varbind writes or finishes its own cell, if any, with what it leaves. */
  lemma RequestLeaves(vb: VarBind, k: nat, c: Column, was: Value)
    requires vb.WellTyped()
    ensures var q := RequestOf(vb);
      && (Writes(q, k, c) || Puts(q, k, c) ==> vb.index == k && vb.col == c)
      && (vb.index == k && vb.col == c ==>
            || (Writes(q, k, c) && Leaves(vb, was, q.change.val))
            || (Puts(q, k, c) && Leaves(vb, was, q.finish.val))
            || (!Writes(q, k, c) && !Puts(q, k, c) && (Leaves(vb, was, was) || StatusIs(vb, 6))))
  {
    if vb.val.Int? {
      Int32Narrows(vb.val.i);
    }
  }

  lemma Int32Narrows(i: int)
    ensures Narrowed(Int(Int32(i)), i)
  {
  }

  lemma CellTranslates(t: Table<nat, Column, Value>, list: seq<VarBind>, qs: seq<Request<nat, Column, Value>>,
      u: Table<nat, Column, Value>, k: nat, c: Column)
    requires RequestsOf(list, qs) && DistinctCells(list) && RowReflects(t, list, u, k)
    requires k in u && (k in t ==> c in t[k]) && c in Blank()
    requires CellIs(u[k], Base(t, Blank(), k), qs, k, c)
    ensures CellReflects(t, list, u, k, c)
  {
    var was := Before(t, k, c);
    assert Base(t, Blank(), k)[c] == was;
    forall i | 0 <= i < |list|
      ensures Writes(qs[i], k, c) || Puts(qs[i], k, c) ==> list[i].index == k && list[i].col == c
    {
      RequestLeaves(list[i], k, c, was);
    }
    forall i | 0 <= i < |list| && list[i].index == k && list[i].col == c
      ensures Leaves(list[i], was, u[k][c])
    {
      RequestLeaves(list[i], k, c, was);
      assert !StatusIs(list[i], 6);
    }
  }

  lemma DefaultIs(c: Column)
    ensures c in Blank() && Blank()[c] == Default(c)
  {
    match c
    case Format | Name | MdLevel | MhfCreation | MhfIdPermission | RowStatus =>
  }

  lemma SetReflects(t: Table<nat, Column, Value>, list: seq<VarBind>, qs: seq<Request<nat, Column, Value>>,
      u: Table<nat, Column, Value>)
    requires RequestsOf(list, qs) && DistinctCells(list) && TableIs(t, qs, Blank(), u)
    requires forall k | k in t :: t[k].Keys == Blank().Keys
    ensures Reflects(t, list, u)
  {
    forall k: nat
      ensures RowReflects(t, list, u, k)
    {
      assert RowIs(t, qs, u, k);
      RowTranslates(t, list, qs, u, k);
    }
    forall k, c | k in u
      ensures CellReflects(t, list, u, k, c)
    {
      DefaultIs(c);
      assert k in t ==> c in t[k];
      assert CellIs(u[k], Base(t, Blank(), k), qs, k, c);
      CellTranslates(t, list, qs, u, k, c);
    }
  }

  /** A SET succeeds exactly when every varbind passes. */
  lemma SucceedsIffAllPass(t: Table<nat, Column, Value>, list: seq<VarBind>, qs: seq<Request<nat, Column, Value>>,
      mr: seq<bool>, ma: seq<bool>)
    requires RequestsOf(list, qs) && |qs| == |mr| == |ma| && Shaped(t, qs, Blank())
    ensures Succeeds(t, qs, Blank(), mr, ma) <==> forall i | 0 <= i < |list| :: Passes(t, list, mr, ma, i)
  {
    SucceedsIff(t, qs, Blank(), mr, ma);
    forall i | 0 <= i < |list|
      ensures Passes(t, list, mr, ma, i) <==> !Refused(t, qs, mr, i) && !Starved(t, qs, ma, i)
    {
      PassesIff(t, list, qs, mr, ma, i);
    }
  }

  lemma PassesIff(t: Table<nat, Column, Value>, list: seq<VarBind>, qs: seq<Request<nat, Column, Value>>,
      mr: seq<bool>, ma: seq<bool>, i: nat)
    requires RequestsOf(list, qs) && |qs| == |mr| == |ma| && i < |list|
    ensures Passes(t, list, mr, ma, i) <==> !Refused(t, qs, mr, i) && !Starved(t, qs, ma, i)
  {
    MadeIff(t, qs, i, list[i].index);
    forall j | 0 <= j <= i
      ensures qs[j].key == list[j].index
      ensures qs[j].rule == if StatusIs(list[j], 4) || StatusIs(list[j], 5) then MustCreate else MustExist
    {
      RequestIs(list[j]);
    }
    RequestIs(list[i]);
  }

  type NameArray = s: seq<byte> | |s| == NAME_SIZE witness seq(NAME_SIZE, _ => 0)

  type NameLength = n: nat | n <= NAME_SIZE

  /** A row of the table. The name column is a fixed array held inside the row, so it is
      the row's value: all its bytes, and how many of them count. */
  class MdRow {
    const index: nat
    var format: int
    var name: NameArray
    var nameLen: NameLength
    var mdLevel: int
    var mhfCreation: int
    var mhfIdPermission: int
    var rowStatus: int

    /** What GET shows. */
    ghost function View(): map<Column, Value>
      reads this
    {
      map[Format := Int(format), Name := Octets(name[..nameLen]), MdLevel := Int(mdLevel),
        MhfCreation := Int(mhfCreation),
          MhfIdPermission := Int(mhfIdPermission), RowStatus := Int(rowStatus)]
    }

    constructor (index: nat)
      ensures this.index == index && View() == Blank()
    {
      this.index := index;
      format := 4;
      name := seq(NAME_SIZE, _ => 0);
      nameLen := 0;
      mdLevel := 0;
      mhfCreation := 1;
      mhfIdPermission := 1;
      rowStatus := NOT_IN_SERVICE;
    }

    /** ACTION's assignment to a column. */
    method Assign(col: Column, v: Value)
      requires VarBind(index, col, v).WellTyped() && col != RowStatus
      modifies this
      ensures View() == old(View())[col := Stored(v)]
    {
      match col
      case Format => format := Int32(v.i);
      case Name =>
        name := v.s + seq(NAME_SIZE - |v.s|, _ => 0);
        nameLen := |v.s|;
        assert name[..nameLen] == v.s;
      case MdLevel => mdLevel := Int32(v.i);
      case MhfCreation => mhfCreation := Int32(v.i);
      case MhfIdPermission => mhfIdPermission := Int32(v.i);
    }

    /** ACTION's copy of a column into a rollback buffer: of an octet string the whole array
        and the length. */
    method Save(col: Column) returns (b: Buffer)
      requires col != RowStatus
      ensures b.Fits(col) && b.Abs() == Saved(View()[col])
    {
      match col
      case Format => b := IntBuffer(format);
      case Name => b := OctetBuffer(name, nameLen);
      case MdLevel => b := IntBuffer(mdLevel);
      case MhfCreation => b := IntBuffer(mhfCreation);
      case MhfIdPermission => b := IntBuffer(mhfIdPermission);
    }

    /** UNDO's copy back: of an octet string only the saved length, so the rest of the array
        may differ from what it was. */
    method Restore(col: Column, b: Buffer)
      requires b.Fits(col) && (b.IntBuffer? || b.OctetBuffer?)
      modifies this
      ensures View() == old(View())[col := b.Abs().val]
    {
      match col
      case Format => format := b.i;
      case Name =>
        name := b.data[..b.len] + name[b.len..];
        nameLen := b.len;
        assert name[..nameLen] == b.data[..b.len];
      case MdLevel => mdLevel := b.i;
      case MhfCreation => mhfCreation := b.i;
      case MhfIdPermission => mhfIdPermission := b.i;
    }
  }

  /** The rollback buffer of a request. */
  datatype Buffer = NoBuffer | RowBuffer(row: MdRow) | IntBuffer(i: int) | OctetBuffer(data: seq<byte>, len: nat) {
    predicate Fits(col: Column) {
      match this
      case NoBuffer => true
      case RowBuffer(_) => col == RowStatus
      case IntBuffer(_) => col != Name && col != RowStatus
      case OctetBuffer(data, len) => col == Name && |data| == NAME_SIZE && len <= NAME_SIZE
    }

    function Abs(): Rollback<Value> {
      match this
      case NoBuffer => Nothing
      case RowBuffer(_) => TheRow
      case IntBuffer(i) => Saved(Int(i))
      case OctetBuffer(data, len) => Saved(Octets(if len <= |data| then data[..len] else data))
    }
  }

  /** The table and, during a SET, its request list: the row each request is about (the
      iterator context) and each request's rollback buffer. A row removed from the table
      stays in `all`: later requests may still hold it. `txn` is the value of all this in
      SetCore's terms and `qs` that of the varbinds; Valid() ties them to the fields. */
  class MdMapper {
    var rows: map<nat, MdRow>
    var vbs: seq<VarBind>
    var context: seq<MdRow?>
    var buf: seq<Buffer>
    var failed: bool
    ghost var all: set<MdRow>
    ghost var qs: seq<Request<nat, Column, Value>>
    ghost var txn: Txn<nat, Column, Value>

    ghost predicate RowAt(k: nat)
      reads this, all
    {
      && (k in rows <==> k in txn.table)
      && (k in rows ==> rows[k] in all && rows[k].index == k && rows[k].View() == txn.table[k])
    }

    ghost predicate ValidRows()
      reads this, all
    {
      forall k: nat :: RowAt(k)
    }

    ghost predicate RequestAt(i: nat)
      reads this
      requires i < |vbs| == |context| == |buf| == |qs| == |txn.buf|
    {
      && vbs[i].WellTyped() && qs[i] == RequestOf(vbs[i])
      && buf[i].Fits(vbs[i].col) && txn.buf[i] == buf[i].Abs()
      && (buf[i].RowBuffer? ==> vbs[i].Creates())
      && (context[i] != null ==> context[i] in all && context[i].index == vbs[i].index)
      && (context[i] != null && vbs[i].index in rows ==> context[i] == rows[vbs[i].index])
    }

    ghost predicate Valid()
      reads this, all
    {
      && ValidRows()
      && failed == txn.err
      && |vbs| == |context| == |buf| == |qs| == |txn.buf|
      && forall i: nat | i < |vbs| :: RequestAt(i)
    }

    ghost predicate ContextAt(i: nat)
      reads this
      requires i < |vbs| == |context|
    {
      context[i] != null <==> vbs[i].index in rows
    }

    /** Every request has its row if there is one: how the table iterator sets the list up,
        and how insert_iterator_context keeps it. */
    ghost predicate InStep()
      reads this
      requires |vbs| == |context|
    {
      forall i: nat | i < |vbs| :: ContextAt(i)
    }

    constructor ()
      ensures Valid() && txn == Fresh(map[], 0)
    {
      rows, vbs, context, buf, failed := map[], [], [], [], false;
      all, qs, txn := {}, [], Fresh(map[], 0);
    }

    /** The start of a SET: the iterator finds each request's row. */
    method Begin(list: seq<VarBind>)
      requires ValidRows() && forall i | 0 <= i < |list| :: list[i].WellTyped()
      modifies this
      ensures Valid() && InStep() && vbs == list && all == old(all) && txn == Fresh(old(txn.table), |list|)
    {
      var index := rows;
      vbs := list;
      context := seq(|list|, i requires 0 <= i < |list| => if list[i].index in index
        then index[list[i].index] else null);
      buf := seq(|list|, _ => NoBuffer);
      failed := false;
      qs := seq(|list|, i requires 0 <= i < |list| => RequestOf(list[i]));
      txn := Fresh(txn.table, |list|);
      assert forall k: nat :: old(RowAt(k)) ==> RowAt(k);
      forall i: nat | i < |vbs|
        ensures RequestAt(i) && ContextAt(i)
      {
        assert RowAt(vbs[i].index);
      }
    }

    /** A new row, unless memory is short or the index is taken. */
    method CreateEntry(index: nat, mem: bool) returns (e: MdRow?)
      requires ValidRows()
      modifies this`rows, this`all, this`txn
      ensures ValidRows()
      ensures e == null <==> !mem || index in old(rows)
      ensures rows == if e == null then old(rows) else old(rows)[index := e]
      ensures all == if e == null then old(all) else old(all) + {e}
      ensures txn == if e == null then old(txn) else old(txn).(table := old(txn.table)[index := Blank()])
      ensures e != null ==> e.index == index && fresh(e)
    {
      e := null;
      if mem {
        var row := new MdRow(index);
        if index !in rows {
          rows := rows[index := row];
          all := all + {row};
          txn := txn.(table := txn.table[index := Blank()]);
          e := row;
          assert forall k: nat :: old(RowAt(k)) ==> RowAt(k);
        }
      }
    }

    /** netsnmp_insert_iterator_context: the new row is given to every request naming it. */
    method InsertContext(e: MdRow)
      requires |context| == |vbs|
      modifies this`context
      ensures |context| == |vbs|
      ensures forall j | 0 <= j < |vbs| :: context[j] == if vbs[j].index == e.index then e else old(context[j])
    {
      for j := 0 to |vbs|
        invariant |context| == |vbs|
        invariant forall i | 0 <= i < |vbs| :: context[i] == if i < j && vbs[i].index == e.index
          then e else old(context[i])
      {
        if vbs[j].index == e.index {
          context := context[j := e];
        }
      }
    }

    /** The new row goes to the requests that name it, and into the buffer of the one that
        made it. */
    method Adopt(i: nat, e: MdRow)
      requires Valid() && i < |vbs| && vbs[i].Creates() && vbs[i].index == e.index && e in all
        && e.index in rows && rows[e.index] == e
      requires forall j: nat | j < |vbs| :: if vbs[j].index == e.index then context[j] == null else ContextAt(j)
      modifies this`context, this`buf, this`txn
      ensures Valid() && InStep() && txn == old(txn).(buf := old(txn.buf)[i := TheRow])
    {
      InsertContext(e);
      buf := buf[i := RowBuffer(e)];
      txn := txn.(buf := txn.buf[i := TheRow]);
      assert forall k: nat :: old(RowAt(k)) ==> RowAt(k);
      forall j: nat | j < |vbs|
        ensures RequestAt(j) && ContextAt(j)
      {
        assert old(RequestAt(j)) && (vbs[j].index != e.index ==> old(ContextAt(j)));
      }
    }

    method ReserveCreate(i: nat, mem: bool) returns (created: bool)
      requires Valid() && InStep() && i < |vbs| && vbs[i].Creates()
      modifies this`rows, this`context, this`buf, this`all, this`txn
      ensures Valid() && InStep() && fresh(all - old(all))
      ensures created <==> mem && vbs[i].index !in old(txn.table)
      ensures txn == if created
        then old(txn).(table := old(txn.table)[vbs[i].index := Blank()], buf := old(txn.buf)[i := TheRow])
        else old(txn)
    {
      assert RowAt(vbs[i].index);
      var e := CreateEntry(vbs[i].index, mem);
      created := e != null;
      assert forall j: nat | j < |vbs| :: old(RequestAt(j)) && old(ContextAt(j)) ==> RequestAt(j);
      if created {
        assert forall j: nat | j < |vbs| :: old(ContextAt(j)) ==> if vbs[j].index == e.index
          then context[j] == null else ContextAt(j);
        Adopt(i, e);
      } else {
        assert forall j: nat | j < |vbs| :: old(ContextAt(j)) ==> ContextAt(j);
      }
    }

    /** A request error is recorded. */
    method Fail(ghost stop: bool)
      requires Valid() && InStep()
      modifies this`failed, this`txn
      ensures Valid() && InStep() && txn == old(txn).(err := true, stop := stop)
    {
      failed := true;
      txn := txn.(err := true, stop := stop);
      assert forall k: nat :: old(RowAt(k)) ==> RowAt(k);
      assert forall j: nat | j < |vbs| :: old(RequestAt(j)) ==> RequestAt(j);
      assert forall j: nat | j < |vbs| :: old(ContextAt(j)) ==> ContextAt(j);
    }

    method ReserveOne(i: nat, mem: bool) returns (stop: bool)
      requires Valid() && InStep() && i < |vbs| && !txn.stop
      modifies this`rows, this`context, this`buf, this`failed, this`all, this`txn
      ensures Valid() && InStep() && fresh(all - old(all))
      ensures txn == ReserveStep(old(txn), i, qs[i], Blank(), mem) && stop == txn.stop
    {
      assert RequestAt(i) && ContextAt(i) && RowAt(vbs[i].index);
      stop := false;
      if vbs[i].Creates() {
        var created := ReserveCreate(i, mem);
        if !created {
          Fail(true);
          stop := true;
        }
      } else if context[i] == null {
        Fail(false);
      }
    }

    /** RESERVE2. `mem[i]` tells whether the allocation for request i would succeed. */
    method SetReserve2(mem: seq<bool>)
      requires Valid() && InStep() && |mem| == |vbs| && !txn.stop
      modifies this`rows, this`context, this`buf, this`failed, this`all, this`txn
      ensures Valid() && InStep() && fresh(all - old(all))
      ensures txn == Reserve(old(txn), qs, Blank(), mem, |vbs|)
    {
      for i := 0 to |vbs|
        invariant Valid() && InStep() && fresh(all - old(all))
        invariant txn == Reserve(old(txn), qs, Blank(), mem, i) && !txn.stop
      {
        var stop := ReserveOne(i, mem[i]);
        if stop {
          ReserveStopped(old(txn), qs, Blank(), mem, i + 1, |vbs|);
          return;
        }
      }
    }

    /** Removal by key; a row not in the table is left alone. */
    method RemoveEntry(e: MdRow?)
      requires Valid()
      modifies this`rows, this`txn
      ensures Valid()
      ensures txn == if e == null then old(txn) else old(txn).(table := old(txn.table) - {e.index})
    {
      if e != null {
        assert RowAt(e.index);
        if e.index in rows {
          rows := rows - {e.index};
        }
        txn := txn.(table := txn.table - {e.index});
        assert forall k: nat :: old(RowAt(k)) ==> RowAt(k);
        assert forall j: nat | j < |vbs| :: old(RequestAt(j)) ==> RequestAt(j);
      }
    }

    method ClearBuffer(i: nat)
      requires Valid() && i < |vbs|
      modifies this`buf, this`txn
      ensures Valid() && buf == old(buf)[i := NoBuffer] && txn == old(txn).(buf := old(txn.buf)[i := Nothing])
    {
      buf := buf[i := NoBuffer];
      txn := txn.(buf := txn.buf[i := Nothing]);
      assert forall k: nat :: old(RowAt(k)) ==> RowAt(k);
      assert forall j: nat | j < |vbs| :: old(RequestAt(j)) ==> RequestAt(j);
    }

    /** A request holds its row whenever it holds a rollback buffer. */
    ghost predicate Held()
      reads this
      requires |vbs| == |context| == |buf|
    {
      forall i: nat | i < |vbs| :: HeldAt(i)
    }

    ghost predicate HeldAt(i: nat)
      reads this
      requires i < |vbs| == |context| == |buf|
    {
      buf[i] == NoBuffer || context[i] != null
    }

    method FreeOne(i: nat)
      requires Valid() && Held() && i < |vbs|
      modifies this`rows, this`buf, this`txn
      ensures Valid() && Held() && txn == FreeStep(old(txn), i, qs[i])
    {
      assert RequestAt(i) && HeldAt(i);
      if context[i] != null && buf[i] != NoBuffer && vbs[i].Creates() {
        RemoveEntry(context[i]);
        ClearBuffer(i);
      }
      assert forall j: nat | j < |vbs| :: old(HeldAt(j)) ==> HeldAt(j);
    }

    /** FREE. */
    method SetFree()
      requires Valid() && Held()
      modifies this`rows, this`buf, this`txn
      ensures Valid() && txn == Free(old(txn), qs, |vbs|)
    {
      for i := 0 to |vbs|
        invariant Valid() && Held()
        invariant txn == Free(old(txn), qs, i)
      {
        FreeOne(i);
      }
    }

    /** Every request has its row in the table: what a RESERVE2 without errors leaves. */
    ghost predicate Bound()
      reads this
      requires |vbs| == |context|
    {
      forall i: nat | i < |vbs| :: context[i] != null
    }

    method SaveColumn(i: nat)
      requires Valid() && i < |vbs| && vbs[i].col != RowStatus && context[i] != null && vbs[i].index in rows
      modifies this`buf, this`txn
      ensures Valid() && vbs[i].index in txn.table && vbs[i].col in txn.table[vbs[i].index]
      ensures txn == old(txn).(buf := old(txn.buf)[i := Saved(txn.table[vbs[i].index][vbs[i].col])])
    {
      assert RequestAt(i) && RowAt(vbs[i].index);
      var b := context[i].Save(vbs[i].col);
      buf := buf[i := b];
      txn := txn.(buf := txn.buf[i := b.Abs()]);
      assert forall k: nat :: old(RowAt(k)) ==> RowAt(k);
      assert forall j: nat | j < |vbs| :: old(RequestAt(j)) ==> RequestAt(j);
    }

    method WriteColumn(i: nat)
      requires Valid() && i < |vbs| && vbs[i].col != RowStatus && context[i] != null && vbs[i].index in rows
      modifies this`txn, all
      ensures Valid() && txn == old(txn).(table := WriteOne(old(txn.table), qs[i]))
    {
      assert RequestAt(i) && RowAt(vbs[i].index);
      context[i].Assign(vbs[i].col, vbs[i].val);
      txn := txn.(table := WriteOne(txn.table, qs[i]));
      forall k: nat
        ensures RowAt(k)
      {
        assert old(RowAt(k));
      }
      assert forall j: nat | j < |vbs| :: old(RequestAt(j)) ==> RequestAt(j);
    }

    method ActionOne(i: nat, mem: bool) returns (stop: bool)
      requires Valid() && InStep() && Bound() && i < |vbs| && !txn.stop && !txn.buf[i].Saved?
      modifies this`buf, this`failed, this`txn, all
      ensures Valid() && InStep()
      ensures txn == ActionStep(old(txn), i, qs[i], mem) && stop == txn.stop
    {
      assert RequestAt(i) && ContextAt(i) && RowAt(vbs[i].index);
      stop := false;
      if vbs[i].col != RowStatus {
        if buf[i] == NoBuffer && !mem {
          Fail(true);
          return true;
        } else if buf[i] != RowBuffer(context[i]) {
          SaveColumn(i);
        }
        WriteColumn(i);
      }
      assert forall j: nat | j < |vbs| :: old(ContextAt(j)) ==> ContextAt(j);
    }

    /** ACTION; RESERVE2 found or made every row. */
    method SetAction(mem: seq<bool>)
      requires Valid() && InStep() && Bound() && |mem| == |vbs| && !txn.stop
      requires forall i | 0 <= i < |vbs| :: !txn.buf[i].Saved?
      modifies this`buf, this`failed, this`txn, all
      ensures Valid() && InStep()
      ensures txn == Action(old(txn), qs, mem, |vbs|)
    {
      for i := 0 to |vbs|
        invariant Valid() && InStep()
        invariant txn == Action(old(txn), qs, mem, i) && !txn.stop
        invariant forall j | i <= j < |vbs| :: txn.buf[j] == old(txn.buf[j])
      {
        var stop := ActionOne(i, mem[i]);
        if stop {
          ActionStopped(old(txn), qs, mem, i + 1, |vbs|);
          return;
        }
      }
    }

    method RestoreColumn(i: nat)
      requires Valid() && i < |vbs| && context[i] != null && txn.buf[i].Saved?
      modifies this`txn, all
      ensures Valid() && txn == UndoStep(old(txn), i, qs[i])
    {
      assert RequestAt(i) && RowAt(vbs[i].index);
      context[i].Restore(vbs[i].col, buf[i]);
      txn := UndoStep(txn, i, qs[i]);
      forall k: nat
        ensures RowAt(k)
      {
        assert old(RowAt(k));
      }
      assert forall j: nat | j < |vbs| :: old(RequestAt(j)) ==> RequestAt(j);
    }

    method UndoOne(i: nat)
      requires Valid() && Bound() && i < |vbs|
      modifies this`rows, this`buf, this`txn, all
      ensures Valid() && txn == UndoStep(old(txn), i, qs[i])
    {
      assert RequestAt(i);
      if context[i] != null && buf[i] != NoBuffer {
        if vbs[i].col != RowStatus {
          RestoreColumn(i);
        } else if vbs[i].Creates() {
          RemoveEntry(context[i]);
          ClearBuffer(i);
        }
      }
    }

    /** UNDO, first varbind first. */
    method SetUndo()
      requires Valid() && Bound()
      modifies this`rows, this`buf, this`txn, all
      ensures Valid() && txn == Undo(old(txn), qs, |vbs|)
    {
      for i := 0 to |vbs|
        invariant Valid()
        invariant txn == Undo(old(txn), qs, i)
      {
        UndoOne(i);
      }
    }

    method SetStatus(i: nat, status: int)
      requires Valid() && i < |vbs| && context[i] != null
      modifies this`txn, all
      ensures Valid() && txn == old(txn).(table := if vbs[i].index in old(txn.table)
        then old(txn.table)[vbs[i].index := old(txn.table)[vbs[i].index][RowStatus := Int(status)]]
          else old(txn.table))
    {
      assert RequestAt(i) && RowAt(vbs[i].index);
      context[i].rowStatus := status;
      if vbs[i].index in txn.table {
        txn := txn.(table := txn.table[vbs[i].index := txn.table[vbs[i].index][RowStatus := Int(status)]]);
      }
      forall k: nat
        ensures RowAt(k)
      {
        assert old(RowAt(k));
      }
      assert forall j: nat | j < |vbs| :: old(RequestAt(j)) ==> RequestAt(j);
    }

    method CommitOne(i: nat)
      requires Valid() && Bound() && i < |vbs|
      modifies this`rows, this`buf, this`txn, all
      ensures Valid() && txn == CommitStep(old(txn), i, qs[i])
    {
      assert RequestAt(i);
      if vbs[i].col == RowStatus {
        var status := vbs[i].val.i;
        if vbs[i].Creates() {
          ClearBuffer(i);
        }
        if status == CREATE_AND_GO || status == ACTIVE {
          SetStatus(i, ACTIVE);
        } else if status == CREATE_AND_WAIT || status == NOT_IN_SERVICE {
          SetStatus(i, NOT_IN_SERVICE);
        } else if status == DESTROY {
          RemoveEntry(context[i]);
        }
      }
    }

    /** COMMIT. */
    method SetCommit()
      requires Valid() && Bound()
      modifies this`rows, this`buf, this`txn, all
      ensures Valid() && txn == Commit(old(txn), qs, |vbs|)
    {
      for i := 0 to |vbs|
        invariant Valid()
        invariant txn == Commit(old(txn), qs, i)
      {
        CommitOne(i);
      }
    }

    lemma SetFacts()
      requires Valid()
      ensures Shaped(txn.table, qs, Blank()) && Separate(qs)
      ensures DistinctCells(vbs) ==> Distinct(qs)
      ensures forall i | 0 <= i < |qs| :: vbs[i].WellTyped() && qs[i] == RequestOf(vbs[i])
    {
      forall k | k in txn.table
        ensures txn.table[k].Keys == Blank().Keys
      {
        assert RowAt(k);
      }
      forall i: nat | i < |qs|
        ensures vbs[i].WellTyped() && qs[i] == RequestOf(vbs[i])
      {
        assert RequestAt(i);
      }
      RequestsObey(vbs, qs);
    }

    lemma AfterReserve()
      requires Valid() && InStep() && Settled(txn, qs)
      ensures Held() && (failed || (Bound() && !txn.stop))
      ensures forall i | 0 <= i < |vbs| :: !txn.buf[i].Saved?
    {
      forall i: nat | i < |vbs|
        ensures HeldAt(i) && (failed || context[i] != null) && !txn.buf[i].Saved?
      {
        assert SettledAt(txn, qs, i) && RequestAt(i) && ContextAt(i) && RowAt(vbs[i].index);
      }
    }

    /** ACTION and what follows it. */
    method Finish(ma: seq<bool>, late: bool) returns (done: bool)
      requires Valid() && InStep() && Bound() && |ma| == |vbs| && !txn.stop && !failed
      requires forall i | 0 <= i < |vbs| :: !txn.buf[i].Saved?
      modifies this`rows, this`buf, this`failed, this`txn, all
      ensures Valid() && done == (!Action(old(txn), qs, ma, |vbs|).err && !late)
      ensures var a := Action(old(txn), qs, ma, |vbs|);
        txn == if done then Commit(a, qs, |vbs|) else Undo(a, qs, |vbs|)
    {
      SetAction(ma);
      done := !failed && !late;
      if done {
        SetCommit();
      } else {
        SetUndo();
      }
    }

    /** A whole SET as the agent drives it: `late` is the failure of another handler of the
        PDU once this table's ACTION is done. A SET that succeeds applies the varbinds in
        order; one that fails leaves the table as it was, if no cell is named twice. */
    method SetPdu(list: seq<VarBind>, mr: seq<bool>, ma: seq<bool>, late: bool) returns (done: bool)
      requires Valid() && |list| == |mr| == |ma|
      requires forall i | 0 <= i < |list| :: list[i].WellTyped()
      modifies this, all
      ensures Valid() && |qs| == |list| && forall i | 0 <= i < |list| :: qs[i] == RequestOf(list[i])
      ensures done == (Succeeds(old(txn.table), qs, Blank(), mr, ma) && !late)
      ensures txn.table == Pdu(old(txn.table), qs, Blank(), mr, ma, late)
      ensures done ==> txn.table == Applied(old(txn.table), qs, Blank(), |qs|)
      ensures done <==> !late && forall i | 0 <= i < |list| :: Passes(old(txn.table), list, mr, ma, i)
      ensures done && DistinctCells(list) ==> Reflects(old(txn.table), list, txn.table)
      ensures !done && DistinctCells(list) ==> txn.table == old(txn.table)
    {
      Begin(list);
      ghost var t := txn.table;
      SetFacts();
      SucceedsIffAllPass(t, list, qs, mr, ma);
      if DistinctCells(vbs) {
        AllOrNothing(t, qs, Blank(), mr, ma, late);
      }
      SetReserve2(mr);
      ReserveSettles(t, qs, Blank(), mr);
      AfterReserve();
      if failed {
        done := false;
        SetFree();
      } else {
        done := Finish(ma, late);
        if done {
          CommittedIsApplied(t, qs, Blank(), mr, ma);
          if DistinctCells(list) {
            CommittedTable(t, qs, Blank(), mr, ma, txn.table);
            SetReflects(t, list, qs, txn.table);
          }
        }
      }
    }
  }
}
