/** The command table and what its handlers do (flight/cmd/table.c). */
module CmdTable {
  import opened Words

  const OP_PING: uint8 := 0x10
  const OP_SET: uint8 := 0x11
  const OP_ARM: uint8 := 0x12
  const OP_SAFE: uint8 := 0x13

  datatype Handler = Ping | SetArg | Arm | RequestSafe

  datatype Command = Command(opcode: uint8, critical: bool, argMin: uint32, argMax: uint32, handler: Handler)

  const TABLE: seq<Command> := [
    Command(OP_PING, false, 0, 0, Ping),
    Command(OP_SET, false, 100, 900, SetArg),
    Command(OP_ARM, false, 0x10, 0x13, Arm),
    Command(OP_SAFE, true, 0, 0, RequestSafe)
  ]

  /** The row of an opcode; the table holds no opcode twice. */
  function Lookup(opcode: uint8): (r: Option<Command>)
    ensures r.Some? ==> r.value in TABLE && r.value.opcode == opcode
  {
    if opcode == OP_PING then Some(TABLE[0])
    else if opcode == OP_SET then Some(TABLE[1])
    else if opcode == OP_ARM then Some(TABLE[2])
    else if opcode == OP_SAFE then Some(TABLE[3])
    else None
  }

  /** An opcode has a row exactly when the table names it, and then that row is the only one. */
  lemma LookupIsTable(opcode: uint8)
    ensures Lookup(opcode).None? <==> forall cmd :: cmd in TABLE ==> cmd.opcode != opcode
    ensures forall cmd :: cmd in TABLE && cmd.opcode == opcode ==> Lookup(opcode) == Some(cmd)
  {
    assert TABLE[0] in TABLE && TABLE[1] in TABLE && TABLE[2] in TABLE && TABLE[3] in TABLE;
  }

  /** The `lookup` loop of frame.c and queue.c: the first matching row. */
  method FindRow(opcode: uint8) returns (r: Option<Command>)
    ensures r == Lookup(opcode)
  {
    for i := 0 to |TABLE|
      invariant forall k :: 0 <= k < i ==> TABLE[k].opcode != opcode
    {
      if TABLE[i].opcode == opcode {
        return Some(TABLE[i]);
      }
    }
    assert TABLE[0].opcode != opcode && TABLE[1].opcode != opcode;
    assert TABLE[2].opcode != opcode && TABLE[3].opcode != opcode;
    return None;
  }

  /** The globals the handlers write. */
  datatype Effects = Effects(pingCount: uint32, setArg: uint32, armTarget: uint32, safeRequested: bool)

  function Handle(h: Handler, arg: uint32, fx: Effects): Effects {
    match h
    case Ping => fx.(pingCount := Bump(fx.pingCount))
    case SetArg => fx.(setArg := arg)
    case Arm => fx.(armTarget := arg)
    case RequestSafe => fx.(safeRequested := true)
  }

  // ---- the audit of `obc_cmd_init` -----------------------------------------------------------

  /** A row as the audit sees it, and a field of the frame as the descriptor table has it. */
  datatype Row = Row(opcode: uint8, argMin: uint32, argMax: uint32, hasFn: bool)
  datatype FrameField = FrameField(offset: nat, width: nat)

  function FieldStart(fields: seq<FrameField>, n: nat): nat
    requires n <= |fields|
  {
    if n == 0 then 0 else FieldStart(fields, n - 1) + fields[n - 1].width
  }

  lemma NextStart(fields: seq<FrameField>, n: nat)
    requires n < |fields|
    ensures FieldStart(fields, n + 1) == FieldStart(fields, n) + fields[n].width
  {
  }

  /** No gap and no overlap before field `n`. */
  predicate FieldInPlace(fields: seq<FrameField>, n: nat)
    requires n < |fields|
  {
    fields[n].offset == FieldStart(fields, n)
  }

  predicate FieldsOk(fields: seq<FrameField>, frameLen: nat) {
    && (forall n :: 0 <= n < |fields| ==> FieldInPlace(fields, n))
    && FieldStart(fields, |fields|) == frameLen
  }

  /** Every row has a handler and a range that admits something, and no opcode comes twice. */
  predicate RowsOk(rows: seq<Row>, n: nat)
    requires n <= |rows|
  {
    && (forall i :: 0 <= i < n ==> rows[i].hasFn && rows[i].argMin <= rows[i].argMax)
    && (forall i, j :: 0 <= j < i < n ==> rows[j].opcode != rows[i].opcode)
  }

  predicate AuditPasses(rows: seq<Row>, fields: seq<FrameField>, frameLen: nat) {
    rows != [] && FieldsOk(fields, frameLen) && RowsOk(rows, |rows|)
  }

  method AuditFields(fields: seq<FrameField>, frameLen: nat) returns (ok: bool)
    ensures ok <==> FieldsOk(fields, frameLen)
  {
    var expected := 0;
    assert FieldStart(fields, 0) == 0;
    hide FieldStart;
    for i := 0 to |fields|
      invariant expected == FieldStart(fields, i)
      invariant forall n :: 0 <= n < i ==> FieldInPlace(fields, n)
    {
      assert FieldInPlace(fields, i) <==> fields[i].offset == expected;
      if fields[i].offset != expected {
        return false;
      }
      NextStart(fields, i);
      expected := expected + fields[i].width;
    }
    return expected == frameLen;
  }

  /** Each field starts where the one before it ends, the first at 0, and the last ends the frame. */
  predicate Contiguous(fields: seq<FrameField>, frameLen: nat) {
    if fields == [] then frameLen == 0
    else
      var n := |fields| - 1;
      && fields[0].offset == 0
      && (forall i :: 0 < i <= n ==> fields[i].offset == fields[i - 1].offset + fields[i - 1].width)
      && fields[n].offset + fields[n].width == frameLen
  }

  lemma {:induction false} StartsInPlace(fields: seq<FrameField>, n: nat)
    requires n < |fields| && (fields[0].offset == 0)
    requires forall i :: 0 < i <= n ==> fields[i].offset == fields[i - 1].offset + fields[i - 1].width
    ensures FieldInPlace(fields, n)
  {
    if n > 0 {
      StartsInPlace(fields, n - 1);
      NextStart(fields, n - 1);
    }
  }

  lemma FieldsOkMeans(fields: seq<FrameField>, frameLen: nat)
    ensures FieldsOk(fields, frameLen) <==> Contiguous(fields, frameLen)
  {
    if fields != [] {
      var n := |fields| - 1;
      assert FieldStart(fields, 0) == 0;
      if FieldsOk(fields, frameLen) {
        assert FieldInPlace(fields, 0) && FieldInPlace(fields, n);
        forall i | 0 < i <= n ensures fields[i].offset == fields[i - 1].offset + fields[i - 1].width {
          assert FieldInPlace(fields, i) && FieldInPlace(fields, i - 1);
          NextStart(fields, i - 1);
        }
        NextStart(fields, n);
      }
      if Contiguous(fields, frameLen) {
        forall i | 0 <= i <= n ensures FieldInPlace(fields, i) {
          StartsInPlace(fields, i);
        }
        assert FieldInPlace(fields, n);
        NextStart(fields, n);
      }
    }
  }

  /**
    The audit of `obc_cmd_init`: there are rows, each with a handler and a range that admits
    something, no opcode comes twice, and the descriptors cover the frame without gap or overlap.
  */
  method Audit(rows: seq<Row>, fields: seq<FrameField>, frameLen: nat) returns (ok: bool)
    ensures ok <==>
            && rows != [] && Contiguous(fields, frameLen)
            && (forall i :: 0 <= i < |rows| ==> rows[i].hasFn && rows[i].argMin <= rows[i].argMax)
            && (forall i, j :: 0 <= j < i < |rows| ==> rows[j].opcode != rows[i].opcode)
    ensures ok <==> AuditPasses(rows, fields, frameLen)
  {
    FieldsOkMeans(fields, frameLen);
    if rows == [] {
      return false;
    }
    var fieldsOk := AuditFields(fields, frameLen);
    if !fieldsOk {
      return false;
    }
    for i := 0 to |rows|
      invariant RowsOk(rows, i)
    {
      if !rows[i].hasFn || rows[i].argMin > rows[i].argMax {
        return false;
      }
      for j := 0 to i
        invariant forall k :: 0 <= k < j ==> rows[k].opcode != rows[i].opcode
      {
        if rows[j].opcode == rows[i].opcode {
          return false;
        }
      }
    }
    return true;
  }

  /** The shipped rows; each has its handler. */
  function ShippedRows(): (rows: seq<Row>)
    ensures |rows| == |TABLE|
  {
    seq(|TABLE|, i requires 0 <= i < |TABLE| => Row(TABLE[i].opcode, TABLE[i].argMin, TABLE[i].argMax, true))
  }

  function ShippedFields(): seq<FrameField> {
    [FrameField(0, 4), FrameField(4, 4), FrameField(8, 1), FrameField(9, 1), FrameField(10, 4), FrameField(14, 4),
     FrameField(18, 2)]
  }

  /** The shipped table and descriptors pass the audit of the 20-byte frame. */
  lemma ShippedTablePasses()
    ensures AuditPasses(ShippedRows(), ShippedFields(), 20)
  {
    var f := ShippedFields();
    assert FieldStart(f, 0) == 0 && FieldStart(f, 1) == 4 && FieldStart(f, 2) == 8 && FieldStart(f, 3) == 9;
    assert FieldStart(f, 4) == 10 && FieldStart(f, 5) == 14 && FieldStart(f, 6) == 18 && FieldStart(f, 7) == 20;
    var r := ShippedRows();
    assert r[0].opcode == OP_PING && r[1].opcode == OP_SET && r[2].opcode == OP_ARM && r[3].opcode == OP_SAFE;
  }
}
