/**
  Telemetry layouts: the audit of the descriptor table (flight/tlm/frame.c), packing by
  it, and the ground's `decode_frame` (harness/runner/tlm_decode.py), for any table.
*/
module TlmLayout {
  import opened Words

  datatype Kind = KindSync | KindCount | KindEnum | KindBits | KindSensor | KindSum

  /** One descriptor: `count` elements of `width` bytes from `offset`. */
  datatype Field = Field(offset: uint16, width: uint8, count: uint8, kind: Kind)

  /** `n * w`, counted out. */
  function Times(n: nat, w: nat): nat {
    if n == 0 then 0 else Times(n - 1, w) + w
  }

  lemma {:induction false} TimesIsProduct(n: nat, w: nat)
    ensures Times(n, w) == n * w
  {
    if n > 0 {
      TimesIsProduct(n - 1, w);
    }
  }

  function Size(f: Field): nat {
    Times(f.count, f.width)
  }

  /** Where field `n` has to start if the fields before it leave no gap. */
  function Start(fields: seq<Field>, n: nat): nat
    requires n <= |fields|
  {
    if n == 0 then 0 else Start(fields, n - 1) + Size(fields[n - 1])
  }

  predicate FieldOk(f: Field) {
    (f.width == 1 || f.width == 2 || f.width == 4) && f.count > 0
  }

  /** What the audit accepts: sane fields, contiguous and in order, ending at the frame's length. */
  predicate AuditOk(fields: seq<Field>, frameLen: nat) {
    && fields != []
    && (forall i :: 0 <= i < |fields| ==> FieldOk(fields[i]) && fields[i].offset == Start(fields, i))
    && Start(fields, |fields|) == frameLen
  }

  lemma StartStep(fields: seq<Field>, i: nat)
    requires i < |fields|
    ensures Start(fields, 0) == 0
    ensures Start(fields, i + 1) == Start(fields, i) + fields[i].count as nat * fields[i].width as nat
  {
    TimesIsProduct(fields[i].count, fields[i].width);
  }

  /** Each field starts where the one before it ends, the first at 0, and the last ends the frame. */
  predicate Contiguous(fields: seq<Field>, frameLen: nat) {
    && fields != [] && fields[0].offset == 0
    && (forall i :: 0 < i < |fields| ==>
          fields[i].offset == fields[i - 1].offset + fields[i - 1].count as nat * fields[i - 1].width as nat)
    && var last := fields[|fields| - 1];
       last.offset as nat + last.count as nat * last.width as nat == frameLen
  }

  lemma {:induction false} StartsInPlace(fields: seq<Field>, frameLen: nat, n: nat)
    requires Contiguous(fields, frameLen) && n <= |fields|
    ensures Start(fields, n) == if n == |fields| then frameLen else fields[n].offset
  {
    hide Times, Size;
    if n == 0 {
    } else {
      StartsInPlace(fields, frameLen, n - 1);
      StartStep(fields, n - 1);
    }
  }

  lemma AcceptedIsContiguous(fields: seq<Field>, frameLen: nat)
    requires AuditOk(fields, frameLen)
    ensures Contiguous(fields, frameLen)
  {
    hide Start, FieldOk;
    StartStep(fields, 0);
    StartStep(fields, |fields| - 1);
    forall i | 0 < i < |fields|
      ensures fields[i].offset == fields[i - 1].offset + fields[i - 1].count as nat * fields[i - 1].width as nat
    {
      StartStep(fields, i - 1);
    }
  }

  lemma ContiguousStarts(fields: seq<Field>, frameLen: nat)
    requires Contiguous(fields, frameLen)
    ensures fields != [] && Start(fields, |fields|) == frameLen
    ensures forall i :: 0 <= i < |fields| ==> fields[i].offset == Start(fields, i)
  {
    hide Start;
    forall i | 0 <= i < |fields| ensures fields[i].offset == Start(fields, i) {
      StartsInPlace(fields, frameLen, i);
    }
    StartsInPlace(fields, frameLen, |fields|);
  }

  lemma AuditMeans(fields: seq<Field>, frameLen: nat)
    ensures AuditOk(fields, frameLen) <==>
            && Contiguous(fields, frameLen)
            && forall i :: 0 <= i < |fields| ==> fields[i].width in {1, 2, 4} && fields[i].count > 0
  {
    hide Start, Contiguous;
    if AuditOk(fields, frameLen) {
      AcceptedIsContiguous(fields, frameLen);
    }
    if Contiguous(fields, frameLen) {
      ContiguousStarts(fields, frameLen);
    }
  }

  /** The audit loop of `obc_tlm_init`. */
  method Audit(fields: seq<Field>, frameLen: nat) returns (ok: bool)
    ensures ok <==>
            && Contiguous(fields, frameLen)
            && forall i :: 0 <= i < |fields| ==> fields[i].width in {1, 2, 4} && fields[i].count > 0
    ensures ok <==> AuditOk(fields, frameLen)
  {
    AuditMeans(fields, frameLen);
    hide Times, Size, Start;
    if |fields| == 0 {
      return false;
    }
    StartStep(fields, 0);
    var expected := 0;
    for i := 0 to |fields|
      invariant expected == Start(fields, i)
      invariant forall k :: 0 <= k < i ==> FieldOk(fields[k]) && fields[k].offset == Start(fields, k)
    {
      var f := fields[i];
      if f.width != 1 && f.width != 2 && f.width != 4 {
        return false;
      }
      if f.count == 0 {
        return false;
      }
      if f.offset != expected {
        return false;
      }
      StartStep(fields, i);
      var size := f.count as nat * f.width as nat;
      expected := expected + size;
    }
    return expected == frameLen;
  }

  predicate Covers(f: Field, at: nat) {
    f.offset <= at < f.offset + Size(f)
  }

  lemma {:induction false} StartsGrow(fields: seq<Field>, i: nat, j: nat)
    requires i <= j <= |fields|
    ensures Start(fields, i) <= Start(fields, j)
    decreases j
  {
    if i < j {
      StartsGrow(fields, i, j - 1);
    }
  }

  /** An accepted table partitions the frame: every byte is in exactly one field. */
  lemma AuditPartitions(fields: seq<Field>, frameLen: nat, at: nat)
    requires AuditOk(fields, frameLen) && at < frameLen
    ensures exists i :: 0 <= i < |fields| && Covers(fields[i], at)
                        && forall j :: 0 <= j < |fields| && Covers(fields[j], at) ==> j == i
  {
    hide Times;
    var i := FieldCovering(fields, at, |fields|);
    forall j | 0 <= j < |fields| && Covers(fields[j], at) ensures j == i {
      if j < i {
        FieldsApart(fields, frameLen, j, i);
      } else if i < j {
        FieldsApart(fields, frameLen, i, j);
      }
    }
  }

  lemma FieldsApart(fields: seq<Field>, frameLen: nat, i: nat, j: nat)
    requires AuditOk(fields, frameLen) && i < j < |fields|
    ensures fields[i].offset + Size(fields[i]) <= fields[j].offset
    ensures fields[i].offset == Start(fields, i)
  {
    hide *;
    StartsThere(fields, frameLen, i);
    StartsThere(fields, frameLen, j);
    NextStart(fields, i);
    StartsGrow(fields, i + 1, j);
  }

  lemma StartsThere(fields: seq<Field>, frameLen: nat, i: nat)
    requires AuditOk(fields, frameLen) && i < |fields|
    ensures fields[i].offset == Start(fields, i)
  {
    hide Start, FieldOk;
  }

  lemma NextStart(fields: seq<Field>, i: nat)
    requires i < |fields|
    ensures Start(fields, i + 1) == Start(fields, i) + Size(fields[i])
  {
    hide Size;
  }

  lemma {:induction false} FieldCovering(fields: seq<Field>, at: nat, n: nat) returns (i: nat)
    requires n <= |fields| && at < Start(fields, n)
    ensures i < n && Start(fields, i) <= at < Start(fields, i) + Size(fields[i])
  {
    hide Times;
    if at < Start(fields, n - 1) {
      i := FieldCovering(fields, at, n - 1);
    } else {
      i := n - 1;
    }
  }

  // ---- packing and decoding ---------------------------------------------------------

  /** The elements of one field, little-endian, one after another. */
  function EncodeField(width: nat, elems: seq<nat>): (b: seq<uint8>)
    ensures |b| == Times(|elems|, width)
  {
    if elems == [] then []
    else EncodeField(width, elems[..|elems| - 1]) + LittleEndian(elems[|elems| - 1], width)
  }

  predicate Fits(f: Field, elems: seq<nat>) {
    |elems| == f.count && forall e :: 0 <= e < |elems| ==> elems[e] < Span(f.width)
  }

  predicate AllFit(fields: seq<Field>, values: seq<seq<nat>>) {
    |values| == |fields| && forall i :: 0 <= i < |fields| ==> Fits(fields[i], values[i])
  }

  /** The first `n` fields of a frame holding these values. */
  function Encode(fields: seq<Field>, values: seq<seq<nat>>, n: nat): seq<uint8>
    requires n <= |fields| == |values|
  {
    if n == 0 then [] else Encode(fields, values, n - 1) + EncodeField(fields[n - 1].width, values[n - 1])
  }

  /** A Python slice: clipped at the end. */
  function Slice(raw: seq<uint8>, a: nat, b: nat): seq<uint8>
    requires a <= b
  {
    raw[Min(a, |raw|)..Min(b, |raw|)]
  }

  /** The first `n` elements of a field starting at `at`. */
  function DecodeElems(raw: seq<uint8>, at: nat, width: nat, n: nat): (elems: seq<nat>)
    ensures |elems| == n
  {
    if n == 0 then []
    else
      var from := at + Times(n - 1, width);
      DecodeElems(raw, at, width, n - 1) + [FromLittleEndian(Slice(raw, from, from + width))]
  }

  /** `decode_frame`, one field. */
  function DecodeField(f: Field, raw: seq<uint8>): (elems: seq<nat>)
    ensures |elems| == f.count
  {
    DecodeElems(raw, f.offset, f.width, f.count)
  }

  /** `decode_frame`. */
  function Decode(fields: seq<Field>, raw: seq<uint8>): (values: seq<seq<nat>>)
    ensures |values| == |fields|
  {
    seq(|fields|, i requires 0 <= i < |fields| => DecodeField(fields[i], raw))
  }

  /** Reading back the elements packed at `at`. */
  lemma {:induction false} ElemsDecode(raw: seq<uint8>, at: nat, width: nat, elems: seq<nat>)
    requires at + Times(|elems|, width) <= |raw|
    requires raw[at..at + Times(|elems|, width)] == EncodeField(width, elems)
    requires forall e :: 0 <= e < |elems| ==> elems[e] < Span(width)
    ensures DecodeElems(raw, at, width, |elems|) == elems
  {
    hide LittleEndian, FromLittleEndian, Span, EncodeField;
    if elems == [] {
    } else {
      var n := |elems| - 1;
      var front, v := elems[..n], elems[n];
      assert elems == front + [v];
      EncodeFieldGrows(width, front, v);
      var mid := at + Times(n, width);
      CutConcat(raw, at, mid, mid + width, EncodeField(width, front), LittleEndian(v, width));
      ElemsDecode(raw, at, width, front);
      UnpackPack(v, width);
    }
  }

  lemma CutConcat(raw: seq<uint8>, a: nat, b: nat, c: nat, x: seq<uint8>, y: seq<uint8>)
    requires a <= b <= c <= |raw| && raw[a..c] == x + y && |x| == b - a
    ensures raw[a..b] == x && raw[b..c] == y
  {
    assert raw[a..b] == raw[a..c][..b - a] && raw[b..c] == raw[a..c][b - a..];
  }

  lemma {:induction false} ElemsFit(raw: seq<uint8>, at: nat, width: nat, n: nat)
    requires at + Times(n, width) <= |raw|
    ensures forall e :: 0 <= e < n ==> DecodeElems(raw, at, width, n)[e] < Span(width)
  {
    hide FromLittleEndian, Span;
    if n > 0 {
      ElemsFit(raw, at, width, n - 1);
    }
  }

  /** Packing the elements read at `at` gives the bytes back. */
  lemma {:induction false} ElemsEncode(raw: seq<uint8>, at: nat, width: nat, n: nat)
    requires at + Times(n, width) <= |raw|
    ensures EncodeField(width, DecodeElems(raw, at, width, n)) == raw[at..at + Times(n, width)]
  {
    hide LittleEndian, FromLittleEndian, EncodeField;
    if n == 0 {
      EncodeNothing(width);
    } else {
      ElemsEncode(raw, at, width, n - 1);
      var mid := at + Times(n - 1, width);
      var front, last := DecodeElems(raw, at, width, n - 1), raw[mid..mid + width];
      PackUnpack(last);
      EncodeFieldGrows(width, front, FromLittleEndian(last));
      assert raw[at..mid] + last == raw[at..mid + width];
    }
  }

  lemma EncodeNothing(width: nat)
    ensures EncodeField(width, []) == []
  {
  }

  lemma EncodeFieldGrows(width: nat, elems: seq<nat>, v: nat)
    ensures EncodeField(width, elems + [v]) == EncodeField(width, elems) + LittleEndian(v, width)
  {
    hide LittleEndian;
    assert (elems + [v])[..|elems|] == elems;
  }

  lemma {:induction false} EncodeLength(fields: seq<Field>, values: seq<seq<nat>>, n: nat)
    requires n <= |fields| && AllFit(fields, values)
    ensures |Encode(fields, values, n)| == Start(fields, n)
  {
    if n > 0 {
      EncodeLength(fields, values, n - 1);
      assert Fits(fields[n - 1], values[n - 1]);
    }
  }

  lemma {:induction false} EncodePrefix(fields: seq<Field>, values: seq<seq<nat>>, m: nat, n: nat)
    requires m <= n <= |fields| == |values|
    ensures Encode(fields, values, m) <= Encode(fields, values, n)
    decreases n
  {
    if m < n {
      EncodePrefix(fields, values, m, n - 1);
    }
  }

  /** Decoding what was packed gives the values back. */
  lemma DecodeEncode(fields: seq<Field>, frameLen: nat, values: seq<seq<nat>>)
    requires AuditOk(fields, frameLen) && AllFit(fields, values)
    ensures |Encode(fields, values, |fields|)| == frameLen
    ensures Decode(fields, Encode(fields, values, |fields|)) == values
  {
    hide Encode, DecodeField, EncodeField, Start, Fits;
    var raw := Encode(fields, values, |fields|);
    EncodeLength(fields, values, |fields|);
    forall i | 0 <= i < |fields| ensures DecodeField(fields[i], raw) == values[i] {
      FieldDecodes(fields, frameLen, values, i);
    }
  }

  lemma FieldDecodes(fields: seq<Field>, frameLen: nat, values: seq<seq<nat>>, i: nat)
    requires AuditOk(fields, frameLen) && AllFit(fields, values) && i < |fields|
    ensures DecodeField(fields[i], Encode(fields, values, |fields|)) == values[i]
  {
    var raw := Encode(fields, values, |fields|);
    var f := fields[i];
    EncodeLength(fields, values, i);
    EncodeLength(fields, values, i + 1);
    EncodePrefix(fields, values, i + 1, |fields|);
    assert Fits(f, values[i]) && f.offset == Start(fields, i);
    var front := Encode(fields, values, i);
    assert raw[..f.offset + Size(f)] == front + EncodeField(f.width, values[i]);
    hide Encode, Start, EncodeField, DecodeElems, Times;
    assert raw[f.offset..f.offset + Size(f)] == EncodeField(f.width, values[i]) by {
      assert raw[f.offset..f.offset + Size(f)] == raw[..f.offset + Size(f)][f.offset..];
    }
    ElemsDecode(raw, f.offset, f.width, values[i]);
  }

  /** Packing what was decoded gives the bytes back: nothing in a frame goes unread. */
  lemma EncodeDecode(fields: seq<Field>, frameLen: nat, raw: seq<uint8>)
    requires AuditOk(fields, frameLen) && |raw| == frameLen
    ensures AllFit(fields, Decode(fields, raw))
    ensures Encode(fields, Decode(fields, raw), |fields|) == raw
  {
    hide Encode, DecodeField, Start;
    forall i | 0 <= i < |fields| ensures Fits(fields[i], DecodeField(fields[i], raw)) {
      FieldEncodes(fields, raw, i);
    }
    EncodeDecodePrefix(fields, raw, |fields|);
    assert raw[..|raw|] == raw;
  }

  lemma FieldEncodes(fields: seq<Field>, raw: seq<uint8>, i: nat)
    requires AuditOk(fields, |raw|) && i < |fields|
    ensures Start(fields, i + 1) == Start(fields, i) + Size(fields[i]) <= |raw|
    ensures Fits(fields[i], DecodeField(fields[i], raw))
    ensures EncodeField(fields[i].width, DecodeField(fields[i], raw)) == raw[Start(fields, i)..Start(fields, i + 1)]
  {
    hide *;
    var f := fields[i];
    FieldPlace(fields, |raw|, i);
    ElemsEncode(raw, f.offset, f.width, f.count);
    ElemsFit(raw, f.offset, f.width, f.count);
    DecodedFieldFits(f, raw);
  }

  lemma FieldPlace(fields: seq<Field>, frameLen: nat, i: nat)
    requires AuditOk(fields, frameLen) && i < |fields|
    ensures fields[i].offset == Start(fields, i)
    ensures Start(fields, i + 1) == Start(fields, i) + Times(fields[i].count, fields[i].width) <= frameLen
    ensures Start(fields, i + 1) == Start(fields, i) + Size(fields[i])
  {
    hide Times;
    StartsGrow(fields, i + 1, |fields|);
  }

  lemma DecodedFieldFits(f: Field, raw: seq<uint8>)
    requires forall e :: 0 <= e < f.count ==> DecodeElems(raw, f.offset, f.width, f.count)[e] < Span(f.width)
    ensures DecodeField(f, raw) == DecodeElems(raw, f.offset, f.width, f.count)
    ensures Fits(f, DecodeField(f, raw))
  {
    hide Span, DecodeElems;
  }

  lemma {:induction false} EncodeDecodePrefix(fields: seq<Field>, raw: seq<uint8>, n: nat)
    requires AuditOk(fields, |raw|) && n <= |fields|
    ensures Start(fields, n) <= |raw| && Encode(fields, Decode(fields, raw), n) == raw[..Start(fields, n)]
  {
    hide EncodeField, DecodeField, Times, AuditOk;
    if n > 0 {
      EncodeDecodePrefix(fields, raw, n - 1);
      FieldEncodes(fields, raw, n - 1);
      assert raw[..Start(fields, n - 1)] + raw[Start(fields, n - 1)..Start(fields, n)] == raw[..Start(fields, n)];
    }
  }
}
