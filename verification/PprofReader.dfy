/** The decoder as it runs: a cursor that advances over a buffer. */
module PprofReader {
  import opened Bytes
  import opened Wire
  import opened Pprof

  /** A return value, or the exception thrown instead. */
  datatype Result<+T> = Success(value: T) | Failure(error: Error) {
    predicate IsFailure() { Failure? }
    function PropagateFailure<U>(): Result<U> requires Failure? { Failure(error) }
    function Extract(): T requires Success? { value }
  }

  /** A call returned what was to be read and moved the cursor past it, or threw the same error. */
  ghost predicate Agrees<T>(res: Result<T>, moved: int, r: Read<T>) {
    match r
    case Ok(v, n) => res == Success(v) && moved == n
    case Err(e) => res == Failure(e)
  }

  function TwoTo(shift: nat): (p: nat)
  {
    if shift == 0 then 1 else 2 * TwoTo(shift - 1)
  }

  lemma TwoToSeven(shift: nat)
    ensures TwoTo(0) == 1
    ensures TwoTo(shift + 7) == 128 * TwoTo(shift)
  {
    assert TwoTo(shift + 2) == 4 * TwoTo(shift);
    assert TwoTo(shift + 4) == 4 * TwoTo(shift + 2);
    assert TwoTo(shift + 6) == 4 * TwoTo(shift + 4);
  }

  /** After `i` bytes the loop holds `result`, and the whole varint is that plus what `s` still says. */
  ghost predicate VarintAt(all: Read<nat>, s: seq<byte>, i: nat, result: nat)
    requires i <= 9
  {
    match ReadVarintAt(s, i)
    case Ok(v, n) => all == Ok(result + TwoTo(7 * i) * v, i + n)
    case Err(e) => all == Err(e)
  }

  lemma Distribute(t: nat, low: nat, v: nat)
    ensures t * (low + 128 * v) == low * t + (128 * t) * v
  {
    assert t * (low + 128 * v) == t * low + t * (128 * v);
    assert t * (128 * v) == (128 * t) * v;
  }

  lemma VarintStep(all: Read<nat>, s: seq<byte>, i: nat, result: nat)
    requires i <= 9 && s != [] && VarintAt(all, s, i, result)
    ensures s[0] < 128 ==> all == Ok(result + s[0] * TwoTo(7 * i), i + 1)
    ensures s[0] >= 128 && i == 9 ==> all == Err(VarintTooLong)
    ensures s[0] >= 128 && i < 9 ==> VarintAt(all, s[1..], i + 1, result + (s[0] - 128) * TwoTo(7 * i))
  {
    hide TwoTo;
    if s[0] >= 128 && i < 9 && ReadVarintAt(s[1..], i + 1).Ok? {
      TwoToSeven(7 * i);
      Distribute(TwoTo(7 * i), s[0] - 128, ReadVarintAt(s[1..], i + 1).value);
    }
  }

  lemma VarintEnds(all: Read<nat>, s: seq<byte>, i: nat, result: nat)
    ensures VarintAt(ReadVarint(s), s, 0, 0)
    ensures i <= 9 && VarintAt(all, [], i, result) ==> all == Err(VarintEnd)
  {
    TwoToSeven(0);
  }

  lemma RestTail(s: seq<byte>, n: nat)
    ensures Rest(s, 0) == s
    ensures n >= |s| ==> Rest(s, n) == []
    ensures n < |s| ==> Rest(s, n) != [] && Rest(s, n)[0] == s[n] && Rest(s, n)[1..] == Rest(s, n + 1)
  {
  }

  class Reader {
    const buf: seq<byte>
    var pos: nat
    /** How many varints have been read. */
    ghost var varints: nat

    /** Each varint took at least one byte of the buffer. */
    ghost predicate Valid() reads this { varints <= pos && varints <= |buf| }

    ghost function Remaining(): seq<byte> reads this { Rest(buf, pos) }

    constructor (buf: seq<byte>)
      ensures Valid() && this.buf == buf && pos == 0 && varints == 0
    {
      this.buf := buf;
      pos := 0;
      varints := 0;
    }

    predicate Eof() reads this { pos >= |buf| }

    method ReadVarint() returns (res: Result<nat>)
      requires Valid()
      modifies this
      ensures Agrees(res, pos - old(pos), Wire.ReadVarint(old(Remaining())))
      ensures Valid() && varints == old(varints) + if res.Success? then 1 else 0
      ensures res.Success? ==> old(pos) < pos <= |buf|
      ensures res.Success? ==> Remaining() == Rest(old(Remaining()), pos - old(pos))
    {
      hide TwoTo, Rest, VarintAt, Wire.ReadVarint;
      var result: nat, shift: nat := 0, 0;
      ghost var i: nat := 0;
      ghost var all := Wire.ReadVarint(Remaining());
      VarintEnds(all, Remaining(), 0, 0);
      while true
        invariant i <= 9 && shift == 7 * i && pos == old(pos) + i && varints == old(varints)
        invariant VarintAt(all, Remaining(), i, result)
        decreases 9 - i
      {
        RestTail(buf, pos);
        if pos >= |buf| {
          VarintEnds(all, [], i, result);
          return Failure(VarintEnd);
        }
        VarintStep(all, Remaining(), i, result);
        var byte := buf[pos];
        pos := pos + 1;
        result := result + (byte % 128) * TwoTo(shift);
        if byte < 128 {
          varints := varints + 1;
          RestRest(buf, old(pos), pos - old(pos));
          return Success(result);
        }
        shift := shift + 7;
        if shift > 63 {
          return Failure(VarintTooLong);
        }
        i := i + 1;
      }
    }

    method ReadBytes(len: nat) returns (res: Result<seq<byte>>)
      requires Valid()
      modifies this`pos
      ensures Valid()
      ensures old(pos) + len <= |buf| ==>
                res == Success(old(Remaining())[..len]) && pos == old(pos) + len
      ensures old(pos) + len > |buf| ==> res == Failure(BytesOutOfRange) && pos == old(pos)
      ensures old(pos) <= |buf| ==> |old(Remaining())| == |buf| - old(pos)
    {
      if pos + len > |buf| {
        return Failure(BytesOutOfRange);
      }
      res := Success(buf[pos..pos + len]);
      assert buf[pos..pos + len] == Remaining()[..len];
      pos := pos + len;
    }

    method SkipField(wire: nat) returns (res: Result<()>)
      requires Valid()
      modifies this
      ensures Agrees(res, pos - old(pos), Wire.SkipField(old(Remaining()), wire))
      ensures Valid() && old(varints) <= varints
      ensures res.Success? ==> old(pos) <= pos
    {
      if wire == WIRE_VARINT {
        var _ :- ReadVarint();
      } else if wire == WIRE_FIXED64 {
        pos := pos + 8;
      } else if wire == WIRE_LENGTH_DELIMITED {
        var len :- ReadVarint();
        pos := pos + len;
      } else if wire == WIRE_FIXED32 {
        pos := pos + 4;
      } else {
        return Failure(UnsupportedWire(wire));
      }
      return Success(());
    }
  }

  // ---------------------------------------------------------------- the loops

  /** The loop has read `fs` over `k` bytes, `s` remains and `left` bytes are still to come. */
  ghost predicate Reached<F>(read: seq<byte> -> Read<F>, all: Read<seq<F>>, fs: seq<F>, k: nat, s: seq<byte>, left: int)
    requires Progress(read)
  {
    all == Prepend(fs, k, Fields(read, s, left))
  }

  lemma LoopStart<F>(read: seq<byte> -> Read<F>, s: seq<byte>, len: int)
    requires Progress(read)
    ensures Reached(read, Fields(read, s, len), [], 0, s, len)
  {
    PrependNothing(Fields(read, s, len));
  }

  lemma LoopStep<F>(read: seq<byte> -> Read<F>, all: Read<seq<F>>, fs: seq<F>, k: nat, s: seq<byte>, left: int)
    requires Progress(read) && left > 0 && Reached(read, all, fs, k, s, left)
    ensures match read(s)
            case Ok(f, n) => Reached(read, all, fs + [f], k + n, Rest(s, n), left - n)
            case Err(e) => all == Err(e)
  {
    match read(s)
    case Ok(f, n) => PrependTwice(fs, k, [f], n, Fields(read, Rest(s, n), left - n));
    case Err(e) =>
  }

  lemma LoopEnd<F>(read: seq<byte> -> Read<F>, all: Read<seq<F>>, fs: seq<F>, k: nat, s: seq<byte>, left: int)
    requires Progress(read) && left <= 0 && Reached(read, all, fs, k, s, left)
    ensures all == Ok(fs, k)
  {
    PrependToNothing(fs, k);
  }

  lemma ReadersProgress()
    ensures Progress(ReadLabelField) && Progress(ReadPairField) && Progress(ReadFunctionField)
    ensures Progress(ReadSampleField) && Progress(ReadLocationField) && Progress(ReadProfileField)
  {
  }

  /** What the decoders start from. */
  lemma Nothing()
    ensures LabelOf([]) == Label(0, 0, 0) && LineOf([]) == Line(0, 0)
    ensures FunctionOf([]) == Function(0, 0, 0) && ValueTypeOf([]) == ValueType(0, 0)
    ensures SampleOf([]) == Sample([], [], []) && LocationOf([]) == Location(0, [], [])
    ensures ProfileOf([]) == EMPTY
  {
  }

  method DecodePackedVarints(r: Reader, len: nat) returns (res: Result<seq<nat>>)
    requires r.Valid()
    modifies r
    ensures Agrees(res, r.pos - old(r.pos), Fields(ReadVarint, old(r.Remaining()), len))
    ensures r.Valid() && old(r.varints) <= r.varints
    ensures res.Success? ==> old(r.pos) <= r.pos
  {
    hide Fields, Reached, Progress, ReadVarint, Rest;
    VarintProgress();
    var end := r.pos + len;
    var out: seq<nat> := [];
    ghost var all := Fields(ReadVarint, r.Remaining(), len);
    LoopStart(ReadVarint, r.Remaining(), len);
    while r.pos < end
      invariant r.Valid() && old(r.varints) <= r.varints && old(r.pos) <= r.pos
      invariant Reached(ReadVarint, all, out, r.pos - old(r.pos), r.Remaining(), end - r.pos)
      decreases end - r.pos
    {
      LoopStep(ReadVarint, all, out, r.pos - old(r.pos), r.Remaining(), end - r.pos);
      ghost var before := r.pos;
      var v :- r.ReadVarint();
      RestRest(r.buf, before, r.pos - before);
      out := out + [v];
    }
    LoopEnd(ReadVarint, all, out, r.pos - old(r.pos), r.Remaining(), end - r.pos);
    return Success(out);
  }

  function Shaped<T, U>(f: T -> U, r: Read<T>): Read<U> {
    match r
    case Ok(v, n) => Ok(f(v), n)
    case Err(e) => Err(e)
  }

  function AddToLabel(x: Label, f: ScalarField): Label {
    match f
    case Scalar(num, v) => if num == 1 then x.(keyIdx := v) else if num == 2 then x.(strIdx := v) else if num == 3 then x.(num := v) else x
    case OtherScalar => x
  }

  lemma AddToLabelIs(fs: seq<ScalarField>, f: ScalarField)
    ensures LabelOf(fs + [f]) == AddToLabel(LabelOf(fs), f)
  {
    assert (fs + [f])[..|fs|] == fs;
  }

  method LabelTurn(r: Reader, x: Label) returns (res: Result<Label>, ghost f: ScalarField)
    requires r.Valid()
    modifies r
    ensures Agrees(if res.Success? then Success(f) else Failure(res.error), r.pos - old(r.pos),
                   ReadLabelField(old(r.Remaining())))
    ensures r.Valid() && old(r.varints) <= r.varints
    ensures res.Success? ==> old(r.pos) < r.pos && res.value == AddToLabel(x, f)
  {
    hide ReadVarint, Wire.SkipField;
    f := OtherScalar;
    var next := x;
    var tag :- r.ReadVarint();
    var fieldNum, wire := FieldNum(tag), WireType(tag);
    if fieldNum == 1 && wire == WIRE_VARINT {
      var v :- r.ReadVarint();
      next, f := next.(keyIdx := v), Scalar(1, v);
    } else if fieldNum == 2 && wire == WIRE_VARINT {
      var v :- r.ReadVarint();
      next, f := next.(strIdx := v), Scalar(2, v);
    } else if fieldNum == 3 && wire == WIRE_VARINT {
      var v :- r.ReadVarint();
      next, f := next.(num := v), Scalar(3, v);
    } else {
      var _ :- r.SkipField(wire);
    }
    res := Success(next);
  }

  method DecodeLabel(r: Reader, len: nat) returns (res: Result<Label>)
    requires r.Valid()
    modifies r
    ensures Agrees(res, r.pos - old(r.pos), Shaped(LabelOf, Fields(ReadLabelField, old(r.Remaining()), len)))
    ensures r.Valid() && old(r.varints) <= r.varints
    ensures res.Success? ==> old(r.pos) <= r.pos
  {
    hide Fields, Reached, Progress, ReadLabelField, LabelOf;
    ReadersProgress();
    Nothing();
    var end := r.pos + len;
    var x := Label(0, 0, 0);
    ghost var fs: seq<ScalarField> := [];
    ghost var all := Fields(ReadLabelField, r.Remaining(), len);
    LoopStart(ReadLabelField, r.Remaining(), len);
    while r.pos < end
      invariant r.Valid() && old(r.varints) <= r.varints && old(r.pos) <= r.pos && x == LabelOf(fs)
      invariant Reached(ReadLabelField, all, fs, r.pos - old(r.pos), r.Remaining(), end - r.pos)
      decreases end - r.pos
    {
      LoopStep(ReadLabelField, all, fs, r.pos - old(r.pos), r.Remaining(), end - r.pos);
      ghost var before := r.pos;
      var turn, f := LabelTurn(r, x);
      x :- turn;
      RestRest(r.buf, before, r.pos - before);
      AddToLabelIs(fs, f);
      fs := fs + [f];
    }
    LoopEnd(ReadLabelField, all, fs, r.pos - old(r.pos), r.Remaining(), end - r.pos);
    return Success(x);
  }

  function AddToLine(x: Line, f: ScalarField): Line {
    match f
    case Scalar(num, v) => if num == 1 then x.(functionId := v) else if num == 2 then x.(line := v) else x
    case OtherScalar => x
  }

  lemma AddToLineIs(fs: seq<ScalarField>, f: ScalarField)
    ensures LineOf(fs + [f]) == AddToLine(LineOf(fs), f)
  {
    assert (fs + [f])[..|fs|] == fs;
  }

  method LineTurn(r: Reader, x: Line) returns (res: Result<Line>, ghost f: ScalarField)
    requires r.Valid()
    modifies r
    ensures Agrees(if res.Success? then Success(f) else Failure(res.error), r.pos - old(r.pos),
                   ReadPairField(old(r.Remaining())))
    ensures r.Valid() && old(r.varints) <= r.varints
    ensures res.Success? ==> old(r.pos) < r.pos && res.value == AddToLine(x, f)
  {
    hide ReadVarint, Wire.SkipField;
    f := OtherScalar;
    var next := x;
    var tag :- r.ReadVarint();
    var fieldNum, wire := FieldNum(tag), WireType(tag);
    if fieldNum == 1 && wire == WIRE_VARINT {
      var v :- r.ReadVarint();
      next, f := next.(functionId := v), Scalar(1, v);
    } else if fieldNum == 2 && wire == WIRE_VARINT {
      var v :- r.ReadVarint();
      next, f := next.(line := v), Scalar(2, v);
    } else {
      var _ :- r.SkipField(wire);
    }
    res := Success(next);
  }

  method DecodeLine(r: Reader, len: nat) returns (res: Result<Line>)
    requires r.Valid()
    modifies r
    ensures Agrees(res, r.pos - old(r.pos), Shaped(LineOf, Fields(ReadPairField, old(r.Remaining()), len)))
    ensures r.Valid() && old(r.varints) <= r.varints
    ensures res.Success? ==> old(r.pos) <= r.pos
  {
    hide Fields, Reached, Progress, ReadPairField, LineOf;
    ReadersProgress();
    Nothing();
    var end := r.pos + len;
    var x := Line(0, 0);
    ghost var fs: seq<ScalarField> := [];
    ghost var all := Fields(ReadPairField, r.Remaining(), len);
    LoopStart(ReadPairField, r.Remaining(), len);
    while r.pos < end
      invariant r.Valid() && old(r.varints) <= r.varints && old(r.pos) <= r.pos && x == LineOf(fs)
      invariant Reached(ReadPairField, all, fs, r.pos - old(r.pos), r.Remaining(), end - r.pos)
      decreases end - r.pos
    {
      LoopStep(ReadPairField, all, fs, r.pos - old(r.pos), r.Remaining(), end - r.pos);
      ghost var before := r.pos;
      var turn, f := LineTurn(r, x);
      x :- turn;
      RestRest(r.buf, before, r.pos - before);
      AddToLineIs(fs, f);
      fs := fs + [f];
    }
    LoopEnd(ReadPairField, all, fs, r.pos - old(r.pos), r.Remaining(), end - r.pos);
    return Success(x);
  }

  function AddToFunction(x: Function, f: ScalarField): Function {
    match f
    case Scalar(num, v) => if num == 1 then x.(id := v) else if num == 2 then x.(nameIdx := v) else if num == 4 then x.(filenameIdx := v) else x
    case OtherScalar => x
  }

  lemma AddToFunctionIs(fs: seq<ScalarField>, f: ScalarField)
    ensures FunctionOf(fs + [f]) == AddToFunction(FunctionOf(fs), f)
  {
    assert (fs + [f])[..|fs|] == fs;
  }

  method FunctionTurn(r: Reader, x: Function) returns (res: Result<Function>, ghost f: ScalarField)
    requires r.Valid()
    modifies r
    ensures Agrees(if res.Success? then Success(f) else Failure(res.error), r.pos - old(r.pos),
                   ReadFunctionField(old(r.Remaining())))
    ensures r.Valid() && old(r.varints) <= r.varints
    ensures res.Success? ==> old(r.pos) < r.pos && res.value == AddToFunction(x, f)
  {
    hide ReadVarint, Wire.SkipField;
    f := OtherScalar;
    var next := x;
    var tag :- r.ReadVarint();
    var fieldNum, wire := FieldNum(tag), WireType(tag);
    if fieldNum == 1 && wire == WIRE_VARINT {
      var v :- r.ReadVarint();
      next, f := next.(id := v), Scalar(1, v);
    } else if fieldNum == 2 && wire == WIRE_VARINT {
      var v :- r.ReadVarint();
      next, f := next.(nameIdx := v), Scalar(2, v);
    } else if fieldNum == 4 && wire == WIRE_VARINT {
      var v :- r.ReadVarint();
      next, f := next.(filenameIdx := v), Scalar(4, v);
    } else {
      var _ :- r.SkipField(wire);
    }
    res := Success(next);
  }

  method DecodeFunction(r: Reader, len: nat) returns (res: Result<Function>)
    requires r.Valid()
    modifies r
    ensures Agrees(res, r.pos - old(r.pos), Shaped(FunctionOf, Fields(ReadFunctionField, old(r.Remaining()), len)))
    ensures r.Valid() && old(r.varints) <= r.varints
    ensures res.Success? ==> old(r.pos) <= r.pos
  {
    hide Fields, Reached, Progress, ReadFunctionField, FunctionOf;
    ReadersProgress();
    Nothing();
    var end := r.pos + len;
    var x := Function(0, 0, 0);
    ghost var fs: seq<ScalarField> := [];
    ghost var all := Fields(ReadFunctionField, r.Remaining(), len);
    LoopStart(ReadFunctionField, r.Remaining(), len);
    while r.pos < end
      invariant r.Valid() && old(r.varints) <= r.varints && old(r.pos) <= r.pos && x == FunctionOf(fs)
      invariant Reached(ReadFunctionField, all, fs, r.pos - old(r.pos), r.Remaining(), end - r.pos)
      decreases end - r.pos
    {
      LoopStep(ReadFunctionField, all, fs, r.pos - old(r.pos), r.Remaining(), end - r.pos);
      ghost var before := r.pos;
      var turn, f := FunctionTurn(r, x);
      x :- turn;
      RestRest(r.buf, before, r.pos - before);
      AddToFunctionIs(fs, f);
      fs := fs + [f];
    }
    LoopEnd(ReadFunctionField, all, fs, r.pos - old(r.pos), r.Remaining(), end - r.pos);
    return Success(x);
  }

  function AddToValueType(x: ValueType, f: ScalarField): ValueType {
    match f
    case Scalar(num, v) => if num == 1 then x.(typeIdx := v) else if num == 2 then x.(unitIdx := v) else x
    case OtherScalar => x
  }

  lemma AddToValueTypeIs(fs: seq<ScalarField>, f: ScalarField)
    ensures ValueTypeOf(fs + [f]) == AddToValueType(ValueTypeOf(fs), f)
  {
    assert (fs + [f])[..|fs|] == fs;
  }

  method ValueTypeTurn(r: Reader, x: ValueType) returns (res: Result<ValueType>, ghost f: ScalarField)
    requires r.Valid()
    modifies r
    ensures Agrees(if res.Success? then Success(f) else Failure(res.error), r.pos - old(r.pos),
                   ReadPairField(old(r.Remaining())))
    ensures r.Valid() && old(r.varints) <= r.varints
    ensures res.Success? ==> old(r.pos) < r.pos && res.value == AddToValueType(x, f)
  {
    hide ReadVarint, Wire.SkipField;
    f := OtherScalar;
    var next := x;
    var tag :- r.ReadVarint();
    var fieldNum, wire := FieldNum(tag), WireType(tag);
    if fieldNum == 1 && wire == WIRE_VARINT {
      var v :- r.ReadVarint();
      next, f := next.(typeIdx := v), Scalar(1, v);
    } else if fieldNum == 2 && wire == WIRE_VARINT {
      var v :- r.ReadVarint();
      next, f := next.(unitIdx := v), Scalar(2, v);
    } else {
      var _ :- r.SkipField(wire);
    }
    res := Success(next);
  }

  method DecodeValueType(r: Reader, len: nat) returns (res: Result<ValueType>)
    requires r.Valid()
    modifies r
    ensures Agrees(res, r.pos - old(r.pos), Shaped(ValueTypeOf, Fields(ReadPairField, old(r.Remaining()), len)))
    ensures r.Valid() && old(r.varints) <= r.varints
    ensures res.Success? ==> old(r.pos) <= r.pos
  {
    hide Fields, Reached, Progress, ReadPairField, ValueTypeOf;
    ReadersProgress();
    Nothing();
    var end := r.pos + len;
    var x := ValueType(0, 0);
    ghost var fs: seq<ScalarField> := [];
    ghost var all := Fields(ReadPairField, r.Remaining(), len);
    LoopStart(ReadPairField, r.Remaining(), len);
    while r.pos < end
      invariant r.Valid() && old(r.varints) <= r.varints && old(r.pos) <= r.pos && x == ValueTypeOf(fs)
      invariant Reached(ReadPairField, all, fs, r.pos - old(r.pos), r.Remaining(), end - r.pos)
      decreases end - r.pos
    {
      LoopStep(ReadPairField, all, fs, r.pos - old(r.pos), r.Remaining(), end - r.pos);
      ghost var before := r.pos;
      var turn, f := ValueTypeTurn(r, x);
      x :- turn;
      RestRest(r.buf, before, r.pos - before);
      AddToValueTypeIs(fs, f);
      fs := fs + [f];
    }
    LoopEnd(ReadPairField, all, fs, r.pos - old(r.pos), r.Remaining(), end - r.pos);
    return Success(x);
  }

  method SampleFieldAfterTag(r: Reader, x: Sample, fieldNum: nat, wire: nat)
    returns (res: Result<Sample>, ghost f: SampleField)
    requires r.Valid() && r.pos <= |r.buf|
    modifies r
    ensures Agrees(if res.Success? then Success(f) else Failure(res.error), r.pos - old(r.pos),
                   SampleBody(fieldNum, wire, old(r.Remaining())))
    ensures r.Valid() && old(r.varints) <= r.varints
    ensures res.Success? ==> old(r.pos) <= r.pos && res.value == AddToSample(x, f)
  {
    hide Fields, ReadVarint, Wire.SkipField, ReadLabelField, LabelOf;
    f := OtherSample;
    var next := x;
    if fieldNum == 1 {
      if wire == WIRE_LENGTH_DELIMITED {
        var subLen :- r.ReadVarint();
        var ids :- DecodePackedVarints(r, subLen);
        next, f := next.(locationIds := next.locationIds + ids), LocationIds(ids);
      } else if wire == WIRE_VARINT {
        var v :- r.ReadVarint();
        next, f := next.(locationIds := next.locationIds + [v]), LocationIds([v]);
      } else {
        var _ :- r.SkipField(wire);
      }
    } else if fieldNum == 2 {
      if wire == WIRE_LENGTH_DELIMITED {
        var subLen :- r.ReadVarint();
        var vs :- DecodePackedVarints(r, subLen);
        next, f := next.(values := next.values + vs), Values(vs);
      } else if wire == WIRE_VARINT {
        var v :- r.ReadVarint();
        next, f := next.(values := next.values + [v]), Values([v]);
      } else {
        var _ :- r.SkipField(wire);
      }
    } else if fieldNum == 3 && wire == WIRE_LENGTH_DELIMITED {
      var subLen :- r.ReadVarint();
      var lab :- DecodeLabel(r, subLen);
      next, f := next.(labels := next.labels + [lab]), SampleLabel(lab);
    } else {
      var _ :- r.SkipField(wire);
    }
    res := Success(next);
  }

  method SampleTurn(r: Reader, x: Sample) returns (res: Result<Sample>, ghost f: SampleField)
    requires r.Valid()
    modifies r
    ensures Agrees(if res.Success? then Success(f) else Failure(res.error), r.pos - old(r.pos),
                   ReadSampleField(old(r.Remaining())))
    ensures r.Valid() && old(r.varints) <= r.varints
    ensures res.Success? ==> old(r.pos) < r.pos && res.value == AddToSample(x, f)
  {
    hide ReadVarint, SampleBody;
    f := OtherSample;
    var tag :- r.ReadVarint();
    res, f := SampleFieldAfterTag(r, x, FieldNum(tag), WireType(tag));
  }

  lemma AddToSampleIs(fs: seq<SampleField>, f: SampleField)
    ensures SampleOf(fs + [f]) == AddToSample(SampleOf(fs), f)
  {
    assert (fs + [f])[..|fs|] == fs;
  }

  method DecodeSample(r: Reader, len: nat) returns (res: Result<Sample>)
    requires r.Valid()
    modifies r
    ensures Agrees(res, r.pos - old(r.pos), Shaped(SampleOf, Fields(ReadSampleField, old(r.Remaining()), len)))
    ensures r.Valid() && old(r.varints) <= r.varints
    ensures res.Success? ==> old(r.pos) <= r.pos
  {
    hide Fields, Reached, Progress, ReadSampleField, SampleOf;
    ReadersProgress();
    Nothing();
    var end := r.pos + len;
    var x := Sample([], [], []);
    ghost var fs: seq<SampleField> := [];
    ghost var all := Fields(ReadSampleField, r.Remaining(), len);
    LoopStart(ReadSampleField, r.Remaining(), len);
    while r.pos < end
      invariant r.Valid() && old(r.varints) <= r.varints && old(r.pos) <= r.pos && x == SampleOf(fs)
      invariant Reached(ReadSampleField, all, fs, r.pos - old(r.pos), r.Remaining(), end - r.pos)
      decreases end - r.pos
    {
      LoopStep(ReadSampleField, all, fs, r.pos - old(r.pos), r.Remaining(), end - r.pos);
      ghost var before := r.pos;
      var turn, f := SampleTurn(r, x);
      x :- turn;
      RestRest(r.buf, before, r.pos - before);
      AddToSampleIs(fs, f);
      fs := fs + [f];
    }
    LoopEnd(ReadSampleField, all, fs, r.pos - old(r.pos), r.Remaining(), end - r.pos);
    return Success(x);
  }

  method LocationFieldAfterTag(r: Reader, x: Location, fieldNum: nat, wire: nat)
    returns (res: Result<Location>, ghost f: LocationField)
    requires r.Valid() && r.pos <= |r.buf|
    modifies r
    ensures Agrees(if res.Success? then Success(f) else Failure(res.error), r.pos - old(r.pos),
                   LocationBody(fieldNum, wire, old(r.Remaining())))
    ensures r.Valid() && old(r.varints) <= r.varints
    ensures res.Success? ==> old(r.pos) <= r.pos && res.value == AddToLocation(x, f)
  {
    hide Fields, ReadVarint, Wire.SkipField, ReadPairField, LineOf;
    f := OtherLocation;
    var next := x;
    if fieldNum == 1 && wire == WIRE_VARINT {
      var v :- r.ReadVarint();
      next, f := next.(id := v), LocationId(v);
    } else if fieldNum == 4 && wire == WIRE_LENGTH_DELIMITED {
      var subLen :- r.ReadVarint();
      var line :- DecodeLine(r, subLen);
      next := next.(lines := next.lines + [line]);
      next := next.(functionIds := next.functionIds + [line.functionId]);
      f := LocationLine(line);
    } else {
      var _ :- r.SkipField(wire);
    }
    res := Success(next);
  }

  method LocationTurn(r: Reader, x: Location) returns (res: Result<Location>, ghost f: LocationField)
    requires r.Valid()
    modifies r
    ensures Agrees(if res.Success? then Success(f) else Failure(res.error), r.pos - old(r.pos),
                   ReadLocationField(old(r.Remaining())))
    ensures r.Valid() && old(r.varints) <= r.varints
    ensures res.Success? ==> old(r.pos) < r.pos && res.value == AddToLocation(x, f)
  {
    hide ReadVarint, LocationBody;
    f := OtherLocation;
    var tag :- r.ReadVarint();
    res, f := LocationFieldAfterTag(r, x, FieldNum(tag), WireType(tag));
  }

  lemma AddToLocationIs(fs: seq<LocationField>, f: LocationField)
    ensures LocationOf(fs + [f]) == AddToLocation(LocationOf(fs), f)
  {
    assert (fs + [f])[..|fs|] == fs;
  }

  method DecodeLocation(r: Reader, len: nat) returns (res: Result<Location>)
    requires r.Valid()
    modifies r
    ensures Agrees(res, r.pos - old(r.pos), Shaped(LocationOf, Fields(ReadLocationField, old(r.Remaining()), len)))
    ensures r.Valid() && old(r.varints) <= r.varints
    ensures res.Success? ==> old(r.pos) <= r.pos
  {
    hide Fields, Reached, Progress, ReadLocationField, LocationOf;
    ReadersProgress();
    Nothing();
    var end := r.pos + len;
    var x := Location(0, [], []);
    ghost var fs: seq<LocationField> := [];
    ghost var all := Fields(ReadLocationField, r.Remaining(), len);
    LoopStart(ReadLocationField, r.Remaining(), len);
    while r.pos < end
      invariant r.Valid() && old(r.varints) <= r.varints && old(r.pos) <= r.pos && x == LocationOf(fs)
      invariant Reached(ReadLocationField, all, fs, r.pos - old(r.pos), r.Remaining(), end - r.pos)
      decreases end - r.pos
    {
      LoopStep(ReadLocationField, all, fs, r.pos - old(r.pos), r.Remaining(), end - r.pos);
      ghost var before := r.pos;
      var turn, f := LocationTurn(r, x);
      x :- turn;
      RestRest(r.buf, before, r.pos - before);
      AddToLocationIs(fs, f);
      fs := fs + [f];
    }
    LoopEnd(ReadLocationField, all, fs, r.pos - old(r.pos), r.Remaining(), end - r.pos);
    return Success(x);
  }

  lemma AddToProfileIs(fs: seq<ProfileField>, f: ProfileField)
    ensures ProfileOf(fs + [f]) == AddToProfile(ProfileOf(fs), f)
  {
    assert (fs + [f])[..|fs|] == fs;
  }

  method ProfileFieldAfterTag(r: Reader, p: Profile, fieldNum: nat, wire: nat)
    returns (res: Result<Profile>, ghost f: ProfileField)
    requires r.Valid() && r.pos <= |r.buf|
    modifies r
    ensures Agrees(if res.Success? then Success(f) else Failure(res.error), r.pos - old(r.pos),
                   ProfileBody(fieldNum, wire, old(r.Remaining())))
    ensures r.Valid() && old(r.varints) <= r.varints
    ensures res.Success? ==> old(r.pos) <= r.pos && res.value == AddToProfile(p, f)
  {
    hide Fields, ReadVarint, Wire.SkipField, ReadPairField, ReadSampleField, ReadLocationField, ReadFunctionField,
      Rest, SampleOf, LocationOf, FunctionOf, ValueTypeOf, Set;
    f := OtherEntry;
    var next := p;
    if fieldNum == 1 && wire == WIRE_LENGTH_DELIMITED {
      var len :- r.ReadVarint();
      var vt :- DecodeValueType(r, len);
      next, f := next.(sampleTypes := next.sampleTypes + [vt]), SampleTypeEntry(vt);
    } else if fieldNum == 2 && wire == WIRE_LENGTH_DELIMITED {
      var len :- r.ReadVarint();
      var sample :- DecodeSample(r, len);
      next, f := next.(samples := next.samples + [sample]), SampleEntry(sample);
    } else if fieldNum == 4 && wire == WIRE_LENGTH_DELIMITED {
      var len :- r.ReadVarint();
      var loc :- DecodeLocation(r, len);
      next, f := next.(locations := Set(next.locations, loc.id, loc)), LocationEntry(loc);
    } else if fieldNum == 5 && wire == WIRE_LENGTH_DELIMITED {
      var len :- r.ReadVarint();
      var fn :- DecodeFunction(r, len);
      next, f := next.(functions := Set(next.functions, fn.id, fn)), FunctionEntry(fn);
    } else if fieldNum == 6 && wire == WIRE_LENGTH_DELIMITED {
      var len :- r.ReadVarint();
      var str :- r.ReadBytes(len);
      next, f := next.(stringTable := next.stringTable + [str]), StringEntry(str);
    } else {
      var _ :- r.SkipField(wire);
    }
    res := Success(next);
  }

  method ProfileTurn(r: Reader, p: Profile) returns (res: Result<Profile>, ghost f: ProfileField)
    requires r.Valid()
    modifies r
    ensures Agrees(if res.Success? then Success(f) else Failure(res.error), r.pos - old(r.pos),
                   ReadProfileField(old(r.Remaining())))
    ensures r.Valid() && old(r.varints) <= r.varints
    ensures res.Success? ==> old(r.pos) < r.pos && res.value == AddToProfile(p, f)
  {
    hide ReadVarint, ProfileBody;
    f := OtherEntry;
    var tag :- r.ReadVarint();
    res, f := ProfileFieldAfterTag(r, p, FieldNum(tag), WireType(tag));
  }

  /** The loop of `decodePprof`: stops on every input, having read no more varints than there are bytes,
      whether it returns or throws. */
  method DecodeProfile(r: Reader) returns (res: Result<Profile>)
    requires r.Valid() && r.pos == 0
    modifies r
    ensures Agrees(res, r.pos, Decode(r.buf))
    ensures old(r.varints) <= r.varints <= |r.buf|
  {
    hide Fields, Reached, Progress, ReadProfileField, ProfileOf, AddToProfile, Rest;
    ReadersProgress();
    Nothing();
    var p := EMPTY;
    ghost var raw, fs: seq<ProfileField> := r.buf, [];
    ghost var all := Fields(ReadProfileField, raw, |raw|);
    LoopStart(ReadProfileField, raw, |raw|);
    RestTail(raw, 0);
    while !r.Eof()
      invariant r.Valid() && old(r.varints) <= r.varints && p == ProfileOf(fs)
      invariant Reached(ReadProfileField, all, fs, r.pos, r.Remaining(), |raw| - r.pos)
      decreases |raw| - r.pos
    {
      LoopStep(ReadProfileField, all, fs, r.pos, r.Remaining(), |raw| - r.pos);
      ghost var before := r.pos;
      var turn, f := ProfileTurn(r, p);
      p :- turn;
      RestRest(r.buf, before, r.pos - before);
      AddToProfileIs(fs, f);
      fs := fs + [f];
    }
    LoopEnd(ReadProfileField, all, fs, r.pos, r.Remaining(), |raw| - r.pos);
    return Success(p);
  }

  method DecodePprof(raw: seq<byte>) returns (res: Result<Profile>)
    ensures match Decode(raw)
            case Ok(p, _) => res == Success(p)
            case Err(e) => res == Failure(e)
  {
    hide Decode;
    var r := new Reader(raw);
    res := DecodeProfile(r);
  }
}
