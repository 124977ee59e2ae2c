/** The older zlogtest capture buffer (tester.go): bytes only, decoded as a
    stream of JSON values, where a decode error other than end of input
    panics. */
module ZLogTester {
  import opened Values
  import ZLogEntry

  type Entry = ZLogEntry.Entry

  /** One call of the stream decoder's Decode on the unread input: end of
      input (io.EOF: nothing but white space is left), one value and the
      input after it, or any other decode error. */
  datatype Step = EndOfInput | Value(m: Fields, rest: seq<byte>) | DecodeError(msg: string)

  /** What the model needs of `json.Decoder`: it finds no value in empty
      input, and every value it decodes consumes input. */
  ghost predicate IsStreamDecoder(next: seq<byte> -> Step)
  {
    next([]).EndOfInput?
    && forall s :: next(s).Value? ==> |next(s).rest| < |s|
  }

  /** A call that returns its value or panics with an error text. */
  datatype Run<T> = Returned(value: T) | Panicked(msg: string)

  function PrependRun(ets: seq<Entry>, r: Run<seq<Entry>>): Run<seq<Entry>>
  {
    match r
    case Returned(es) => Returned(ets + es)
    case Panicked(msg) => Panicked(msg)
  }

  lemma PrependRunNothing(r: Run<seq<Entry>>)
    ensures PrependRun([], r) == r
  {
    if r.Returned? {
      assert [] + r.value == r.value;
    }
  }

  lemma PrependRunTwice(a: seq<Entry>, b: seq<Entry>, r: Run<seq<Entry>>)
    ensures PrependRun(a, PrependRun(b, r)) == PrependRun(a + b, r)
  {
    if r.Returned? {
      assert a + (b + r.value) == (a + b) + r.value;
    }
  }

  /** The decode pass: values in stream order until end of input; the first
      decode error panics and nothing is returned. */
  function DecodeStream(next: seq<byte> -> Step, input: seq<byte>): Run<seq<Entry>>
    requires IsStreamDecoder(next)
    decreases |input|
  {
    match next(input)
    case EndOfInput => Returned([])
    case DecodeError(msg) => Panicked(msg)
    case Value(m, rest) => PrependRun([ZLogEntry.Entry(m)], DecodeStream(next, rest))
  }

  /** `w` holds exactly one JSON value, `m`, whatever follows it. */
  ghost predicate DecodesAs(next: seq<byte> -> Step, w: seq<byte>, m: Fields)
  {
    forall rest :: next(w + rest) == Value(m, rest)
  }

  /** One entry per decoded value, in order. */
  function EntriesOf(ms: seq<Fields>): (ets: seq<Entry>)
    ensures |ets| == |ms|
    ensures forall i :: 0 <= i < |ms| ==> ets[i] == ZLogEntry.Entry(ms[i])
  {
    if ms == [] then [] else [ZLogEntry.Entry(ms[0])] + EntriesOf(ms[1..])
  }

  /** A decoded value contributes its entry ahead of the rest of the pass. */
  lemma DecodeStreamValue(next: seq<byte> -> Step, input: seq<byte>, m: Fields, after: seq<byte>)
    requires IsStreamDecoder(next)
    requires next(input) == Value(m, after)
    ensures DecodeStream(next, input) == PrependRun([ZLogEntry.Entry(m)], DecodeStream(next, after))
  {
  }

  /** Writes that each hold one value decode to one entry per write, in write
      order, and the pass then goes on with whatever follows them. */
  lemma {:induction false} StreamOfWrites(next: seq<byte> -> Step, ws: seq<seq<byte>>, ms: seq<Fields>,
                                          rest: seq<byte>)
    requires IsStreamDecoder(next)
    requires |ws| == |ms|
    requires forall i :: 0 <= i < |ws| ==> DecodesAs(next, ws[i], ms[i])
    ensures DecodeStream(next, Flatten(ws) + rest) == PrependRun(EntriesOf(ms), DecodeStream(next, rest))
    decreases |ws|
  {
    if ws == [] {
      assert Flatten(ws) + rest == rest;
      PrependRunNothing(DecodeStream(next, rest));
    } else {
      var w, tail := ws[0], ws[1..];
      var after := Flatten(tail) + rest;
      assert ws == [w] + tail;
      FlattenCons(w, tail);
      assert Flatten(ws) + rest == w + after;
      assert DecodesAs(next, w, ms[0]);
      DecodeStreamValue(next, w + after, ms[0], after);
      StreamOfWrites(next, tail, ms[1..], rest);
      PrependRunTwice([ZLogEntry.Entry(ms[0])], EntriesOf(ms[1..]), DecodeStream(next, rest));
    }
  }

  /** Writes that each hold one value, and nothing else, decode to exactly
      those values; a decode error after them panics with that error. */
  lemma WritesDecode(next: seq<byte> -> Step, ws: seq<seq<byte>>, ms: seq<Fields>, bad: seq<byte>)
    requires IsStreamDecoder(next)
    requires |ws| == |ms|
    requires forall i :: 0 <= i < |ws| ==> DecodesAs(next, ws[i], ms[i])
    ensures DecodeStream(next, Flatten(ws)) == Returned(EntriesOf(ms))
    ensures next(bad).DecodeError? ==> DecodeStream(next, Flatten(ws) + bad) == Panicked(next(bad).msg)
  {
    StreamOfWrites(next, ws, ms, []);
    assert Flatten(ws) + [] == Flatten(ws);
    assert EntriesOf(ms) + [] == EntriesOf(ms);
    StreamOfWrites(next, ws, ms, bad);
  }

  /** The zlogtest Tester. `Writes` is the sequence of writes since creation;
      the JSON stream decoder is the constant `next`. */
  class Tester {
    var buf: seq<byte>
    ghost var Writes: seq<seq<byte>>
    const next: seq<byte> -> Step

    ghost predicate Valid()
      reads this
    {
      buf == Flatten(Writes) && IsStreamDecoder(next)
    }

    /** New(tb): an empty tester. */
    constructor (next: seq<byte> -> Step)
      requires IsStreamDecoder(next)
      ensures Valid()
      ensures Writes == [] && buf == [] && this.next == next
    {
      buf := [];
      Writes := [];
      this.next := next;
    }

    /** Appends `p`, leaving the earlier bytes as they were. */
    method Write(p: seq<byte>) returns (n: int, err: Option<string>)
      requires Valid()
      modifies this
      ensures Valid()
      ensures Writes == old(Writes) + [p]
      ensures buf == old(buf) + p && buf[..|old(buf)|] == old(buf)
      ensures n == |p| && err == None
    {
      buf := buf + p;
      Writes := Writes + [p];
      assert Writes[..|Writes| - 1] == old(Writes);
      n, err := |p|, None;
    }

    /** Everything written, in order. */
    function String(): (s: string)
      reads this
      requires Valid()
      ensures s == ToText(Flatten(Writes))
    {
      ToText(buf)
    }

    /** Decodes values from the start of the buffer until end of input. */
    method Entries() returns (r: Run<seq<Entry>>)
      requires Valid()
      ensures r == DecodeStream(next, buf)
      ensures buf == [] ==> r == Returned([])
    {
      var ets: seq<Entry> := [];
      var rest := buf;
      PrependRunNothing(DecodeStream(next, buf));
      while true
        invariant DecodeStream(next, buf) == PrependRun(ets, DecodeStream(next, rest))
        decreases |rest|
      {
        match next(rest)
        case EndOfInput =>
          assert ets + [] == ets;
          return Returned(ets);
        case DecodeError(msg) =>
          return Panicked(msg);
        case Value(m, after) =>
          PrependRunTwice(ets, [ZLogEntry.Entry(m)], DecodeStream(next, after));
          ets := ets + [ZLogEntry.Entry(m)];
          rest := after;
      }
    }

    /** The first entry, or None (Go's nil) when there is none. */
    method FirstEntry() returns (r: Run<Option<Entry>>)
      requires Valid()
      ensures r.Panicked? <==> DecodeStream(next, buf).Panicked?
      ensures r.Panicked? ==> r.msg == DecodeStream(next, buf).msg
      ensures r.Returned? ==> (r.value.None? <==> DecodeStream(next, buf).value == [])
      ensures r.Returned? && r.value.Some? ==> r.value.value == DecodeStream(next, buf).value[0]
    {
      var all := Entries();
      if all.Panicked? {
        return Panicked(all.msg);
      }
      var ets := all.value;
      if |ets| == 0 {
        return Returned(None);
      }
      return Returned(Some(ets[0]));
    }

    /** The last entry, or None (Go's nil) when there is none. */
    method LastEntry() returns (r: Run<Option<Entry>>)
      requires Valid()
      ensures r.Panicked? <==> DecodeStream(next, buf).Panicked?
      ensures r.Panicked? ==> r.msg == DecodeStream(next, buf).msg
      ensures r.Returned? ==> (r.value.None? <==> DecodeStream(next, buf).value == [])
      ensures r.Returned? && r.value.Some? ==>
                r.value.value == DecodeStream(next, buf).value[|DecodeStream(next, buf).value| - 1]
    {
      var all := Entries();
      if all.Panicked? {
        return Panicked(all.msg);
      }
      var ets := all.value;
      if |ets| == 0 {
        return Returned(None);
      }
      return Returned(Some(ets[|ets| - 1]));
    }
  }
}
