/** The zltest capture buffer (zltest.go): an append-only byte buffer with a
    counter of Write calls, decoded on every query into newline-delimited
    entries, with level filtering and first/last access. */
module ZLTest {
  import opened Values
  import opened Reporter
  import ZLogEntry
  import ZLEntries

  type Entry = ZLEntries.Entry

  /** The outcome of a query that may call `Fatal`: its value, or the fatal
      report after which `testing.T` stops the test. */
  datatype Outcome<T> = Done(value: T) | Stopped(report: Event)

  /** bufio.ScanLines drops one carriage return ending a line. */
  function DropCR(line: seq<byte>): (r: seq<byte>)
    ensures |line| > 0 && line[|line| - 1] == CarriageReturn ==> r == line[..|line| - 1]
    ensures !(|line| > 0 && line[|line| - 1] == CarriageReturn) ==> r == line
  {
    if |line| > 0 && line[|line| - 1] == CarriageReturn then line[..|line| - 1] else line
  }

  /** The position of the first `x` in `s`, or `|s|` when there is none. */
  function IndexOf(s: seq<byte>, x: byte): (k: nat)
    ensures k <= |s|
  {
    if s == [] then 0 else if s[0] == x then 0 else 1 + IndexOf(s[1..], x)
  }

  /** IndexOf finds the first `x`. */
  lemma {:induction false} IndexOfFirst(s: seq<byte>, x: byte, k: nat)
    requires k < |s| && s[k] == x
    requires forall j :: 0 <= j < k ==> s[j] != x
    ensures IndexOf(s, x) == k
    decreases k
  {
    if k > 0 {
      IndexOfFirst(s[1..], x, k - 1);
    }
  }

  /** IndexOf gives the length when there is no `x`. */
  lemma {:induction false} IndexOfNone(s: seq<byte>, x: byte)
    requires forall j :: 0 <= j < |s| ==> s[j] != x
    ensures IndexOf(s, x) == |s|
    decreases |s|
  {
    if s != [] {
      IndexOfNone(s[1..], x);
    }
  }

  /** One Scan of a bufio.Scanner with ScanLines on unread input: the line up
      to the first newline, without it and without a carriage return ending
      it, and the input after the newline; without a newline the whole input
      is the last line. */
  function NextLine(buf: seq<byte>): (r: (seq<byte>, seq<byte>))
    requires |buf| > 0
    ensures |r.1| < |buf|
  {
    var k := IndexOf(buf, NewLine);
    if k < |buf| then (DropCR(buf[..k]), buf[k + 1..]) else (DropCR(buf), [])
  }

  /** The lines the scanner yields, in order, until the input is used up. */
  function Lines(buf: seq<byte>): seq<seq<byte>>
    decreases |buf|
  {
    if buf == [] then []
    else
      var (line, rest) := NextLine(buf);
      [line] + Lines(rest)
  }

  /** A buffer whose first newline is at `k` yields the text before it as its
      first line, and scanning goes on after the newline. */
  lemma LinesAtNewLine(s: seq<byte>, k: nat)
    requires k < |s| && s[k] == NewLine
    requires forall j :: 0 <= j < k ==> s[j] != NewLine
    ensures Lines(s) == [DropCR(s[..k])] + Lines(s[k + 1..])
  {
    IndexOfFirst(s, NewLine, k);
  }

  /** A non-empty buffer without a newline is one line. */
  lemma LinesNoNewLine(s: seq<byte>)
    requires |s| > 0
    requires forall j :: 0 <= j < |s| ==> s[j] != NewLine
    ensures Lines(s) == [DropCR(s)]
  {
    IndexOfNone(s, NewLine);
  }

  /** The entries produced before the rest of the pass. */
  function Prepend(ets: seq<Entry>, o: Outcome<seq<Entry>>): Outcome<seq<Entry>>
  {
    match o
    case Done(es) => Done(ets + es)
    case Stopped(rep) => Stopped(rep)
  }

  /** The decode pass over the lines, in order: the first line the JSON
      decoder rejects stops the pass with `Fatal(err)`. */
  function DecodeLines(unmarshal: seq<byte> -> Result<Fields>, lines: seq<seq<byte>>): Outcome<seq<Entry>>
  {
    if lines == [] then Done([])
    else
      match unmarshal(lines[0])
      case Err(msg) => Stopped(Fatal(msg))
      case Ok(m) => Prepend([ZLEntries.Entry(ToText(lines[0]), m)], DecodeLines(unmarshal, lines[1..]))
  }

  lemma PrependNothing(o: Outcome<seq<Entry>>)
    ensures Prepend([], o) == o
  {
    if o.Done? {
      assert [] + o.value == o.value;
    }
  }

  lemma PrependTwice(a: seq<Entry>, b: seq<Entry>, o: Outcome<seq<Entry>>)
    ensures Prepend(a, Prepend(b, o)) == Prepend(a + b, o)
  {
    if o.Done? {
      assert a + (b + o.value) == (a + b) + o.value;
    }
  }

  function AsEntries(o: Outcome<seq<Entry>>): Outcome<ZLEntries.Entries>
  {
    match o
    case Done(es) => Done(ZLEntries.Entries(es))
    case Stopped(rep) => Stopped(rep)
  }

  /** A first line that decodes contributes its entry ahead of the rest. */
  lemma DecodeConsOk(unmarshal: seq<byte> -> Result<Fields>, line: seq<byte>, rest: seq<seq<byte>>, m: Fields)
    requires unmarshal(line) == Ok(m)
    ensures DecodeLines(unmarshal, [line] + rest) == Prepend([ZLEntries.Entry(ToText(line), m)], DecodeLines(unmarshal, rest))
  {
    assert ([line] + rest)[0] == line && ([line] + rest)[1..] == rest;
  }

  /** A first line that does not decode stops the pass with its error. */
  lemma DecodeConsErr(unmarshal: seq<byte> -> Result<Fields>, line: seq<byte>, rest: seq<seq<byte>>)
    requires unmarshal(line).Err?
    ensures DecodeLines(unmarshal, [line] + rest) == Stopped(Fatal(unmarshal(line).msg))
  {
    assert ([line] + rest)[0] == line;
  }

  /** When every line decodes, there is one entry per line, in line order,
      holding the line's text and decoded fields. */
  lemma {:induction false} DecodeAllLines(unmarshal: seq<byte> -> Result<Fields>, lines: seq<seq<byte>>)
    requires forall i :: 0 <= i < |lines| ==> unmarshal(lines[i]).Ok?
    ensures DecodeLines(unmarshal, lines).Done?
    ensures |DecodeLines(unmarshal, lines).value| == |lines|
    ensures forall i :: 0 <= i < |lines| ==>
              DecodeLines(unmarshal, lines).value[i] == ZLEntries.Entry(ToText(lines[i]), unmarshal(lines[i]).value)
    decreases |lines|
  {
    if lines != [] {
      DecodeAllLines(unmarshal, lines[1..]);
      var rest := DecodeLines(unmarshal, lines[1..]).value;
      var whole := DecodeLines(unmarshal, lines).value;
      assert whole == [ZLEntries.Entry(ToText(lines[0]), unmarshal(lines[0]).value)] + rest;
      forall i | 0 < i < |lines|
        ensures whole[i] == ZLEntries.Entry(ToText(lines[i]), unmarshal(lines[i]).value)
      {
        assert whole[i] == rest[i - 1];
        assert lines[1..][i - 1] == lines[i];
      }
    }
  }

  /** A line that does not decode, after lines that do, stops the pass with
      that line's error: no partial result is returned. */
  lemma {:induction false} DecodeStopsAtFirstFailure(unmarshal: seq<byte> -> Result<Fields>,
                                                    lines: seq<seq<byte>>, k: nat)
    requires k < |lines| && unmarshal(lines[k]).Err?
    requires forall i :: 0 <= i < k ==> unmarshal(lines[i]).Ok?
    ensures DecodeLines(unmarshal, lines) == Stopped(Fatal(unmarshal(lines[k]).msg))
    decreases k
  {
    if k > 0 {
      assert lines[1..][k - 1] == lines[k];
      DecodeStopsAtFirstFailure(unmarshal, lines[1..], k - 1);
    }
  }

  /** A write as zerolog makes it: one line of text, not ending in a
      carriage return, followed by a newline. */
  predicate IsLogLine(w: seq<byte>)
  {
    |w| > 0 && w[|w| - 1] == NewLine
    && (forall j :: 0 <= j < |w| - 1 ==> w[j] != NewLine)
    && !(|w| >= 2 && w[|w| - 2] == CarriageReturn)
  }

  /** A write without its final newline. */
  function Body(w: seq<byte>): seq<byte>
  {
    if |w| > 0 then w[..|w| - 1] else w
  }

  /** A log line followed by more text is read back as its body first. */
  lemma LinesOfLogLine(w: seq<byte>, rest: seq<byte>)
    requires IsLogLine(w)
    ensures Lines(w + rest) == [Body(w)] + Lines(rest)
  {
    var k := |w| - 1;
    var s := w + rest;
    forall j | 0 <= j < k ensures s[j] != NewLine {
      assert s[j] == w[j];
    }
    assert s[k] == NewLine;
    LinesAtNewLine(s, k);
    assert s[..k] == Body(w);
    assert DropCR(Body(w)) == Body(w);
    assert s[k + 1..] == rest;
  }

  /** The bodies of the writes, in order. */
  function Bodies(ws: seq<seq<byte>>): (bs: seq<seq<byte>>)
    ensures |bs| == |ws|
    ensures forall i :: 0 <= i < |ws| ==> bs[i] == Body(ws[i])
  {
    if ws == [] then [] else [Body(ws[0])] + Bodies(ws[1..])
  }

  /** Writes of whole log lines come back as one line per write, in write
      order, each without its newline. */
  lemma {:induction false} LinesOfWrites(ws: seq<seq<byte>>)
    requires forall i :: 0 <= i < |ws| ==> IsLogLine(ws[i])
    ensures Lines(Flatten(ws)) == Bodies(ws)
    decreases |ws|
  {
    if ws != [] {
      var w, tail := ws[0], ws[1..];
      var rest := Flatten(tail);
      assert ws == [w] + tail;
      FlattenCons(w, tail);
      LinesOfLogLine(w, rest);
      LinesOfWrites(tail);
    }
  }

  /** Whether the entry's level field, read as a string (or "" when it is
      not one), is `level`. */
  predicate Keeps(x: Entry, levelField: string, level: string)
  {
    x.Record().Str(levelField).0 == level
  }

  /** An entry is kept when its level field is the string `level`, and also,
      when `level` is "", when it has no string level field at all. */
  lemma KeepsLevel(x: Entry, levelField: string, level: string)
    ensures Keeps(x, levelField, level) <==>
              (levelField in x.m && x.m[levelField] == JStr(level))
              || (level == "" && !(levelField in x.m && x.m[levelField].JStr?))
  {
  }

  /** The entries whose level is `level`, in their original order. */
  function FilterLevel(s: seq<Entry>, levelField: string, level: string): seq<Entry>
  {
    if s == [] then []
    else FilterLevel(s[..|s| - 1], levelField, level)
         + (if Keeps(s[|s| - 1], levelField, level) then [s[|s| - 1]] else [])
  }

  /** Filtering a concatenation filters each part and keeps them in order. */
  lemma {:induction false} FilterConcat(a: seq<Entry>, b: seq<Entry>, levelField: string, level: string)
    ensures FilterLevel(a + b, levelField, level) == FilterLevel(a, levelField, level) + FilterLevel(b, levelField, level)
    decreases |b|
  {
    if b == [] {
      assert a + b == a;
    } else {
      assert (a + b)[..|a + b| - 1] == a + b[..|b| - 1];
      FilterConcat(a, b[..|b| - 1], levelField, level);
    }
  }

  /** The filter keeps every entry of the level and nothing else. */
  lemma {:induction false} FilterExactly(s: seq<Entry>, levelField: string, level: string)
    ensures forall x :: x in FilterLevel(s, levelField, level) ==> x in s && Keeps(x, levelField, level)
    ensures forall i :: 0 <= i < |s| && Keeps(s[i], levelField, level) ==> s[i] in FilterLevel(s, levelField, level)
    ensures |FilterLevel(s, levelField, level)| <= |s|
    decreases |s|
  {
    if s != [] {
      var init := s[..|s| - 1];
      FilterExactly(init, levelField, level);
      assert forall i :: 0 <= i < |init| ==> init[i] == s[i];
    }
  }

  /** Filtering twice is filtering once. */
  lemma {:induction false} FilterIdempotent(s: seq<Entry>, levelField: string, level: string)
    ensures FilterLevel(FilterLevel(s, levelField, level), levelField, level) == FilterLevel(s, levelField, level)
    decreases |s|
  {
    if s != [] {
      var init := s[..|s| - 1];
      var last := s[|s| - 1];
      FilterIdempotent(init, levelField, level);
      var kept := if Keeps(last, levelField, level) then [last] else [];
      FilterConcat(FilterLevel(init, levelField, level), kept, levelField, level);
      if kept != [] {
        assert FilterLevel(kept, levelField, level) == FilterLevel([], levelField, level) + kept;
      }
    }
  }

  /** The zltest Tester: the buffer zerolog writes to and the number of
      Write calls. `Writes` is the sequence of writes since creation or the
      last Reset; the JSON decoder is the constant `unmarshal`. */
  class Tester {
    var buf: seq<byte>
    var cnt: nat
    ghost var Writes: seq<seq<byte>>
    const config: ZLogEntry.Config
    const unmarshal: seq<byte> -> Result<Fields>

    ghost predicate Valid()
      reads this
    {
      cnt == |Writes| && buf == Flatten(Writes)
    }

    /** New(t): an empty tester. */
    constructor (config: ZLogEntry.Config, unmarshal: seq<byte> -> Result<Fields>)
      ensures Valid()
      ensures Writes == [] && buf == [] && cnt == 0
      ensures this.unmarshal == unmarshal && this.config.levelField == config.levelField
    {
      buf := [];
      cnt := 0;
      Writes := [];
      this.config := config;
      this.unmarshal := unmarshal;
    }

    /** Appends `p` and counts one write, whatever its length. */
    method Write(p: seq<byte>) returns (n: int, err: Option<string>)
      requires Valid()
      modifies this
      ensures Valid()
      ensures Writes == old(Writes) + [p]
      ensures buf == old(buf) + p && cnt == old(cnt) + 1
      ensures n == |p| && err == None
    {
      cnt := cnt + 1;
      buf := buf + p;
      Writes := Writes + [p];
      assert Writes[..|Writes| - 1] == old(Writes);
      n, err := |p|, None;
    }

    /** The number of Write calls since creation or the last Reset. */
    function Len(): (n: int)
      reads this
      requires Valid()
      ensures n == |Writes|
    {
      cnt
    }

    /** Everything written since creation or the last Reset, in order. */
    function String(): (s: string)
      reads this
      requires Valid()
      ensures s == ToText(Flatten(Writes))
    {
      ToText(buf)
    }

    /** What a decode pass over the current buffer yields. */
    function Decoded(): Outcome<seq<Entry>>
      reads this
    {
      DecodeLines(unmarshal, Lines(buf))
    }

    /** Decodes the buffer line by line. */
    method Entries() returns (r: Outcome<ZLEntries.Entries>)
      ensures r == AsEntries(DecodeLines(unmarshal, Lines(buf)))
    {
      ghost var whole := DecodeLines(unmarshal, Lines(buf));
      var ets: seq<Entry> := [];
      var rest := buf;
      PrependNothing(whole);
      while rest != []
        invariant whole == Prepend(ets, DecodeLines(unmarshal, Lines(rest)))
        decreases |rest|
      {
        var (line, after) := NextLine(rest);
        assert Lines(rest) == [line] + Lines(after);
        match unmarshal(line)
        case Err(msg) =>
          DecodeConsErr(unmarshal, line, Lines(after));
          return Stopped(Fatal(msg));
        case Ok(m) =>
          var x := ZLEntries.Entry(ToText(line), m);
          DecodeConsOk(unmarshal, line, Lines(after), m);
          PrependTwice(ets, [x], DecodeLines(unmarshal, Lines(after)));
          ets := ets + [x];
          rest := after;
      }
      assert ets + [] == ets;
      return Done(ZLEntries.Entries(ets));
    }

    /** The entries whose level field is `level` (the level's string form). */
    method Filter(level: string) returns (r: Outcome<ZLEntries.Entries>)
      ensures r.Stopped? <==> Decoded().Stopped?
      ensures r.Stopped? ==> r.report == Decoded().report
      ensures r.Done? ==> r.value.e == FilterLevel(Decoded().value, config.levelField, level)
    {
      var all := Entries();
      if all.Stopped? {
        return Stopped(all.report);
      }
      var src := all.value.e;
      var ets: seq<Entry> := [];
      for i := 0 to |src|
        invariant ets == FilterLevel(src[..i], config.levelField, level)
      {
        assert src[..i + 1][..i] == src[..i];
        var (lvl, _) := src[i].Record().Str(config.levelField);
        if lvl == level {
          ets := ets + [src[i]];
        }
      }
      assert src[..|src|] == src;
      return Done(ZLEntries.Entries(ets));
    }

    /** The first entry, or None when nothing decodes. */
    method FirstEntry() returns (r: Outcome<Option<Entry>>)
      ensures r.Stopped? <==> Decoded().Stopped?
      ensures r.Stopped? ==> r.report == Decoded().report
      ensures r.Done? ==> (r.value.None? <==> Decoded().value == [])
      ensures r.Done? && r.value.Some? ==> r.value.value == Decoded().value[0]
    {
      var all := Entries();
      if all.Stopped? {
        return Stopped(all.report);
      }
      var ets := all.value.Get();
      if |ets| == 0 {
        return Done(None);
      }
      return Done(Some(ets[0]));
    }

    /** The last entry, or None when nothing decodes. */
    method LastEntry() returns (r: Outcome<Option<Entry>>)
      ensures r.Stopped? <==> Decoded().Stopped?
      ensures r.Stopped? ==> r.report == Decoded().report
      ensures r.Done? ==> (r.value.None? <==> Decoded().value == [])
      ensures r.Done? && r.value.Some? ==> r.value.value == Decoded().value[|Decoded().value| - 1]
    {
      var all := Entries();
      if all.Stopped? {
        return Stopped(all.report);
      }
      var ets := all.value.Get();
      if |ets| == 0 {
        return Done(None);
      }
      return Done(Some(ets[|ets| - 1]));
    }

    /** Forgets every write: the counter is 0 and nothing decodes. */
    method Reset()
      modifies this
      ensures Valid()
      ensures Writes == [] && buf == [] && cnt == 0
      ensures Decoded() == Done([])
    {
      cnt := 0;
      buf := [];
      Writes := [];
    }
  }

  /** After N log lines are written and each decodes, the counter is N and
      the decode pass yields N entries, the i-th holding the i-th write's
      line. */
  lemma WritesDecodeInOrder(t: Tester)
    requires t.Valid()
    requires forall i :: 0 <= i < |t.Writes| ==> IsLogLine(t.Writes[i])
    requires forall i :: 0 <= i < |t.Writes| ==> t.unmarshal(Body(t.Writes[i])).Ok?
    ensures t.Decoded().Done? && |t.Decoded().value| == t.cnt
    ensures forall i :: 0 <= i < t.cnt ==>
              t.Decoded().value[i].raw == ToText(Body(t.Writes[i]))
              && t.Decoded().value[i].m == t.unmarshal(Body(t.Writes[i])).value
  {
    LinesOfWrites(t.Writes);
    var lines := Lines(t.buf);
    assert forall i :: 0 <= i < |lines| ==> lines[i] == Body(t.Writes[i]);
    DecodeAllLines(t.unmarshal, lines);
  }

  /** A test as zltest's own tests write them: two writes, then Len and
      String. */
  method TwoWrites(config: ZLogEntry.Config, unmarshal: seq<byte> -> Result<Fields>, a: seq<byte>, b: seq<byte>)
  {
    var t := new Tester(config, unmarshal);
    var _, _ := t.Write(a);
    var _, _ := t.Write(b);
    assert t.Len() == 2;
    assert t.Writes == [a, b];
    assert Flatten([a, b]) == a + b by {
      assert [a, b][..1] == [a];
      assert Flatten([a]) == Flatten([]) + a;
    }
    assert t.String() == ToText(a + b);
  }

  /** Two log lines decode to two entries, the last being the second write;
      after a Reset nothing is left. */
  method DecodeThenReset(t: Tester, a: seq<byte>, b: seq<byte>)
    requires t.Valid() && t.Writes == [a, b]
    requires IsLogLine(a) && IsLogLine(b)
    requires t.unmarshal(Body(a)).Ok? && t.unmarshal(Body(b)).Ok?
    modifies t
  {
    WritesDecodeInOrder(t);
    var r := t.Entries();
    assert r.Done? && |r.value.e| == 2 && r.value.e[1].raw == ToText(Body(b));
    var last := t.LastEntry();
    assert last == Done(Some(r.value.e[1]));
    t.Reset();
    assert t.Len() == 0;
    r := t.Entries();
    assert r == Done(ZLEntries.Entries([]));
  }
}
