/** The collection of zltest log entries one decode pass produces
    (entries.go): indexed access, a length check, the existential and the
    negated check over all entries, their typed wrappers and a debug dump. */
module ZLEntries {
  import opened Values
  import opened Reporter
  import ZLogEntry

  const NoMatchingEntry := "no matching log entry found"
  const MatchingEntry := "matching log entry found"
  const PrintBanner := "entries logged so far:"
  const MissingEntryFormat := "expected " + ['%', 'd'] + ['%', 's'] + " logged entry to exist"
  const LenFormat := "expected " + ['%', 'd'] + " entries got " + ['%', 'd']

  /** Stand-in format for a failed substring check. */
  const ContainsFormat := "expected entry key '" + ['%', 's'] + "' to contain '" + ['%', 's']
                          + "' but got '" + ['%', 's'] + "'"

  /** `p` starts `s`. */
  predicate IsPrefix(p: string, s: string) { |p| <= |s| && s[..|p|] == p }

  /** strings.Contains: `sub` occurs somewhere in `s`. */
  predicate Contains(s: string, sub: string)
    decreases |s|
  {
    IsPrefix(sub, s) || (|s| > 0 && Contains(s[1..], sub))
  }

  /** `sub` occurs in `s` starting at offset `i`. */
  predicate OccursAt(s: string, sub: string, i: int)
  {
    0 <= i <= |s| - |sub| && s[i..i + |sub|] == sub
  }

  /** Where Contains holds, `sub` occurs at some offset. */
  lemma {:induction false} ContainsOffset(s: string, sub: string) returns (i: int)
    requires Contains(s, sub)
    ensures OccursAt(s, sub, i)
    decreases |s|
  {
    if IsPrefix(sub, s) {
      i := 0;
    } else {
      var j := ContainsOffset(s[1..], sub);
      assert s[1..][j..j + |sub|] == s[j + 1..j + 1 + |sub|];
      i := j + 1;
    }
  }

  /** Wherever `sub` occurs, Contains holds. */
  lemma {:induction false} OffsetContains(s: string, sub: string, i: int)
    requires OccursAt(s, sub, i)
    ensures Contains(s, sub)
    decreases i
  {
    if i > 0 {
      assert s[1..][i - 1..i - 1 + |sub|] == s[i..i + |sub|];
      OffsetContains(s[1..], sub, i - 1);
    }
  }

  /** Contains finds exactly the substrings at some offset. */
  lemma ContainsAt(s: string, sub: string)
    ensures Contains(s, sub) <==> exists i :: OccursAt(s, sub, i)
  {
    if Contains(s, sub) {
      var i := ContainsOffset(s, sub);
    }
    if exists i :: OccursAt(s, sub, i) {
      var i :| OccursAt(s, sub, i);
      OffsetContains(s, sub, i);
    }
  }

  /** The English ordinal suffix entries.go prints after a number: only
      exactly 1, 2 and 3 get their own suffix. */
  function Ordinal(n: int): (s: string)
    ensures (s == "st") <==> n == 1
    ensures (s == "nd") <==> n == 2
    ensures (s == "rd") <==> n == 3
    ensures (s == "th") <==> !(1 <= n <= 3)
  {
    match n
    case 1 => "st"
    case 2 => "nd"
    case 3 => "rd"
    case _ => "th"
  }

  /** A zltest log entry: the line as written and its decoded fields. */
  datatype Entry = Entry(raw: string, m: Fields)
  {
    /** The same fields seen through the typed accessors of entry.go. */
    function Record(): ZLogEntry.Entry { ZLogEntry.Entry(m) }

    // Each check below returns "" when the entry matches and otherwise the
    // message of the failure the corresponding entry.go assertion reports.

    /** `key` holds the string `exp`. */
    function CheckStr(key: string, exp: string): (msg: string)
      ensures msg == "" <==> key in m && m[key] == JStr(exp)
    {
      ZLogEntry.ExpStrMessage(Record(), key, exp);
      Message(Record().ExpStr(key, exp))
    }

    /** `key` holds a string containing `sub`. */
    function CheckStrContains(key: string, sub: string): (msg: string)
      ensures msg == "" <==> key in m && m[key].JStr? && Contains(m[key].s, sub)
    {
      var (got, status) := Record().Str(key);
      if status == ZLogEntry.KeyFound then
        if Contains(got, sub) then ""
        else
          SprintfThree("expected entry key '", 's', "' to contain '", 's', "' but got '", 's', "'",
                       AStr(key), AStr(sub), AStr(got));
          Sprintf(ContainsFormat, [AStr(key), AStr(sub), AStr(got)])
      else ZLogEntry.FormatError(status, key, "string")
    }

    /** `key` holds a timestamp that parses to the instant `exp`. */
    function CheckTime(key: string, exp: int, c: ZLogEntry.Config): (msg: string)
      ensures msg == "" <==> key in m && m[key].JStr? && c.parseTime(m[key].s) == Some(exp)
    {
      ZLogEntry.ExpTimeWithinMessage(Record(), key, exp, 0, c);
      Message(Record().ExpTime(key, exp, c))
    }

    /** `key` holds a number of duration units equal to `exp` nanoseconds. */
    function CheckDur(key: string, exp: int, c: ZLogEntry.Config): (msg: string)
      ensures msg == "" <==> key in m && m[key].JNum? && m[key].n * c.durationUnit == exp
    {
      ZLogEntry.ExpDurMessage(Record(), key, exp, c);
      Message(Record().ExpDur(key, exp, c))
    }

    /** `key` holds the boolean `exp`. */
    function CheckBool(key: string, exp: bool): (msg: string)
      ensures msg == "" <==> key in m && m[key] == JBool(exp)
    {
      ZLogEntry.ExpBoolMessage(Record(), key, exp);
      Message(Record().ExpBool(key, exp))
    }

    /** The message field holds `exp`. */
    function CheckMsg(exp: string, c: ZLogEntry.Config): (msg: string)
      ensures msg == "" <==> c.messageField in m && m[c.messageField] == JStr(exp)
    {
      CheckStr(c.messageField, exp)
    }

    /** The error field holds `exp`. */
    function CheckError(exp: string, c: ZLogEntry.Config): (msg: string)
      ensures msg == "" <==> c.errorField in m && m[c.errorField] == JStr(exp)
    {
      CheckStr(c.errorField, exp)
    }

    /** `key` holds the number `exp`. */
    function CheckNum(key: string, exp: int): (msg: string)
      ensures msg == "" <==> key in m && m[key] == JNum(exp)
    {
      ZLogEntry.ExpNumMessage(Record(), key, exp);
      Message(Record().ExpNum(key, exp))
    }
  }

  // The closures the wrappers of entries.go hand to exp and notExp.
  function StrCheck(key: string, exp: string): Entry -> string { (x: Entry) => x.CheckStr(key, exp) }
  function StrContainsCheck(key: string, sub: string): Entry -> string { (x: Entry) => x.CheckStrContains(key, sub) }
  function TimeCheck(key: string, exp: int, c: ZLogEntry.Config): Entry -> string { (x: Entry) => x.CheckTime(key, exp, c) }
  function DurCheck(key: string, exp: int, c: ZLogEntry.Config): Entry -> string { (x: Entry) => x.CheckDur(key, exp, c) }
  function BoolCheck(key: string, exp: bool): Entry -> string { (x: Entry) => x.CheckBool(key, exp) }
  function MsgCheck(exp: string, c: ZLogEntry.Config): Entry -> string { (x: Entry) => x.CheckMsg(exp, c) }
  function ErrorCheck(exp: string, c: ZLogEntry.Config): Entry -> string { (x: Entry) => x.CheckError(exp, c) }
  function NumCheck(key: string, exp: int): Entry -> string { (x: Entry) => x.CheckNum(key, exp) }

  /** How many entries a check accepts. */
  function Count(s: seq<Entry>, f: Entry -> string): nat
  {
    if s == [] then 0
    else Count(s[..|s| - 1], f) + (if f(s[|s| - 1]) == "" then 1 else 0)
  }

  /** Counting splits over concatenation. */
  lemma {:induction false} CountConcat(a: seq<Entry>, b: seq<Entry>, f: Entry -> string)
    ensures Count(a + b, f) == Count(a, f) + Count(b, f)
    decreases |b|
  {
    if b == [] {
      assert a + b == a;
    } else {
      assert (a + b)[..|a + b| - 1] == a + b[..|b| - 1];
      CountConcat(a, b[..|b| - 1], f);
    }
  }

  /** No entry is counted exactly when the check rejects every entry. */
  lemma {:induction false} CountZero(s: seq<Entry>, f: Entry -> string)
    ensures Count(s, f) == 0 <==> forall i :: 0 <= i < |s| ==> f(s[i]) != ""
    decreases |s|
  {
    if s != [] {
      var init := s[..|s| - 1];
      CountZero(init, f);
      assert forall i :: 0 <= i < |init| ==> init[i] == s[i];
    }
  }

  /** What indexed access produced: the entry, the fatal report made instead
      (the Go method then returns nil), or a runtime index panic. */
  datatype Pick = Picked(entry: Entry) | Reported(report: Event) | IndexPanic(index: int)

  /** The entries of one decode pass, in log order. */
  datatype Entries = Entries(e: seq<Entry>)
  {
    function Get(): seq<Entry> { e }

    /** The `n`th entry, counting from 0. An index past the end is reported
        as a fatal failure naming `n` and its ordinal suffix; a negative
        index makes Go's slice access panic. */
    function ExpEntry(n: int): (r: Pick)
      ensures 0 <= n < |e| <==> r.Picked?
      ensures 0 <= n < |e| ==> r == Picked(e[n])
      ensures n >= |e| ==> r == Reported(Fatalf(MissingEntryFormat, [AInt(n), AStr(Ordinal(n))]))
      ensures n < 0 ==> r == IndexPanic(n)
    {
      if n < |e| then
        if n < 0 then IndexPanic(n) else Picked(e[n])
      else Reported(Fatalf(MissingEntryFormat, [AInt(n), AStr(Ordinal(n))]))
    }

    /** There are exactly `want` entries. */
    function ExpLen(want: int): (r: seq<Event>)
      ensures r == [] <==> |e| == want
      ensures r != [] ==> r == [Errorf(LenFormat, [AInt(want), AInt(|e|)])]
    {
      var have := |e|;
      if have != want then [Errorf(LenFormat, [AInt(want), AInt(have)])] else []
    }

    /** Some entry passes `f`: entries are tried in order and the scan stops
        at the first one that passes; when none does, one error is
        reported. `evaluated` is the number of entries `f` was applied to. */
    method Exp(f: Entry -> string) returns (reports: seq<Event>, evaluated: nat)
      ensures evaluated <= |e|
      ensures reports == [] <==> exists i :: 0 <= i < |e| && f(e[i]) == ""
      ensures reports != [] ==> reports == [Error(NoMatchingEntry)] && evaluated == |e|
      ensures reports == [] ==> 0 < evaluated && f(e[evaluated - 1]) == ""
      ensures forall i :: 0 <= i < evaluated - 1 ==> f(e[i]) != ""
    {
      var i := 0;
      while i < |e|
        invariant 0 <= i <= |e|
        invariant forall j :: 0 <= j < i ==> f(e[j]) != ""
      {
        if f(e[i]) == "" {
          return [], i + 1;
        }
        i := i + 1;
      }
      return [Error(NoMatchingEntry)], |e|;
    }

    /** No entry passes `f`: every entry is tried, and each one that passes
        is reported separately. */
    method NotExp(f: Entry -> string) returns (reports: seq<Event>, evaluated: nat)
      ensures evaluated == |e|
      ensures |reports| == Count(e, f)
      ensures forall r :: r in reports ==> r == Error(MatchingEntry)
      ensures reports == [] <==> forall i :: 0 <= i < |e| ==> f(e[i]) != ""
    {
      reports := [];
      var i := 0;
      while i < |e|
        invariant 0 <= i <= |e|
        invariant |reports| == Count(e[..i], f)
        invariant forall r :: r in reports ==> r == Error(MatchingEntry)
      {
        assert e[..i + 1][..i] == e[..i];
        if f(e[i]) == "" {
          reports := reports + [Error(MatchingEntry)];
        }
        i := i + 1;
      }
      assert e[..i] == e;
      CountZero(e, f);
      evaluated := |e|;
    }

    /** Logs a banner and then every raw entry, indented, in order. */
    method Print() returns (reports: seq<Event>)
      ensures |reports| == 1 + |e|
      ensures reports[0] == Log(PrintBanner)
      ensures forall i :: 0 <= i < |e| ==> reports[i + 1] == Log("  " + e[i].raw)
    {
      reports := [Log(PrintBanner)];
      for i := 0 to |e|
        invariant |reports| == 1 + i
        invariant reports[0] == Log(PrintBanner)
        invariant forall j :: 0 <= j < i ==> reports[j + 1] == Log("  " + e[j].raw)
      {
        reports := reports + [Log("  " + e[i].raw)];
      }
    }

    /** Some entry has `key` holding the string `exp`. */
    method ExpStr(key: string, exp: string) returns (reports: seq<Event>)
      ensures reports == [] <==> exists i :: 0 <= i < |e| && key in e[i].m && e[i].m[key] == JStr(exp)
      ensures reports != [] ==> reports == [Error(NoMatchingEntry)]
    {
      var evaluated;
      reports, evaluated := Exp(StrCheck(key, exp));
    }

    /** Some entry has `key` holding a string that contains `sub`. */
    method ExpStrContains(key: string, sub: string) returns (reports: seq<Event>)
      ensures reports == [] <==> exists i :: 0 <= i < |e| && key in e[i].m && e[i].m[key].JStr?
                                             && Contains(e[i].m[key].s, sub)
      ensures reports != [] ==> reports == [Error(NoMatchingEntry)]
    {
      var evaluated;
      reports, evaluated := Exp(StrContainsCheck(key, sub));
    }

    /** No entry has `key` holding the string `exp`. */
    method NotExpStr(key: string, exp: string) returns (reports: seq<Event>)
      ensures reports == [] <==> forall i :: 0 <= i < |e| ==> !(key in e[i].m && e[i].m[key] == JStr(exp))
      ensures |reports| == Count(e, StrCheck(key, exp))
      ensures forall r :: r in reports ==> r == Error(MatchingEntry)
    {
      var evaluated;
      reports, evaluated := NotExp(StrCheck(key, exp));
    }

    /** Some entry has `key` holding the instant `exp`. */
    method ExpTime(key: string, exp: int, c: ZLogEntry.Config) returns (reports: seq<Event>)
      ensures reports == [] <==> exists i :: 0 <= i < |e| && key in e[i].m && e[i].m[key].JStr?
                                             && c.parseTime(e[i].m[key].s) == Some(exp)
      ensures reports != [] ==> reports == [Error(NoMatchingEntry)]
    {
      var evaluated;
      reports, evaluated := Exp(TimeCheck(key, exp, c));
    }

    /** No entry has `key` holding the instant `exp`. */
    method NotExpTime(key: string, exp: int, c: ZLogEntry.Config) returns (reports: seq<Event>)
      ensures reports == [] <==> forall i :: 0 <= i < |e| ==>
                !(key in e[i].m && e[i].m[key].JStr? && c.parseTime(e[i].m[key].s) == Some(exp))
      ensures |reports| == Count(e, TimeCheck(key, exp, c))
      ensures forall r :: r in reports ==> r == Error(MatchingEntry)
    {
      var evaluated;
      reports, evaluated := NotExp(TimeCheck(key, exp, c));
    }

    /** Some entry has `key` holding the duration `exp`. */
    method ExpDur(key: string, exp: int, c: ZLogEntry.Config) returns (reports: seq<Event>)
      ensures reports == [] <==> exists i :: 0 <= i < |e| && key in e[i].m && e[i].m[key].JNum?
                                             && e[i].m[key].n * c.durationUnit == exp
      ensures reports != [] ==> reports == [Error(NoMatchingEntry)]
    {
      var evaluated;
      reports, evaluated := Exp(DurCheck(key, exp, c));
    }

    /** No entry has `key` holding the duration `exp`. */
    method NotExpDur(key: string, exp: int, c: ZLogEntry.Config) returns (reports: seq<Event>)
      ensures reports == [] <==> forall i :: 0 <= i < |e| ==>
                !(key in e[i].m && e[i].m[key].JNum? && e[i].m[key].n * c.durationUnit == exp)
      ensures |reports| == Count(e, DurCheck(key, exp, c))
      ensures forall r :: r in reports ==> r == Error(MatchingEntry)
    {
      var evaluated;
      reports, evaluated := NotExp(DurCheck(key, exp, c));
    }

    /** Some entry has `key` holding the boolean `exp`. */
    method ExpBool(key: string, exp: bool) returns (reports: seq<Event>)
      ensures reports == [] <==> exists i :: 0 <= i < |e| && key in e[i].m && e[i].m[key] == JBool(exp)
      ensures reports != [] ==> reports == [Error(NoMatchingEntry)]
    {
      var evaluated;
      reports, evaluated := Exp(BoolCheck(key, exp));
    }

    /** No entry has `key` holding the boolean `exp`. */
    method NotExpBool(key: string, exp: bool) returns (reports: seq<Event>)
      ensures reports == [] <==> forall i :: 0 <= i < |e| ==> !(key in e[i].m && e[i].m[key] == JBool(exp))
      ensures |reports| == Count(e, BoolCheck(key, exp))
      ensures forall r :: r in reports ==> r == Error(MatchingEntry)
    {
      var evaluated;
      reports, evaluated := NotExp(BoolCheck(key, exp));
    }

    /** Some entry's message field holds `exp`. */
    method ExpMsg(exp: string, c: ZLogEntry.Config) returns (reports: seq<Event>)
      ensures reports == [] <==> exists i :: 0 <= i < |e| && c.messageField in e[i].m
                                             && e[i].m[c.messageField] == JStr(exp)
      ensures reports != [] ==> reports == [Error(NoMatchingEntry)]
    {
      var evaluated;
      reports, evaluated := Exp(MsgCheck(exp, c));
    }

    /** No entry's message field holds `exp`. */
    method NotExpMsg(exp: string, c: ZLogEntry.Config) returns (reports: seq<Event>)
      ensures reports == [] <==> forall i :: 0 <= i < |e| ==>
                !(c.messageField in e[i].m && e[i].m[c.messageField] == JStr(exp))
      ensures |reports| == Count(e, MsgCheck(exp, c))
      ensures forall r :: r in reports ==> r == Error(MatchingEntry)
    {
      var evaluated;
      reports, evaluated := NotExp(MsgCheck(exp, c));
    }

    /** Some entry's error field holds `exp`. */
    method ExpError(exp: string, c: ZLogEntry.Config) returns (reports: seq<Event>)
      ensures reports == [] <==> exists i :: 0 <= i < |e| && c.errorField in e[i].m
                                             && e[i].m[c.errorField] == JStr(exp)
      ensures reports != [] ==> reports == [Error(NoMatchingEntry)]
    {
      var evaluated;
      reports, evaluated := Exp(ErrorCheck(exp, c));
    }

    /** No entry's error field holds `exp`. */
    method NotExpError(exp: string, c: ZLogEntry.Config) returns (reports: seq<Event>)
      ensures reports == [] <==> forall i :: 0 <= i < |e| ==>
                !(c.errorField in e[i].m && e[i].m[c.errorField] == JStr(exp))
      ensures |reports| == Count(e, ErrorCheck(exp, c))
      ensures forall r :: r in reports ==> r == Error(MatchingEntry)
    {
      var evaluated;
      reports, evaluated := NotExp(ErrorCheck(exp, c));
    }

    /** Some entry has `key` holding the number `exp`. */
    method ExpNum(key: string, exp: int) returns (reports: seq<Event>)
      ensures reports == [] <==> exists i :: 0 <= i < |e| && key in e[i].m && e[i].m[key] == JNum(exp)
      ensures reports != [] ==> reports == [Error(NoMatchingEntry)]
    {
      var evaluated;
      reports, evaluated := Exp(NumCheck(key, exp));
    }

    /** No entry has `key` holding the number `exp`. */
    method NotExpNum(key: string, exp: int) returns (reports: seq<Event>)
      ensures reports == [] <==> forall i :: 0 <= i < |e| ==> !(key in e[i].m && e[i].m[key] == JNum(exp))
      ensures |reports| == Count(e, NumCheck(key, exp))
      ensures forall r :: r in reports ==> r == Error(MatchingEntry)
    {
      var evaluated;
      reports, evaluated := NotExp(NumCheck(key, exp));
    }
  }

  /** The text of the missing-entry report: the index, its suffix, and the
      fixed tail. */
  lemma MissingEntryText(n: int)
    ensures Sprintf(MissingEntryFormat, [AInt(n), AStr(Ordinal(n))])
         == "expected " + Decimal(n) + Ordinal(n) + " logged entry to exist"
  {
    var x, y := "expected " + ['%', 'd'], "expected " + Decimal(n);
    assert x + "" == x && y + "" == y;
    SprintfTwo("expected ", 'd', "", 's', " logged entry to exist", AInt(n), AStr(Ordinal(n)));
  }

  /** The text of the length report: the wanted and the actual count. */
  lemma LenText(want: int, have: int)
    ensures Sprintf(LenFormat, [AInt(want), AInt(have)])
         == "expected " + Decimal(want) + " entries got " + Decimal(have)
  {
    SprintfTwo("expected ", 'd', " entries got ", 'd', "", AInt(want), AInt(have));
    assert "expected " + ['%', 'd'] + " entries got " + ['%', 'd'] + "" == LenFormat;
    assert "expected " + Decimal(want) + " entries got " + Decimal(have) + ""
        == "expected " + Decimal(want) + " entries got " + Decimal(have);
  }

  /** Asking for index 3 of three entries yields no entry and one Fatalf
      carrying 3 and "rd". */
  lemma ExpEntryPastEnd(a: Entry, b: Entry, c: Entry)
    ensures Entries([a, b, c]).ExpEntry(3) == Reported(Fatalf(MissingEntryFormat, [AInt(3), AStr("rd")]))
  {
  }
}
