/** The reporting capability the core is written against (the `T` interface
    of zltest and `testing.TB` in zlogtest). A call on it is an `Event`; every
    assertion of the model returns the events it would send, in order.
    `Helper()` has no observable effect and is not recorded. */
module Reporter {
  import opened Values

  /** An argument of a formatted report. Durations are counts of nanoseconds. */
  datatype Arg = AStr(s: string) | AInt(i: int) | ABool(b: bool) | ADur(d: int)

  datatype Event =
    | Error(msg: string)                          // t.Error(msg): non-fatal
    | Errorf(format: string, args: seq<Arg>)      // t.Errorf(format, args...): non-fatal
    | Fatal(msg: string)                          // t.Fatal(err): stops the test
    | Fatalf(format: string, args: seq<Arg>)      // t.Fatalf(format, args...): stops the test
    | Log(msg: string)                            // t.Log(msg)

  function DigitChar(d: nat): char
    requires d < 10
  {
    ('0' as int + d) as char
  }

  /** Decimal digits of a natural number, most significant first. */
  function Digits(n: nat): (s: string)
    ensures |s| > 0
    ensures forall i :: 0 <= i < |s| ==> '0' <= s[i] <= '9'
    ensures n < 10 <==> |s| == 1
  {
    if n < 10 then [DigitChar(n)] else Digits(n / 10) + [DigitChar(n % 10)]
  }

  /** The number a string of decimal digits denotes. */
  function DigitsValue(s: string): nat
    requires forall i :: 0 <= i < |s| ==> '0' <= s[i] <= '9'
  {
    if s == [] then 0 else 10 * DigitsValue(s[..|s| - 1]) + (s[|s| - 1] as int - '0' as int)
  }

  /** Printing a natural number in decimal loses nothing. */
  lemma {:induction false} DigitsRoundTrip(n: nat)
    ensures DigitsValue(Digits(n)) == n
  {
    if n >= 10 {
      DigitsRoundTrip(n / 10);
      var s := Digits(n);
      assert s == Digits(n / 10) + [DigitChar(n % 10)];
      assert s[..|s| - 1] == Digits(n / 10);
      assert s[|s| - 1] as int - '0' as int == n % 10;
    }
  }

  /** `%d` of an integer. */
  function Decimal(i: int): (s: string)
    ensures |s| > 0
    ensures (s[0] == '-') <==> i < 0
  {
    if i < 0 then "-" + Digits(-i) else Digits(i)
  }

  /** The text `%s`, `%d` or `%v` produces for an argument. */
  function Show(a: Arg): string
  {
    match a
    case AStr(s) => s
    case AInt(i) => Decimal(i)
    case ABool(b) => if b then "true" else "false"
    case ADur(d) => Decimal(d)
  }

  predicate IsVerb(c: char) { c == 's' || c == 'd' || c == 'v' }

  predicate NoVerbs(s: string) { forall i :: 0 <= i < |s| ==> s[i] != '%' }

  /** The subset of fmt.Sprintf the core's formats use: the verbs `%s`, `%d`
      and `%v` take the next argument, `%%` is a percent sign, and a verb
      without an argument left prints `%!<verb>(MISSING)`. */
  function Sprintf(format: string, args: seq<Arg>): string
    decreases |format|
  {
    if |format| >= 2 && format[0] == '%' && IsVerb(format[1]) then
      if |args| > 0 then Show(args[0]) + Sprintf(format[2..], args[1..])
      else "%!" + [format[1]] + "(MISSING)" + Sprintf(format[2..], args)
    else if |format| >= 2 && format[0] == '%' && format[1] == '%' then
      "%" + Sprintf(format[2..], args)
    else if |format| > 0 then
      [format[0]] + Sprintf(format[1..], args)
    else
      []
  }

  /** A character other than `%` is copied as it is. */
  lemma SprintfChar(c: char, rest: string, args: seq<Arg>)
    requires c != '%'
    ensures Sprintf([c] + rest, args) == [c] + Sprintf(rest, args)
  {
    var f := [c] + rest;
    assert f[0] == c;
    assert f[1..] == rest;
  }

  /** Text without verbs is copied as it is. */
  lemma {:induction false} SprintfLiteral(lit: string, rest: string, args: seq<Arg>)
    requires NoVerbs(lit)
    ensures Sprintf(lit + rest, args) == lit + Sprintf(rest, args)
    decreases |lit|
  {
    if lit == [] {
      assert lit + rest == rest;
    } else {
      var tail := lit[1..] + rest;
      assert lit + rest == [lit[0]] + tail;
      SprintfChar(lit[0], tail, args);
      SprintfLiteral(lit[1..], rest, args);
      assert lit == [lit[0]] + lit[1..];
    }
  }

  /** A literal, then one verb: the literal, then the argument's text. */
  lemma SprintfVerb(lit: string, verb: char, rest: string, a: Arg, args: seq<Arg>)
    requires NoVerbs(lit) && IsVerb(verb)
    ensures Sprintf(lit + ['%', verb] + rest, [a] + args) == lit + Show(a) + Sprintf(rest, args)
  {
    assert lit + ['%', verb] + rest == lit + (['%', verb] + rest);
    SprintfLiteral(lit, ['%', verb] + rest, [a] + args);
    var f := ['%', verb] + rest;
    assert f[2..] == rest;
    assert ([a] + args)[1..] == args;
  }

  /** The text of a single-literal format: what a `%s` format with one
      string argument and a tail produces. */
  lemma SprintfOne(pre: string, verb: char, post: string, a: Arg)
    requires NoVerbs(pre) && NoVerbs(post) && IsVerb(verb)
    ensures Sprintf(pre + ['%', verb] + post, [a]) == pre + Show(a) + post
  {
    SprintfVerb(pre, verb, post, a, []);
    assert [a] + [] == [a];
    SprintfLiteral(post, [], []);
    assert post + [] == post;
    assert Sprintf([], []) == [];
  }

  /** A literal and a verb in front of a format whose text is known: the
      literal, the first argument's text, then that text. */
  lemma SprintfStep(f: string, lit: string, verb: char, rest: string,
                    args: seq<Arg>, more: seq<Arg>, out: string, result: string)
    requires NoVerbs(lit) && IsVerb(verb) && |args| > 0 && args[1..] == more
    requires f == lit + ['%', verb] + rest
    requires Sprintf(rest, more) == out
    requires result == lit + Show(args[0]) + out
    ensures Sprintf(f, args) == result
  {
    assert args == [args[0]] + more;
    SprintfVerb(lit, verb, rest, args[0], more);
  }

  /** Regrouping a left-nested concatenation of five parts. */
  lemma Regroup5(q1: string, q2: string, q3: string, q4: string, q5: string)
    ensures q1 + q2 + q3 + q4 + q5 == q1 + q2 + (q3 + q4 + q5)
  {
    assert q1 + q2 + q3 + q4 + q5 == q1 + q2 + (q3 + q4) + q5;
    assert q1 + q2 + (q3 + q4) + q5 == q1 + q2 + (q3 + q4 + q5);
  }

  /** Regrouping a left-nested concatenation of seven parts. */
  lemma Regroup7(q1: string, q2: string, q3: string, q4: string, q5: string, q6: string, q7: string)
    ensures q1 + q2 + q3 + q4 + q5 + q6 + q7 == q1 + q2 + (q3 + q4 + (q5 + q6 + q7))
  {
    Regroup5(q1, q2, q3, q4, q5 + q6 + q7);
    assert q1 + q2 + q3 + q4 + q5 + q6 + q7 == q1 + q2 + q3 + q4 + (q5 + q6 + q7);
  }

  /** Two verbs, each taking one argument. */
  lemma SprintfTwo(p1: string, v1: char, p2: string, v2: char, p3: string, a1: Arg, a2: Arg)
    requires NoVerbs(p1) && NoVerbs(p2) && NoVerbs(p3) && IsVerb(v1) && IsVerb(v2)
    ensures Sprintf(p1 + ['%', v1] + p2 + ['%', v2] + p3, [a1, a2])
         == p1 + Show(a1) + p2 + Show(a2) + p3
  {
    var f2, o2 := p2 + ['%', v2] + p3, p2 + Show(a2) + p3;
    SprintfOne(p2, v2, p3, a2);
    Regroup5(p1, ['%', v1], p2, ['%', v2], p3);
    Regroup5(p1, Show(a1), p2, Show(a2), p3);
    SprintfStep(p1 + ['%', v1] + p2 + ['%', v2] + p3, p1, v1, f2, [a1, a2], [a2], o2,
                p1 + Show(a1) + p2 + Show(a2) + p3);
  }

  /** Three verbs, each taking one argument. */
  lemma SprintfThree(p1: string, v1: char, p2: string, v2: char, p3: string, v3: char, p4: string,
                     a1: Arg, a2: Arg, a3: Arg)
    requires NoVerbs(p1) && NoVerbs(p2) && NoVerbs(p3) && NoVerbs(p4)
    requires IsVerb(v1) && IsVerb(v2) && IsVerb(v3)
    ensures Sprintf(p1 + ['%', v1] + p2 + ['%', v2] + p3 + ['%', v3] + p4, [a1, a2, a3])
         == p1 + Show(a1) + p2 + Show(a2) + p3 + Show(a3) + p4
  {
    var f3, o3 := p3 + ['%', v3] + p4, p3 + Show(a3) + p4;
    var f2, o2 := p2 + ['%', v2] + f3, p2 + Show(a2) + o3;
    SprintfOne(p3, v3, p4, a3);
    SprintfStep(f2, p2, v2, f3, [a2, a3], [a3], o3, o2);
    Regroup7(p1, ['%', v1], p2, ['%', v2], p3, ['%', v3], p4);
    Regroup7(p1, Show(a1), p2, Show(a2), p3, Show(a3), p4);
    SprintfStep(p1 + ['%', v1] + p2 + ['%', v2] + p3 + ['%', v3] + p4, p1, v1, f2, [a1, a2, a3], [a2, a3], o2,
                p1 + Show(a1) + p2 + Show(a2) + p3 + Show(a3) + p4);
  }

  /** The text a reporter shows for an event. */
  function Text(e: Event): string
  {
    match e
    case Error(m) => m
    case Errorf(f, a) => Sprintf(f, a)
    case Fatal(m) => m
    case Fatalf(f, a) => Sprintf(f, a)
    case Log(m) => m
  }

  /** The message a report carries, or "" when nothing was reported. */
  function Message(reports: seq<Event>): string
  {
    if reports == [] then "" else Text(reports[0])
  }
}
