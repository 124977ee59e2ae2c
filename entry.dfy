/** One decoded zerolog log line of the zlogtest package (entry.go): typed
    field accessors that classify each lookup with a `KeyStatus`, and the
    `Exp*` assertions, each of which reports at most one failure. */
module ZLogEntry {
  import opened Values
  import opened Reporter

  /** The result of looking a key up in a log entry. */
  datatype KeyStatus = KeyFound | KeyBadType | KeyMissing | KeyBadFormat
  {
    /** The status's string value (KeyStatus is a string type in Go). */
    function Name(): string
    {
      match this
      case KeyFound => "KeyFound"
      case KeyBadType => "KeyBadType"
      case KeyMissing => "KeyMissing"
      case KeyBadFormat => "KeyBadFormat"
    }
  }

  /** The parts of zerolog's process-wide configuration the assertions read:
      reserved field names, the unit a logged duration counts (in
      nanoseconds) and the parser of `TimeFieldFormat` timestamps, which
      gives an instant in nanoseconds since Go's zero time or fails. */
  datatype Config = Config(
    messageField: string,
    errorField: string,
    levelField: string,
    timestampField: string,
    durationUnit: int,
    parseTime: string -> Option<int>)

  /** `time.Time{}`, the instant the accessors return when they fail. */
  const ZeroTime: int := 0

  /** The verbs `%s` and `%v`. The formats below are entry.go's, spelled
      with them so that their literal parts stand out. */
  const VerbS: string := ['%', 's']
  const VerbV: string := ['%', 'v']

  const ValueFormat := "expected entry key '" + VerbS + "' to have value '" + VerbS + "' but got '" + VerbS + "'"
  const BoolFormat := "expected entry key '" + VerbS + "' to have value '" + VerbV + "' but got '" + VerbV + "'"
  const WithinFormat := "expected entry '" + VerbS + "' to be within '" + VerbS + "' but is '" + VerbS + "'"
  const MissingFormat := "expected entry to have key '" + VerbS + "'"
  const BadTypeFormat := "expected entry key '" + VerbS + "' to be '" + VerbS + "'"
  const BadFormatFormat := "key '" + VerbS + "' in a wrong format"
  const InvalidFormat := "invalid KeyStatus '" + VerbS + "'"

  function Abs(x: int): nat { if x < 0 then -x else x }

  /** The fixed message for a failed lookup of `key` as a value of type `typ`. */
  function FormatError(status: KeyStatus, key: string, typ: string): (msg: string)
    ensures status == KeyMissing ==> msg == "expected entry to have key '" + key + "'"
    ensures status == KeyBadType ==> msg == "expected entry key '" + key + "' to be '" + typ + "'"
    ensures status == KeyBadFormat ==> msg == "key '" + key + "' in a wrong format"
    ensures status == KeyFound ==> msg == "invalid KeyStatus 'KeyFound'"
    ensures |msg| > 0
  {
    match status
    case KeyMissing =>
      SprintfOne("expected entry to have key '", 's', "'", AStr(key));
      Sprintf(MissingFormat, [AStr(key)])
    case KeyBadType =>
      SprintfTwo("expected entry key '", 's', "' to be '", 's', "'", AStr(key), AStr(typ));
      Sprintf(BadTypeFormat, [AStr(key), AStr(typ)])
    case KeyBadFormat =>
      SprintfOne("key '", 's', "' in a wrong format", AStr(key));
      Sprintf(BadFormatFormat, [AStr(key)])
    case KeyFound =>
      SprintfOne("invalid KeyStatus '", 's', "'", AStr(status.Name()));
      Sprintf(InvalidFormat, [AStr(status.Name())])
  }

  /** A zlogtest log entry: the JSON-decoded fields of one line. */
  datatype Entry = Entry(m: Fields)
  {
    /** `key` holds a string equal to `v`. */
    predicate HasStr(key: string, v: string) { key in m && m[key] == JStr(v) }

    /** The value of `key` as a string. */
    function Str(key: string): (r: (string, KeyStatus))
      ensures r.1 == KeyFound <==> key in m && m[key].JStr?
      ensures r.1 == KeyBadType <==> key in m && !m[key].JStr?
      ensures r.1 == KeyMissing <==> key !in m
      ensures r.1 == KeyFound ==> r.0 == m[key].s
      ensures r.1 != KeyFound ==> r.0 == ""
    {
      if key in m then
        match m[key]
        case JStr(got) => (got, KeyFound)
        case _ => ("", KeyBadType)
      else ("", KeyMissing)
    }

    /** The value of `key` as a number. */
    function Float64(key: string): (r: (int, KeyStatus))
      ensures r.1 == KeyFound <==> key in m && m[key].JNum?
      ensures r.1 == KeyBadType <==> key in m && !m[key].JNum?
      ensures r.1 == KeyMissing <==> key !in m
      ensures r.1 == KeyFound ==> r.0 == m[key].n
      ensures r.1 != KeyFound ==> r.0 == 0
    {
      if key in m then
        match m[key]
        case JNum(got) => (got, KeyFound)
        case _ => (0, KeyBadType)
      else (0, KeyMissing)
    }

    /** The value of `key` as a boolean. */
    function Bool(key: string): (r: (bool, KeyStatus))
      ensures r.1 == KeyFound <==> key in m && m[key].JBool?
      ensures r.1 == KeyBadType <==> key in m && !m[key].JBool?
      ensures r.1 == KeyMissing <==> key !in m
      ensures r.1 == KeyFound ==> r.0 == m[key].b
      ensures r.1 != KeyFound ==> !r.0
    {
      if key in m then
        match m[key]
        case JBool(got) => (got, KeyFound)
        case _ => (false, KeyBadType)
      else (false, KeyMissing)
    }

    /** The value of `key` as an instant, parsed with the configured layout. */
    function Time(key: string, c: Config): (r: (int, KeyStatus))
      ensures r.1 == KeyMissing <==> key !in m
      ensures r.1 == KeyBadType <==> key in m && !m[key].JStr?
      ensures r.1 == KeyBadFormat <==> key in m && m[key].JStr? && c.parseTime(m[key].s).None?
      ensures r.1 == KeyFound <==> key in m && m[key].JStr? && c.parseTime(m[key].s).Some?
      ensures r.1 == KeyFound ==> r.0 == c.parseTime(m[key].s).value
      ensures r.1 != KeyFound ==> r.0 == ZeroTime
    {
      if key in m then
        match m[key]
        case JStr(got) =>
          (match c.parseTime(got)
           case None => (ZeroTime, KeyBadFormat)
           case Some(tim) => (tim, KeyFound))
        case _ => (ZeroTime, KeyBadType)
      else (ZeroTime, KeyMissing)
    }

    /** `key` holds the string `exp`. */
    function ExpStr(key: string, exp: string): (r: seq<Event>)
      ensures |r| <= 1
      ensures r == [] <==> HasStr(key, exp)
      ensures key in m && m[key].JStr? && m[key].s != exp ==>
                r == [Errorf(ValueFormat, [AStr(key), AStr(exp), AStr(m[key].s)])]
      ensures key in m && !m[key].JStr? ==> r == [Error(FormatError(KeyBadType, key, "string"))]
      ensures key !in m ==> r == [Error(FormatError(KeyMissing, key, "string"))]
    {
      var (got, status) := Str(key);
      if status == KeyFound then
        if got != exp then [Errorf(ValueFormat, [AStr(key), AStr(exp), AStr(got)])] else []
      else [Error(FormatError(status, key, "string"))]
    }

    /** `key` holds an instant equal to `exp`. */
    function ExpTime(key: string, exp: int, c: Config): (r: seq<Event>)
      ensures |r| <= 1
      ensures r == [] <==> key in m && m[key].JStr? && c.parseTime(m[key].s) == Some(exp)
      ensures key in m && m[key].JStr? && c.parseTime(m[key].s).None? ==>
                r == [Error(FormatError(KeyBadFormat, key, "string"))]
    {
      ExpTimeWithin(key, exp, 0, c)
    }

    /** `key` holds a number that, counted in the configured duration unit,
        equals the duration `exp` (in nanoseconds). */
    function ExpDur(key: string, exp: int, c: Config): (r: seq<Event>)
      ensures |r| <= 1
      ensures r == [] <==> key in m && m[key].JNum? && m[key].n * c.durationUnit == exp
      ensures key in m && m[key].JNum? && m[key].n * c.durationUnit != exp ==>
                r == [Errorf(ValueFormat, [AStr(key), ADur(exp), ADur(m[key].n * c.durationUnit)])]
      ensures key in m && !m[key].JNum? ==> r == [Error(FormatError(KeyBadType, key, "number"))]
      ensures key !in m ==> r == [Error(FormatError(KeyMissing, key, "number"))]
    {
      var (got, status) := Float64(key);
      if status == KeyFound then
        var gotD := got * c.durationUnit;
        if gotD != exp then [Errorf(ValueFormat, [AStr(key), ADur(exp), ADur(gotD)])] else []
      else [Error(FormatError(status, key, "number"))]
    }

    /** `key` holds the boolean `exp`. */
    function ExpBool(key: string, exp: bool): (r: seq<Event>)
      ensures |r| <= 1
      ensures r == [] <==> key in m && m[key] == JBool(exp)
      ensures key in m && m[key].JBool? && m[key].b != exp ==>
                r == [Errorf(BoolFormat, [AStr(key), ABool(exp), ABool(m[key].b)])]
      ensures key in m && !m[key].JBool? ==> r == [Error(FormatError(KeyBadType, key, "bool"))]
      ensures key !in m ==> r == [Error(FormatError(KeyMissing, key, "bool"))]
    {
      var (got, status) := Bool(key);
      if status == KeyFound then
        if got != exp then [Errorf(BoolFormat, [AStr(key), ABool(exp), ABool(got)])] else []
      else [Error(FormatError(status, key, "bool"))]
    }

    /** The entry's timestamp field is within `diff` of `exp`. */
    function ExpLoggedWithin(exp: int, diff: int, c: Config): (r: seq<Event>)
      ensures |r| <= 1
      ensures var k := c.timestampField;
        r == [] <==> k in m && m[k].JStr? && c.parseTime(m[k].s).Some?
                     && Abs(exp - c.parseTime(m[k].s).value) <= diff
    {
      ExpTimeWithin(c.timestampField, exp, diff, c)
    }

    /** `key` holds an instant at most `diff` away from `exp`, either way. */
    function ExpTimeWithin(key: string, exp: int, diff: int, c: Config): (r: seq<Event>)
      ensures |r| <= 1
      ensures r == [] <==> key in m && m[key].JStr? && c.parseTime(m[key].s).Some?
                           && Abs(exp - c.parseTime(m[key].s).value) <= diff
      ensures key in m && m[key].JStr? && c.parseTime(m[key].s).Some?
              && Abs(exp - c.parseTime(m[key].s).value) > diff ==>
                r == [Errorf(WithinFormat, [AStr(key), ADur(diff), ADur(Abs(exp - c.parseTime(m[key].s).value))])]
      ensures key in m && m[key].JStr? && c.parseTime(m[key].s).None? ==>
                r == [Error(FormatError(KeyBadFormat, key, "string"))]
      ensures key in m && !m[key].JStr? ==> r == [Error(FormatError(KeyBadType, key, "string"))]
      ensures key !in m ==> r == [Error(FormatError(KeyMissing, key, "string"))]
    {
      var (got, status) := Time(key, c);
      if status == KeyFound then
        var gotD := Abs(exp - got);
        if gotD > diff then [Errorf(WithinFormat, [AStr(key), ADur(diff), ADur(gotD)])] else []
      else [Error(FormatError(status, key, "string"))]
    }

    /** The message field holds `exp`. */
    function ExpMsg(exp: string, c: Config): (r: seq<Event>)
      ensures |r| <= 1
      ensures r == [] <==> HasStr(c.messageField, exp)
    {
      ExpStr(c.messageField, exp)
    }

    /** The level field holds `level`, the level's canonical string. */
    function ExpLevel(level: string, c: Config): (r: seq<Event>)
      ensures |r| <= 1
      ensures r == [] <==> HasStr(c.levelField, level)
    {
      ExpStr(c.levelField, level)
    }

    /** `key` holds the number `exp`. */
    function ExpNum(key: string, exp: int): (r: seq<Event>)
      ensures |r| <= 1
      ensures r == [] <==> key in m && m[key] == JNum(exp)
      ensures key in m && m[key].JNum? && m[key].n != exp ==>
                r == [Errorf(ValueFormat, [AStr(key), AStr(Decimal(exp)), AStr(Decimal(m[key].n))])]
      ensures key in m && !m[key].JNum? ==> r == [Error(FormatError(KeyBadType, key, "number"))]
      ensures key !in m ==> r == [Error(FormatError(KeyMissing, key, "number"))]
    {
      var (got, status) := Float64(key);
      if status == KeyFound then
        if got != exp then [Errorf(ValueFormat, [AStr(key), AStr(Decimal(exp)), AStr(Decimal(got))])] else []
      else [Error(FormatError(status, key, "number"))]
    }
  }

  /** The text of a value-mismatch report names the key and both values. */
  lemma ValueMismatchText(key: string, exp: Arg, got: Arg)
    ensures Sprintf(ValueFormat, [AStr(key), exp, got])
         == "expected entry key '" + key + "' to have value '" + Show(exp) + "' but got '" + Show(got) + "'"
  {
    SprintfThree("expected entry key '", 's', "' to have value '", 's', "' but got '", 's', "'",
                 AStr(key), exp, got);
  }

  /** The text of a boolean-mismatch report names the key and both values. */
  lemma BoolMismatchText(key: string, exp: bool, got: bool)
    ensures Sprintf(BoolFormat, [AStr(key), ABool(exp), ABool(got)])
         == "expected entry key '" + key + "' to have value '" + Show(ABool(exp)) + "' but got '"
            + Show(ABool(got)) + "'"
  {
    SprintfThree("expected entry key '", 's', "' to have value '", 'v', "' but got '", 'v', "'",
                 AStr(key), ABool(exp), ABool(got));
  }

  /** The text of an out-of-tolerance report names the key, the tolerance and
      the actual distance. */
  lemma WithinText(key: string, diff: int, dist: int)
    ensures Sprintf(WithinFormat, [AStr(key), ADur(diff), ADur(dist)])
         == "expected entry '" + key + "' to be within '" + Decimal(diff) + "' but is '" + Decimal(dist) + "'"
  {
    SprintfThree("expected entry '", 's', "' to be within '", 's', "' but is '", 's', "'",
                 AStr(key), ADur(diff), ADur(dist));
  }

  // Every report an `Exp*` assertion makes has a non-empty text, so "no
  // message" and "no report" are the same thing.

  lemma ExpStrMessage(e: Entry, key: string, exp: string)
    ensures |Message(e.ExpStr(key, exp))| == 0 <==> e.ExpStr(key, exp) == []
  {
    if key in e.m && e.m[key].JStr? && e.m[key].s != exp {
      ValueMismatchText(key, AStr(exp), AStr(e.m[key].s));
    }
  }

  lemma ExpNumMessage(e: Entry, key: string, exp: int)
    ensures |Message(e.ExpNum(key, exp))| == 0 <==> e.ExpNum(key, exp) == []
  {
    if key in e.m && e.m[key].JNum? && e.m[key].n != exp {
      ValueMismatchText(key, AStr(Decimal(exp)), AStr(Decimal(e.m[key].n)));
    }
  }

  lemma ExpBoolMessage(e: Entry, key: string, exp: bool)
    ensures |Message(e.ExpBool(key, exp))| == 0 <==> e.ExpBool(key, exp) == []
  {
    if key in e.m && e.m[key].JBool? && e.m[key].b != exp {
      BoolMismatchText(key, exp, e.m[key].b);
    }
  }

  lemma ExpDurMessage(e: Entry, key: string, exp: int, c: Config)
    ensures |Message(e.ExpDur(key, exp, c))| == 0 <==> e.ExpDur(key, exp, c) == []
  {
    if key in e.m && e.m[key].JNum? && e.m[key].n * c.durationUnit != exp {
      ValueMismatchText(key, ADur(exp), ADur(e.m[key].n * c.durationUnit));
    }
  }

  lemma ExpTimeWithinMessage(e: Entry, key: string, exp: int, diff: int, c: Config)
    ensures |Message(e.ExpTimeWithin(key, exp, diff, c))| == 0 <==> e.ExpTimeWithin(key, exp, diff, c) == []
  {
    if key in e.m && e.m[key].JStr? && c.parseTime(e.m[key].s).Some? {
      WithinText(key, diff, Abs(exp - c.parseTime(e.m[key].s).value));
    }
  }
}
