/**
 * The vhdltest test cases' reading of a simulator log: each match of its log
 * pattern becomes a Note, Warning, Error or Failure record, and a test passes
 * when no record is an Error and the build went through.
 *
 * The log patterns themselves are not modelled: a match is given as the
 * tuple of its capture groups, which is what `re.findall` hands the loops.
 */
module VhdlTest {
  import opened Text

  /** The four message classes. */
  datatype Kind = Note | Warning | Error | Failure

  /** A record's time: a number, or (Symphony warnings and errors) the location text itself. */
  datatype Time = Ticks(n: int) | Location(s: string)

  /** A Message object once getMessages has filled it in; `source` stays "" for Symphony. */
  datatype Message = Message(kind: Kind, text: string, time: Time, source: string)

  // ---------------------------------------------------------------------
  // Decimal numbers, as `long(...)` reads the time digits

  predicate IsDigit(c: char)
  {
    '0' <= c <= '9'
  }

  predicate IsDigits(s: string)
  {
    |s| > 0 && forall i :: 0 <= i < |s| ==> IsDigit(s[i])
  }

  function DigitValue(c: char): nat
    requires IsDigit(c)
  {
    c as int - '0' as int
  }

  function DigitChar(d: nat): (c: char)
    requires d < 10
    ensures IsDigit(c) && DigitValue(c) == d
  {
    ('0' as int + d) as char
  }

  /** The value of a string of decimal digits, most significant first. */
  function DigitsValue(s: string): nat
    requires forall i :: 0 <= i < |s| ==> IsDigit(s[i])
  {
    if s == [] then 0 else DigitsValue(s[..|s| - 1]) * 10 + DigitValue(s[|s| - 1])
  }

  /** The decimal rendering of n, without leading zeros. */
  function Decimal(n: nat): (r: string)
    ensures IsDigits(r)
    ensures |r| > 1 ==> r[0] != '0'
  {
    if n < 10 then [DigitChar(n)] else Decimal(n / 10) + [DigitChar(n % 10)]
  }

  /** Reading back a rendered number gives the number. */
  lemma {:induction false} DecimalRoundTrip(n: nat)
    ensures DigitsValue(Decimal(n)) == n
  {
    if n >= 10 {
      var d := Decimal(n / 10);
      var r := Decimal(n);
      assert r[..|r| - 1] == d;
      DecimalRoundTrip(n / 10);
    }
  }

  /** A value read from two or more digits, the first not '0', is at least 10. */
  lemma {:induction false} DigitsValueLarge(s: string)
    requires IsDigits(s) && |s| > 1 && s[0] != '0'
    ensures DigitsValue(s) >= 10
    decreases |s|
  {
    var p := s[..|s| - 1];
    assert p[0] == s[0];
    if |p| > 1 {
      DigitsValueLarge(p);
    } else {
      assert DigitsValue(p) == DigitValue(p[0]) >= 1;
    }
  }

  /** Rendering a digit string's value gives the string back when it has no leading zero. */
  lemma {:induction false} DigitsRoundTrip(s: string)
    requires IsDigits(s) && (|s| == 1 || s[0] != '0')
    ensures Decimal(DigitsValue(s)) == s
    decreases |s|
  {
    var n := DigitsValue(s);
    if |s| == 1 {
      assert s == [s[0]];
    } else {
      var p := s[..|s| - 1];
      assert p[0] == s[0];
      DigitsValueLarge(s);
      assert n / 10 == DigitsValue(p) && n % 10 == DigitValue(s[|s| - 1]);
      DigitsRoundTrip(p);
      assert s == p + [s[|s| - 1]];
    }
  }

  // ---------------------------------------------------------------------
  // Modelsim

  /**
   * The groups of one match of the Modelsim message pattern: the kind
   * keyword, the first message line, the last continuation line, the time
   * digits and unit, the `Process`/`Instance` keyword and the path.
   */
  datatype ModelsimMatch = ModelsimMatch(keyword: string, text: string, continuation: string,
                                         digits: string, unit: string, scope: string, path: string)

  /** What the pattern guarantees about a match: a known keyword and a digit string. */
  predicate ModelsimWellFormed(m: ModelsimMatch)
  {
    && (m.keyword == "Note" || m.keyword == "Warning" || m.keyword == "Error" || m.keyword == "Failure")
    && IsDigits(m.digits)
  }

  function ModelsimKind(keyword: string): Kind
    requires keyword == "Note" || keyword == "Warning" || keyword == "Error" || keyword == "Failure"
  {
    if keyword == "Warning" then Warning
    else if keyword == "Note" then Note
    else if keyword == "Error" then Error
    else Failure
  }

  /**
   * The time as getMessages stores it: picoseconds are divided by 1000
   * with the remainder dropped; any other unit is kept as it is.
   */
  function ModelsimTime(digits: string, unit: string): (t: nat)
    requires IsDigits(digits)
    ensures unit == "ps" ==> t * 1000 <= DigitsValue(digits) < t * 1000 + 1000
    ensures unit != "ps" ==> t == DigitsValue(digits)
  {
    var t := DigitsValue(digits);
    if unit == "ps" then t / 1000 else t
  }

  /** The record getMessages builds from one match. */
  function ModelsimMessage(m: ModelsimMatch): (r: Message)
    requires ModelsimWellFormed(m)
    ensures r.kind == Note <==> m.keyword == "Note"
    ensures r.kind == Warning <==> m.keyword == "Warning"
    ensures r.kind == Error <==> m.keyword == "Error"
    ensures r.kind == Failure <==> m.keyword == "Failure"
    ensures r.text == m.text && r.source == m.scope + ":" + m.path
    ensures r.time == Ticks(ModelsimTime(m.digits, m.unit))
  {
    Message(ModelsimKind(m.keyword), m.text, Ticks(ModelsimTime(m.digits, m.unit)), m.scope + ":" + m.path)
  }

  /** ModelVhdlSimTestCase.getMessages: one record per match, in match order. */
  method GetModelsimMessages(matches: seq<ModelsimMatch>) returns (results: seq<Message>)
    requires forall k :: 0 <= k < |matches| ==> ModelsimWellFormed(matches[k])
    ensures |results| == |matches|
    ensures forall k :: 0 <= k < |matches| ==> results[k] == ModelsimMessage(matches[k])
  {
    results := [];
    for i := 0 to |matches|
      invariant |results| == i
      invariant forall k :: 0 <= k < i ==> results[k] == ModelsimMessage(matches[k])
    {
      var m := matches[i];
      var kind := ModelsimKind(m.keyword);
      var time := DigitsValue(m.digits);
      if m.unit == "ps" {
        time := time / 1000;
      }
      var msg := Message(kind, m.text, Ticks(time), m.scope + ":" + m.path);
      results := results + [msg];
    }
  }

  // ---------------------------------------------------------------------
  // Symphony EDA

  /** The groups of one match of the Symphony message pattern: REPORT/ASSERT, the level, the location, the message. */
  datatype SymphonyMatch = SymphonyMatch(tag: string, level: string, location: string, message: string)

  /** What the pattern guarantees about a match: one of the four upper-case levels. */
  predicate SymphonyWellFormed(m: SymphonyMatch)
  {
    m.level == "NOTE" || m.level == "WARNING" || m.level == "ERROR" || m.level == "FAILURE"
  }

  /** The lower-cased levels getMessages recognises. */
  predicate KnownLevel(cmd: string)
  {
    cmd == "warning" || cmd == "note" || cmd == "error" || cmd == "failure"
  }

  /**
   * Every level the pattern admits lower-cases to a known one, so the
   * "UNKNOWN MESSAGE" branch is never taken.
   */
  lemma LevelsKnown(level: string)
    requires level == "NOTE" || level == "WARNING" || level == "ERROR" || level == "FAILURE"
    ensures KnownLevel(Lower(level))
    ensures Lower(level) == "note" <==> level == "NOTE"
    ensures Lower(level) == "warning" <==> level == "WARNING"
    ensures Lower(level) == "error" <==> level == "ERROR"
    ensures Lower(level) == "failure" <==> level == "FAILURE"
  {
    LowerShape(level);
    var r := Lower(level);
    if level == "NOTE" {
      assert r == "note";
    } else if level == "WARNING" {
      assert r == "warning";
    } else if level == "ERROR" {
      assert r == "error";
    } else {
      assert r == "failure";
    }
  }

  function SymphonyKind(cmd: string): Kind
    requires KnownLevel(cmd)
  {
    if cmd == "warning" then Warning
    else if cmd == "note" then Note
    else if cmd == "error" then Error
    else Failure
  }

  /**
   * The record getMessages builds from one match: a note's text is the
   * location group and its time 0; a failure's text is the message and its
   * time 0; a warning or error keeps the message as text and the location
   * as its time.
   */
  function SymphonyMessage(m: SymphonyMatch): (r: Message)
    requires SymphonyWellFormed(m)
    ensures r.kind == Note <==> m.level == "NOTE"
    ensures r.kind == Warning <==> m.level == "WARNING"
    ensures r.kind == Error <==> m.level == "ERROR"
    ensures r.kind == Failure <==> m.level == "FAILURE"
    ensures r.text == if m.level == "NOTE" then m.location else m.message
    ensures r.time == if m.level == "NOTE" || m.level == "FAILURE" then Ticks(0) else Location(m.location)
    ensures r.source == ""
  {
    LevelsKnown(m.level);
    var cmd := Lower(m.level);
    var kind := SymphonyKind(cmd);
    if cmd == "note" then Message(kind, m.location, Ticks(0), "")
    else if cmd == "failure" then Message(kind, m.message, Ticks(0), "")
    else Message(kind, m.message, Location(m.location), "")
  }

  /** SymphonyVhdlSimTestCase.getMessages: one record per match, in match order. */
  method GetSymphonyMessages(matches: seq<SymphonyMatch>) returns (results: seq<Message>)
    requires forall k :: 0 <= k < |matches| ==> SymphonyWellFormed(matches[k])
    ensures |results| == |matches|
    ensures forall k :: 0 <= k < |matches| ==> results[k] == SymphonyMessage(matches[k])
  {
    results := [];
    for i := 0 to |matches|
      invariant |results| == i
      invariant forall k :: 0 <= k < i ==> results[k] == SymphonyMessage(matches[k])
    {
      var m := matches[i];
      LevelsKnown(m.level);
      var cmd := Lower(m.level);
      var msg;
      if cmd == "note" {
        msg := Message(SymphonyKind(cmd), m.location, Ticks(0), "");
      } else if cmd == "failure" {
        msg := Message(SymphonyKind(cmd), m.message, Ticks(0), "");
      } else {
        msg := Message(SymphonyKind(cmd), m.message, Location(m.location), "");
      }
      results := results + [msg];
    }
  }

  /**
   * getBuildErrors: one `("Error", rest)` pair per match of `Error: `,
   * given here as the text after it.
   */
  method GetBuildErrors(matches: seq<string>) returns (errors: seq<(string, string)>)
    ensures |errors| == |matches|
    ensures forall k :: 0 <= k < |matches| ==> errors[k] == ("Error", matches[k])
  {
    errors := [];
    for i := 0 to |matches|
      invariant |errors| == i
      invariant forall k :: 0 <= k < i ==> errors[k] == ("Error", matches[k])
    {
      errors := errors + [("Error", matches[i])];
    }
  }

  // ---------------------------------------------------------------------
  // Verdicts

  /** `filter(lambda m: isinstance(m, Error), messages)`. */
  function Errors(ms: seq<Message>): seq<Message>
  {
    if ms == [] then []
    else Errors(ms[..|ms| - 1]) + (if ms[|ms| - 1].kind == Error then [ms[|ms| - 1]] else [])
  }

  /** The filter keeps exactly the Error records, in order. */
  lemma {:induction false} ErrorsExactly(ms: seq<Message>)
    ensures forall m :: m in Errors(ms) <==> m in ms && m.kind == Error
    ensures Errors(ms) == [] <==> forall k :: 0 <= k < |ms| ==> ms[k].kind != Error
    decreases |ms|
  {
    if ms != [] {
      var p := ms[..|ms| - 1];
      ErrorsExactly(p);
      assert ms == p + [ms[|ms| - 1]];
      if Errors(p) == [] && ms[|ms| - 1].kind != Error {
        assert forall k :: 0 <= k < |ms| ==> ms[k].kind != Error by {
          forall k | 0 <= k < |ms| ensures ms[k].kind != Error {
            if k < |p| {
              assert ms[k] == p[k];
            }
          }
        }
      }
    }
  }

  /** The outcome of runTest: it passes, or fails with the message of the first assertion that does not hold. */
  datatype Verdict = Pass | Fail(reason: string)

  /** ModelVhdlSimTestCase.runTest after the log is read: the error check, then the build status. */
  function ModelsimVerdict(messages: seq<Message>, buildresult: int): Verdict
  {
    if |Errors(messages)| != 0 then Fail("There were errors in the suite")
    else if buildresult != 0 then Fail("There was a problem building the suite")
    else Pass
  }

  /** Modelsim passes exactly when no record is an Error and the build status is 0. */
  lemma ModelsimPassesIff(messages: seq<Message>, buildresult: int)
    ensures ModelsimVerdict(messages, buildresult) == Pass <==>
      (forall k :: 0 <= k < |messages| ==> messages[k].kind != Error) && buildresult == 0
  {
    ErrorsExactly(messages);
  }

  /** Notes, warnings and failures never change the Modelsim verdict. */
  lemma ModelsimIgnoresNonErrors(messages: seq<Message>, m: Message, buildresult: int)
    requires m.kind != Error
    ensures ModelsimVerdict(messages + [m], buildresult) == ModelsimVerdict(messages, buildresult)
  {
    assert (messages + [m])[..|messages|] == messages;
  }

  /** SymphonyVhdlSimTestCase.runTest after the log is read: the error check, then the build errors. */
  function SymphonyVerdict(messages: seq<Message>, buildErrors: seq<(string, string)>, modulename: string): Verdict
  {
    if |Errors(messages)| != 0 then Fail("There were errors in the suite")
    else if buildErrors != [] then Fail("There were build errors in " + modulename)
    else Pass
  }

  /** Symphony passes exactly when no record is an Error and no `Error: ` line was found. */
  lemma SymphonyPassesIff(messages: seq<SymphonyMatch>, buildMatches: seq<string>, modulename: string)
    requires forall k :: 0 <= k < |messages| ==> SymphonyWellFormed(messages[k])
    ensures var records := seq(|messages|, k requires 0 <= k < |messages| => SymphonyMessage(messages[k]));
      var errors := seq(|buildMatches|, k requires 0 <= k < |buildMatches| => ("Error", buildMatches[k]));
      SymphonyVerdict(records, errors, modulename) == Pass <==>
        (forall k :: 0 <= k < |messages| ==> messages[k].level != "ERROR") && buildMatches == []
  {
    var records := seq(|messages|, k requires 0 <= k < |messages| => SymphonyMessage(messages[k]));
    var errors := seq(|buildMatches|, k requires 0 <= k < |buildMatches| => ("Error", buildMatches[k]));
    ErrorsExactly(records);
    assert errors == [] <==> buildMatches == [];
    assert (forall k :: 0 <= k < |records| ==> records[k].kind != Error) <==>
           (forall k :: 0 <= k < |messages| ==> messages[k].level != "ERROR") by {
      assert forall k :: 0 <= k < |messages| ==> (records[k].kind == Error <==> messages[k].level == "ERROR");
    }
  }
}
