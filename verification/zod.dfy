/** The part of the zod schema library that the request schemas use:
    JSON values, issues with paths, string checks run in chain order (a
    `.trim()` or `.toLowerCase()` replaces the value the later checks see, and
    a failing check does not stop the checks after it), enums, numbers,
    optional/nullable/default wrappers and arrays.

    Format checks that zod implements with its own regular expressions or
    the URL parser (`.email()`, `.datetime()`, `.url()`) are predicates
    supplied by the caller. */
module Zod {
  import opened Common
  import opened Text

  /** A JSON value as it reaches a schema; `Missing` is JavaScript's undefined. */
  datatype Value = Missing | Null | Str(s: string) | Num(n: real) | Bool(b: bool)
                 | Arr(items: seq<Value>) | Obj(fields: map<string, Value>)

  datatype PathSegment = Key(key: string) | Index(index: nat)

  /** One entry of a ZodError: where in the input, and the message. */
  datatype Issue = Issue(path: seq<PathSegment>, message: string)

  /** A parse yields the output or the issues found. */
  datatype Parsed<+T> = Valid(value: T) | Invalid(issues: seq<Issue>)

  /** The predicates zod's format checks stand for. */
  datatype Formats = Formats(isEmail: string -> bool, isDateTime: string -> bool, isUrl: string -> bool)

  function TypeName(v: Value): string
  {
    match v
    case Missing => "undefined"
    case Null => "null"
    case Str(_) => "string"
    case Num(_) => "number"
    case Bool(_) => "boolean"
    case Arr(_) => "array"
    case Obj(_) => "object"
  }

  /** zod's invalid_type issue: "Required" for a missing value. */
  function TypeIssue(expected: string, v: Value): Issue
  {
    Issue([], if v.Missing? then "Required" else "Expected " + expected + ", received " + TypeName(v))
  }

  function AtRoot(messages: seq<string>): (r: seq<Issue>)
    ensures |r| == |messages|
    ensures forall i :: 0 <= i < |r| ==> r[i] == Issue([], messages[i])
  {
    seq(|messages|, i requires 0 <= i < |messages| => Issue([], messages[i]))
  }

  /** The issues of a nested parse, with `seg` put in front of each path. */
  function Under<T>(seg: PathSegment, p: Parsed<T>): (r: seq<Issue>)
    ensures p.Valid? ==> r == []
    ensures p.Invalid? ==> |r| == |p.issues|
    ensures p.Invalid? ==> forall i :: 0 <= i < |r| ==>
              r[i] == Issue([seg] + p.issues[i].path, p.issues[i].message)
  {
    match p
    case Valid(_) => []
    case Invalid(issues) =>
      seq(|issues|, i requires 0 <= i < |issues| => Issue([seg] + issues[i].path, issues[i].message))
  }

  /** The value of an object's field; undefined when absent or not an object. */
  function Field(v: Value, key: string): Value
  {
    if v.Obj? && key in v.fields then v.fields[key] else Missing
  }

  // ---------------------------------------------------------------------------
  // Strings

  datatype StringCheck =
    | MinLength(min: nat, message: string)
    | MaxLength(max: nat, message: string)
    | Matches(test: string -> bool, message: string)
    | TrimStep
    | LowerStep

  /** The value after a run of checks, and the messages of those that failed. */
  datatype Checked = Checked(out: string, failures: seq<string>)

  /** What one check does to the value, and the message it reports. */
  function Step(s: string, check: StringCheck): Checked
  {
    match check
    case MinLength(n, m) => Checked(s, if |s| < n then [m] else [])
    case MaxLength(n, m) => Checked(s, if |s| > n then [m] else [])
    case Matches(test, m) => Checked(s, if test(s) then [] else [m])
    case TrimStep => Checked(Trim(s), [])
    case LowerStep => Checked(Lower(s), [])
  }

  /** The checks in chain order: each sees the value the previous one left,
      and every failure is kept. */
  function RunChecks(s: string, checks: seq<StringCheck>): (c: Checked)
    decreases |checks|
  {
    if |checks| == 0 then Checked(s, [])
    else
      var step := Step(s, checks[0]);
      var rest := RunChecks(step.out, checks[1..]);
      Checked(rest.out, step.failures + rest.failures)
  }

  /** Running a chain is running its first check, then the rest on what the
      first check left. */
  lemma RunChecksCons(s: string, check: StringCheck, rest: seq<StringCheck>)
    ensures var step := Step(s, check);
            var after := RunChecks(step.out, rest);
            RunChecks(s, [check] + rest) == Checked(after.out, step.failures + after.failures)
  {
    assert ([check] + rest)[1..] == rest;
  }

  /** `.trim()` alone never fails. */
  lemma TrimOnlyRun(s: string)
    ensures RunChecks(s, [TrimStep]) == Checked(Trim(s), [])
  {
    RunChecksCons(s, TrimStep, []);
    assert [TrimStep] + [] == [TrimStep];
  }

  /** The chain `.max(hi, tooLong).trim()`. */
  function MaxThenTrim(hi: nat, tooLong: string): seq<StringCheck>
  {
    [MaxLength(hi, tooLong), TrimStep]
  }

  /** The chain `.min(lo, tooShort).max(hi, tooLong).trim()`. */
  function BoundsThenTrim(lo: nat, tooShort: string, hi: nat, tooLong: string): seq<StringCheck>
  {
    [MinLength(lo, tooShort), MaxLength(hi, tooLong), TrimStep]
  }

  /** The length is checked on the untrimmed value. */
  lemma MaxThenTrimRun(s: string, hi: nat, tooLong: string)
    ensures RunChecks(s, MaxThenTrim(hi, tooLong)) == Checked(Trim(s), if |s| > hi then [tooLong] else [])
  {
    KeepingOneThenOneRun(s, MaxLength(hi, tooLong), TrimStep);
  }

  /** Both bounds are checked on the untrimmed value, and both failures are
      reported. */
  lemma BoundsThenTrimRun(s: string, lo: nat, tooShort: string, hi: nat, tooLong: string)
    ensures RunChecks(s, BoundsThenTrim(lo, tooShort, hi, tooLong))
              == Checked(Trim(s), (if |s| < lo then [tooShort] else []) + (if |s| > hi then [tooLong] else []))
  {
    KeepingTwoThenOneRun(s, MinLength(lo, tooShort), MaxLength(hi, tooLong), TrimStep);
  }

  /** A check that leaves the value alone, then one that never fails: the
      first check's failures on the original value, and the second's output. */
  lemma KeepingOneThenOneRun(s: string, c0: StringCheck, c1: StringCheck)
    requires Step(s, c0).out == s && Step(s, c1).failures == []
    ensures RunChecks(s, [c0, c1]) == Checked(Step(s, c1).out, Step(s, c0).failures)
  {
    RunChecksCons(s, c1, []);
    RunChecksCons(s, c0, [c1]);
    assert [c1] + [] == [c1];
    assert [c0, c1] == [c0] + [c1];
  }

  /** Two checks that leave the value alone, then one that never fails
      (such as `.trim()`): the failures of the two, on the original value,
      in order, and the last check's output. */
  lemma KeepingTwoThenOneRun(s: string, c0: StringCheck, c1: StringCheck, c2: StringCheck)
    requires Step(s, c0).out == s && Step(s, c1).out == s && Step(s, c2).failures == []
    ensures RunChecks(s, [c0, c1, c2]) == Checked(Step(s, c2).out, Step(s, c0).failures + Step(s, c1).failures)
  {
    RunChecksCons(s, c2, []);
    RunChecksCons(s, c1, [c2]);
    RunChecksCons(s, c0, [c1, c2]);
    assert [c2] + [] == [c2];
    assert [c1] + [c2] == [c1, c2];
    assert [c0, c1, c2] == [c0] + [c1, c2];
  }

  /** The chain `.min(lo, tooShort).max(hi, tooLong).regex(test, mismatch)`:
      nothing changes the value, and every failing check reports. */
  lemma BoundsThenMatchRun(s: string, lo: nat, tooShort: string, hi: nat, tooLong: string,
                           test: string -> bool, mismatch: string)
    ensures RunChecks(s, [MinLength(lo, tooShort), MaxLength(hi, tooLong), Matches(test, mismatch)])
              == Checked(s, (if |s| < lo then [tooShort] else []) + (if |s| > hi then [tooLong] else [])
                            + (if test(s) then [] else [mismatch]))
  {
    KeepingThreeRun(s, MinLength(lo, tooShort), MaxLength(hi, tooLong), Matches(test, mismatch));
  }

  /** Three checks that leave the value alone report their failures in
      order. */
  lemma KeepingThreeRun(s: string, c0: StringCheck, c1: StringCheck, c2: StringCheck)
    requires Step(s, c0).out == s && Step(s, c1).out == s && Step(s, c2).out == s
    ensures RunChecks(s, [c0, c1, c2]) == Checked(s, Step(s, c0).failures + Step(s, c1).failures + Step(s, c2).failures)
  {
    RunChecksCons(s, c2, []);
    RunChecksCons(s, c1, [c2]);
    RunChecksCons(s, c0, [c1, c2]);
    assert [c2] + [] == [c2];
    assert [c1] + [c2] == [c1, c2];
    assert [c0, c1, c2] == [c0] + [c1, c2];
  }

  /** `z.string()` followed by `checks`. */
  function ParseString(v: Value, checks: seq<StringCheck>): (p: Parsed<string>)
    ensures !v.Str? ==> p == Invalid([TypeIssue("string", v)])
    ensures v.Str? ==> (p.Valid? <==> RunChecks(v.s, checks).failures == [])
    ensures p.Valid? ==> v.Str? && p.value == RunChecks(v.s, checks).out
    ensures p.Invalid? ==> |p.issues| > 0
  {
    if !v.Str? then Invalid([TypeIssue("string", v)])
    else
      var c := RunChecks(v.s, checks);
      if c.failures == [] then Valid(c.out) else Invalid(AtRoot(c.failures))
  }

  /** zod's built-in message for `.max(n)` on a string. */
  function StringTooLong(n: nat): string
  {
    "String must contain at most " + NatToString(n) + " character(s)"
  }

  // ---------------------------------------------------------------------------
  // Enums

  function Quoted(options: seq<string>): seq<string>
  {
    seq(|options|, i requires 0 <= i < |options| => "'" + options[i] + "'")
  }

  /** `z.enum(options)`. */
  function ParseEnum(v: Value, options: seq<string>): (p: Parsed<string>)
    ensures p.Valid? <==> v.Str? && v.s in options
    ensures p.Valid? ==> p.value == v.s
    ensures p.Invalid? ==> |p.issues| == 1
  {
    var expected := Join(Quoted(options), " | ");
    if !v.Str? then Invalid([TypeIssue(expected, v)])
    else if v.s !in options then
      Invalid([Issue([], "Invalid enum value. Expected " + expected + ", received '" + v.s + "'")])
    else Valid(v.s)
  }

  // ---------------------------------------------------------------------------
  // Wrappers

  /** `.optional()`: undefined parses to an absent value. */
  function Optional<T>(v: Value, inner: Value -> Parsed<T>): (p: Parsed<Option<T>>)
    ensures v.Missing? ==> p == Valid(None)
    ensures !v.Missing? ==> (p.Valid? <==> inner(v).Valid?)
    ensures !v.Missing? && p.Valid? ==> p.value == Some(inner(v).value)
    ensures p.Invalid? ==> p.issues == inner(v).issues
  {
    if v.Missing? then Valid(None)
    else match inner(v)
      case Valid(x) => Valid(Some(x))
      case Invalid(issues) => Invalid(issues)
  }

  /** `.default(d)`: undefined is replaced by `d`, which then goes through
      the inner schema like any other input. */
  function WithDefault<T>(v: Value, d: Value, inner: Value -> Parsed<T>): (p: Parsed<T>)
    ensures v.Missing? ==> p == inner(d)
    ensures !v.Missing? ==> p == inner(v)
  {
    inner(if v.Missing? then d else v)
  }

  // ---------------------------------------------------------------------------
  // Numbers

  datatype NumberCheck =
    | IsInteger
    | AtLeast(bound: real, message: string)
    | GreaterThan(bound: real, message: string)
    | AtMost(bound: real, message: string)

  predicate IsWhole(n: real)
  {
    n == n.Floor as real
  }

  function NumberFailures(n: real, checks: seq<NumberCheck>): (failures: seq<string>)
    decreases |checks|
  {
    if |checks| == 0 then []
    else
      var here := match checks[0]
        case IsInteger => if IsWhole(n) then [] else ["Expected integer, received float"]
        case AtLeast(b, m) => if n < b then [m] else []
        case GreaterThan(b, m) => if n <= b then [m] else []
        case AtMost(b, m) => if n > b then [m] else [];
      here + NumberFailures(n, checks[1..])
  }

  function CheckNumber(n: real, checks: seq<NumberCheck>): (p: Parsed<real>)
    ensures p.Valid? <==> NumberFailures(n, checks) == []
    ensures p.Valid? ==> p.value == n
  {
    var failures := NumberFailures(n, checks);
    if failures == [] then Valid(n) else Invalid(AtRoot(failures))
  }

  /** `z.number()` followed by `checks`. */
  function ParseNumber(v: Value, checks: seq<NumberCheck>): (p: Parsed<real>)
    ensures p.Valid? ==> v.Num? && p.value == v.n
    ensures v.Num? ==> p == CheckNumber(v.n, checks)
  {
    if !v.Num? then Invalid([TypeIssue("number", v)]) else CheckNumber(v.n, checks)
  }

  /** `z.coerce.number()` followed by `checks`; `toNumber` is JavaScript's
      `Number(value)`, with `None` for NaN. */
  function ParseCoercedNumber(v: Value, toNumber: Value -> Option<real>, checks: seq<NumberCheck>): (p: Parsed<real>)
    ensures toNumber(v).None? ==> p == Invalid([Issue([], "Expected number, received nan")])
    ensures toNumber(v).Some? ==> p == CheckNumber(toNumber(v).value, checks)
  {
    match toNumber(v)
    case None => Invalid([Issue([], "Expected number, received nan")])
    case Some(n) => CheckNumber(n, checks)
  }

  // ---------------------------------------------------------------------------
  // Arrays

  /** The parsed elements, the issues found (with the element's index in
      front of each path) and whether every element parsed. */
  datatype Items<T> = Items(values: seq<T>, issues: seq<Issue>, ok: bool)

  function ParseItems<T>(items: seq<Value>, start: nat, element: Value -> Parsed<T>): (r: Items<T>)
    ensures r.ok <==> forall i :: 0 <= i < |items| ==> element(items[i]).Valid?
    ensures r.ok ==> |r.values| == |items|
    ensures r.ok ==> forall i :: 0 <= i < |items| ==> element(items[i]) == Valid(r.values[i])
    decreases |items|
  {
    if |items| == 0 then Items([], [], true)
    else
      var head := element(items[0]);
      var tail := ParseItems(items[1..], start + 1, element);
      var issues := Under(Index(start), head) + tail.issues;
      assert forall i :: 1 <= i < |items| ==> items[i] == items[1..][i - 1];
      match head
      case Valid(x) => Items([x] + tail.values, issues, tail.ok)
      case Invalid(_) => Items(tail.values, issues, false)
  }

  /** `z.array(element).min(lo).max(hi)`: the length checks come first,
      then every element is parsed; all issues are collected. */
  function ParseArray<T>(v: Value, element: Value -> Parsed<T>, lo: nat, hi: nat): (p: Parsed<seq<T>>)
    ensures p.Valid? <==> v.Arr? && lo <= |v.items| <= hi
                          && forall i :: 0 <= i < |v.items| ==> element(v.items[i]).Valid?
    ensures p.Valid? ==> |p.value| == |v.items|
                         && forall i :: 0 <= i < |v.items| ==> element(v.items[i]) == Valid(p.value[i])
  {
    if !v.Arr? then Invalid([TypeIssue("array", v)])
    else
      var n := |v.items|;
      var lengthIssues :=
        (if n < lo then [Issue([], "Array must contain at least " + NatToString(lo) + " element(s)")] else [])
        + (if n > hi then [Issue([], "Array must contain at most " + NatToString(hi) + " element(s)")] else []);
      var parsed := ParseItems(v.items, 0, element);
      if lengthIssues == [] && parsed.ok then Valid(parsed.values) else Invalid(lengthIssues + parsed.issues)
  }
}
