/** Field validation: one rule chain (required, then pattern, then callback) and the four
    validators built on it. A result of "" means valid; anything else is the message shown. */
module Validation {
  import opened Wrappers

  /** The optional settings of one validation: label, required flag, pattern test and callback. */
  datatype Config = Config(
    name: Option<string>,
    isRequired: bool,
    regex: Option<string -> bool>,
    callback: Option<string -> string>)

  /** `config.name ?? 'field'`. */
  function Label(config: Config): (fieldName: string)
    ensures config.name.None? ==> fieldName == "field"
    ensures config.name.Some? ==> fieldName == config.name.value
  {
    if config.name.Some? then config.name.value else "field"
  }

  function RequiredMessage(fieldName: string): string {
    "The " + fieldName + " is required"
  }

  function FormatMessage(fieldName: string): string {
    "Invalid " + fieldName + " format"
  }

  /** `validate(input, config)`: the first rule that fails decides the message. */
  function Validate(input: string, config: Config): (r: string)
    ensures config.isRequired && input == "" ==> r == RequiredMessage(Label(config))
    ensures !(config.isRequired && input == "") && config.regex.Some? && !config.regex.value(input) ==>
      r == FormatMessage(Label(config))
    ensures PassesChecks(input, config) ==>
      r == if config.callback.None? then "" else config.callback.value(input)
  {
    var fieldName := Label(config);
    if config.isRequired && input == "" then RequiredMessage(fieldName)
    else if config.regex.Some? && !config.regex.value(input) then FormatMessage(fieldName)
    else if config.callback.None? then ""
    else config.callback.value(input)
  }

  /** The required check and the pattern check both let `input` through. */
  predicate PassesChecks(input: string, config: Config) {
    && !(config.isRequired && input == "")
    && (config.regex.None? || config.regex.value(input))
  }

  /** An input is valid exactly when every configured rule accepts it. */
  lemma ValidIffAllRulesPass(input: string, config: Config)
    ensures Validate(input, config) == "" <==>
      PassesChecks(input, config) && (config.callback.None? || config.callback.value(input) == "")
  {
    var fieldName := Label(config);
    assert RequiredMessage(fieldName)[0] == 'T';
    assert FormatMessage(fieldName)[0] == 'I';
  }

  // ----- The phone number pattern /^\(\d{3}\) \d{3}-\d{4}$/ -----

  /** One position of an anchored pattern made of single characters. */
  datatype Atom = Char(c: char) | Digit

  /** `\d` matches the ASCII digits only. */
  predicate IsDigit(c: char) {
    '0' <= c <= '9'
  }

  predicate AtomMatches(a: Atom, c: char) {
    match a
    case Char(x) => c == x
    case Digit => IsDigit(c)
  }

  /** `^…$`: the pattern consumes the whole input, one atom per character. */
  predicate FullMatch(pattern: seq<Atom>, s: string)
    decreases pattern
  {
    if pattern == [] then s == []
    else s != [] && AtomMatches(pattern[0], s[0]) && FullMatch(pattern[1..], s[1..])
  }

  /** `/^\(\d{3}\) \d{3}-\d{4}$/` with its counted repetitions written out. */
  const PHONE_NUMBER_PATTERN: seq<Atom> := [
    Char('('), Digit, Digit, Digit, Char(')'), Char(' '),
    Digit, Digit, Digit, Char('-'),
    Digit, Digit, Digit, Digit]

  /** "(ddd) ddd-dddd" with ASCII digits, character by character. */
  predicate IsPhoneShape(s: string) {
    && |s| == 14
    && s[0] == '(' && IsDigit(s[1]) && IsDigit(s[2]) && IsDigit(s[3]) && s[4] == ')'
    && s[5] == ' ' && IsDigit(s[6]) && IsDigit(s[7]) && IsDigit(s[8]) && s[9] == '-'
    && IsDigit(s[10]) && IsDigit(s[11]) && IsDigit(s[12]) && IsDigit(s[13])
  }

  /** An anchored single-character pattern matches exactly the inputs of its length that
      agree with it position by position. */
  lemma {:induction false} FullMatchPointwise(pattern: seq<Atom>, s: string)
    ensures FullMatch(pattern, s) <==>
      |s| == |pattern| && forall i :: 0 <= i < |pattern| ==> AtomMatches(pattern[i], s[i])
    decreases pattern
  {
    if pattern != [] && s != [] {
      FullMatchPointwise(pattern[1..], s[1..]);
      if |s| == |pattern| && forall i :: 0 <= i < |pattern| ==> AtomMatches(pattern[i], s[i]) {
        assert forall i :: 0 <= i < |pattern| - 1 ==> pattern[1..][i] == pattern[i + 1] && s[1..][i] == s[i + 1];
      }
    }
  }

  /** The phone pattern accepts exactly the "(ddd) ddd-dddd" strings. */
  lemma PhonePatternExact(s: string)
    ensures FullMatch(PHONE_NUMBER_PATTERN, s) <==> IsPhoneShape(s)
  {
    FullMatchPointwise(PHONE_NUMBER_PATTERN, s);
    if IsPhoneShape(s) {
      forall i | 0 <= i < |PHONE_NUMBER_PATTERN|
        ensures AtomMatches(PHONE_NUMBER_PATTERN[i], s[i])
      {
      }
    }
  }

  /** `PHONE_NUMBER_REGEX.test(s)`. */
  predicate PhoneRegexTest(s: string) {
    FullMatch(PHONE_NUMBER_PATTERN, s)
  }

  // ----- The four validators -----

  /** `validateName`: required only. */
  function ValidateName(input: string): (r: string)
    ensures input == "" ==> r == "The name is required"
    ensures input != "" ==> r == ""
  {
    Validate(input, Config(Some("name"), true, None, None))
  }

  /** `validatePhoneNumber`: required, then the phone pattern. */
  function ValidatePhoneNumber(input: string): (r: string)
    ensures input == "" ==> r == "The phone number is required"
    ensures input != "" && IsPhoneShape(input) ==> r == ""
    ensures input != "" && !IsPhoneShape(input) ==> r == "Invalid phone number format"
  {
    PhonePatternExact(input);
    assert RequiredMessage("phone number") == "The phone number is required";
    Validate(input, Config(Some("phone number"), true, Some(PhoneRegexTest), None))
  }

  /** Every string the email pattern accepts contains an '@': each alternative of the
      pattern has a literal '@' between local part and domain. */
  ghost predicate MatchesNeedAt(emailTest: string -> bool) {
    forall s :: emailTest(s) ==> '@' in s
  }

  /** `validateEmail`: required, then the email pattern, given here as `emailTest`. */
  function ValidateEmail(input: string, emailTest: string -> bool): (r: string)
    ensures input == "" ==> r == "The email is required"
    ensures input != "" && !emailTest(input) ==> r == "Invalid email format"
    ensures input != "" && emailTest(input) ==> r == ""
  {
    Validate(input, Config(Some("email"), true, Some(emailTest), None))
  }

  /** A non-empty input without '@' is never a valid email. */
  lemma EmailWithoutAt(input: string, emailTest: string -> bool)
    requires MatchesNeedAt(emailTest)
    requires input != "" && '@' !in input
    ensures ValidateEmail(input, emailTest) == "Invalid email format"
  {
  }

  const FUTURE_DATE_MESSAGE := "The date of birth should be from past"

  /** The date-of-birth callback: `new Date(input) > new Date()`. `parseDate` gives the
      time value of `new Date(input)`, None for an Invalid Date (NaN), and `now` the clock's
      time value; a comparison with NaN is false, so an unparseable input passes. */
  function DateOfBirthCheck(input: string, parseDate: string -> Option<int>, now: int): (r: string)
    ensures r == FUTURE_DATE_MESSAGE <==> parseDate(input).Some? && parseDate(input).value > now
    ensures r != FUTURE_DATE_MESSAGE ==> r == ""
  {
    var date := parseDate(input);
    if date.Some? && date.value > now then "The " + "date of birth" + " should be from past" else ""
  }

  /** `validateDateOfBirth`: required, then the future-date callback. */
  function ValidateDateOfBirth(input: string, parseDate: string -> Option<int>, now: int): (r: string)
    ensures input == "" ==> r == "The date of birth is required"
    ensures input != "" ==> r == "" || r == FUTURE_DATE_MESSAGE
    ensures input != "" ==> (r == FUTURE_DATE_MESSAGE <==> parseDate(input).Some? && parseDate(input).value > now)
  {
    Validate(input, Config(Some("date of birth"), true, None, Some(s => DateOfBirthCheck(s, parseDate, now))))
  }
}
