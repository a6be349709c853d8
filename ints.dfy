/** The conversions of the agent's configuration handling: `to_int` and
    `StatsdConfig.get_str` / `get_int` / `get_boolean` (statsd-agent.py:29-33, 266-279). */
module Ints {

  import opened Wrappers
  import opened Text

  /** Characters Python's `str.strip()` removes (the ASCII ones). */
  const Whitespace: set<char> := {' ', '\t', '\n', '\r', '\U{B}', '\U{C}'}

  predicate IsDigit(c: char) {
    '0' <= c <= '9'
  }

  predicate AllDigits(s: string) {
    forall k :: 0 <= k < |s| ==> IsDigit(s[k])
  }

  /** The number a string of decimal digits spells. */
  function DigitsValue(s: string): nat
    requires AllDigits(s)
  {
    if s == [] then 0
    else DigitsValue(s[..|s| - 1]) * 10 + (s[|s| - 1] as int - '0' as int)
  }

  /** The part of `int(s)` after the sign: whitespace, then at least one digit. */
  function Magnitude(u: string): Option<nat> {
    var body := u[Leading(u, Whitespace)..];
    if body != [] && AllDigits(body) then Some(DigitsValue(body)) else None
  }

  /** Python 2's `int(s)` for a str, as CPython 2.7's `PyOS_strtol` reads it:
      surrounding whitespace, an optional sign, whitespace between the sign and the
      digits, and at least one decimal digit; anything else is the `ValueError`
      case (None). */
  function ParseInt(s: string): (r: Option<int>)
    ensures Strip(s, Whitespace) == [] ==> r.None?
  {
    var t := Strip(s, Whitespace);
    if t == [] then None
    else if t[0] == '-' then
      match Magnitude(t[1..])
      case None => None
      case Some(v) => Some(-(v as int))
    else if t[0] == '+' then Magnitude(t[1..])
    else Magnitude(t)
  }

  /** Whitespace between the sign and the digits is skipped: `int("-" + w + d)` is
      -m, for a whitespace run w and a digit string d that spells m. */
  lemma {:induction false} SpaceAfterMinus(w: string, d: string, m: nat)
    requires AllIn(w, Whitespace) && d != [] && AllDigits(d) && DigitsValue(d) == m
    ensures ParseInt("-" + (w + d)) == Some(-(m as int))
  {
    MagnitudeAfterSpace(w, d);
    DigitIsNotSpace(d[|d| - 1]);
    MinusRun(w + d, m);
  }

  /** The same after '+': `int("+" + w + d)` is m. */
  lemma {:induction false} SpaceAfterPlus(w: string, d: string, m: nat)
    requires AllIn(w, Whitespace) && d != [] && AllDigits(d) && DigitsValue(d) == m
    ensures ParseInt("+" + (w + d)) == Some(m)
  {
    MagnitudeAfterSpace(w, d);
    DigitIsNotSpace(d[|d| - 1]);
    PlusRun(w + d, m);
  }

  lemma {:induction false} MinusRun(t: string, m: nat)
    requires t != [] && t[|t| - 1] !in Whitespace && Magnitude(t) == Some(m)
    ensures ParseInt("-" + t) == Some(-(m as int))
  {
    var s := "-" + t;
    assert s[1..] == t;
    assert Magnitude(s[1..]) == Some(m);
    assert s[|s| - 1] == t[|t| - 1];
    ParseMinus(s);
  }

  lemma {:induction false} PlusRun(t: string, m: nat)
    requires t != [] && t[|t| - 1] !in Whitespace && Magnitude(t) == Some(m)
    ensures ParseInt("+" + t) == Some(m)
  {
    var s := "+" + t;
    assert s[1..] == t;
    assert Magnitude(s[1..]) == Some(m);
    assert s[|s| - 1] == t[|t| - 1];
    ParsePlus(s);
  }

  /** The magnitude skips a whitespace run in front of the digits. */
  lemma {:induction false} MagnitudeAfterSpace(w: string, d: string)
    requires AllIn(w, Whitespace) && d != [] && AllDigits(d)
    ensures Magnitude(w + d) == Some(DigitsValue(d))
  {
    DigitIsNotSpace(d[0]);
    LeadingOfRun(w, d, Whitespace);
    assert (w + d)[|w|..] == d;
  }

  /** Decimal rendering of a natural number, most significant digit first. */
  function ShowNat(n: nat): (s: string)
    ensures s != [] && AllDigits(s)
  {
    if n < 10 then ['0' + n as char]
    else ShowNat(n / 10) + ['0' + (n % 10) as char]
  }

  /** `str(n)` for an integer. */
  function Show(n: int): (s: string)
    ensures s != []
  {
    if n < 0 then "-" + ShowNat(-n) else ShowNat(n)
  }

  lemma {:induction false} DigitsValueShowNat(n: nat)
    ensures DigitsValue(ShowNat(n)) == n
  {
    var s := ShowNat(n);
    if n >= 10 {
      DigitsValueShowNat(n / 10);
      assert s[..|s| - 1] == ShowNat(n / 10);
    }
  }

  lemma DigitIsNotSpace(c: char)
    requires IsDigit(c)
    ensures c !in Whitespace
  {
  }

  /** A run of digits is read as the number it spells. */
  lemma MagnitudeOfDigits(d: string)
    requires d != [] && AllDigits(d)
    ensures Magnitude(d) == Some(DigitsValue(d))
  {
    DigitIsNotSpace(d[0]);
    assert d[0..] == d;
  }

  /** `int(str(n)) == n`: parsing undoes rendering. */
  lemma ParseShow(n: int)
    ensures ParseInt(Show(n)) == Some(n)
  {
    if n < 0 {
      ParseShowNegative(n);
    } else {
      ParseShowNat(n);
    }
  }

  lemma ParseShowNat(n: int)
    requires n >= 0
    ensures ParseInt(Show(n)) == Some(n)
  {
    var digits := ShowNat(n);
    assert Show(n) == digits;
    DigitsValueShowNat(n);
    DigitIsNotSpace(digits[0]);
    DigitIsNotSpace(digits[|digits| - 1]);
    MagnitudeOfDigits(digits);
    StripUntouched(digits, Whitespace);
  }

  lemma ParseShowNegative(n: int)
    requires n < 0
    ensures ParseInt(Show(n)) == Some(n)
  {
    var digits := ShowNat(-n);
    DigitsValueShowNat(-n);
    DigitIsNotSpace(digits[|digits| - 1]);
    MagnitudeOfDigits(digits);
    var s := Show(n);
    assert s == "-" + digits;
    assert s[1..] == digits;
    assert s[|s| - 1] == digits[|digits| - 1];
    assert Magnitude(s[1..]) == Some(-n);
    ParseMinus(s);
  }

  /** A string that starts with '-' and does not end in whitespace is the negated
      magnitude of the rest. */
  lemma ParseMinus(s: string)
    requires |s| >= 2 && s[0] == '-' && s[|s| - 1] !in Whitespace
    ensures Magnitude(s[1..]).None? ==> ParseInt(s).None?
    ensures Magnitude(s[1..]).Some? ==> ParseInt(s) == Some(-(Magnitude(s[1..]).value as int))
  {
    StripUntouched(s, Whitespace);
  }

  /** The same for a string that starts with '+': the sign is dropped. */
  lemma ParsePlus(s: string)
    requires |s| >= 2 && s[0] == '+' && s[|s| - 1] !in Whitespace
    ensures ParseInt(s) == Magnitude(s[1..])
  {
    StripUntouched(s, Whitespace);
  }

  /** `to_int(value, default)`: `int(value)`, or the default when the conversion
      raises (`ValueError` for a malformed string, `TypeError` for `None`). */
  function ToInt(value: Option<string>, default: int): (r: int)
    ensures value.None? ==> r == default
    ensures value.Some? && ParseInt(value.value).Some? ==> r == ParseInt(value.value).value
    ensures value.Some? && ParseInt(value.value).None? ==> r == default
  {
    match value
    case None => default
    case Some(s) =>
      match ParseInt(s)
      case Some(n) => n
      case None => default
  }

  /** A config file read by `RawConfigParser(allow_no_value=True)`: section name to
      option name to value, where a `None` value is an option written without one. */
  type Config = map<string, map<string, Option<string>>>

  /** `get_str(opt, section, default)`: the option's value (possibly `None`), or the
      default when the section or the option is missing. */
  function GetStr(cfg: Config, section: string, opt: string, default: string): (r: Option<string>)
    ensures section !in cfg || opt !in cfg[section] ==> r == Some(default)
    ensures section in cfg && opt in cfg[section] ==> r == cfg[section][opt]
  {
    if section in cfg && opt in cfg[section] then cfg[section][opt] else Some(default)
  }

  /** `get_int(opt, section, default)`: the option converted by `to_int`; a missing
      option reads as `''`, which does not convert, so it gives the default. */
  function GetInt(cfg: Config, section: string, opt: string, default: int): int {
    ToInt(GetStr(cfg, section, opt, ""), default)
  }

  /** What `get_int` returns: the written number, else the default for a missing
      option, an option without a value, or a value that is not a number. */
  lemma GetIntCases(cfg: Config, section: string, opt: string, default: int, n: int)
    ensures section !in cfg || opt !in cfg[section] ==> GetInt(cfg, section, opt, default) == default
    ensures section in cfg && opt in cfg[section] && cfg[section][opt].None? ==>
              GetInt(cfg, section, opt, default) == default
    ensures section in cfg && opt in cfg[section] && cfg[section][opt].Some? ==>
              var v := cfg[section][opt].value;
              && (ParseInt(v).None? ==> GetInt(cfg, section, opt, default) == default)
              && (ParseInt(v).Some? ==> GetInt(cfg, section, opt, default) == ParseInt(v).value)
    ensures section in cfg && opt in cfg[section] && cfg[section][opt] == Some(Show(n)) ==>
              GetInt(cfg, section, opt, default) == n
  {
    if section in cfg && opt in cfg[section] && cfg[section][opt] == Some(Show(n)) {
      ParseShow(n);
    }
  }
  /** Why `getboolean` raises past `get_boolean`'s `except Error`: an option written
      without a value (`None.lower()`, an `AttributeError`) or a value that is not
      one of the boolean spellings (`ValueError`). */
  datatype BoolError = NoValue | NotABoolean(value: string)

  /** `str.lower()` on ASCII letters. */
  function Lower(s: string): (r: string) {
    seq(|s|, k requires 0 <= k < |s| => if 'A' <= s[k] <= 'Z' then (s[k] as int + 32) as char else s[k])
  }

  /** `RawConfigParser._boolean_states`. */
  const BooleanStates: map<string, bool> :=
    map["1" := true, "yes" := true, "true" := true, "on" := true,
        "0" := false, "no" := false, "false" := false, "off" := false]

  /** `get_boolean(opt, section, default)`: the default when the section or the option
      is missing (`NoSectionError`, `NoOptionError`); otherwise `getboolean`, which looks
      the lower-cased value up in the boolean spellings and raises when it cannot. */
  function GetBoolean(cfg: Config, section: string, opt: string, default: bool): (r: Result<bool, BoolError>)
    ensures section !in cfg || opt !in cfg[section] ==> r == Ok(default)
    ensures section in cfg && opt in cfg[section] && cfg[section][opt].None? ==> r == Err(NoValue)
    ensures section in cfg && opt in cfg[section] && cfg[section][opt].Some? ==>
              var v := cfg[section][opt].value;
              && (r.Ok? <==> Lower(v) in BooleanStates)
              && (r.Ok? ==> r.value == (Lower(v) in {"1", "yes", "true", "on"}))
              && (r.Err? ==> r == Err(NotABoolean(v)))
  {
    if section in cfg && opt in cfg[section] then
      match cfg[section][opt]
      case None => Err(NoValue)
      case Some(v) =>
        var key := Lower(v);
        if key in BooleanStates then Ok(BooleanStates[key]) else Err(NotABoolean(v))
    else Ok(default)
  }

  /** Two values that differ only in letter case convert alike. */
  lemma SameSpelling(cfg: Config, section: string, opt: string, default: bool, v: string, w: string)
    requires section in cfg && opt in cfg[section]
    requires cfg[section][opt] == Some(v)
    requires Lower(v) == Lower(w)
    ensures GetBoolean(cfg, section, opt, default).Ok? ==>
              GetBoolean(cfg[section := cfg[section][opt := Some(w)]], section, opt, default)
              == GetBoolean(cfg, section, opt, default)
    ensures GetBoolean(cfg, section, opt, default).Err? ==>
              GetBoolean(cfg[section := cfg[section][opt := Some(w)]], section, opt, default)
              == Err(NotABoolean(w))
  {
  }
}
