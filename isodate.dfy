/**
 * `toISODate` of the item-creation form: turns a spoken or typed date into the ISO 8601
 * calendar-date text `YYYY-MM-DD` (section 4.1.2.2 of ISO 8601:2004, extended format),
 * or into "" when it cannot.
 */
module IsoDate {
  import opened Wrappers
  import opened Text
  import opened Calendar

  /**
   * What the page asks of its host. `today` is the UTC day number (days since 1970-01-01)
   * of `new Date()`; `parse` is `new Date(value)` of the browser, giving the local calendar
   * date (`getFullYear`, `getMonth() + 1`, `getDate()`) of a valid result and None for an
   * invalid one.
   */
  datatype Env = Env(today: int, parse: string -> Option<Civil>)

  /** Numeric value of a string of decimal digits (`+"07"` is 7). */
  function DecimalValue(s: string): (n: nat)
    requires AllDigits(s)
    ensures |s| <= 1 ==> n < 10
    ensures |s| <= 2 ==> n < 100
    ensures |s| <= 4 ==> n < 10000
  {
    DigitsValue(s)
  }

  /** Month, day and year text of `^(\d{1,2})\/(\d{1,2})\/(\d{4})$`, if `v` matches. */
  datatype Mdy = Mdy(month: string, day: string, year: string)

  predicate IsMdyPart(s: string, lo: nat, hi: nat) {
    lo <= |s| <= hi && AllDigits(s)
  }

  /** One or two digits, one or two digits and four digits: groups the pattern can capture. */
  predicate IsMdy(mdy: Mdy) {
    IsMdyPart(mdy.month, 1, 2) && IsMdyPart(mdy.day, 1, 2) && IsMdyPart(mdy.year, 4, 4)
  }

  /** The text `M/D/YYYY` the groups were captured from. */
  function MdyText(mdy: Mdy): string {
    mdy.month + "/" + mdy.day + "/" + mdy.year
  }

  /** `new Date(Date.UTC(yyyy, mm - 1, dd)).toISOString().slice(0, 10)` for the groups of `M/D/YYYY`. */
  function MdyDayText(mdy: Mdy): string
    requires IsMdy(mdy)
  {
    UtcDayText(DecimalValue(mdy.year), DecimalValue(mdy.month) - 1, DecimalValue(mdy.day))
  }

  /**
   * The two digit groups cannot swallow a slash, so the slashes alone decide where the
   * groups end; the greedy `\d{1,2}` is tried with two digits first.
   */
  function MatchMdy(v: string): (r: Option<Mdy>)
    ensures r.Some? <==> exists a, b :: 1 <= a <= 2 && 1 <= b <= 2 && IsMdyAt(v, a, b)
    ensures r.Some? ==> v == MdyText(r.value) && IsMdy(r.value)
  {
    if IsMdyAt(v, 2, 2) then Some(SplitMdy(v, 2, 2))
    else if IsMdyAt(v, 2, 1) then Some(SplitMdy(v, 2, 1))
    else if IsMdyAt(v, 1, 2) then Some(SplitMdy(v, 1, 2))
    else if IsMdyAt(v, 1, 1) then Some(SplitMdy(v, 1, 1))
    else None
  }

  /** `v` is an `a`-digit month, a slash, a `b`-digit day, a slash and a four-digit year. */
  predicate IsMdyAt(v: string, a: nat, b: nat) {
    |v| == a + b + 6 && forall k :: 0 <= k < |v| ==> if k == a || k == a + 1 + b then v[k] == '/' else IsDigit(v[k])
  }

  function SplitMdy(v: string, a: nat, b: nat): (r: Mdy)
    requires IsMdyAt(v, a, b)
    ensures v == r.month + "/" + r.day + "/" + r.year
    ensures |r.month| == a && |r.day| == b && |r.year| == 4
    ensures AllDigits(r.month) && AllDigits(r.day) && AllDigits(r.year)
  {
    Mdy(v[..a], v[a + 1..a + 1 + b], v[a + b + 2..])
  }

  /**
   * `toISODate(value)`. Its result is "" or ten characters: `YYYY-MM-DD` whenever the
   * year lies in 0..9999, otherwise the first ten characters of `toISOString`'s
   * extended-year form (`+010007-06`). Text already shaped `YYYY-MM-DD` comes back as it
   * is, with no calendar check; "" means the host's own parse failed as well.
   */
  function ToISODate(value: string, env: Env): (r: string)
    ensures r == "" || |r| == 10
    ensures r == "" || IsIsoShape(r) || r[0] == '+' || r[0] == '-'
    ensures IsIsoShape(value) ==> r == value
    ensures ToLower(Trim(value)) == "today" ==> r == IsoDayText(env.today)
    ensures ToLower(Trim(value)) == "tomorrow" ==> r == IsoDayText(env.today + 1)
    ensures r == "" ==> !IsIsoShape(value) && env.parse(value).None?
  {
    IsoShapeIsNoCommand(value);
    var v := ToLower(Trim(value));
    if v == "today" then IsoDayText(env.today)
    else if v == "tomorrow" then IsoDayText(env.today + 1)
    else match MatchMdy(v)
      case Some(mdy) => MdyDayText(mdy)
      case None =>
        if IsIsoShape(value) then value else HostDayText(value, env)
  }

  /** The last resort of `toISODate`: the host's own date parse, read back as a UTC day. */
  function HostDayText(value: string, env: Env): (r: string)
    ensures r == "" <==> env.parse(value).None?
    ensures r == "" || |r| == 10
    ensures r == "" || IsIsoShape(r) || r[0] == '+' || r[0] == '-'
  {
    match env.parse(value)
    case Some(c) => UtcDayText(c.year, c.month - 1, c.day)
    case None => ""
  }

  /** `M/D/YYYY` text, after trimming and lower-casing, is read as that calendar date. */
  lemma ToISODateOfMdy(value: string, env: Env, mdy: Mdy)
    requires var v := ToLower(Trim(value)); v != "today" && v != "tomorrow" && MatchMdy(v) == Some(mdy)
    ensures ToISODate(value, env) == MdyDayText(mdy)
  {
  }

  /** Text that is no date word, no `M/D/YYYY` date and no ISO date is what the host date parser makes of it. */
  lemma ToISODateOfParsed(value: string, env: Env, c: Civil)
    requires var v := ToLower(Trim(value)); v != "today" && v != "tomorrow" && MatchMdy(v).None?
    requires !IsIsoShape(value) && env.parse(value) == Some(c)
    ensures ToISODate(value, env) == UtcDayText(c.year, c.month - 1, c.day)
  {
    assert ToISODate(value, env) == HostDayText(value, env);
  }

  /** `toISODate` gives "" exactly for text that is no date word, no `M/D/YYYY` date, not ISO-shaped and not parsed by the host. */
  lemma ToISODateEmpty(value: string, env: Env)
    ensures ToISODate(value, env) == "" <==>
      var v := ToLower(Trim(value));
      v != "today" && v != "tomorrow" && MatchMdy(v).None? && !IsIsoShape(value) && env.parse(value).None?
  {
    var v := ToLower(Trim(value));
    if v != "today" && v != "tomorrow" && MatchMdy(v).None? && !IsIsoShape(value) {
      assert ToISODate(value, env) == HostDayText(value, env);
    }
  }

  /** Text shaped `YYYY-MM-DD` is neither a `today`/`tomorrow` word nor an `M/D/YYYY` date. */
  lemma {:induction false} IsoShapeIsNoCommand(value: string)
    ensures IsIsoShape(value) ==>
      var w := ToLower(Trim(value)); w != "today" && w != "tomorrow" && MatchMdy(w).None?
  {
    if !IsIsoShape(value) { return; }
    assert IsDigit(value[0]) && IsDigit(value[9]);
    TrimTrimmed(value);
    LowerKeeps(value);
    assert ToLower(Trim(value)) == value;
    assert IsDigit(value[2]);
  }

  /** The slashes of `M/D/YYYY` text fix its three groups. */
  lemma {:induction false} MatchMdyOf(mdy: Mdy)
    requires IsMdy(mdy)
    ensures MatchMdy(MdyText(mdy)) == Some(mdy)
  {
    var v, sm, sd, sy := MdyText(mdy), mdy.month, mdy.day, mdy.year;
    var a, b := |sm|, |sd|;
    forall k | 0 <= k < |v| ensures if k == a || k == a + 1 + b then v[k] == '/' else IsDigit(v[k]) {
      if k < a { assert v[k] == sm[k]; }
      else if a < k < a + 1 + b { assert v[k] == sd[k - a - 1]; }
      else if a + 1 + b < k { assert v[k] == sy[k - a - b - 2]; }
    }
    assert IsMdyAt(v, a, b);
    assert a == 1 ==> v[1] == '/';
    assert b == 1 ==> v[a + 2] == '/';
    assert a == 2 ==> IsDigit(v[1]);
    assert b == 2 ==> IsDigit(v[a + 2]);
    MdyTextSlices(mdy);
  }

  /** The slashes of `M/D/YYYY` text sit right after its month and its day. */
  lemma {:induction false} MdyTextSlices(mdy: Mdy)
    ensures var v, a, b := MdyText(mdy), |mdy.month|, |mdy.day|;
      v[..a] == mdy.month && v[a + 1..a + 1 + b] == mdy.day && v[a + b + 2..] == mdy.year
  {
    var v, sm, sd, sy := MdyText(mdy), mdy.month, mdy.day, mdy.year;
    var a, b := |sm|, |sd|;
    assert v[..a] == sm by {
      forall k | 0 <= k < a ensures v[..a][k] == sm[k] { assert v[k] == sm[k]; }
    }
    assert v[a + 1..a + 1 + b] == sd by {
      forall k | 0 <= k < b ensures v[a + 1..a + 1 + b][k] == sd[k] { assert v[a + 1 + k] == sd[k]; }
    }
    assert v[a + b + 2..] == sy by {
      var x := sm + "/" + sd + "/";
      assert v == x + sy && |x| == a + b + 2;
      forall k | 0 <= k < |sy| ensures v[a + b + 2..][k] == sy[k] { assert (x + sy)[|x| + k] == sy[k]; }
    }
  }

  /** `M/D/YYYY` text starts and ends with a digit, so `trim` keeps it. */
  lemma {:induction false} MdyTextTrimmed(mdy: Mdy)
    requires IsMdy(mdy)
    ensures var v := MdyText(mdy); Trim(v) == v && IsDigit(v[0])
  {
    var v := MdyText(mdy);
    assert v[0] == mdy.month[0] && v[|v| - 1] == mdy.year[3];
    TrimTrimmed(v);
  }

  /** `M/D/YYYY` text holds only digits and slashes, so `toLowerCase` keeps it. */
  lemma {:induction false} MdyTextLower(mdy: Mdy)
    requires IsMdy(mdy)
    ensures ToLower(MdyText(mdy)) == MdyText(mdy)
  {
    var v, sm, sd, sy := MdyText(mdy), mdy.month, mdy.day, mdy.year;
    forall k | 0 <= k < |v| ensures IsDigit(v[k]) || v[k] == '/' {
      if k < |sm| { assert v[k] == sm[k]; }
      else if k == |sm| { }
      else if k < |sm| + 1 + |sd| { assert v[k] == sd[k - |sm| - 1]; }
      else if k == |sm| + 1 + |sd| { }
      else { assert v[k] == sy[k - |sm| - |sd| - 2]; }
    }
    LowerKeeps(v);
  }

  /** After trimming and lower-casing, `M/D/YYYY` text starts with a digit and matches as itself. */
  lemma {:induction false} MdyWords(mdy: Mdy)
    requires IsMdy(mdy)
    ensures var w := ToLower(Trim(MdyText(mdy)));
      |w| > 0 && IsDigit(w[0]) && MatchMdy(w) == Some(mdy)
  {
    MdyTextTrimmed(mdy);
    MdyTextLower(mdy);
    MatchMdyOf(mdy);
  }

  /** A value whose trimmed, lower-cased text matches `M/D/YYYY` goes to `Date.UTC`. */
  lemma {:induction false} MdyWordsDate(value: string, mdy: Mdy, env: Env)
    requires var w := ToLower(Trim(value)); w != "today" && w != "tomorrow" && MatchMdy(w) == Some(mdy)
    ensures ToISODate(value, env) == MdyDayText(mdy)
  {
  }

  /** `M/D/YYYY` text reaches `Date.UTC(YYYY, M - 1, D)`. */
  lemma {:induction false} MdyDate(mdy: Mdy, env: Env)
    requires IsMdy(mdy)
    ensures ToISODate(MdyText(mdy), env) == MdyDayText(mdy)
  {
    MdyWords(mdy);
    MdyWordsDate(MdyText(mdy), mdy, env);
  }

  /** `M/D/YYYY` naming an existing date gives that date, zero-padded; a year 00..99 reads as 1900..1999. */
  lemma {:induction false} MdyExistingDate(mdy: Mdy, env: Env)
    requires IsMdy(mdy)
    requires IsValid(Civil(FullYear(DecimalValue(mdy.year)), DecimalValue(mdy.month), DecimalValue(mdy.day)))
    ensures ToISODate(MdyText(mdy), env)
      == ZeroPad(FullYear(DecimalValue(mdy.year)), 4) + "-" + ZeroPad(DecimalValue(mdy.month), 2) + "-" + ZeroPad(DecimalValue(mdy.day), 2)
  {
    MdyDate(mdy, env);
    DayTextOfDate(mdy);
  }

  lemma {:induction false} DayTextOfDate(mdy: Mdy)
    requires IsMdy(mdy)
    requires IsValid(Civil(FullYear(DecimalValue(mdy.year)), DecimalValue(mdy.month), DecimalValue(mdy.day)))
    ensures MdyDayText(mdy)
      == ZeroPad(FullYear(DecimalValue(mdy.year)), 4) + "-" + ZeroPad(DecimalValue(mdy.month), 2) + "-" + ZeroPad(DecimalValue(mdy.day), 2)
  {
    UtcDayTextOfDate(DecimalValue(mdy.year), DecimalValue(mdy.month), DecimalValue(mdy.day));
  }

  /** Normalising an already normalised date changes nothing, so normalising twice is harmless. */
  lemma {:induction false} NormalizeTwice(value: string, env: Env)
    requires IsIsoShape(ToISODate(value, env))
    ensures ToISODate(ToISODate(value, env), env) == ToISODate(value, env)
  {
  }
}
