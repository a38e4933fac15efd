/** `datetime.strptime` and `strftime` for the numeric directives the
    dashboard code uses (`%Y %m %d %H %M %S`). Python compiles a format into
    a regular expression: each directive becomes a group of alternatives
    tried in order; literal characters match case-insensitively; white
    space in the format matches one or more white-space characters (`\s+`).
    A match must use up the whole string, and the fields read from it
    must form a real date and time. */
module Strptime {

  import opened Wrappers
  import opened Text
  import opened Calendar

  datatype Directive = Year | Month | Day | Hour | Minute | Second

  /** One piece of a format: a directive, a literal character, or a run of
      white space. The formats here name each directive at most once. */
  datatype Item = Field(d: Directive) | Literal(c: char) | Blank

  type Format = seq<Item>

  /** `%Y-%m-%dT%H:%M:%S` */
  const IsoFormat: Format := [Field(Year), Literal('-'), Field(Month), Literal('-'), Field(Day),
                              Literal('T'), Field(Hour), Literal(':'), Field(Minute), Literal(':'), Field(Second)]
  /** `%Y-%m-%d %H:%M:%S` */
  const SpacedFormat: Format := [Field(Year), Literal('-'), Field(Month), Literal('-'), Field(Day),
                                 Blank, Field(Hour), Literal(':'), Field(Minute), Literal(':'), Field(Second)]
  /** `%Y%m%d` */
  const CompactDate: Format := [Field(Year), Field(Month), Field(Day)]
  /** `%Y-%m-%d` */
  const DashedDate: Format := [Field(Year), Literal('-'), Field(Month), Literal('-'), Field(Day)]
  /** `%H%M%S` */
  const CompactTime: Format := [Field(Hour), Field(Minute), Field(Second)]
  /** `%H:%M:%S` */
  const ColonTime: Format := [Field(Hour), Literal(':'), Field(Minute), Literal(':'), Field(Second)]

  /** One character position of a regular-expression alternative. */
  datatype CharClass = Exactly(c: char) | DigitIn(lo: char, hi: char)

  const AnyDigit: CharClass := DigitIn('0', '9')

  predicate ClassMatches(cc: CharClass, c: char)
  {
    match cc
    case Exactly(e) => c == e
    case DigitIn(lo, hi) => lo <= c <= hi
  }

  /** The alternatives Python's `_strptime` tries for each directive, in
      its order: `\d\d\d\d`; `1[0-2]|0[1-9]|[1-9]`;
      `3[01]|[12]\d|0[1-9]|[1-9]| [1-9]`; `2[0-3]|[0-1]\d|\d`;
      `[0-5]\d|\d`; `6[0-1]|[0-5]\d|\d`. */
  function Alternatives(d: Directive): seq<seq<CharClass>>
  {
    match d
    case Year => [[AnyDigit, AnyDigit, AnyDigit, AnyDigit]]
    case Month => [[Exactly('1'), DigitIn('0', '2')], [Exactly('0'), DigitIn('1', '9')], [DigitIn('1', '9')]]
    case Day => [[Exactly('3'), DigitIn('0', '1')], [DigitIn('1', '2'), AnyDigit], [Exactly('0'), DigitIn('1', '9')],
                 [DigitIn('1', '9')], [Exactly(' '), DigitIn('1', '9')]]
    case Hour => [[Exactly('2'), DigitIn('0', '3')], [DigitIn('0', '1'), AnyDigit], [AnyDigit]]
    case Minute => [[DigitIn('0', '5'), AnyDigit], [AnyDigit]]
    case Second => [[Exactly('6'), DigitIn('0', '1')], [DigitIn('0', '5'), AnyDigit], [AnyDigit]]
  }

  predicate AltMatchesAt(alt: seq<CharClass>, s: string, pos: nat)
  {
    pos + |alt| <= |s| && forall k :: 0 <= k < |alt| ==> ClassMatches(alt[k], s[pos + k])
  }

  /** ASCII case folding, which is all the literals here need. */
  function Lower(c: char): char
  {
    if 'A' <= c <= 'Z' then (c as int + 32) as char else c
  }

  predicate SameLetter(a: char, b: char)
  {
    Lower(a) == Lower(b)
  }

  datatype Capture = Capture(d: Directive, text: string)

  /** A successful match: the text captured for each directive, in format
      order, and the position where the match ended. */
  datatype Match = Match(caps: seq<Capture>, end: nat)

  /** The regular-expression match of `items` against `s` from `pos`, with
      the backtracking order of Python's `re`: the first alternative of a
      directive that lets the rest match wins; `\s+` tries the longest run
      of white space first. */
  function MatchItems(items: Format, s: string, pos: nat): Option<Match>
    requires pos <= |s|
    decreases |items|, 1, 0
  {
    if items == [] then Some(Match([], pos))
    else match items[0]
      case Field(d) => MatchAlts(items, Alternatives(d), s, pos)
      case Literal(c) =>
        if pos < |s| && SameLetter(s[pos], c) then MatchItems(items[1..], s, pos + 1) else None
      case Blank => MatchBlank(items, s, pos, LeadingSpaces(s[pos..]))
  }

  function MatchAlts(items: Format, alts: seq<seq<CharClass>>, s: string, pos: nat): Option<Match>
    requires pos <= |s| && items != [] && items[0].Field?
    decreases |items|, 0, |alts|
  {
    if alts == [] then None
    else if AltMatchesAt(alts[0], s, pos) then
      match MatchItems(items[1..], s, pos + |alts[0]|)
      case Some(m) => Some(Match([Capture(items[0].d, s[pos..pos + |alts[0]|])] + m.caps, m.end))
      case None => MatchAlts(items, alts[1..], s, pos)
    else MatchAlts(items, alts[1..], s, pos)
  }

  function MatchBlank(items: Format, s: string, pos: nat, n: nat): Option<Match>
    requires pos + n <= |s| && items != [] && items[0].Blank?
    decreases |items|, 0, n
  {
    if n == 0 then None
    else match MatchItems(items[1..], s, pos + n)
      case Some(m) => Some(m)
      case None => MatchBlank(items, s, pos, n - 1)
  }

  /** `int(text)` of a captured field: digits, after the one leading space
      the day alternative ` [1-9]` allows (captures have no other form). */
  function IntOf(t: string): nat
  {
    if AllDigits(t) then DecimalValue(t)
    else if |t| > 0 && t[0] == ' ' && AllDigits(t[1..]) then DecimalValue(t[1..])
    else 0
  }

  /** The value captured for `d`, or `default` when the format lacks it. */
  function FieldOf(caps: seq<Capture>, d: Directive, default: int): int
  {
    if caps == [] then default
    else if caps[0].d == d then IntOf(caps[0].text)
    else FieldOf(caps[1..], d, default)
  }

  /** `datetime.strptime(s, fmt)`: None where Python raises ValueError (no
      match, unconverted data remaining, or no such date). Fields the
      format lacks default to 1900-01-01 00:00:00. */
  function Parse(s: string, fmt: Format): (r: Option<DateTime>)
    ensures r.Some? ==> Valid(r.value)
  {
    match MatchItems(fmt, s, 0)
    case None => None
    case Some(m) =>
      if m.end != |s| then None
      else
        var dt := DateTime(FieldOf(m.caps, Year, 1900), FieldOf(m.caps, Month, 1), FieldOf(m.caps, Day, 1),
                           FieldOf(m.caps, Hour, 0), FieldOf(m.caps, Minute, 0), FieldOf(m.caps, Second, 0));
        if Valid(dt) then Some(dt) else None
  }

  // ---------------------------------------------------------------------
  // strftime

  function Two(v: nat): (t: string)
    requires v < 100
    ensures |t| == 2 && AllDigits(t)
  {
    [DigitChar(v / 10), DigitChar(v % 10)]
  }

  /** `%Y`: four digits for the years a `datetime` can hold. */
  function YearText(y: int): string
  {
    if 0 <= y < 10000 then Two(y / 100) + Two(y % 100)
    else if y < 0 then "-" + Decimal(-y)
    else Decimal(y)
  }

  predicate Renderable(dt: DateTime)
  {
    0 <= dt.month < 100 && 0 <= dt.day < 100 && 0 <= dt.hour < 100 && 0 <= dt.minute < 100 && 0 <= dt.second < 100
  }

  function FieldText(d: Directive, dt: DateTime): string
    requires Renderable(dt)
  {
    match d
    case Year => YearText(dt.year)
    case Month => Two(dt.month)
    case Day => Two(dt.day)
    case Hour => Two(dt.hour)
    case Minute => Two(dt.minute)
    case Second => Two(dt.second)
  }

  function Piece(it: Item, dt: DateTime): string
    requires Renderable(dt)
  {
    match it
    case Field(d) => FieldText(d, dt)
    case Literal(c) => [c]
    case Blank => " "
  }

  /** `dt.strftime(fmt)`: white space in the format is written as one space. */
  function Render(fmt: Format, dt: DateTime): string
    requires Renderable(dt)
  {
    if fmt == [] then "" else Piece(fmt[0], dt) + Render(fmt[1..], dt)
  }

  /** Rendering a format made of two parts writes one part after the other. */
  lemma {:induction false} RenderAppend(f: Format, g: Format, dt: DateTime)
    requires Renderable(dt)
    ensures Render(f + g, dt) == Render(f, dt) + Render(g, dt)
  {
    if f == [] {
      assert f + g == g;
    } else {
      assert (f + g)[1..] == f[1..] + g;
      RenderAppend(f[1..], g, dt);
    }
  }

  // ---------------------------------------------------------------------
  // Rendering and parsing back

  /** The shape of a format Python produces: literals are not white space
      (format white space becomes `\s+`), and one run of white space is one
      item. */
  predicate WellFormed(fmt: Format)
  {
    && (forall i :: 0 <= i < |fmt| && fmt[i].Literal? ==> !IsSpace(fmt[i].c))
    && (forall i :: 0 <= i < |fmt| - 1 && fmt[i].Blank? ==> !fmt[i + 1].Blank?)
  }

  /** Every field in the range its directive renders in full width. */
  predicate Canonical(dt: DateTime)
  {
    && 0 <= dt.year < 10000 && 1 <= dt.month <= 12 && 1 <= dt.day <= 31
    && 0 <= dt.hour < 24 && 0 <= dt.minute < 60 && 0 <= dt.second < 60
  }

  function FieldValue(d: Directive, dt: DateTime): int
  {
    match d
    case Year => dt.year
    case Month => dt.month
    case Day => dt.day
    case Hour => dt.hour
    case Minute => dt.minute
    case Second => dt.second
  }

  /** The captures a canonical rendering yields. */
  function Captures(fmt: Format, dt: DateTime): seq<Capture>
    requires Renderable(dt)
  {
    if fmt == [] then []
    else (if fmt[0].Field? then [Capture(fmt[0].d, FieldText(fmt[0].d, dt))] else []) + Captures(fmt[1..], dt)
  }

  /** The date and time a parse of the rendering gives: fields of `dt` the
      format names, defaults for the others. */
  function Filled(fmt: Format, dt: DateTime): DateTime
  {
    DateTime(if Field(Year) in fmt then dt.year else 1900,
             if Field(Month) in fmt then dt.month else 1,
             if Field(Day) in fmt then dt.day else 1,
             if Field(Hour) in fmt then dt.hour else 0,
             if Field(Minute) in fmt then dt.minute else 0,
             if Field(Second) in fmt then dt.second else 0)
  }

  lemma TwoValue(v: nat)
    requires v < 100
    ensures DecimalValue(Two(v)) == v
  {
    var t := Two(v);
    assert t[..1] == [DigitChar(v / 10)];
    assert [DigitChar(v / 10)][..0] == [];
    assert DecimalValue(t[..1]) == v / 10;
    assert DecimalValue(t) == v / 10 * 10 + v % 10;
  }

  lemma YearValue(y: int)
    requires 0 <= y < 10000
    ensures AllDigits(YearText(y)) && DecimalValue(YearText(y)) == y
  {
    var a, b := Two(y / 100), Two(y % 100);
    var t := a + b;
    assert t[..3] == a + [b[0]];
    assert (a + [b[0]])[..2] == a;
    TwoValue(y / 100);
  }

  lemma FieldTextValue(d: Directive, dt: DateTime)
    requires Canonical(dt)
    ensures IntOf(FieldText(d, dt)) == FieldValue(d, dt)
  {
    match d
    case Year => YearValue(dt.year);
    case Month => TwoValue(dt.month);
    case Day => TwoValue(dt.day);
    case Hour => TwoValue(dt.hour);
    case Minute => TwoValue(dt.minute);
    case Second => TwoValue(dt.second);
  }

  /** The alternatives before `j` fail on the characters at `pos` and
      alternative `j` matches, so when the rest of the format matches after
      it, alternative `j` is the one taken. */
  lemma {:induction false} FirstMatching(items: Format, alts: seq<seq<CharClass>>, j: nat, s: string, pos: nat, m: Match)
    requires pos <= |s| && items != [] && items[0].Field?
    requires j < |alts| && AltMatchesAt(alts[j], s, pos)
    requires forall i :: 0 <= i < j ==> !AltMatchesAt(alts[i], s, pos)
    requires MatchItems(items[1..], s, pos + |alts[j]|) == Some(m)
    ensures MatchAlts(items, alts, s, pos) ==
      Some(Match([Capture(items[0].d, s[pos..pos + |alts[j]|])] + m.caps, m.end))
    decreases j
  {
    if j > 0 {
      assert !AltMatchesAt(alts[0], s, pos);
      FirstMatching(items, alts[1..], j - 1, s, pos, m);
    }
  }

  /** Alternative `j` is the first of `alts` to match at `pos`, and it
      takes two characters. */
  predicate FirstTwoWide(alts: seq<seq<CharClass>>, j: nat, s: string, pos: nat)
  {
    && j < |alts| && |alts[j]| == 2 && AltMatchesAt(alts[j], s, pos)
    && forall i :: 0 <= i < j ==> !AltMatchesAt(alts[i], s, pos)
  }

  /** Two digits `a`, `b` are at `pos`. */
  predicate DigitsAt(s: string, pos: nat, a: nat, b: nat)
  {
    a < 10 && b < 10 && pos + 2 <= |s| && s[pos] == DigitChar(a) && s[pos + 1] == DigitChar(b)
  }

  lemma MonthAlt(v: nat, s: string, pos: nat) returns (j: nat)
    requires 1 <= v <= 12 && DigitsAt(s, pos, v / 10, v % 10)
    ensures FirstTwoWide(Alternatives(Month), j, s, pos)
  {
    var alts := Alternatives(Month);
    if v >= 10 {
      j := 0;
    } else {
      j := 1;
      assert !ClassMatches(alts[0][0], s[pos]);
    }
  }

  lemma DayAlt(v: nat, s: string, pos: nat) returns (j: nat)
    requires 1 <= v <= 31 && DigitsAt(s, pos, v / 10, v % 10)
    ensures FirstTwoWide(Alternatives(Day), j, s, pos)
  {
    var alts := Alternatives(Day);
    if v >= 30 {
      j := 0;
    } else if v >= 10 {
      j := 1;
      assert !ClassMatches(alts[0][0], s[pos]);
    } else {
      j := 2;
      assert !ClassMatches(alts[0][0], s[pos]);
      assert !ClassMatches(alts[1][0], s[pos]);
    }
  }

  lemma HourAlt(v: nat, s: string, pos: nat) returns (j: nat)
    requires v < 24 && DigitsAt(s, pos, v / 10, v % 10)
    ensures FirstTwoWide(Alternatives(Hour), j, s, pos)
  {
    var alts := Alternatives(Hour);
    if v >= 20 {
      j := 0;
    } else {
      j := 1;
      assert !ClassMatches(alts[0][0], s[pos]);
    }
  }

  lemma MinuteAlt(v: nat, s: string, pos: nat) returns (j: nat)
    requires v < 60 && DigitsAt(s, pos, v / 10, v % 10)
    ensures FirstTwoWide(Alternatives(Minute), j, s, pos)
  {
    j := 0;
  }

  lemma SecondAlt(v: nat, s: string, pos: nat) returns (j: nat)
    requires v < 60 && DigitsAt(s, pos, v / 10, v % 10)
    ensures FirstTwoWide(Alternatives(Second), j, s, pos)
  {
    var alts := Alternatives(Second);
    j := 1;
    assert !ClassMatches(alts[0][0], s[pos]);
  }

  lemma YearAlt(y: int, s: string, pos: nat) returns (j: nat)
    requires 0 <= y < 10000 && pos + 4 <= |s| && s[pos..pos + 4] == YearText(y)
    ensures j == 0 && |Alternatives(Year)[0]| == 4 && AltMatchesAt(Alternatives(Year)[0], s, pos)
  {
    j := 0;
    var t := YearText(y);
    assert forall k :: 0 <= k < 4 ==> s[pos + k] == t[k];
  }

  /** The first alternative of the field's directive that matches at `pos`
      takes the whole rendered field. */
  lemma FieldAlt(d: Directive, dt: DateTime, s: string, pos: nat) returns (j: nat)
    requires Canonical(dt) && pos + |FieldText(d, dt)| <= |s|
    requires s[pos..pos + |FieldText(d, dt)|] == FieldText(d, dt)
    ensures j < |Alternatives(d)| && |Alternatives(d)[j]| == |FieldText(d, dt)|
    ensures AltMatchesAt(Alternatives(d)[j], s, pos)
    ensures forall i :: 0 <= i < j ==> !AltMatchesAt(Alternatives(d)[i], s, pos)
  {
    if d == Year {
      j := YearAlt(dt.year, s, pos);
    } else {
      var v := FieldValue(d, dt);
      var t := FieldText(d, dt);
      assert t == Two(v);
      assert s[pos] == t[0] && s[pos + 1] == t[1];
      assert DigitsAt(s, pos, v / 10, v % 10);
      match d {
        case Month => j := MonthAlt(v, s, pos);
        case Day => j := DayAlt(v, s, pos);
        case Hour => j := HourAlt(v, s, pos);
        case Minute => j := MinuteAlt(v, s, pos);
        case Second => j := SecondAlt(v, s, pos);
      }
    }
  }

  /** A field rendered in full width is matched by the alternative that
      takes both (or all four) of its characters. */
  lemma FieldMatch(items: Format, dt: DateTime, s: string, pos: nat, m: Match)
    requires items != [] && items[0].Field? && Canonical(dt)
    requires pos + |FieldText(items[0].d, dt)| <= |s|
    requires s[pos..pos + |FieldText(items[0].d, dt)|] == FieldText(items[0].d, dt)
    requires MatchItems(items[1..], s, pos + |FieldText(items[0].d, dt)|) == Some(m)
    ensures MatchAlts(items, Alternatives(items[0].d), s, pos) ==
      Some(Match([Capture(items[0].d, FieldText(items[0].d, dt))] + m.caps, m.end))
  {
    var j := FieldAlt(items[0].d, dt, s, pos);
    FirstMatching(items, Alternatives(items[0].d), j, s, pos, m);
  }

  lemma WellFormedTail(fmt: Format)
    requires fmt != [] && WellFormed(fmt)
    ensures WellFormed(fmt[1..])
  {
    forall i | 0 <= i < |fmt| - 2 && fmt[1..][i].Blank? ensures !fmt[1..][i + 1].Blank? {
      assert fmt[i + 1].Blank?;
    }
  }

  /** A rendering never begins with white space unless the format does. */
  lemma RenderStart(fmt: Format, dt: DateTime)
    requires fmt != [] && WellFormed(fmt) && Canonical(dt) && !fmt[0].Blank?
    ensures |Render(fmt, dt)| > 0 && !IsSpace(Render(fmt, dt)[0])
  {
    assert Render(fmt, dt)[0] == Piece(fmt[0], dt)[0];
  }

  /** A canonical rendering matches the format in one pass, capturing each
      field's text and ending at the end of the string. */
  lemma {:induction false} MatchRendered(fmt: Format, dt: DateTime, s: string, pos: nat)
    requires RenderedAt(fmt, dt, s, pos)
    ensures pos <= |s| && MatchItems(fmt, s, pos) == Some(Match(Captures(fmt, dt), |s|))
    decreases |fmt|
  {
    if fmt != [] {
      var n := HeadSplit(fmt, dt, s, pos);
      MatchRendered(fmt[1..], dt, s, pos + n);
      MatchHead(fmt, dt, s, pos);
    }
  }

  /** `s` holds, from `pos` to its end, the canonical rendering of `dt`
      in the well-formed format `fmt`. */
  predicate RenderedAt(fmt: Format, dt: DateTime, s: string, pos: nat)
  {
    WellFormed(fmt) && Canonical(dt) && pos <= |s| && s[pos..] == Render(fmt, dt)
  }

  /** The text at `pos` is the first item's piece followed by the rest's
      rendering. */
  lemma HeadSplit(fmt: Format, dt: DateTime, s: string, pos: nat) returns (n: nat)
    requires fmt != [] && RenderedAt(fmt, dt, s, pos)
    ensures n == |Piece(fmt[0], dt)| && pos + n <= |s|
    ensures s[pos..pos + n] == Piece(fmt[0], dt)
    ensures RenderedAt(fmt[1..], dt, s, pos + n)
  {
    var piece := Piece(fmt[0], dt);
    var rest := Render(fmt[1..], dt);
    assert s[pos..] == piece + rest;
    SliceSplit(s, pos, piece, rest);
    WellFormedTail(fmt);
    n := |piece|;
  }

  /** The text after `pos` that is `a` followed by `b` holds `a` first. */
  lemma SliceSplit(s: string, pos: nat, a: string, b: string)
    requires pos <= |s| && s[pos..] == a + b
    ensures pos + |a| <= |s| && s[pos..pos + |a|] == a && s[pos + |a|..] == b
  {
    assert |s| - pos == |a| + |b|;
    forall k | 0 <= k < |a| ensures s[pos..pos + |a|][k] == a[k] {
      assert s[pos..][k] == (a + b)[k];
    }
    forall k | 0 <= k < |b| ensures s[pos + |a|..][k] == b[k] {
      assert s[pos..][|a| + k] == (a + b)[|a| + k];
    }
  }

  /** Once the rest of the format matches after the first item's text, the
      whole format matches. */
  lemma MatchHead(fmt: Format, dt: DateTime, s: string, pos: nat)
    requires fmt != [] && RenderedAt(fmt, dt, s, pos)
    requires pos + |Piece(fmt[0], dt)| <= |s|
    requires s[pos..pos + |Piece(fmt[0], dt)|] == Piece(fmt[0], dt)
    requires MatchItems(fmt[1..], s, pos + |Piece(fmt[0], dt)|) == Some(Match(Captures(fmt[1..], dt), |s|))
    ensures MatchItems(fmt, s, pos) == Some(Match(Captures(fmt, dt), |s|))
  {
    var m := Match(Captures(fmt[1..], dt), |s|);
    match fmt[0] {
      case Field(d) =>
        FieldMatch(fmt, dt, s, pos, m);
      case Literal(c) =>
        assert s[pos] == c;
        assert Captures(fmt, dt) == Captures(fmt[1..], dt);
      case Blank =>
        assert Captures(fmt, dt) == Captures(fmt[1..], dt);
        SingleSpace(fmt, dt, s, pos);
    }
  }

  /** A white-space item renders as one space, and what follows it does not
      start with white space. */
  lemma SingleSpace(fmt: Format, dt: DateTime, s: string, pos: nat)
    requires fmt != [] && fmt[0].Blank? && WellFormed(fmt) && Canonical(dt)
    requires pos <= |s| && s[pos..] == Render(fmt, dt)
    ensures LeadingSpaces(s[pos..]) == 1
  {
    var tail := s[pos..];
    var rest := Render(fmt[1..], dt);
    assert tail == " " + rest;
    if |fmt| > 1 {
      WellFormedTail(fmt);
      RenderStart(fmt[1..], dt);
      assert tail[1..] == rest;
      assert LeadingSpaces(tail[1..]) == 0;
    } else {
      assert tail[1..] == [];
    }
  }

  lemma {:induction false} CapturedFields(fmt: Format, dt: DateTime, d: Directive, default: int)
    requires Canonical(dt)
    ensures FieldOf(Captures(fmt, dt), d, default) == if Field(d) in fmt then FieldValue(d, dt) else default
  {
    if fmt != [] {
      var caps := Captures(fmt, dt);
      CapturedFields(fmt[1..], dt, d, default);
      if fmt[0] == Field(d) {
        FieldTextValue(d, dt);
      } else {
        assert Field(d) in fmt <==> Field(d) in fmt[1..] by {
          if Field(d) in fmt {
            var i :| 0 <= i < |fmt| && fmt[i] == Field(d);
            assert fmt[1..][i - 1] == Field(d);
          }
          if Field(d) in fmt[1..] {
            var i :| 0 <= i < |fmt[1..]| && fmt[1..][i] == Field(d);
            assert fmt[i + 1] == Field(d);
          }
        }
        if fmt[0].Field? {
          assert caps[1..] == Captures(fmt[1..], dt);
        } else {
          assert caps == Captures(fmt[1..], dt);
        }
      }
    }
  }

  /** strptime reads back what strftime wrote: the fields the format names
      come back unchanged, the others take their defaults. */
  lemma ParseRender(fmt: Format, dt: DateTime)
    requires WellFormed(fmt) && Canonical(dt) && Valid(Filled(fmt, dt))
    ensures Parse(Render(fmt, dt), fmt) == Some(Filled(fmt, dt))
  {
    var s := Render(fmt, dt);
    assert s[0..] == s;
    MatchRendered(fmt, dt, s, 0);
    var caps := Captures(fmt, dt);
    CapturedFields(fmt, dt, Year, 1900);
    CapturedFields(fmt, dt, Month, 1);
    CapturedFields(fmt, dt, Day, 1);
    CapturedFields(fmt, dt, Hour, 0);
    CapturedFields(fmt, dt, Minute, 0);
    CapturedFields(fmt, dt, Second, 0);
  }

  // ---------------------------------------------------------------------
  // What a match can consume

  /** The characters one format item can match. */
  predicate ItemAllows(it: Item, c: char)
  {
    match it
    case Field(d) => IsDigit(c) || (d == Day && c == ' ')
    case Literal(l) => SameLetter(c, l)
    case Blank => IsSpace(c)
  }

  predicate Allowed(fmt: Format, c: char)
  {
    exists i :: 0 <= i < |fmt| && ItemAllows(fmt[i], c)
  }

  lemma AllowedTail(fmt: Format, c: char)
    requires fmt != [] && Allowed(fmt[1..], c)
    ensures Allowed(fmt, c)
  {
    var i :| 0 <= i < |fmt[1..]| && ItemAllows(fmt[1..][i], c);
    assert ItemAllows(fmt[i + 1], c);
  }

  lemma AlternativeChars(d: Directive, k: nat, cc: CharClass, c: char)
    requires k < |Alternatives(d)| && cc in Alternatives(d)[k] && ClassMatches(cc, c)
    ensures ItemAllows(Field(d), c)
  {
  }

  lemma {:induction false} MatchedChars(items: Format, s: string, pos: nat)
    requires pos <= |s|
    ensures MatchItems(items, s, pos).Some? ==>
      var m := MatchItems(items, s, pos).value;
      pos <= m.end <= |s| && forall k :: pos <= k < m.end ==> Allowed(items, s[k])
    decreases |items|, 1, 0
  {
    if items != [] {
      match items[0]
      case Field(d) => AltsChars(items, Alternatives(d), s, pos);
      case Literal(c) =>
        if pos < |s| && SameLetter(s[pos], c) {
          MatchedChars(items[1..], s, pos + 1);
          ConsumedTail(items, s, pos, 1);
        }
      case Blank =>
        BlankChars(items, s, pos, LeadingSpaces(s[pos..]));
    }
  }

  /** The first `n` characters from `pos` are allowed by the format's first
      item and the characters the rest consumed by the rest of it. */
  lemma ConsumedTail(items: Format, s: string, pos: nat, n: nat)
    requires items != [] && pos + n <= |s|
    requires forall k :: pos <= k < pos + n ==> ItemAllows(items[0], s[k])
    ensures MatchItems(items[1..], s, pos + n).Some? ==>
      var m := MatchItems(items[1..], s, pos + n).value;
      (pos + n <= m.end <= |s| && forall k :: pos + n <= k < m.end ==> Allowed(items[1..], s[k])) ==>
      forall k :: pos <= k < m.end ==> Allowed(items, s[k])
  {
    match MatchItems(items[1..], s, pos + n)
    case None =>
    case Some(m) =>
      forall k | pos <= k < m.end && pos + n <= m.end <= |s| &&
                 (forall k' :: pos + n <= k' < m.end ==> Allowed(items[1..], s[k']))
        ensures Allowed(items, s[k])
      {
        if k < pos + n {
          assert ItemAllows(items[0], s[k]);
        } else {
          AllowedTail(items, s[k]);
        }
      }
  }

  lemma {:induction false} AltsChars(items: Format, alts: seq<seq<CharClass>>, s: string, pos: nat)
    requires pos <= |s| && items != [] && items[0].Field?
    requires forall j :: 0 <= j < |alts| ==> alts[j] in Alternatives(items[0].d)
    ensures MatchAlts(items, alts, s, pos).Some? ==>
      var m := MatchAlts(items, alts, s, pos).value;
      pos <= m.end <= |s| && forall k :: pos <= k < m.end ==> Allowed(items, s[k])
    decreases |items|, 0, |alts|, 1
  {
    if alts != [] {
      var n := |alts[0]|;
      if AltMatchesAt(alts[0], s, pos) && MatchItems(items[1..], s, pos + n).Some? {
        AltHit(items, alts, s, pos, MatchItems(items[1..], s, pos + n).value);
      } else {
        AltMiss(items, alts, s, pos);
        AltsChars(items, alts[1..], s, pos);
      }
    }
  }

  /** The first alternative matches and so does the rest of the format
      after it: the match ends where the rest ends, and every character
      consumed is one the format allows. */
  lemma AltHit(items: Format, alts: seq<seq<CharClass>>, s: string, pos: nat, m: Match)
    requires pos <= |s| && items != [] && items[0].Field? && alts != [] && alts[0] in Alternatives(items[0].d)
    requires AltMatchesAt(alts[0], s, pos) && MatchItems(items[1..], s, pos + |alts[0]|) == Some(m)
    ensures MatchAlts(items, alts, s, pos).Some? && MatchAlts(items, alts, s, pos).value.end == m.end
    ensures pos <= m.end <= |s| && forall k :: pos <= k < m.end ==> Allowed(items, s[k])
    decreases |items|, 0, |alts|, 0
  {
    var n := |alts[0]|;
    AltHeadChars(items[0].d, alts[0], s, pos);
    HitChars(items, s, pos, n, m);
  }

  /** Characters the field allows, followed by what the rest of the format
      matched, are all allowed by the format. */
  lemma HitChars(items: Format, s: string, pos: nat, n: nat, m: Match)
    requires items != [] && pos + n <= |s| && MatchItems(items[1..], s, pos + n) == Some(m)
    requires forall k :: pos <= k < pos + n ==> ItemAllows(items[0], s[k])
    ensures pos <= m.end <= |s| && forall k :: pos <= k < m.end ==> Allowed(items, s[k])
    decreases |items|, 0, 0, 0
  {
    MatchedChars(items[1..], s, pos + n);
    ConsumedTail(items, s, pos, n);
  }

  /** Where the first alternative does not lead to a match, the next ones
      are tried. */
  lemma AltMiss(items: Format, alts: seq<seq<CharClass>>, s: string, pos: nat)
    requires pos <= |s| && items != [] && items[0].Field? && alts != []
    requires !(AltMatchesAt(alts[0], s, pos) && MatchItems(items[1..], s, pos + |alts[0]|).Some?)
    ensures MatchAlts(items, alts, s, pos) == MatchAlts(items, alts[1..], s, pos)
  {
  }

  /** What an alternative of a field matches, the field allows. */
  lemma AltHeadChars(d: Directive, alt: seq<CharClass>, s: string, pos: nat)
    requires alt in Alternatives(d) && AltMatchesAt(alt, s, pos)
    ensures forall k :: pos <= k < pos + |alt| ==> ItemAllows(Field(d), s[k])
  {
    var ki :| 0 <= ki < |Alternatives(d)| && Alternatives(d)[ki] == alt;
    forall k | pos <= k < pos + |alt| ensures ItemAllows(Field(d), s[k]) {
      assert ClassMatches(alt[k - pos], s[k]);
      AlternativeChars(d, ki, alt[k - pos], s[k]);
    }
  }

  lemma {:induction false} BlankChars(items: Format, s: string, pos: nat, n: nat)
    requires pos + n <= |s| && items != [] && items[0].Blank?
    requires forall k :: pos <= k < pos + n ==> IsSpace(s[k])
    ensures MatchBlank(items, s, pos, n).Some? ==>
      var m := MatchBlank(items, s, pos, n).value;
      pos <= m.end <= |s| && forall k :: pos <= k < m.end ==> Allowed(items, s[k])
    decreases |items|, 0, n
  {
    if n > 0 {
      BlankChars(items, s, pos, n - 1);
      MatchedChars(items[1..], s, pos + n);
      ConsumedTail(items, s, pos, n);
    }
  }

  /** A string strptime accepts consists of digits, the spaces the day
      field and white-space items allow, and the format's literal
      characters (in either case). */
  lemma ParsedChars(s: string, fmt: Format)
    requires Parse(s, fmt).Some?
    ensures forall k :: 0 <= k < |s| ==> Allowed(fmt, s[k])
  {
    MatchedChars(fmt, s, 0);
  }

  // ---------------------------------------------------------------------
  // The ISO form `YYYY-MM-DDTHH:MM:SS`

  lemma IsoAllowed(c: char)
    requires Allowed(IsoFormat, c)
    ensures IsDigit(c) || c == ' ' || c == '-' || c == ':' || c == 'T' || c == 't'
  {
    var i :| 0 <= i < |IsoFormat| && ItemAllows(IsoFormat[i], c);
  }

  /** The ISO form rejects any string holding a character other than a
      digit, a space, `-`, `:` or `T`/`t`: so `2025/10/22T15:20:00`,
      a trailing `.123` and a trailing `Z` are all rejected. */
  lemma IsoRejects(s: string, k: nat)
    requires k < |s| && !(IsDigit(s[k]) || s[k] == ' ' || s[k] == '-' || s[k] == ':' || s[k] == 'T' || s[k] == 't')
    ensures Parse(s, IsoFormat) == None
  {
    if Parse(s, IsoFormat).Some? {
      ParsedChars(s, IsoFormat);
      IsoAllowed(s[k]);
    }
  }

  lemma IsoWellFormed()
    ensures WellFormed(IsoFormat) && WellFormed(SpacedFormat) && WellFormed(CompactDate)
    ensures WellFormed(DashedDate) && WellFormed(CompactTime) && WellFormed(ColonTime)
  {
  }

  /** Every valid date and time survives the ISO rendering and parse. */
  lemma IsoRoundTrip(dt: DateTime)
    requires Valid(dt)
    ensures Parse(Render(IsoFormat, dt), IsoFormat) == Some(dt)
  {
    IsoWellFormed();
    assert Filled(IsoFormat, dt) == dt by {
      assert IsoFormat[0] == Field(Year) && IsoFormat[2] == Field(Month) && IsoFormat[4] == Field(Day);
      assert IsoFormat[6] == Field(Hour) && IsoFormat[8] == Field(Minute) && IsoFormat[10] == Field(Second);
    }
    ParseRender(IsoFormat, dt);
  }
}
