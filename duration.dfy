/** `format_duration`: a count of seconds as "<H>h <M>m <S>s", units that are
    zero left out, "0s" for zero or an absent value. Its partner here is
    ParseDuration, which reads such a text back into hours, minutes and seconds. */
module Duration {
  import opened Wrappers
  import opened Text

  /** Hours, minutes and seconds of a duration. */
  datatype Clock = Clock(hours: int, minutes: int, seconds: int)

  /** The source's two `divmod(_, 60)` steps. Python's `divmod` floors, and so
      does Dafny's `/` by a positive divisor, so negative counts split the same way. */
  function ToClock(s: int): Clock {
    Clock((s / 60) / 60, (s / 60) % 60, s % 60)
  }

  function TotalSeconds(c: Clock): int {
    c.hours * 3600 + c.minutes * 60 + c.seconds
  }

  /** The text built before the strip, as the source builds it. */
  function Unstripped(c: Clock): string
    requires c.seconds >= 0
  {
    var text := (if c.hours > 0 then Decimal(c.hours) + "h " else "")
              + (if c.minutes > 0 then Decimal(c.minutes) + "m " else "");
    if c.seconds > 0 || text == "" then text + Decimal(c.seconds) + "s" else text
  }

  function FormatDuration(seconds: Option<int>): string {
    if seconds == None || seconds == Some(0) then "0s"
    else Strip(Unstripped(ToClock(seconds.value)))
  }

  // ------------------------------------------------------------- reading back

  /** The value written in front of `unit` in the first token that ends with it. */
  function ReadUnit(tokens: seq<string>, unit: char): Option<nat>
    decreases |tokens|
  {
    if tokens == [] then None
    else
      var t := tokens[0];
      if |t| >= 1 && t[|t| - 1] == unit then Some(DigitsValue(t[..|t| - 1]))
      else ReadUnit(tokens[1..], unit)
  }

  /** Reads a formatted duration back; a unit that is not shown reads as 0. */
  function ParseDuration(text: string): Clock {
    var tokens := Split(text, ' ');
    Clock(ReadUnit(tokens, 'h').GetOr(0), ReadUnit(tokens, 'm').GetOr(0), ReadUnit(tokens, 's').GetOr(0))
  }

  // ------------------------------------------------------------- proof helpers

  function Token(v: nat, unit: char): string {
    Decimal(v) + [unit]
  }

  function TokenIf(cond: bool, v: nat, unit: char): seq<string> {
    if cond then [Token(v, unit)] else []
  }

  /** Whether the seconds are written: when non-zero, or when nothing larger was. */
  predicate ShowsSeconds(c: Clock) {
    c.seconds > 0 || (c.hours <= 0 && c.minutes <= 0)
  }

  /** The tokens a non-zero count is written as. */
  function UnitTokens(c: Clock): seq<string>
    requires c.minutes >= 0 && c.seconds >= 0
  {
    TokenIf(c.hours > 0, if c.hours > 0 then c.hours else 0, 'h')
    + TokenIf(c.minutes > 0, c.minutes, 'm')
    + TokenIf(ShowsSeconds(c), c.seconds, 's')
  }

  /** Each token followed by a space: how the source builds its text before the strip. */
  function Spaced(ts: seq<string>): string
    decreases |ts|
  {
    if ts == [] then "" else ts[0] + " " + Spaced(ts[1..])
  }

  lemma {:induction false} SpacedThenLast(ts: seq<string>, x: string)
    ensures Spaced(ts) + x == Join(ts + [x], ' ')
    decreases |ts|
  {
    if ts != [] {
      SpacedThenLast(ts[1..], x);
      assert (ts + [x])[1..] == ts[1..] + [x];
    }
  }

  lemma {:induction false} SpacedNonEmpty(ts: seq<string>)
    requires ts != []
    ensures Spaced(ts) == Join(ts, ' ') + " "
    decreases |ts|
  {
    if |ts| > 1 {
      SpacedNonEmpty(ts[1..]);
    }
  }

  lemma TokenShape(v: nat, unit: char)
    requires !IsWhitespace(unit)
    ensures var t := Token(v, unit);
      |t| >= 2 && !IsWhitespace(t[0]) && t[|t| - 1] == unit && ' ' !in t && t[..|t| - 1] == Decimal(v)
  {
    var t := Token(v, unit);
    var d := Decimal(v);
    assert IsDigit(d[0]);
    forall i | 0 <= i < |t| ensures t[i] != ' ' {
      if i < |d| { assert IsDigit(d[i]); }
    }
  }

  lemma ReadUnitTokenIf(cond: bool, v: nat, u: char, rest: seq<string>, x: char)
    requires !IsWhitespace(u)
    ensures ReadUnit(TokenIf(cond, v, u) + rest, x) == if cond && u == x then Some(v) else ReadUnit(rest, x)
  {
    if cond {
      TokenShape(v, u);
      DecimalRoundTrip(v);
      assert (TokenIf(cond, v, u) + rest)[1..] == rest;
    } else {
      assert TokenIf(cond, v, u) + rest == rest;
    }
  }

  /** Tokens that are at least two characters long, with no space inside and
      no whitespace at either end. */
  predicate PlainTokens(ts: seq<string>) {
    forall i :: 0 <= i < |ts| ==> |ts[i]| >= 2 && !IsWhitespace(ts[i][0]) && ' ' !in ts[i]
                                  && !IsWhitespace(ts[i][|ts[i]| - 1])
  }

  lemma TokenIfPlain(cond: bool, v: nat, unit: char)
    requires !IsWhitespace(unit)
    ensures PlainTokens(TokenIf(cond, v, unit))
  {
    TokenShape(v, unit);
  }

  lemma PlainTokensConcat(a: seq<string>, b: seq<string>)
    requires PlainTokens(a) && PlainTokens(b)
    ensures PlainTokens(a + b)
  {
    forall i | 0 <= i < |a + b|
      ensures |(a + b)[i]| >= 2 && !IsWhitespace((a + b)[i][0]) && ' ' !in (a + b)[i]
              && !IsWhitespace((a + b)[i][|(a + b)[i]| - 1])
    {
      if i < |a| { assert (a + b)[i] == a[i]; } else { assert (a + b)[i] == b[i - |a|]; }
    }
  }

  lemma UnitTokensPlain(c: Clock)
    requires c.minutes >= 0 && c.seconds >= 0
    ensures UnitTokens(c) != [] && PlainTokens(UnitTokens(c))
  {
    var tH := TokenIf(c.hours > 0, if c.hours > 0 then c.hours else 0, 'h');
    var tM := TokenIf(c.minutes > 0, c.minutes, 'm');
    var tS := TokenIf(ShowsSeconds(c), c.seconds, 's');
    TokenIfPlain(c.hours > 0, if c.hours > 0 then c.hours else 0, 'h');
    TokenIfPlain(c.minutes > 0, c.minutes, 'm');
    TokenIfPlain(ShowsSeconds(c), c.seconds, 's');
    PlainTokensConcat(tH, tM);
    PlainTokensConcat(tH + tM, tS);
  }

  /** Where each unit is found among the tokens. */
  lemma ReadUnitOfTokens(c: Clock, x: char)
    requires c.minutes >= 0 && c.seconds >= 0
    ensures ReadUnit(UnitTokens(c), x) ==
      if c.hours > 0 && x == 'h' then Some(c.hours)
      else if c.minutes > 0 && x == 'm' then Some(c.minutes)
      else if ShowsSeconds(c) && x == 's' then Some(c.seconds)
      else None
  {
    var h := if c.hours > 0 then c.hours else 0;
    var tM := TokenIf(c.minutes > 0, c.minutes, 'm');
    var tS := TokenIf(ShowsSeconds(c), c.seconds, 's');
    assert UnitTokens(c) == TokenIf(c.hours > 0, h, 'h') + (tM + tS);
    ReadUnitTokenIf(c.hours > 0, h, 'h', tM + tS, x);
    ReadUnitTokenIf(c.minutes > 0, c.minutes, 'm', tS, x);
    ReadUnitTokenIf(ShowsSeconds(c), c.seconds, 's', [], x);
    assert tS + [] == tS;
  }

  /** The strip removes exactly the one trailing space the builder may leave. */
  lemma StripJoined(ts: seq<string>)
    requires ts != [] && PlainTokens(ts)
    ensures Strip(Join(ts, ' ')) == Join(ts, ' ')
    ensures Strip(Join(ts, ' ') + " ") == Join(ts, ' ')
  {
    var j := Join(ts, ' ');
    JoinEnds(ts, ' ');
    assert TrimStart(j + " ") == j + " ";
    assert (j + " ")[..|j|] == j;
  }

  lemma UnstrippedSpaced(c: Clock)
    requires c.minutes >= 0 && c.seconds >= 0
    ensures var hm := TokenIf(c.hours > 0, if c.hours > 0 then c.hours else 0, 'h') + TokenIf(c.minutes > 0, c.minutes, 'm');
      Unstripped(c) == if ShowsSeconds(c) then Spaced(hm) + Token(c.seconds, 's') else Spaced(hm)
  {
    var hm := TokenIf(c.hours > 0, if c.hours > 0 then c.hours else 0, 'h') + TokenIf(c.minutes > 0, c.minutes, 'm');
    var text := (if c.hours > 0 then Decimal(c.hours) + "h " else "")
              + (if c.minutes > 0 then Decimal(c.minutes) + "m " else "");
    if c.hours > 0 && c.minutes > 0 {
      assert hm == [Token(c.hours, 'h'), Token(c.minutes, 'm')];
      assert hm[1..] == [Token(c.minutes, 'm')];
      assert hm[1..][1..] == [];
      assert Spaced(hm[1..]) == Token(c.minutes, 'm') + " " + "";
      assert Spaced(hm) == Token(c.hours, 'h') + " " + Spaced(hm[1..]);
    } else if c.hours > 0 {
      assert Spaced(hm) == Token(c.hours, 'h') + " " + "";
    } else if c.minutes > 0 {
      assert Spaced(hm) == Token(c.minutes, 'm') + " " + "";
    }
    assert text == Spaced(hm);
    assert text == "" <==> hm == [];
  }

  /** A non-zero count is written as its unit tokens joined by single spaces. */
  lemma FormatDurationIsJoin(s: int)
    requires s != 0
    ensures UnitTokens(ToClock(s)) != [] && PlainTokens(UnitTokens(ToClock(s)))
    ensures FormatDuration(Some(s)) == Join(UnitTokens(ToClock(s)), ' ')
  {
    var c := ToClock(s);
    var hm := TokenIf(c.hours > 0, if c.hours > 0 then c.hours else 0, 'h') + TokenIf(c.minutes > 0, c.minutes, 'm');
    var ts := UnitTokens(c);
    UnitTokensPlain(c);
    UnstrippedSpaced(c);
    if ShowsSeconds(c) {
      SpacedThenLast(hm, Token(c.seconds, 's'));
      assert Unstripped(c) == Join(ts, ' ');
    } else {
      assert ts == hm;
      SpacedNonEmpty(hm);
    }
    StripJoined(ts);
  }

  // --------------------------------------------------------------- properties

  /** divmod splits a count into hours, minutes under 60 and seconds under 60 that
      add back up to it; the hours are negative exactly when the count is. */
  lemma ToClockDecomposes(s: int)
    ensures var c := ToClock(s);
      && TotalSeconds(c) == s
      && 0 <= c.minutes < 60 && 0 <= c.seconds < 60
      && (c.hours >= 0 <==> s >= 0)
  {
    var q := s / 60;
    assert s == q * 60 + s % 60;
    assert q == (q / 60) * 60 + q % 60;
  }

  /** Reading the text back gives the count's clock, except that negative hours
      (only a negative count has them) are not written and read as 0. */
  lemma {:induction false} FormatDurationReadsBack(s: int)
    ensures var c := ToClock(s);
      ParseDuration(FormatDuration(Some(s))) == c.(hours := if c.hours > 0 then c.hours else 0)
  {
    var c := ToClock(s);
    if s == 0 {
      SplitOfPlain("0s", ' ');
      assert ReadUnit(["0s"], 's') == Some(DigitsValue("0"));
    } else {
      FormatDurationIsJoin(s);
      ToClockDecomposes(s);
      SplitJoin(UnitTokens(c), ' ');
      ReadUnitOfTokens(c, 'h');
      ReadUnitOfTokens(c, 'm');
      ReadUnitOfTokens(c, 's');
    }
  }

  /** For a count of zero or more seconds the read-back is exact. */
  lemma FormatDurationRoundTrip(s: nat)
    ensures ParseDuration(FormatDuration(Some(s))) == ToClock(s)
    ensures TotalSeconds(ParseDuration(FormatDuration(Some(s)))) == s
  {
    FormatDurationReadsBack(s);
    ToClockDecomposes(s);
  }

  /** Which units a non-zero count shows: hours only when at least one hour,
      minutes only when the minutes are non-zero, and seconds when non-zero
      or when nothing else was written. */
  lemma FormatDurationUnits(s: int)
    requires s != 0
    ensures var c := ToClock(s); var ts := Split(FormatDuration(Some(s)), ' ');
      && (ReadUnit(ts, 'h').Some? <==> c.hours > 0)
      && (ReadUnit(ts, 'm').Some? <==> c.minutes > 0)
      && (ReadUnit(ts, 's').Some? <==> c.seconds > 0 || (c.hours <= 0 && c.minutes == 0))
  {
    var c := ToClock(s);
    FormatDurationIsJoin(s);
    ToClockDecomposes(s);
    SplitJoin(UnitTokens(c), ' ');
    ReadUnitOfTokens(c, 'h');
    ReadUnitOfTokens(c, 'm');
    ReadUnitOfTokens(c, 's');
  }

  /** The text is never empty, has no whitespace at either end (the strip leaves
      none) and no empty field between spaces (never two spaces in a row). */
  lemma FormatDurationTrimmed(seconds: Option<int>)
    ensures var r := FormatDuration(seconds);
      && r != [] && !IsWhitespace(r[0]) && !IsWhitespace(r[|r| - 1])
      && forall t :: t in Split(r, ' ') ==> t != ""
  {
    if seconds == None || seconds == Some(0) {
      SplitOfPlain("0s", ' ');
    } else {
      var s := seconds.value;
      FormatDurationIsJoin(s);
      var ts := UnitTokens(ToClock(s));
      JoinEnds(ts, ' ');
      SplitJoin(ts, ' ');
    }
  }

  /** The worked cases of the source's behaviour. */
  lemma FormatDurationZero()
    ensures FormatDuration(None) == "0s" && FormatDuration(Some(0)) == "0s"
  {
  }

  lemma FormatDurationExample3725()
    ensures FormatDuration(Some(3725)) == "1h 2m 5s"
  {
    assert ToClock(3725) == Clock(1, 2, 5);
    FormatDurationIsJoin(3725);
    TokensOf1h2m5s();
  }

  lemma TokensOf1h2m5s()
    ensures Join(UnitTokens(Clock(1, 2, 5)), ' ') == "1h 2m 5s"
  {
    assert Token(1, 'h') == "1h" && Token(2, 'm') == "2m" && Token(5, 's') == "5s";
    assert UnitTokens(Clock(1, 2, 5)) == ["1h", "2m", "5s"];
    assert Join(["2m", "5s"], ' ') == "2m 5s";
  }

  lemma FormatDurationExample3600()
    ensures FormatDuration(Some(3600)) == "1h"
  {
    assert ToClock(3600) == Clock(1, 0, 0);
    FormatDurationIsJoin(3600);
    assert Token(1, 'h') == "1h";
    assert UnitTokens(Clock(1, 0, 0)) == ["1h"];
  }

  lemma FormatDurationExample65()
    ensures FormatDuration(Some(65)) == "1m 5s"
  {
    assert ToClock(65) == Clock(0, 1, 5);
    FormatDurationIsJoin(65);
    assert Token(1, 'm') == "1m" && Token(5, 's') == "5s";
    assert UnitTokens(Clock(0, 1, 5)) == ["1m", "5s"];
  }

  lemma FormatDurationExample45()
    ensures FormatDuration(Some(45)) == "45s"
  {
    assert ToClock(45) == Clock(0, 0, 45);
    FormatDurationIsJoin(45);
    assert Decimal(45) == Decimal(4) + [DigitChar(5)];
    assert Token(45, 's') == "45s";
    assert UnitTokens(Clock(0, 0, 45)) == ["45s"];
  }
}
