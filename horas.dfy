/** Normalisation of spoken and written Spanish time expressions to 24-hour `HH:MM`.
    The pattern engine is not modelled: a match arrives already split into its groups,
    tagged by the alternative of the pattern that matched. */
module Horas {

  datatype Option<T> = None | Some(value: T)

  /** The groups of one match, one constructor per alternative of the pattern.
      Qualifier words are the lower-cased text of their group. */
  datatype TimeMatch =
    | PeriodPhrase(hour: nat, minute: Option<nat>, period: string)  // "H[:MM] de la tarde", "H del mediodía"
    | QuarterPhrase(hour: nat, phrase: string)                      // "H y cuarto", "H menos cuarto", ...
    | Shorthand(hour: nat, minute: Option<nat>)                     // "HhM", "HhMm", "Hh"
    | Standard(hour: nat, minutes: nat)                             // "HH:MM"

  /** A match: the whole matched text and its groups. */
  datatype Match = Match(text: string, groups: TimeMatch)

  const Phrases: set<string> := {"en punto", "y cuarto", "y media", "menos cuarto"}

  /** The table from quarter phrases to minutes; a phrase not in it (for instance one whose
      words are separated by two spaces or a tab) has no entry. */
  function ConvPalabrasMinuto(phrase: string): (r: Option<nat>)
    ensures r.Some? <==> phrase in Phrases
    ensures r.Some? ==> r.value < 60 && r.value % 15 == 0
    ensures phrase == "en punto" <==> r == Some(0)
    ensures phrase == "y cuarto" <==> r == Some(15)
    ensures phrase == "y media" <==> r == Some(30)
    ensures phrase == "menos cuarto" <==> r == Some(45)
  {
    if phrase == "en punto" then Some(0)
    else if phrase == "y cuarto" then Some(15)
    else if phrase == "y media" then Some(30)
    else if phrase == "menos cuarto" then Some(45)
    else None
  }

  /** `sub` occurs in `s` starting at index `i`. */
  predicate OccursAt(s: string, sub: string, i: int) {
    0 <= i && i + |sub| <= |s| && s[i..i + |sub|] == sub
  }

  /** Substring containment (`sub in s` on strings). */
  function Contains(s: string, sub: string): (r: bool)
    ensures r <==> exists i :: OccursAt(s, sub, i)
    decreases |s|
  {
    if |s| < |sub| then false
    else if s[..|sub|] == sub then
      assert OccursAt(s, sub, 0);
      true
    else
      var r := Contains(s[1..], sub);
      assert forall i :: OccursAt(s, sub, i) <==> OccursAt(s[1..], sub, i - 1) by {
        forall i ensures OccursAt(s, sub, i) <==> OccursAt(s[1..], sub, i - 1) {
          if 1 <= i && i + |sub| <= |s| {
            assert s[1..][i - 1..] == s[i..];
            assert s[i..i + |sub|] == s[i..][..|sub|];
            assert s[1..][i - 1..i - 1 + |sub|] == s[1..][i - 1..][..|sub|];
          }
        }
      }
      assert r ==> exists i :: OccursAt(s, sub, i) by {
        if r {
          var j :| OccursAt(s[1..], sub, j);
          assert OccursAt(s, sub, j + 1);
        }
      }
      r
  }

  /** The value of an optional minute group: a missing group means 0. */
  function MinuteOrZero(m: Option<nat>): nat {
    if m.Some? then m.value else 0
  }

  /** The 24-hour time a match denotes, or None when the match is to be left as it is. */
  function Normalize(t: TimeMatch): (r: Option<(nat, nat)>)
    ensures r.Some? ==> r.value.0 <= 23 && r.value.1 <= 59
  {
    match t
    case PeriodPhrase(h, mo, p) =>
      var m := MinuteOrZero(mo);
      if !(1 <= h <= 12 && m <= 59) then None
      else if p == "mañana" then
        if !(4 <= h <= 12) then None else Some((if h == 12 then 0 else h, m))
      else if p == "mediodía" then
        // The guard is kept as written: no hour satisfies `12 <= h <= 3`.
        var accepted: Option<(nat, nat)> := Some((if h == 12 then h else h + 12, m));
        if !(12 <= h <= 3) then None else accepted
      else if p == "tarde" then
        if !(3 <= h <= 8) then None else Some((h + 12, m))
      else if p == "noche" then
        if !((8 <= h <= 12) || (1 <= h <= 4)) then None
        else Some((if h == 12 then 0 else if 1 <= h <= 4 then h else h + 12, m))
      else if p == "madrugada" then
        if !(1 <= h <= 6) then None else Some((if h == 12 then 0 else h, m))
      else None
    case QuarterPhrase(h, phrase) =>
      if !(1 <= h <= 12) then None
      else
        var mv := ConvPalabrasMinuto(phrase);
        var hc := if Contains(phrase, "menos cuarto") then (if h - 1 == 0 then 12 else h - 1) else h;
        var hh := if hc == 12 then 0 else hc;
        if mv.Some? then Some((hh, mv.value)) else None
    case Shorthand(h, mo) =>
      var m := MinuteOrZero(mo);
      if h <= 23 && m <= 59 then Some((h, m)) else None
    case Standard(h, m) =>
      if h <= 23 && m <= 59 then Some((h, m)) else None
  }

  // ---------------------------------------------------------------------------
  // Decimal text

  predicate IsDigit(c: char) {
    '0' <= c <= '9'
  }

  function DigitValue(c: char): nat
    requires IsDigit(c)
  {
    (c - '0') as nat
  }

  function DigitChar(d: nat): (c: char)
    requires d < 10
    ensures IsDigit(c) && DigitValue(c) == d
  {
    ('0' as int + d) as char
  }

  /** The number a string of decimal digits denotes, read left to right. */
  function DigitsValue(s: string): nat
    requires forall i :: 0 <= i < |s| ==> IsDigit(s[i])
  {
    if s == [] then 0 else DigitsValue(s[..|s| - 1]) * 10 + DigitValue(s[|s| - 1])
  }

  /** Shortest decimal text of `n`. */
  function Decimal(n: nat): (r: string)
    ensures 1 <= |r|
    ensures forall i :: 0 <= i < |r| ==> IsDigit(r[i])
    ensures DigitsValue(r) == n
    ensures n < 10 ==> |r| == 1
    ensures 10 <= n < 100 ==> |r| == 2
  {
    if n < 10 then [DigitChar(n)]
    else
      var r := Decimal(n / 10) + [DigitChar(n % 10)];
      assert r[..|r| - 1] == Decimal(n / 10);
      r
  }

  /** Decimal text of `n` padded with zeros on the left to at least two characters
      (the `02d` format). */
  function Pad2(n: nat): (r: string)
    ensures forall i :: 0 <= i < |r| ==> IsDigit(r[i])
    ensures DigitsValue(r) == n
    ensures n < 100 ==> |r| == 2
  {
    if n < 10 then
      var r := "0" + Decimal(n);
      assert r[..1] == "0";
      r
    else Decimal(n)
  }

  /** Shape of a canonical time: two digits, a colon, two digits. */
  predicate IsHHMM(s: string) {
    |s| == 5 && s[2] == ':' && IsDigit(s[0]) && IsDigit(s[1]) && IsDigit(s[3]) && IsDigit(s[4])
  }

  /** Reads back the hour and minute of a canonical time. */
  function ParseHHMM(s: string): (nat, nat)
    requires IsHHMM(s)
  {
    (DigitValue(s[0]) * 10 + DigitValue(s[1]), DigitValue(s[3]) * 10 + DigitValue(s[4]))
  }

  lemma TwoDigitsValue(s: string)
    ensures |s| == 2 && IsDigit(s[0]) && IsDigit(s[1]) ==>
      DigitsValue(s) == DigitValue(s[0]) * 10 + DigitValue(s[1])
  {
    if |s| == 2 && IsDigit(s[0]) && IsDigit(s[1]) {
      assert s[..1][..0] == [] && s[..1][0] == s[0];
      assert DigitsValue(s[..1]) == DigitValue(s[0]);
    }
  }

  /** The `{h:02d}:{m:02d}` rendering; for two-digit values it is a canonical time that
      reads back as the same hour and minute. */
  function Format(h: nat, m: nat): (r: string)
    ensures h < 100 && m < 100 ==> IsHHMM(r) && ParseHHMM(r) == (h, m)
  {
    var hs, ms := Pad2(h), Pad2(m);
    TwoDigitsValue(hs);
    TwoDigitsValue(ms);
    hs + ":" + ms
  }

  /** The replacement text for one match: the canonical time it denotes, or its own text
      unchanged when it is rejected. */
  function SustituirHora(m: Match): (r: string)
    ensures Normalize(m.groups).None? ==> r == m.text
    ensures Normalize(m.groups).Some? ==> IsHHMM(r) && ParseHHMM(r) == Normalize(m.groups).value
  {
    match Normalize(m.groups)
    case Some((h, mm)) => Format(h, mm)
    case None => m.text
  }

  // ---------------------------------------------------------------------------
  // Properties of the decision procedure

  /** Standard `HH:MM` is accepted exactly when both values are in range, and is then kept. */
  lemma StandardRule(h: nat, m: nat)
    ensures Normalize(Standard(h, m)).Some? <==> h <= 23 && m <= 59
    ensures Normalize(Standard(h, m)).Some? ==> Normalize(Standard(h, m)).value == (h, m)
  {
  }

  /** `HhM` shorthand: the same window; a missing minute reads as 0. */
  lemma ShorthandRule(h: nat, m: Option<nat>)
    ensures Normalize(Shorthand(h, m)).Some? <==> h <= 23 && MinuteOrZero(m) <= 59
    ensures Normalize(Shorthand(h, m)).Some? ==> Normalize(Shorthand(h, m)).value == (h, MinuteOrZero(m))
    ensures Normalize(Shorthand(h, None)) == Normalize(Shorthand(h, Some(0)))
  {
  }

  /** A canonical time is a fixed point: matched as `HH:MM`, it is replaced by itself. */
  lemma CanonicalIsFixedPoint(h: nat, m: nat)
    requires h <= 23 && m <= 59
    ensures SustituirHora(Match(Format(h, m), Standard(h, m))) == Format(h, m)
  {
  }

  /** Minutes added to the hour by a quarter phrase, as a signed offset ("menos cuarto" is
      a quarter before the hour). */
  function QuarterOffset(phrase: string): int
    requires phrase in Phrases
  {
    if phrase == "en punto" then 0
    else if phrase == "y cuarto" then 15
    else if phrase == "y media" then 30
    else -15
  }

  /** Quarter phrases: accepted exactly for hours 1..12 and a phrase of the table; the
      result is the time `offset` minutes from hour `h` on a 12-hour dial read as 00:00..11:59. */
  lemma QuarterRule(h: nat, phrase: string)
    ensures Normalize(QuarterPhrase(h, phrase)).Some? <==> 1 <= h <= 12 && phrase in Phrases
    ensures Normalize(QuarterPhrase(h, phrase)).Some? ==>
      var t := ((h % 12) * 60 + QuarterOffset(phrase)) % 720;
      Normalize(QuarterPhrase(h, phrase)).value == (t / 60, t % 60)
  {
    if 1 <= h <= 12 && phrase in Phrases {
      var t := ((h % 12) * 60 + QuarterOffset(phrase)) % 720;
      assert Contains(phrase, "menos cuarto") <==> phrase == "menos cuarto";
      if phrase == "menos cuarto" {
        if h == 12 {
          assert t == 705;
        } else {
          assert t == (h - 1) * 60 + 45;
        }
      } else {
        assert t == h % 12 * 60 + QuarterOffset(phrase);
      }
    }
  }

  /** Quarter phrases: the minute comes from the table and the hour is always in 0..11;
      "menos cuarto" moves to the previous hour, 1 wrapping round to 12 (shown as 00). */
  lemma QuarterHourAndMinute(h: nat, phrase: string)
    requires 1 <= h <= 12 && phrase in Phrases
    ensures Normalize(QuarterPhrase(h, phrase)).Some?
    ensures Normalize(QuarterPhrase(h, phrase)).value.0 <= 11
    ensures Normalize(QuarterPhrase(h, phrase)).value.1 ==
      (if phrase == "en punto" then 0 else if phrase == "y cuarto" then 15
       else if phrase == "y media" then 30 else 45)
    ensures phrase == "menos cuarto" ==>
      Normalize(QuarterPhrase(h, phrase)).value.0 == (if h == 1 then 0 else h - 1)
    ensures phrase != "menos cuarto" ==>
      Normalize(QuarterPhrase(h, phrase)).value.0 == (if h == 12 then 0 else h)
  {
    assert Contains(phrase, "menos cuarto") <==> phrase == "menos cuarto";
  }

  /** "5 y cuarto" becomes 05:15. */
  lemma QuarterPastFive()
    ensures SustituirHora(Match("5 y cuarto", QuarterPhrase(5, "y cuarto"))) == "05:15"
  {
    assert Normalize(QuarterPhrase(5, "y cuarto")) == Some((5, 15));
    assert Pad2(5) == "05" && Pad2(15) == "15";
    assert Format(5, 15) == "05:15";
  }

  /** "5 y media" becomes 05:30. */
  lemma HalfPastFive()
    ensures SustituirHora(Match("5 y media", QuarterPhrase(5, "y media"))) == "05:30"
  {
    assert Normalize(QuarterPhrase(5, "y media")) == Some((5, 30));
    assert Pad2(5) == "05" && Pad2(30) == "30";
    assert Format(5, 30) == "05:30";
  }

  /** "1 menos cuarto" becomes 00:45: the hour before 1 is 12, shown as 00. */
  lemma QuarterToOne()
    ensures SustituirHora(Match("1 menos cuarto", QuarterPhrase(1, "menos cuarto"))) == "00:45"
  {
    assert Contains("menos cuarto", "menos cuarto");
    assert Normalize(QuarterPhrase(1, "menos cuarto")) == Some((0, 45));
    assert Pad2(0) == "00" && Pad2(45) == "45";
    assert Format(0, 45) == "00:45";
  }

  /** "5 y  cuarto", with two spaces, has no table entry and is kept. */
  lemma QuarterWithTwoSpacesKept()
    ensures SustituirHora(Match("5 y  cuarto", QuarterPhrase(5, "y  cuarto"))) == "5 y  cuarto"
  {
    assert Normalize(QuarterPhrase(5, "y  cuarto")).None?;
  }

  /** Worked examples of quarter phrases, each matched on its own, with their replacements;
      words separated by two spaces have no table entry. */
  lemma QuarterExamples()
    ensures SustituirHora(Match("5 y cuarto", QuarterPhrase(5, "y cuarto"))) == "05:15"
    ensures SustituirHora(Match("5 y media", QuarterPhrase(5, "y media"))) == "05:30"
    ensures SustituirHora(Match("1 menos cuarto", QuarterPhrase(1, "menos cuarto"))) == "00:45"
    ensures SustituirHora(Match("5 y  cuarto", QuarterPhrase(5, "y  cuarto"))) == "5 y  cuarto"
  {
    QuarterPastFive();
    HalfPastFive();
    QuarterToOne();
    QuarterWithTwoSpacesKept();
  }

  /** "9 de la mañana" becomes 09:00. */
  lemma NineInTheMorning()
    ensures SustituirHora(Match("9 de la mañana", PeriodPhrase(9, None, "mañana"))) == "09:00"
  {
    assert Normalize(PeriodPhrase(9, None, "mañana")) == Some((9, 0));
    assert Pad2(9) == "09" && Pad2(0) == "00";
    assert Format(9, 0) == "09:00";
  }

  /** "14h30" becomes 14:30. */
  lemma ShorthandFourteenThirty()
    ensures SustituirHora(Match("14h30", Shorthand(14, Some(30)))) == "14:30"
  {
    assert Normalize(Shorthand(14, Some(30))) == Some((14, 30));
    assert Pad2(14) == "14" && Pad2(30) == "30";
    assert Format(14, 30) == "14:30";
  }

  /** Worked examples of the other forms, each matched on its own, with their replacements. */
  lemma OtherFormExamples()
    ensures SustituirHora(Match("9 de la mañana", PeriodPhrase(9, None, "mañana"))) == "09:00"
    ensures SustituirHora(Match("14h30", Shorthand(14, Some(30)))) == "14:30"
    ensures SustituirHora(Match("25:99", Standard(25, 99))) == "25:99"
  {
    NineInTheMorning();
    ShorthandFourteenThirty();
    assert Normalize(Standard(25, 99)).None?;
  }

  /** A 12-hour clock reading (1..12, before or after noon) as a 24-hour hour. */
  function Clock24(h: nat, pm: bool): (r: nat)
    requires 1 <= h <= 12
    ensures r <= 23 && r % 12 == h % 12 && (r >= 12 <==> pm)
  {
    h % 12 + (if pm then 12 else 0)
  }

  /** The hours each period word admits. */
  predicate PeriodAdmits(p: string, h: nat) {
    || (p == "mañana" && 4 <= h <= 12)
    || (p == "tarde" && 3 <= h <= 8)
    || (p == "noche" && (8 <= h <= 12 || 1 <= h <= 4))
    || (p == "madrugada" && 1 <= h <= 6)
  }

  /** Whether a period word puts the hour after noon ("las 12 de la noche" is midnight). */
  predicate PeriodIsPm(p: string, h: nat) {
    p == "tarde" || (p == "noche" && 8 <= h <= 11)
  }

  /** Period phrases: accepted exactly when the hour is 1..12, the minute at most 59 and the
      period admits the hour; the hour is then read on a 12-hour clock, after noon only for
      "tarde" and for 8..11 "de la noche", and the minute is kept. */
  lemma PeriodRule(h: nat, m: Option<nat>, p: string)
    ensures Normalize(PeriodPhrase(h, m, p)).Some? <==>
      1 <= h <= 12 && MinuteOrZero(m) <= 59 && PeriodAdmits(p, h)
    ensures Normalize(PeriodPhrase(h, m, p)).Some? ==>
      Normalize(PeriodPhrase(h, m, p)).value == (Clock24(h, PeriodIsPm(p, h)), MinuteOrZero(m))
    ensures Normalize(PeriodPhrase(h, None, p)) == Normalize(PeriodPhrase(h, Some(0), p))
  {
  }

  /** The 24-hour hours each period word can produce. */
  lemma PeriodHourWindows(h: nat, m: Option<nat>, p: string)
    requires Normalize(PeriodPhrase(h, m, p)).Some?
    ensures var hh := Normalize(PeriodPhrase(h, m, p)).value.0;
      && (p == "mañana" ==> hh == 0 || 4 <= hh <= 11)
      && (p == "tarde" ==> 15 <= hh <= 20)
      && (p == "noche" ==> hh <= 4 || 20 <= hh <= 23)
      && (p == "madrugada" ==> 1 <= hh <= 6)
  {
  }

  /** "del mediodía" is never normalised: its guard `12 <= h <= 3` admits no hour, so the
      matched text is always kept. */
  lemma MediodiaIsNeverNormalized(text: string, h: nat, m: Option<nat>)
    ensures Normalize(PeriodPhrase(h, m, "mediodía")).None?
    ensures SustituirHora(Match(text, PeriodPhrase(h, m, "mediodía"))) == text
  {
  }

  // ---------------------------------------------------------------------------
  // Substitution over a line

  /** A line as the pattern engine splits it: text between matches, and matches. */
  datatype Segment = Plain(text: string) | Time(m: Match)

  /** The line as read. */
  function Original(line: seq<Segment>): string {
    if line == [] then []
    else (match line[0] case Plain(s) => s case Time(m) => m.text) + Original(line[1..])
  }

  /** The segments after replacement: each match becomes the text that replaces it. */
  function Rewrite(line: seq<Segment>): (r: seq<Segment>)
    ensures |r| == |line|
    ensures forall i :: 0 <= i < |line| ==> r[i].Plain?
    ensures forall i :: 0 <= i < |line| && line[i].Plain? ==> r[i] == line[i]
    ensures forall i :: 0 <= i < |line| && line[i].Time? ==> r[i] == Plain(SustituirHora(line[i].m))
  {
    if line == [] then []
    else
      var head := match line[0] case Plain(_) => line[0] case Time(m) => Plain(SustituirHora(m));
      var tail := Rewrite(line[1..]);
      assert forall i :: 1 <= i < |line| ==> ([head] + tail)[i] == tail[i - 1] && line[i] == line[1..][i - 1];
      [head] + tail
  }

  /** The line after every match is replaced (`sub` with SustituirHora). */
  function Sub(line: seq<Segment>): string {
    if line == [] then []
    else (match line[0] case Plain(s) => s case Time(m) => SustituirHora(m)) + Sub(line[1..])
  }

  lemma {:induction false} SubConcat(a: seq<Segment>, b: seq<Segment>)
    ensures Sub(a + b) == Sub(a) + Sub(b)
  {
    if a == [] {
      assert a + b == b;
    } else {
      assert (a + b)[1..] == a[1..] + b;
      SubConcat(a[1..], b);
    }
  }

  lemma {:induction false} OriginalConcat(a: seq<Segment>, b: seq<Segment>)
    ensures Original(a + b) == Original(a) + Original(b)
  {
    if a == [] {
      assert a + b == b;
    } else {
      assert (a + b)[1..] == a[1..] + b;
      OriginalConcat(a[1..], b);
    }
  }

  /** Replacing is reading the rewritten segments, in which the plain text is in place. */
  lemma {:induction false} SubIsOriginalOfRewrite(line: seq<Segment>)
    ensures Sub(line) == Original(Rewrite(line))
  {
    if line != [] {
      assert Rewrite(line)[1..] == Rewrite(line[1..]);
      SubIsOriginalOfRewrite(line[1..]);
    }
  }

  /** Each plain segment appears in the output unchanged, right after the output of the
      segments before it. */
  lemma PlainTextPreserved(line: seq<Segment>, i: nat)
    requires i < |line| && line[i].Plain?
    ensures var k := |Sub(line[..i])|;
      k + |line[i].text| <= |Sub(line)| && Sub(line)[k..k + |line[i].text|] == line[i].text
  {
    var pre, rest := line[..i], [line[i]] + line[i + 1..];
    assert line == pre + rest;
    SubConcat(pre, rest);
    assert rest[1..] == line[i + 1..];
    assert Sub(rest) == line[i].text + Sub(line[i + 1..]);
  }

  /** A line whose matches are all rejected comes out exactly as it went in. */
  lemma {:induction false} RejectedLineUnchanged(line: seq<Segment>)
    requires forall i :: 0 <= i < |line| && line[i].Time? ==> Normalize(line[i].m.groups).None?
    ensures Sub(line) == Original(line)
  {
    if line != [] {
      RejectedLineUnchanged(line[1..]);
    }
  }
}
