/**
 * The display formatters of src/formatter.ts: mission time, mission result,
 * hazard level, character title and the CSS class and display names of
 * characters. A `number | undefined` argument is an Option; the codes the
 * formatters switch on are whole numbers.
 */
module Formatter {
  import opened Wrappers
  import Decimal
  import Tool

  // ---------------------------------------------------------------------------
  // Mission time

  /** `Math.trunc`: drops the fractional part, towards zero. */
  function Trunc(x: real): (t: int)
    ensures x >= 0.0 ==> 0 <= t && t as real <= x < t as real + 1.0
    ensures x < 0.0 ==> t <= 0 && t as real - 1.0 < x <= t as real
  {
    if x >= 0.0 then x.Floor else -((-x).Floor)
  }

  /** The quotient of a division truncated towards zero, as `Math.trunc(a / b)` gives it. */
  function JsQuot(a: int, b: int): int
    requires b > 0
  {
    if a >= 0 then a / b else -((-a) / b)
  }

  /** JavaScript's `%`: the remainder takes the sign of the dividend. */
  function JsRem(a: int, b: int): (r: int)
    requires b > 0
    ensures a == JsQuot(a, b) * b + r
    ensures a >= 0 ==> 0 <= r < b
    ensures a < 0 ==> -b < r <= 0
  {
    if a >= 0 then a % b else -((-a) % b)
  }

  datatype Clock = Clock(hours: int, minutes: int, seconds: int)

  /**
   * `hours = Math.floor(time / 3600)`, `minutes = Math.floor((time % 3600) / 60)`,
   * `seconds = time % 60` for whole seconds `t`.
   */
  function ClockOf(t: int): (c: Clock)
    ensures t >= 0 ==> && c.hours >= 0 && 0 <= c.minutes < 60 && 0 <= c.seconds < 60
                       && c.hours * 3600 + c.minutes * 60 + c.seconds == t
  {
    ClockParts(t);
    Clock(t / 3600, JsRem(t, 3600) / 60, JsRem(t, 60))
  }

  /** Whole hours, then whole minutes of what is left, then seconds, make up `t`. */
  lemma ClockParts(t: int)
    ensures t >= 0 ==> (t / 3600) * 3600 + (JsRem(t, 3600) / 60) * 60 + JsRem(t, 60) == t
  {
    if t >= 0 {
      var r := t % 3600;
      var m, s := r / 60, r % 60;
      assert t == (t / 3600) * 3600 + r;
      assert r == m * 60 + s;
      var k := (t / 3600) * 60 + m;
      assert t == k * 60 + s;
      RemainderOf(t, k, s);
    }
  }

  /** The remainder of `a` by 60 is the `s` of any `a == k * 60 + s` with `0 <= s < 60`. */
  lemma RemainderOf(a: int, k: int, s: int)
    requires a == k * 60 + s && 0 <= s < 60
    ensures a % 60 == s
  {
    var q, r := a / 60, a % 60;
    assert a == q * 60 + r;
    assert (k - q) * 60 == r - s;
  }

  function FormatMissionTime(time: Option<real>): (r: string)
    ensures time.None? <==> r == ""
  {
    match time
    case None => ""
    case Some(x) =>
      var t := Trunc(x);
      var c := ClockOf(t);
      if t >= 3600 then
        Decimal.IntText(c.hours) + "小时" + Decimal.IntText(c.minutes) + "分" + Decimal.IntText(c.seconds) + "秒"
      else if t >= 60 then
        Decimal.IntText(c.minutes) + "分" + Decimal.IntText(c.seconds) + "秒"
      else
        Decimal.IntText(c.seconds) + "秒"
  }

  /** The three shapes of mission-time text: hours-minutes-seconds, minutes-seconds, seconds. */
  datatype TimeText = HMS(h: nat, m: nat, s: nat) | MS(m: nat, s: nat) | S(s: nat)

  function SecondsOf(tt: TimeText): nat {
    match tt
    case HMS(h, m, s) => h * 3600 + m * 60 + s
    case MS(m, s) => m * 60 + s
    case S(s) => s
  }

  /** Reads a number followed by `unit`, returning the number and what follows the unit. */
  function ReadField(text: string, unit: string): Option<(nat, string)> {
    var r := Decimal.ReadNat(text);
    if r.None? then None
    else
      var rest := r.value.1;
      if |rest| >= |unit| && rest[..|unit|] == unit then Some((r.value.0, rest[|unit|..])) else None
  }

  /** Reads the last field, which must end the text. */
  function ReadLast(text: string, unit: string): Option<nat> {
    var r := ReadField(text, unit);
    if r.Some? && r.value.1 == [] then Some(r.value.0) else None
  }

  /** Reads mission-time text back into its fields. */
  function ParseMissionTime(text: string): Option<TimeText> {
    var hours := ReadField(text, "小时");
    if hours.Some? then
      var minutes := ReadField(hours.value.1, "分");
      if minutes.None? then None
      else
        var seconds := ReadLast(minutes.value.1, "秒");
        if seconds.None? then None else Some(HMS(hours.value.0, minutes.value.0, seconds.value))
    else
      var minutes := ReadField(text, "分");
      if minutes.Some? then
        var seconds := ReadLast(minutes.value.1, "秒");
        if seconds.None? then None else Some(MS(minutes.value.0, seconds.value))
      else
        var seconds := ReadLast(text, "秒");
        if seconds.None? then None else Some(S(seconds.value))
  }

  lemma ReadFieldOfText(n: nat, rest: string, unit: string)
    requires Decimal.StopsDigits(rest)
    ensures ReadField(Decimal.NatText(n) + rest, unit)
            == if |rest| >= |unit| && rest[..|unit|] == unit then Some((n, rest[|unit|..])) else None
  {
    Decimal.ReadNatText(n, rest);
  }

  lemma ReadFieldOtherUnit(n: nat, rest: string, unit: string)
    requires |rest| > 0 && !Decimal.IsDigit(rest[0])
    requires |unit| > 0 && rest[0] != unit[0]
    ensures ReadField(Decimal.NatText(n) + rest, unit) == None
  {
    Decimal.ReadNatText(n, rest);
    if |rest| >= |unit| {
      assert rest[..|unit|][0] != unit[0];
    }
  }

  lemma ReadFieldUnit(n: nat, unit: string, rest: string)
    requires |unit| > 0 && !Decimal.IsDigit(unit[0])
    ensures ReadField(Decimal.NatText(n) + unit + rest, unit) == Some((n, rest))
  {
    assert Decimal.NatText(n) + unit + rest == Decimal.NatText(n) + (unit + rest);
    ReadFieldOfText(n, unit + rest, unit);
    assert (unit + rest)[..|unit|] == unit;
    assert (unit + rest)[|unit|..] == rest;
  }

  /** Text whose three fields read in turn parses to those fields. */
  lemma ParseHours(text: string, h: nat, mPart: string, m: nat, sPart: string, sec: nat)
    requires ReadField(text, "小时") == Some((h, mPart))
    requires ReadField(mPart, "分") == Some((m, sPart))
    requires ReadLast(sPart, "秒") == Some(sec)
    ensures ParseMissionTime(text) == Some(HMS(h, m, sec))
  {
  }

  lemma ParseHoursMinutesSeconds(h: nat, m: nat, sec: nat)
    ensures ParseMissionTime(Decimal.NatText(h) + "小时" + Decimal.NatText(m) + "分" + Decimal.NatText(sec) + "秒")
            == Some(HMS(h, m, sec))
  {
    var sPart := Decimal.NatText(sec) + "秒";
    var mPart := Decimal.NatText(m) + "分" + sPart;
    var text := Decimal.NatText(h) + "小时" + mPart;
    assert Decimal.NatText(h) + "小时" + Decimal.NatText(m) + "分" + Decimal.NatText(sec) + "秒" == text;
    ReadFieldUnit(h, "小时", mPart);
    ReadFieldUnit(m, "分", sPart);
    ReadFieldUnit(sec, "秒", []);
    assert sPart + [] == sPart;
    ParseHours(text, h, mPart, m, sPart, sec);
  }

  lemma ParseMinutesSeconds(m: nat, sec: nat)
    ensures ParseMissionTime(Decimal.NatText(m) + "分" + Decimal.NatText(sec) + "秒") == Some(MS(m, sec))
  {
    var sText := Decimal.NatText(sec);
    var text := Decimal.NatText(m) + "分" + (sText + "秒");
    assert Decimal.NatText(m) + "分" + sText + "秒" == text;
    ReadFieldOtherUnit(m, "分" + (sText + "秒"), "小时");
    ReadFieldUnit(m, "分", sText + "秒");
    ReadFieldUnit(sec, "秒", []);
    assert sText + "秒" + [] == sText + "秒";
  }

  lemma ParseSeconds(sec: nat)
    ensures ParseMissionTime(Decimal.NatText(sec) + "秒") == Some(S(sec))
  {
    ReadFieldOtherUnit(sec, "秒", "小时");
    ReadFieldOtherUnit(sec, "秒", "分");
    ReadFieldUnit(sec, "秒", []);
    assert Decimal.NatText(sec) + "秒" + [] == Decimal.NatText(sec) + "秒";
  }

  /**
   * For a non-negative time the text reads back to whole seconds `Math.trunc(time)`,
   * split into hours, minutes (< 60) and seconds (< 60), and its shape depends on
   * the range: all three parts from 3600 on, minutes and seconds from 60 on,
   * seconds alone below.
   */
  lemma MissionTimeRoundTrip(x: real)
    requires x >= 0.0
    ensures var t := Trunc(x);
            var p := ParseMissionTime(FormatMissionTime(Some(x)));
            && p.Some?
            && SecondsOf(p.value) == t
            && (p.value.HMS? <==> t >= 3600)
            && (p.value.MS? <==> 60 <= t < 3600)
            && (p.value.S? <==> t < 60)
            && (p.value.HMS? ==> p.value.m < 60)
            && p.value.s < 60
  {
    var t := Trunc(x);
    var c := ClockOf(t);
    assert Decimal.IntText(c.hours) == Decimal.NatText(c.hours);
    assert Decimal.IntText(c.minutes) == Decimal.NatText(c.minutes);
    assert Decimal.IntText(c.seconds) == Decimal.NatText(c.seconds);
    if t >= 3600 {
      ParseHoursMinutesSeconds(c.hours, c.minutes, c.seconds);
    } else if t >= 60 {
      ParseMinutesSeconds(c.minutes, c.seconds);
    } else {
      ParseSeconds(c.seconds);
    }
  }

  /**
   * A negative time falls to the seconds-only branch, and its seconds are the
   * remainder by 60, which keeps the minus sign: -3661 is shown as "-1秒".
   */
  lemma NegativeMissionTime(x: real)
    requires x < 0.0
    ensures var s := JsRem(Trunc(x), 60);
            && -60 < s <= 0
            && FormatMissionTime(Some(x)) == Decimal.IntText(s) + "秒"
  {
  }

  /** The hours and minutes of a negative time are dropped from its text. */
  lemma NegativeTimeExample()
    ensures FormatMissionTime(Some(-3661.0)) == "-1秒"
  {
    assert Trunc(-3661.0) == -3661;
    assert JsRem(-3661, 60) == -1;
    assert Decimal.IntText(-1) == "-1";
  }

  // ---------------------------------------------------------------------------
  // Mission result and hazard level

  const UnknownLabel: string := "未知"

  function FormatMissionResult(result: Option<int>): (r: string)
    ensures result.None? <==> r == ""
    ensures r == UnknownLabel <==> result.Some? && !(0 <= result.value <= 2)
  {
    match result
    case None => ""
    case Some(code) =>
      match code
      case 0 => "已完成"
      case 1 => "失败"
      case 2 => "放弃"
      case _ => UnknownLabel
  }

  /** The mission result a label stands for. */
  function MissionResultOf(text: string): Option<int> {
    if text == "已完成" then Some(0)
    else if text == "失败" then Some(1)
    else if text == "放弃" then Some(2)
    else None
  }

  /** The three known results have three distinct labels, each naming its code. */
  lemma MissionResultLabelsDistinct(code: int)
    ensures MissionResultOf(FormatMissionResult(Some(code))) == if 0 <= code <= 2 then Some(code) else None
  {
  }

  const KnownDifficulties: set<int> := {1, 2, 3, 4, 5, 100, 101, 102, 103, 104, 105}

  function FormatMissionDifficulty(difficulty: Option<int>): (r: string)
    ensures difficulty.None? <==> r == ""
    ensures r == UnknownLabel <==> difficulty.Some? && difficulty.value !in KnownDifficulties
  {
    match difficulty
    case None => ""
    case Some(code) =>
      match code
      case 1 => "一级风险"
      case 2 => "二级风险"
      case 3 => "三级风险"
      case 4 => "四级风险"
      case 5 => "五级风险"
      case 100 => "深潜 阶段一 3"
      case 101 => "深潜 阶段二 3.5"
      case 102 => "深潜 阶段三 3.5"
      case 103 => "精英深潜 阶段一 4.5"
      case 104 => "精英深潜 阶段二 5"
      case 105 => "精英深潜 阶段三 5.5"
      case _ => UnknownLabel
  }

  /** The hazard level a label stands for. */
  function DifficultyOf(text: string): Option<int> {
    if text == "一级风险" then Some(1)
    else if text == "二级风险" then Some(2)
    else if text == "三级风险" then Some(3)
    else if text == "四级风险" then Some(4)
    else if text == "五级风险" then Some(5)
    else if text == "深潜 阶段一 3" then Some(100)
    else if text == "深潜 阶段二 3.5" then Some(101)
    else if text == "深潜 阶段三 3.5" then Some(102)
    else if text == "精英深潜 阶段一 4.5" then Some(103)
    else if text == "精英深潜 阶段二 5" then Some(104)
    else if text == "精英深潜 阶段三 5.5" then Some(105)
    else None
  }

  /** Each known hazard level has its own label, which names it. */
  lemma DifficultyLabelsDistinct(code: int)
    ensures DifficultyOf(FormatMissionDifficulty(Some(code))) == if code in KnownDifficulties then Some(code) else None
  {
  }

  // ---------------------------------------------------------------------------
  // Character title and its CSS class

  const LegendaryPrefix: string := "Legendary IV("

  function FormatCharacterTitle(promotionTimes: Option<int>): (r: string)
    ensures promotionTimes.None? <==> r == ""
  {
    match promotionTimes
    case None => ""
    case Some(p) =>
      match p
      case 0 => "None"
      case 1 => "Bronze I"
      case 2 => "Bronze II"
      case 3 => "Bronze III"
      case 4 => "Silver I"
      case 5 => "Silver II"
      case 6 => "Silver III"
      case 7 => "Gold I"
      case 8 => "Gold II"
      case 9 => "Gold III"
      case 10 => "Platinum I"
      case 11 => "Platinum II"
      case 12 => "Platinum III"
      case 13 => "Diamond I"
      case 14 => "Diamond II"
      case 15 => "Diamond III"
      case 16 => "Legendary I"
      case 17 => "Legendary II"
      case 18 => "Legendary III"
      case _ => LegendaryPrefix + Decimal.IntText(p - 18) + ")"
  }

  /** Outside the table the title is "Legendary IV(" with the count past 18. */
  lemma LegendaryTitle(p: int)
    requires p < 0 || p > 18
    ensures FormatCharacterTitle(Some(p)) == LegendaryPrefix + (Decimal.IntText(p - 18) + ")")
  {
  }

  /** The promotion count a title stands for. */
  function PromotionOfTitle(title: string): Option<int> {
    if |title| > |LegendaryPrefix| && title[..|LegendaryPrefix|] == LegendaryPrefix then
      var r := Decimal.ReadInt(title[|LegendaryPrefix|..]);
      if r.Some? && r.value.1 == ")" then Some(r.value.0 + 18) else None
    else if title == "None" then Some(0)
    else if title == "Bronze I" then Some(1)
    else if title == "Bronze II" then Some(2)
    else if title == "Bronze III" then Some(3)
    else if title == "Silver I" then Some(4)
    else if title == "Silver II" then Some(5)
    else if title == "Silver III" then Some(6)
    else if title == "Gold I" then Some(7)
    else if title == "Gold II" then Some(8)
    else if title == "Gold III" then Some(9)
    else if title == "Platinum I" then Some(10)
    else if title == "Platinum II" then Some(11)
    else if title == "Platinum III" then Some(12)
    else if title == "Diamond I" then Some(13)
    else if title == "Diamond II" then Some(14)
    else if title == "Diamond III" then Some(15)
    else if title == "Legendary I" then Some(16)
    else if title == "Legendary II" then Some(17)
    else if title == "Legendary III" then Some(18)
    else None
  }

  /**
   * Every promotion count has its own title: the title reads back to the count,
   * including the open-ended "Legendary IV(n)" range beyond 18.
   */
  lemma TitleRoundTrip(p: int)
    ensures PromotionOfTitle(FormatCharacterTitle(Some(p))) == Some(p)
  {
    if 0 <= p <= 18 {
      TableTitleRoundTrip(p);
    } else {
      LegendaryTitleRoundTrip(p);
    }
  }

  lemma LegendaryTitleRoundTrip(p: int)
    requires p < 0 || p > 18
    ensures PromotionOfTitle(FormatCharacterTitle(Some(p))) == Some(p)
  {
    var title := FormatCharacterTitle(Some(p));
    var k := |LegendaryPrefix|;
    LegendaryTitle(p);
    assert |title| > k && title[..k] == LegendaryPrefix;
    assert title[k..] == Decimal.IntText(p - 18) + ")";
    Decimal.ReadIntText(p - 18, ")");
    assert Decimal.ReadInt(title[k..]) == Some((p - 18, ")"));
  }

  lemma TableTitleRoundTrip(p: int)
    requires 0 <= p <= 18
    ensures PromotionOfTitle(FormatCharacterTitle(Some(p))) == Some(p)
  {
    assert |FormatCharacterTitle(Some(p))| <= |LegendaryPrefix|;
  }

  /** Beyond 18 promotions the title is "Legendary IV(" with the count past 18. */
  lemma LegendaryFourCount(p: int)
    requires p > 18
    ensures var title := FormatCharacterTitle(Some(p));
            var k := |LegendaryPrefix|;
            && |title| > k + 1
            && title[..k] == LegendaryPrefix
            && title[|title| - 1] == ')'
            && Decimal.ReadInt(title[k..]) == Some((p - 18, ")"))
            && Decimal.AllDigits(title[k..|title| - 1])
  {
    var title := FormatCharacterTitle(Some(p));
    var k := |LegendaryPrefix|;
    var digits := Decimal.NatText(p - 18);
    LegendaryTitle(p);
    assert title[k..] == digits + ")";
    assert title[k..|title| - 1] == digits;
    Decimal.ReadIntText(p - 18, ")");
  }

  function GenerateTitleClass(promotionTimes: Option<int>): (r: string)
    ensures r == "" <==> promotionTimes.None? || promotionTimes.value == 0
  {
    match promotionTimes
    case None => ""
    case Some(p) =>
      if p == 0 then ""
      else if 1 <= p <= 3 then "bronze"
      else if 4 <= p <= 6 then "silver"
      else if 7 <= p <= 9 then "gold"
      else if 10 <= p <= 12 then "platinum"
      else if 13 <= p <= 15 then "diamond"
      else "legendary"
  }

  /** The text of `s` before its first space. */
  function FirstWord(s: string): (w: string)
    ensures w <= s && ' ' !in w
    ensures |w| < |s| ==> s[|w|] == ' '
  {
    if s == [] || s[0] == ' ' then [] else [s[0]] + FirstWord(s[1..])
  }

  function LowerChar(c: char): char {
    if 'A' <= c <= 'Z' then (c as int - 'A' as int + 'a' as int) as char else c
  }

  /** `toLowerCase` on ASCII letters. */
  function ToLower(s: string): string {
    seq(|s|, i requires 0 <= i < |s| => LowerChar(s[i]))
  }

  lemma {:induction false} FirstWordOf(w: string, rest: string)
    requires ' ' !in w
    ensures FirstWord(w + " " + rest) == w
  {
    if w == [] {
      assert w + " " + rest == [' '] + rest;
    } else {
      assert (w + " " + rest)[1..] == w[1..] + " " + rest;
      assert w[0] in w;
      FirstWordOf(w[1..], rest);
      assert w == [w[0]] + w[1..];
    }
  }

  /** `title` is the word `tier`, a space, and the rest. */
  lemma TierClass(title: string, tier: string, rest: string, cls: string)
    requires ' ' !in tier && title == tier + " " + rest && ToLower(tier) == cls
    ensures ToLower(FirstWord(title)) == cls
  {
    FirstWordOf(tier, rest);
  }

  lemma TierNamesLowered()
    ensures ToLower("Bronze") == "bronze" && ToLower("Silver") == "silver"
    ensures ToLower("Gold") == "gold" && ToLower("Platinum") == "platinum"
    ensures ToLower("Diamond") == "diamond" && ToLower("Legendary") == "legendary"
  {
  }

  lemma TitleClassInTable(p: int)
    requires 1 <= p <= 18
    ensures GenerateTitleClass(Some(p)) == ToLower(FirstWord(FormatCharacterTitle(Some(p))))
  {
    if p <= 9 {
      MetalTitleClass(p);
    } else {
      GemTitleClass(p);
    }
  }

  /** Bronze, Silver and Gold. */
  lemma MetalTitleClass(p: int)
    requires 1 <= p <= 9
    ensures GenerateTitleClass(Some(p)) == ToLower(FirstWord(FormatCharacterTitle(Some(p))))
  {
    var title := FormatCharacterTitle(Some(p));
    TierNamesLowered();
    if p <= 3 {
      TierClass(title, "Bronze", title[7..], "bronze");
    } else if p <= 6 {
      TierClass(title, "Silver", title[7..], "silver");
    } else {
      TierClass(title, "Gold", title[5..], "gold");
    }
  }

  /** Platinum, Diamond and the first three Legendary ranks. */
  lemma GemTitleClass(p: int)
    requires 10 <= p <= 18
    ensures GenerateTitleClass(Some(p)) == ToLower(FirstWord(FormatCharacterTitle(Some(p))))
  {
    var title := FormatCharacterTitle(Some(p));
    TierNamesLowered();
    if p <= 12 {
      TierClass(title, "Platinum", title[9..], "platinum");
    } else if p <= 15 {
      TierClass(title, "Diamond", title[8..], "diamond");
    } else {
      TierClass(title, "Legendary", title[10..], "legendary");
    }
  }

  lemma LegendaryTitleClass(p: int)
    requires p < 0 || p > 18
    ensures GenerateTitleClass(Some(p)) == ToLower(FirstWord(FormatCharacterTitle(Some(p))))
  {
    TierNamesLowered();
    var title := FormatCharacterTitle(Some(p));
    var rest := "IV(" + (Decimal.IntText(p - 18) + ")");
    LegendaryTitle(p);
    assert title == "Legendary" + " " + rest;
    TierClass(title, "Legendary", rest, "legendary");
  }

  /**
   * The title class is the lower-cased first word of the title (bronze, silver,
   * gold, platinum, diamond, legendary) for every promotion count but 0, whose
   * title "None" has no class.
   */
  lemma TitleClassMatchesTitle(p: int)
    requires p != 0
    ensures GenerateTitleClass(Some(p)) == ToLower(FirstWord(FormatCharacterTitle(Some(p))))
  {
    if 1 <= p <= 18 {
      TitleClassInTable(p);
    } else {
      LegendaryTitleClass(p);
    }
  }

  // ---------------------------------------------------------------------------
  // Characters

  const HeroGameIds: set<string> := {"DRILLER", "ENGINEER", "GUNNER", "SCOUT"}
  const KpiCharacterIds: set<string> := {"driller", "engineer", "gunner", "scout", "scout_special"}
  const CharacterClasses: set<string> := {"driller", "engineer", "gunner", "scout"}

  /** The CSS class of a hero: its game id lower-cased, or none for an unknown id. */
  function GenerateCharacterClass(heroGameId: string): (r: string)
    ensures r != "" <==> heroGameId in HeroGameIds
    ensures r != "" ==> r == ToLower(heroGameId) && r in CharacterClasses
  {
    match heroGameId
    case "DRILLER" => "driller"
    case "ENGINEER" => "engineer"
    case "GUNNER" => "gunner"
    case "SCOUT" => "scout"
    case _ => ""
  }

  /** The CSS class of a KPI character: the damage-dealing scout shares the scout's. */
  function GenerateKPICharacterClass(source: string): (r: string)
    ensures r != "" <==> source in KpiCharacterIds
    ensures r != "" ==> r in CharacterClasses
    ensures source in CharacterClasses ==> r == source
    ensures source == "scout_special" ==> r == "scout"
  {
    match source
    case "driller" => "driller"
    case "engineer" => "engineer"
    case "gunner" => "gunner"
    case "scout" => "scout"
    case "scout_special" => "scout"
    case _ => ""
  }

  /** The display name of a KPI character; an unknown one is shown as is. */
  function GetKPICharacterName(source: string): (r: string)
    ensures source !in KpiCharacterIds ==> r == source
    ensures source in KpiCharacterIds ==> r != source && r != ""
  {
    match source
    case "driller" => "钻机"
    case "engineer" => "工程"
    case "gunner" => "枪手"
    case "scout" => "侦察"
    case "scout_special" => "侦察-输出型"
    case _ => source
  }

  /** The KPI filter options are named and classed as the formatters name and class them. */
  lemma KpiFilterOptionsAgree()
    ensures forall o :: o in Tool.KpiCharacterFilterOptions ==>
              GetKPICharacterName(o.value) == o.caption && GenerateKPICharacterClass(o.value) != ""
  {
  }

  /** Each character filter option's class names it as the KPI views do. */
  lemma CharacterFilterOptionsAgree()
    ensures forall o :: o in Tool.CharacterFilterOptions ==>
              GenerateCharacterClass(o.value) != ""
              && GetKPICharacterName(GenerateCharacterClass(o.value)) == o.caption
  {
  }
}
