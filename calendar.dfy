/** Japanese weekday names, indexed like Python's date.weekday()
    (0 = Monday .. 6 = Sunday). */
module Calendar {

  /** The full names used in the quiz headers. */
  const WeekList: seq<string> := ["月曜日", "火曜日", "水曜日", "木曜日", "金曜日", "土曜日", "日曜日"]

  /** The one-character names used by the clock label. */
  const ShortWeekdays: seq<string> := ["月", "火", "水", "木", "金", "土", "日"]

  /** get_day_of_week_jp: the full name of weekday d. */
  function DayOfWeekJp(d: nat): (r: string)
    requires d < 7
    ensures |r| == 3 && r[1..] == "曜日"
  {
    WeekList[d]
  }

  /** weekday_in_jp: the one-character name of weekday d. */
  function WeekdayShort(d: nat): (r: string)
    requires d < 7
    ensures |r| == 1
  {
    ShortWeekdays[d]
  }

  /** The two tables agree: each full name is its short name plus 曜日. */
  lemma FullIsShortPlusSuffix(d: nat)
    requires d < 7
    ensures DayOfWeekJp(d) == WeekdayShort(d) + "曜日"
  {
  }

  /** Different weekdays get different names. */
  lemma WeekdayNamesDistinct(d: nat, e: nat)
    requires d < 7 && e < 7 && d != e
    ensures DayOfWeekJp(d) != DayOfWeekJp(e)
    ensures WeekdayShort(d) != WeekdayShort(e)
  {
    assert DayOfWeekJp(d)[0] != DayOfWeekJp(e)[0];
  }
}
