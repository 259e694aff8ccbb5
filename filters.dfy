/**
 * The template filters of main/templatetags/custom_filters.py.  Dates are
 * day numbers in the viewer's local calendar; turning a datetime into one,
 * and the strftime formats themselves, are not modelled.
 */
module Filters {
  import opened Common

  /** `dict_get`: the mapped value, or None for an absent key. */
  function DictGet<K, V>(m: map<K, V>, key: K): (r: Option<V>)
    ensures key in m ==> r == Some(m[key])
    ensures key !in m ==> r == None
  {
    if key in m then Some(m[key]) else None
  }

  /** `s[:1]`. */
  function Head(s: string): (r: string)
    ensures s == [] ==> r == []
    ensures s != [] ==> r == [s[0]]
  {
    if s == [] then [] else [s[0]]
  }

  /** `(f or "")` for an attribute that may be missing or None. */
  function OrEmpty(s: Option<string>): string {
    if s.Some? then s.value else ""
  }

  /** What upper-casing the two heads gives, case by case. */
  lemma UpperHeads(f: string, l: string)
    ensures f == [] && l == [] ==> Upper(Head(f) + Head(l)) == []
    ensures f != [] && l != [] ==> Upper(Head(f) + Head(l)) == [UpperChar(f[0]), UpperChar(l[0])]
    ensures f != [] && l == [] ==> Upper(Head(f) + Head(l)) == [UpperChar(f[0])]
    ensures f == [] && l != [] ==> Upper(Head(f) + Head(l)) == [UpperChar(l[0])]
  {
    var h := Head(f) + Head(l);
    var u := Upper(h);
    if f != [] && l != [] {
      assert h == [f[0], l[0]];
      assert u[0] == UpperChar(f[0]) && u[1] == UpperChar(l[0]);
    } else if f != [] {
      assert h == [f[0]];
      assert u[0] == UpperChar(f[0]);
    } else if l != [] {
      assert h == [l[0]];
      assert u[0] == UpperChar(l[0]);
    }
  }

  /** The initials of two already stripped names. */
  function InitialsOf(f: string, l: string): (r: string)
    ensures 1 <= |r| <= 2
    ensures f == [] && l == [] ==> r == "?"
    ensures f != [] && l != [] ==> r == [UpperChar(f[0]), UpperChar(l[0])]
    ensures f != [] && l == [] ==> r == [UpperChar(f[0])]
    ensures f == [] && l != [] ==> r == [UpperChar(l[0])]
  {
    UpperHeads(f, l);
    var u := Upper(Head(f) + Head(l));
    if u == [] then "?" else u
  }

  /**
   * `initials`: the first character of the stripped first name and of the
   * stripped last name, upper-cased, or "?" when both are blank.  A missing
   * attribute or None counts as the empty string.
   */
  function Initials(firstName: Option<string>, lastName: Option<string>): (r: string)
    ensures 1 <= |r| <= 2
    ensures var f := Strip(OrEmpty(firstName));
            var l := Strip(OrEmpty(lastName));
      && (f == [] && l == [] ==> r == "?")
      && (f != [] && l != [] ==> r == [UpperChar(f[0]), UpperChar(l[0])])
      && (f != [] && l == [] ==> r == [UpperChar(f[0])])
      && (f == [] && l != [] ==> r == [UpperChar(l[0])])
    // "?" is also what a lone name starting with '?' gives.
    ensures var f := Strip(OrEmpty(firstName));
            var l := Strip(OrEmpty(lastName));
      r == "?" <==> (f == [] && l == []) || (f != [] && l == [] && f[0] == '?') || (f == [] && l != [] && l[0] == '?')
  {
    InitialsOf(Strip(OrEmpty(firstName)), Strip(OrEmpty(lastName)))
  }

  /** Which format `recency_stamp` uses. */
  datatype Stamp = NoStamp | TimeOfDay | Weekday | ShortDate

  /**
   * `recency_stamp` reduced to its day classification: nothing for a missing
   * datetime, the time for today, the weekday when fewer than 7 days have
   * passed (which includes dates after today), and the date otherwise.
   */
  function RecencyStamp(day: Option<int>, today: int): (r: Stamp)
    ensures day.None? <==> r == NoStamp
    ensures day.Some? ==>
      && (r == TimeOfDay <==> day.value == today)
      && (r == Weekday <==> day.value != today && today - day.value < 7)
      && (r == ShortDate <==> today - day.value >= 7)
  {
    if day.None? then NoStamp
    else if day.value == today then TimeOfDay
    else if today - day.value < 7 then Weekday
    else ShortDate
  }

  function Rank(s: Stamp): nat {
    match s
    case NoStamp => 0
    case TimeOfDay => 1
    case Weekday => 2
    case ShortDate => 3
  }

  /**
   * As a past message ages its stamp only moves on: time of day, then
   * weekday, then date.
   */
  lemma StampOnlyAges(day: int, today: int, later: int)
    requires day <= today <= later
    ensures Rank(RecencyStamp(Some(day), today)) <= Rank(RecencyStamp(Some(day), later))
  {
  }

  /** 1 to 6 days ago shows the weekday; 7 or more shows the date. */
  lemma StampByAge(day: int, today: int)
    ensures 1 <= today - day <= 6 ==> RecencyStamp(Some(day), today) == Weekday
    ensures today - day >= 7 ==> RecencyStamp(Some(day), today) == ShortDate
  {
  }
}
