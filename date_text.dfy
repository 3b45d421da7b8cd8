/** The relative age shown next to each item ("now", "5 minutes ago", ...),
    as a function of the whole seconds elapsed since publication. Each count
    is a floor division, so a unit is used from one whole unit on, and the
    month of this rule is thirty days while the year is 365 days. */
module DateText {

  datatype TimeUnit = Minute | Hour | Day | Month | Year

  /** The age label: "now", or a count of one unit. The label words are left abstract. */
  datatype Age = Now | Ago(count: int, unit: TimeUnit)

  function UnitSeconds(u: TimeUnit): nat {
    match u
    case Minute => 60
    case Hour => 3600
    case Day => 86400
    case Month => 2592000
    case Year => 31536000
  }

  function Rank(u: TimeUnit): nat {
    match u
    case Minute => 1
    case Hour => 2
    case Day => 3
    case Month => 4
    case Year => 5
  }

  /** `dateText` for `s` elapsed seconds: the five floor quotients, then the
      first of the tests that holds. */
  function DateBucket(s: int): (r: Age)
    ensures r.Now? <==> s < 300
    ensures r.Ago? ==> r.count == s / UnitSeconds(r.unit)
    ensures r.Ago? ==> (r.unit == Minute <==> s < 3600)
    ensures r.Ago? ==> (r.unit == Hour <==> 3600 <= s < 86400)
    ensures r.Ago? ==> (r.unit == Day <==> 86400 <= s < 2592000)
    ensures r.Ago? ==> (r.unit == Month <==> 2592000 <= s < 31536000)
    ensures r.Ago? ==> (r.unit == Year <==> 31536000 <= s)
  {
    var y, m, d, h, mm := s / 31536000, s / 2592000, s / 86400, s / 3600, s / 60;
    if mm < 5 then Now
    else if h < 1 then Ago(mm, Minute)
    else if d < 1 then Ago(h, Hour)
    else if m < 1 then Ago(d, Day)
    else if y < 1 then Ago(m, Month)
    else Ago(y, Year)
  }

  /** The counts each unit can show: 5 to 59 minutes, 1 to 23 hours, 1 to 29
      days, 1 to 12 months (twelve for the last five days of a year), and one
      year or more. */
  lemma CountRanges(s: int)
    ensures var r := DateBucket(s);
      && (r.Ago? && r.unit == Minute ==> 5 <= r.count <= 59)
      && (r.Ago? && r.unit == Hour ==> 1 <= r.count <= 23)
      && (r.Ago? && r.unit == Day ==> 1 <= r.count <= 29)
      && (r.Ago? && r.unit == Month ==> 1 <= r.count <= 12)
      && (r.Ago? && r.unit == Year ==> 1 <= r.count)
  {
  }

  /** An older item never shows a smaller unit than a newer one. */
  lemma UnitMonotonic(s: int, t: int)
    requires s <= t
    ensures DateBucket(s).Ago? ==> DateBucket(t).Ago? && Rank(DateBucket(s).unit) <= Rank(DateBucket(t).unit)
  {
  }
}
