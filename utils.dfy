/** `timeAgo` and `generateAcademicYears` of lib/utils.js. */
module Utils {
  import opened Wrappers
  import opened Text

  // ---------------------------------------------------------------------
  // timeAgo

  const SecondMs := 1000
  const MinuteMs := 60 * SecondMs
  const HourMs := 60 * MinuteMs
  const DayMs := 24 * HourMs

  /** What `timeAgo` returns: for a week or more, the date written by
      `toLocaleDateString` (not modelled: the instant is kept); otherwise a
      phrase. */
  datatype Ago = OnDate(date: int) | Phrase(text: string)

  /** `${n} ${n === 1 ? singular : plural} ago`. */
  function CountPhrase(n: nat, singular: string, plural: string): string {
    NatToString(n) + " " + (if n == 1 then singular else plural) + " ago"
  }

  /** `timeAgo(date)` at the instant `now` (both in milliseconds); every
      `Math.floor` is Dafny's `/` by a positive divisor. */
  function TimeAgo(now: int, date: int): Ago {
    var seconds := (now - date) / 1000;
    var days := seconds / 86400;
    if days >= 7 then OnDate(date)
    else if days >= 1 then Phrase(if days == 1 then "yesterday" else NatToString(days) + " days ago")
    else
      var hours := seconds / 3600;
      if hours >= 1 then Phrase(CountPhrase(hours, "hour", "hours"))
      else
        var minutes := seconds / 60;
        if minutes >= 1 then Phrase(CountPhrase(minutes, "minute", "minutes"))
        else Phrase("just now")
  }

  /** Whole days, hours and minutes of the elapsed milliseconds, as the
      source computes them from whole seconds. */
  lemma WholeUnits(e: int)
    ensures (e / 1000) / 86400 == e / DayMs
    ensures (e / 1000) / 3600 == e / HourMs
    ensures (e / 1000) / 60 == e / MinuteMs
  {
  }

  /** A phrase that starts with a count is not a word phrase. */
  lemma CountFirst(n: nat, rest: string, w: string)
    requires w != [] && !IsDigit(w[0])
    ensures NatToString(n) + rest != w
  {
    assert (NatToString(n) + rest)[0] == NatToString(n)[0];
  }

  /** The bucket is chosen by the elapsed time alone, the largest unit
      first: a week or more gives the date, exactly one whole day gives
      "yesterday", then whole days, hours and minutes. */
  lemma TimeAgoBuckets(now: int, date: int)
    ensures var e := now - date;
      (TimeAgo(now, date).OnDate? <==> e >= 7 * DayMs) &&
      (TimeAgo(now, date) == Phrase("yesterday") <==> DayMs <= e < 2 * DayMs) &&
      (2 * DayMs <= e < 7 * DayMs ==> TimeAgo(now, date) == Phrase(NatToString(e / DayMs) + " days ago")) &&
      (HourMs <= e < DayMs ==> TimeAgo(now, date) == Phrase(CountPhrase(e / HourMs, "hour", "hours"))) &&
      (MinuteMs <= e < HourMs ==> TimeAgo(now, date) == Phrase(CountPhrase(e / MinuteMs, "minute", "minutes")))
  {
    var e := now - date;
    WholeUnits(e);
    if e / DayMs >= 0 {
      CountFirst(e / DayMs, " days ago", "yesterday");
    }
    if e / HourMs >= 0 {
      CountFirst(e / HourMs, CountPhrase(e / HourMs, "hour", "hours")[|NatToString(e / HourMs)|..], "yesterday");
    }
    if e / MinuteMs >= 0 {
      CountFirst(e / MinuteMs, CountPhrase(e / MinuteMs, "minute", "minutes")[|NatToString(e / MinuteMs)|..], "yesterday");
    }
  }

  /** "just now" exactly when less than a minute has passed, which
      includes every date in the future. */
  lemma JustNow(now: int, date: int)
    ensures TimeAgo(now, date) == Phrase("just now") <==> now - date < MinuteMs
  {
    var e := now - date;
    WholeUnits(e);
    if e >= MinuteMs {
      CountFirst(e / DayMs, " days ago", "just now");
      CountFirst(e / HourMs, CountPhrase(e / HourMs, "hour", "hours")[|NatToString(e / HourMs)|..], "just now");
      CountFirst(e / MinuteMs, CountPhrase(e / MinuteMs, "minute", "minutes")[|NatToString(e / MinuteMs)|..], "just now");
    }
  }

  /** The unit is singular exactly when the count is 1. */
  lemma CountPhraseSingular(n: nat, singular: string, plural: string)
    requires |singular| != |plural|
    ensures CountPhrase(n, singular, plural) == NatToString(n) + " " + singular + " ago" <==> n == 1
  {
    var a := NatToString(n) + " " + plural + " ago";
    var b := NatToString(n) + " " + singular + " ago";
    if n != 1 {
      assert |a| != |b|;
    }
  }

  // ---------------------------------------------------------------------
  // generateAcademicYears

  /** The first calendar year of the academic year running in month
      `month` (0 for January) of `fullYear`; it starts in September. */
  function AcademicYearStart(month: int, fullYear: int): (y: int)
    ensures month < 8 ==> y == fullYear - 1
    ensures month >= 8 ==> y == fullYear
  {
    if month < 8 then fullYear - 1 else fullYear
  }

  /** `endYear || currentAcademicYearStart`: a missing or zero end year
      falls back to the current academic year. */
  function LastYear(endYear: Option<int>, month: int, fullYear: int): (y: int)
    ensures endYear.Some? && endYear.value != 0 ==> y == endYear.value
    ensures !(endYear.Some? && endYear.value != 0) ==> y == AcademicYearStart(month, fullYear)
  {
    if endYear.Some? && endYear.value != 0 then endYear.value else AcademicYearStart(month, fullYear)
  }

  /** `Math.max(startYear, lastYear - limit + 1)`. */
  function EffectiveStart(startYear: int, lastYear: int, limit: int): (y: int)
    ensures y >= startYear && y >= lastYear - limit + 1
    ensures y == startYear || y == lastYear - limit + 1
  {
    if startYear >= lastYear - limit + 1 then startYear else lastYear - limit + 1
  }

  /** `s.slice(-2)`: the last two characters. */
  function LastTwo(s: string): (r: string)
    ensures |r| == if |s| < 2 then |s| else 2
    ensures r == s[|s| - |r|..]
  {
    if |s| < 2 then s else s[|s| - 2..]
  }

  /** `${year}/${(year + 1).toString().slice(-2)}`. */
  function YearLabel(year: int): string {
    IntToString(year) + "/" + LastTwo(IntToString(year + 1))
  }

  /** Four-digit numbers print as their four digits. */
  lemma FourDigits(n: nat)
    requires 1000 <= n < 10000
    ensures NatToString(n) ==
      [DigitChar(n / 1000), DigitChar(n / 100 % 10), DigitChar(n / 10 % 10), DigitChar(n % 10)]
  {
    var a, b, c := n / 10, n / 100, n / 1000;
    assert a / 10 == b && b / 10 == c && a % 10 == n / 10 % 10 && b % 10 == n / 100 % 10;
    assert NatToString(c) == [DigitChar(c)];
    assert NatToString(b) == NatToString(c) + [DigitChar(b % 10)];
    assert NatToString(a) == NatToString(b) + [DigitChar(a % 10)];
    assert NatToString(n) == NatToString(a) + [DigitChar(n % 10)];
  }

  lemma YearLabelExample1999()
    ensures YearLabel(1999) == "1999/00"
  {
    FourDigits(1999);
    FourDigits(2000);
    assert NatToString(1999) == "1999";
    assert NatToString(2000) == "2000";
    assert LastTwo("2000") == "00";
  }

  lemma YearLabelExample2024()
    ensures YearLabel(2024) == "2024/25"
  {
    FourDigits(2024);
    FourDigits(2025);
    assert NatToString(2024) == "2024";
    assert NatToString(2025) == "2025";
    assert LastTwo("2025") == "25";
  }

  /** The year before the `/` of a label reads back as the year, so labels
      of different years differ. */
  lemma YearLabelReadsBack(year: nat)
    ensures var s := NatToString(year);
      YearLabel(year)[..|s|] == s && YearLabel(year)[|s|] == '/' && ParseNat(s) == year
  {
    ParseNatToString(year);
  }

  lemma YearLabelInjective(a: nat, b: nat)
    requires YearLabel(a) == YearLabel(b)
    ensures a == b
  {
    var sa := NatToString(a);
    var sb := NatToString(b);
    YearLabelReadsBack(a);
    YearLabelReadsBack(b);
    assert |sa| == |sb|;
    assert sa == YearLabel(a)[..|sa|];
    NatToStringInjective(a, b);
  }

  /** The loop `for (year = lastYear; year >= effectiveStartYear; year--)
      years.push(label)`. `month` and `fullYear` are `now.getMonth()` and
      `now.getFullYear()`; the defaults are `startYear = 1980`,
      `endYear = null`, `limit = 10`. */
  method GenerateAcademicYears(month: int, fullYear: int, startYear: int := 1980,
                               endYear: Option<int> := None, limit: int := 10)
    returns (years: seq<string>)
    ensures var last := LastYear(endYear, month, fullYear);
      years == Labels(last, YearCount(startYear, last, limit), YearLabel)
  {
    var last := LastYear(endYear, month, fullYear);
    var first := EffectiveStart(startYear, last, limit);
    years := [];
    var year := last;
    while year >= first
      invariant year <= last
      invariant last >= first ==> year >= first - 1
      invariant last < first ==> year == last
      invariant years == Labels(last, last - year, YearLabel)
      decreases year - first
    {
      years := years + [YearLabel(year)];
      year := year - 1;
    }
  }

  /** The labels, made by `labelOf`, of the `n` years counting down from `last`. */
  function Labels<T>(last: int, n: nat, labelOf: int -> T): seq<T> {
    if n == 0 then [] else Labels(last, n - 1, labelOf) + [labelOf(last - (n - 1))]
  }

  /** Position `i` holds the label of the `i`-th year before `last`: the
      years come newest first, one apart, starting at `last`. */
  lemma {:induction false} LabelsAt<T>(last: int, n: nat, labelOf: int -> T)
    ensures |Labels(last, n, labelOf)| == n
    ensures forall i :: 0 <= i < n ==> Labels(last, n, labelOf)[i] == labelOf(last - i)
  {
    if n > 0 {
      LabelsAt(last, n - 1, labelOf);
      var prev := Labels(last, n - 1, labelOf);
      var next := labelOf(last - (n - 1));
      assert Labels(last, n, labelOf) == prev + [next];
      forall i | 0 <= i < n ensures Labels(last, n, labelOf)[i] == labelOf(last - i) {
        if i < n - 1 {
          assert (prev + [next])[i] == prev[i];
        } else {
          assert (prev + [next])[i] == next;
        }
      }
    }
  }

  /** The number of labels: one per year from the effective start to the
      last year. */
  function YearCount(startYear: int, last: int, limit: int): nat {
    var first := EffectiveStart(startYear, last, limit);
    if last >= first then last - first + 1 else 0
  }

  /** How many labels there are: at most `limit`, none when `startYear`
      is after the last year, and the oldest labelled year is not before
      `startYear` (with `LabelsAt` the years run from the last year down). */
  lemma AcademicYearsBounds(startYear: int, last: int, limit: int)
    ensures YearCount(startYear, last, limit) <= (if limit > 0 then limit else 0)
    ensures startYear > last ==> YearCount(startYear, last, limit) == 0
    ensures YearCount(startYear, last, limit) > 0 ==> startYear <= last - YearCount(startYear, last, limit) + 1
  {
  }
}
