/** `timeAgo` of frontend/src/pages/NotificationsPage.jsx: how long ago a
    notification was sent, in whole minutes, hours or days. */
module NotificationsPage {
  import opened Wrappers

  /** The bucket `timeAgo` chooses, with its count. */
  datatype Elapsed = JustNow | Minutes(minutes: int) | Hours(hours: int) | Days(days: int)

  /** The bucket for a difference of `diff` whole seconds (`diff` may be
      negative for a date in the future). */
  function Bucket(diff: int): (e: Elapsed)
    ensures e.JustNow? <==> diff < 60
    ensures e.Minutes? <==> 60 <= diff < 3600
    ensures e.Hours? <==> 3600 <= diff < 86400
    ensures e.Days? <==> 86400 <= diff
    ensures e.Minutes? ==> 1 <= e.minutes <= 59 && 60 * e.minutes <= diff < 60 * e.minutes + 60
    ensures e.Hours? ==> 1 <= e.hours <= 23 && 3600 * e.hours <= diff < 3600 * e.hours + 3600
    ensures e.Days? ==> 1 <= e.days && 86400 * e.days <= diff < 86400 * e.days + 86400
  {
    if diff < 60 then JustNow
    else if diff < 3600 then Minutes(diff / 60)
    else if diff < 86400 then Hours(diff / 3600)
    else Days(diff / 86400)
  }

  /** `Math.floor((now - past) / 1000)` for times in milliseconds. */
  function SecondsBetween(pastMs: int, nowMs: int): (diff: int)
    ensures 1000 * diff <= nowMs - pastMs < 1000 * diff + 1000
  {
    (nowMs - pastMs) / 1000
  }

  /** Decimal digits of a non-negative number, as a template literal prints it. */
  function NatToString(n: nat): (s: string)
    ensures |s| >= 1
    ensures forall i :: 0 <= i < |s| ==> '0' <= s[i] <= '9'
    ensures DecimalValue(s) == n
    ensures s[0] == '0' <==> n == 0
    ensures s == "1" <==> n == 1
    decreases n
  {
    if n < 10 then [Digit(n)] else NatToString(n / 10) + [Digit(n % 10)]
  }

  /** The number a string of decimal digits denotes. */
  function DecimalValue(s: string): int
  {
    if s == [] then 0 else 10 * DecimalValue(s[..|s| - 1]) + (s[|s| - 1] as int - '0' as int)
  }

  /** The printed count is the only decimal spelling of n without a leading
      zero. */
  lemma {:induction false} NatToStringCanonical(t: string, n: nat)
    requires |t| >= 1 && forall i :: 0 <= i < |t| ==> '0' <= t[i] <= '9'
    requires t[0] != '0' || |t| == 1
    requires DecimalValue(t) == n
    ensures t == NatToString(n)
    decreases |t|
  {
    var k := |t| - 1;
    var init, d := t[..k], t[k] as int - '0' as int;
    if k == 0 {
      assert Digit(n) as int == t[0] as int;
    } else {
      assert forall i :: 0 <= i < |init| ==> init[i] == t[i];
      LeadingDigitPositive(init);
      var m := DecimalValue(init);
      assert n == 10 * m + d && 0 <= d < 10 && m >= 1;
      DivModDigit(n, m, d);
      NatToStringCanonical(init, m);
      assert NatToString(n) == NatToString(m) + [Digit(d)];
      assert Digit(d) == t[k];
      SplitLast(t);
    }
  }

  lemma SplitLast(t: string)
    requires |t| >= 1
    ensures t == t[..|t| - 1] + [t[|t| - 1]]
  {
  }

  lemma DivModDigit(n: int, m: int, d: int)
    requires n == 10 * m + d && 0 <= d < 10
    ensures n / 10 == m && n % 10 == d
  {
  }

  /** A string of decimal digits starting with a non-zero digit denotes a
      positive number. */
  lemma {:induction false} LeadingDigitPositive(t: string)
    requires |t| >= 1 && forall i :: 0 <= i < |t| ==> '0' <= t[i] <= '9'
    requires t[0] != '0'
    ensures DecimalValue(t) >= 1
    decreases |t|
  {
    var k := |t| - 1;
    if k > 0 {
      assert forall i :: 0 <= i < k ==> t[..k][i] == t[i];
      LeadingDigitPositive(t[..k]);
    }
  }

  function Digit(d: nat): (c: char)
    requires d < 10
    ensures '0' <= c <= '9'
    ensures c as int - '0' as int == d
    ensures c == '1' <==> d == 1
  {
    ['0', '1', '2', '3', '4', '5', '6', '7', '8', '9'][d]
  }

  /** The text shown for a bucket. */
  function Render(e: Elapsed): (s: string)
    requires e.Minutes? ==> e.minutes >= 0
    requires e.Hours? ==> e.hours >= 0
    requires e.Days? ==> e.days >= 0
  {
    match e
    case JustNow => "Just now"
    case Minutes(m) => NatToString(m) + " min ago"
    case Hours(h) => NatToString(h) + " hours ago"
    case Days(d) => if d == 1 then "1 day ago" else NatToString(d) + " days ago"
  }

  /** `timeAgo(date)`, with the current clock reading `nowMs` as a parameter;
      a missing date (`!date`) is `None`. */
  function TimeAgo(sentAtMs: Option<int>, nowMs: int): (s: string)
    ensures sentAtMs.None? ==> s == "Just now"
  {
    if sentAtMs.None? then "Just now"
    else
      var e := Bucket(SecondsBetween(sentAtMs.value, nowMs));
      Render(e)
  }

  /** "Just now" is shown exactly for a missing date or a difference under a
      minute, including any date in the future. */
  lemma JustNowExactly(sentAtMs: Option<int>, nowMs: int)
    ensures TimeAgo(sentAtMs, nowMs) == "Just now" <==>
      sentAtMs.None? || SecondsBetween(sentAtMs.value, nowMs) < 60
  {
  }


  /** The day count reads in the singular, "1 day ago", exactly when it is 1. */
  lemma SingularDayExactly(days: int)
    requires days >= 1
    ensures Render(Days(days)) == "1 day ago" <==> days == 1
  {
  }

  /** "1 day ago" is shown exactly for a difference of at least one day and
      under two. */
  lemma OneDayAgoExactly(sentAtMs: int, nowMs: int)
    ensures TimeAgo(Some(sentAtMs), nowMs) == "1 day ago" <==>
      86400 <= SecondsBetween(sentAtMs, nowMs) < 2 * 86400
  {
    var e := Bucket(SecondsBetween(sentAtMs, nowMs));
    var s := Render(e);
    match e
    case JustNow =>
    case Minutes(m) =>
      var n := NatToString(m);
      if |n| == 1 {
        assert s[2] == 'm';
      } else {
        assert |s| != 9;
      }
    case Hours(h) =>
      assert |s| != 9;
    case Days(d) =>
      if d != 1 {
        assert |s| != 9;
      }
  }

  /** The counts printed are the floors of the difference in minutes, hours
      and days; `NatToString` gives their decimal digits. */
  lemma TimeAgoCounts(sentAtMs: int, nowMs: int)
    ensures var diff := SecondsBetween(sentAtMs, nowMs);
      var s := TimeAgo(Some(sentAtMs), nowMs);
      (60 <= diff < 3600 ==> s == NatToString(diff / 60) + " min ago")
      && (3600 <= diff < 86400 ==> s == NatToString(diff / 3600) + " hours ago")
      && (2 * 86400 <= diff ==> s == NatToString(diff / 86400) + " days ago")
  {
    var diff := SecondsBetween(sentAtMs, nowMs);
    var e := Bucket(diff);
    if 60 <= diff < 3600 {
      assert e == Minutes(diff / 60);
    } else if 3600 <= diff < 86400 {
      assert e == Hours(diff / 3600);
    } else if 2 * 86400 <= diff {
      assert e == Days(diff / 86400) && diff / 86400 != 1;
    }
  }
}
