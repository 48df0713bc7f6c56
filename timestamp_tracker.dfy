/** The activity statistics: a six-bucket histogram of favoriting over the
    trailing window of hours that ends at the current hour, and the 12-hour
    clock labels the chart prints under it. */
module TimestampTracker {
  import opened Wrappers
  import opened Types
  import Storage

  /** How many hours the histogram covers. */
  const WINDOW: nat := 6

  /** `(currentHour - i + 24) % 24` for i = 5 - k: the hour of bucket k, oldest
      first. All operands are non-negative for hours in 0..23, where the
      truncating `%` of the source and Dafny's Euclidean `%` agree. */
  function BucketHour(currentHour: int, k: int): int
  {
    (currentHour - 5 + k + 24) % 24
  }

  /** How many hours before the current hour a favorite's hour of day lies. */
  function HourDiff(currentHour: int, favHour: int): int
  {
    (currentHour - favHour + 24) % 24
  }

  /** Is a given hour of day inside the window? */
  predicate InWindow(currentHour: int, favHour: int)
  {
    HourDiff(currentHour, favHour) < WINDOW
  }

  /** The number of favorites whose local hour of day is `h`. */
  function CountAt(favs: seq<FavoriteContact>, localHour: int -> int, h: int): nat
  {
    if favs == [] then 0
    else CountAt(favs[..|favs| - 1], localHour, h) + (if localHour(favs[|favs| - 1].timestamp) == h then 1 else 0)
  }

  /** The number of favorites whose local hour of day lies in the window. */
  function CountInWindow(favs: seq<FavoriteContact>, localHour: int -> int, currentHour: int): nat
  {
    if favs == [] then 0
    else
      CountInWindow(favs[..|favs| - 1], localHour, currentHour)
      + (if InWindow(currentHour, localHour(favs[|favs| - 1].timestamp)) then 1 else 0)
  }

  /** The histogram `getHourlyStats` reports: bucket k holds hour BucketHour(k)
      and the number of favorites recorded at that hour of day, on any day. */
  function HourlyStatsOf(favs: seq<FavoriteContact>, localHour: int -> int, currentHour: int): seq<HourlyStats>
  {
    seq(WINDOW, k requires 0 <= k < WINDOW =>
      HourlyStats(BucketHour(currentHour, k), CountAt(favs, localHour, BucketHour(currentHour, k))))
  }

  /** The sum of the bucket counts. */
  function TotalCount(stats: seq<HourlyStats>): nat
  {
    if stats == [] then 0 else stats[0].count + TotalCount(stats[1..])
  }

  // ---------------------------------------------------------------------------
  // The shape of the window
  // ---------------------------------------------------------------------------

  /** The bucket hours are hours of the day, the last one is the current hour,
      and consecutive buckets are one hour apart modulo 24. */
  lemma BucketHoursShape(currentHour: int)
    requires 0 <= currentHour < 24
    ensures forall k :: 0 <= k < WINDOW ==> 0 <= BucketHour(currentHour, k) < 24
    ensures BucketHour(currentHour, WINDOW - 1) == currentHour
    ensures forall k :: 0 <= k < WINDOW - 1 ==> BucketHour(currentHour, k + 1) == (BucketHour(currentHour, k) + 1) % 24
  {
  }

  /** Bucket k lies exactly 5 - k hours before the current hour. */
  lemma BucketHourDiff(currentHour: int, k: int)
    requires 0 <= currentHour < 24 && 0 <= k < WINDOW
    ensures HourDiff(currentHour, BucketHour(currentHour, k)) == WINDOW - 1 - k
  {
  }

  /** The six bucket hours are pairwise distinct. */
  lemma BucketHoursDistinct(currentHour: int, k1: int, k2: int)
    requires 0 <= currentHour < 24 && 0 <= k1 < WINDOW && 0 <= k2 < WINDOW && k1 != k2
    ensures BucketHour(currentHour, k1) != BucketHour(currentHour, k2)
  {
    BucketHourDiff(currentHour, k1);
    BucketHourDiff(currentHour, k2);
  }

  /** `hourDiff` is an hour count in 0..23, and the hours with `hourDiff < 6`
      are exactly the bucket hours: an hour inside the window always finds its
      bucket, namely bucket 5 - hourDiff. */
  lemma WindowHasBucket(currentHour: int, favHour: int)
    requires 0 <= currentHour < 24 && 0 <= favHour < 24
    ensures 0 <= HourDiff(currentHour, favHour) < 24
    ensures InWindow(currentHour, favHour) ==>
      BucketHour(currentHour, WINDOW - 1 - HourDiff(currentHour, favHour)) == favHour
    ensures InWindow(currentHour, favHour) <==>
      exists k :: 0 <= k < WINDOW && BucketHour(currentHour, k) == favHour
  {
    forall k | 0 <= k < WINDOW && BucketHour(currentHour, k) == favHour
      ensures InWindow(currentHour, favHour)
    {
      BucketHourDiff(currentHour, k);
    }
  }

  // ---------------------------------------------------------------------------
  // Counting
  // ---------------------------------------------------------------------------

  /** Appending a favorite adds one to the count of its own hour only. */
  lemma CountAtSnoc(favs: seq<FavoriteContact>, fav: FavoriteContact, localHour: int -> int, h: int)
    ensures CountAt(favs + [fav], localHour, h) == CountAt(favs, localHour, h) + (if localHour(fav.timestamp) == h then 1 else 0)
  {
    assert (favs + [fav])[..|favs|] == favs;
  }

  /** A count never exceeds the number of favorites. */
  lemma {:induction false} CountAtBounded(favs: seq<FavoriteContact>, localHour: int -> int, h: int)
    ensures CountAt(favs, localHour, h) <= |favs|
  {
    if favs != [] {
      CountAtBounded(favs[..|favs| - 1], localHour, h);
    }
  }

  /** The total of six buckets, written out. */
  lemma TotalCountOfSix(stats: seq<HourlyStats>)
    requires |stats| == 6
    ensures TotalCount(stats) == stats[0].count + stats[1].count + stats[2].count
                               + stats[3].count + stats[4].count + stats[5].count
  {
    var s1 := stats[1..];
    var s2 := s1[1..];
    var s3 := s2[1..];
    var s4 := s3[1..];
    var s5 := s4[1..];
    assert s5[1..] == [];
    assert TotalCount(s5) == stats[5].count;
    assert TotalCount(s4) == stats[4].count + TotalCount(s5);
    assert TotalCount(s3) == stats[3].count + TotalCount(s4);
    assert TotalCount(s2) == stats[2].count + TotalCount(s3);
    assert TotalCount(s1) == stats[1].count + TotalCount(s2);
  }

  /** One favorite's hour matches at most one bucket, and one exactly when it is
      inside the window. */
  lemma BucketHitsSum(currentHour: int, favHour: int)
    requires 0 <= currentHour < 24 && 0 <= favHour < 24
    ensures (if BucketHour(currentHour, 0) == favHour then 1 else 0)
          + (if BucketHour(currentHour, 1) == favHour then 1 else 0)
          + (if BucketHour(currentHour, 2) == favHour then 1 else 0)
          + (if BucketHour(currentHour, 3) == favHour then 1 else 0)
          + (if BucketHour(currentHour, 4) == favHour then 1 else 0)
          + (if BucketHour(currentHour, 5) == favHour then 1 else 0)
          == (if InWindow(currentHour, favHour) then 1 else 0)
  {
    WindowHasBucket(currentHour, favHour);
    if InWindow(currentHour, favHour) {
      var hit := WINDOW - 1 - HourDiff(currentHour, favHour);
      forall k | 0 <= k < WINDOW && k != hit ensures BucketHour(currentHour, k) != favHour {
        BucketHoursDistinct(currentHour, k, hit);
      }
    }
  }

  /** The bucket counts add up to the number of favorites whose hour of day is
      inside the window (not to the number of all favorites). */
  lemma {:induction false} HistogramSum(favs: seq<FavoriteContact>, localHour: int -> int, currentHour: int)
    requires 0 <= currentHour < 24
    requires forall t :: 0 <= localHour(t) < 24
    ensures TotalCount(HourlyStatsOf(favs, localHour, currentHour)) == CountInWindow(favs, localHour, currentHour)
  {
    var stats := HourlyStatsOf(favs, localHour, currentHour);
    TotalCountOfSix(stats);
    if favs != [] {
      var init, fav := favs[..|favs| - 1], favs[|favs| - 1];
      var prev := HourlyStatsOf(init, localHour, currentHour);
      HistogramSum(init, localHour, currentHour);
      TotalCountOfSix(prev);
      assert favs == init + [fav];
      forall k | 0 <= k < WINDOW
        ensures stats[k].count == prev[k].count + (if BucketHour(currentHour, k) == localHour(fav.timestamp) then 1 else 0)
      {
        CountAtSnoc(init, fav, localHour, BucketHour(currentHour, k));
      }
      BucketHitsSum(currentHour, localHour(fav.timestamp));
    }
  }

  /** Buckets are keyed by hour of day only: the counts depend on nothing but
      the hours of day of the favorites, so a favorite recorded on an earlier day
      at an hour inside the window is counted like one recorded today. */
  lemma {:induction false} CountsDependOnHourOfDayOnly(favs: seq<FavoriteContact>, localHour: int -> int, other: seq<FavoriteContact>, currentHour: int)
    requires |favs| == |other|
    requires forall i :: 0 <= i < |favs| ==> localHour(favs[i].timestamp) == localHour(other[i].timestamp)
    ensures HourlyStatsOf(favs, localHour, currentHour) == HourlyStatsOf(other, localHour, currentHour)
  {
    forall h ensures CountAt(favs, localHour, h) == CountAt(other, localHour, h) {
      SameHoursSameCount(favs, other, localHour, h);
    }
  }

  /** Two lists whose entries fall at the same hours of day have equal counts. */
  lemma {:induction false} SameHoursSameCount(favs: seq<FavoriteContact>, other: seq<FavoriteContact>, localHour: int -> int, h: int)
    requires |favs| == |other|
    requires forall i :: 0 <= i < |favs| ==> localHour(favs[i].timestamp) == localHour(other[i].timestamp)
    ensures CountAt(favs, localHour, h) == CountAt(other, localHour, h)
  {
    if favs != [] {
      var n := |favs| - 1;
      SameHoursSameCount(favs[..n], other[..n], localHour, h);
    }
  }

  // ---------------------------------------------------------------------------
  // getHourlyStats
  // ---------------------------------------------------------------------------

  /** `stats.findIndex(stat => stat.hour === favHour)`. */
  function IndexOfHour(stats: seq<HourlyStats>, hour: int): (r: int)
    ensures -1 <= r < |stats|
    ensures r == -1 <==> forall k :: 0 <= k < |stats| ==> stats[k].hour != hour
    ensures 0 <= r ==> stats[r].hour == hour && forall k :: 0 <= k < r ==> stats[k].hour != hour
  {
    if stats == [] then -1
    else if stats[0].hour == hour then 0
    else
      var k := IndexOfHour(stats[1..], hour);
      if k == -1 then -1 else k + 1
  }

  /** Build the six empty buckets of the window ending at `localHour(now)`, then
      count every stored favorite whose hour of day falls inside the window into
      the bucket of that hour. `localHour` is the device's local-time conversion
      of a millisecond timestamp (`new Date(t).getHours()`). */
  method GetHourlyStats(storage: Storage.StorageService, now: int, localHour: int -> int)
      returns (stats: seq<HourlyStats>)
    requires forall t :: 0 <= localHour(t) < 24
    ensures stats == HourlyStatsOf(storage.Favorites(), localHour, localHour(now))
    ensures |stats| == WINDOW && stats[WINDOW - 1].hour == localHour(now)
    ensures TotalCount(stats) == CountInWindow(storage.Favorites(), localHour, localHour(now))
  {
    var favorites := storage.GetFavorites();
    assert favorites == storage.Favorites();
    var currentHour := localHour(now);

    stats := [];
    var i := 5;
    while i >= 0
      invariant -1 <= i <= 5
      invariant |stats| == 5 - i
      invariant forall k :: 0 <= k < |stats| ==> stats[k] == HourlyStats(BucketHour(currentHour, k), 0)
    {
      var hour := (currentHour - i + 24) % 24;
      stats := stats + [HourlyStats(hour, 0)];
      i := i - 1;
    }
    assert stats == HourlyStatsOf(favorites[..0], localHour, currentHour);

    var j := 0;
    while j < |favorites|
      invariant 0 <= j <= |favorites|
      invariant stats == HourlyStatsOf(favorites[..j], localHour, currentHour)
    {
      var fav := favorites[j];
      var favHour := localHour(fav.timestamp);
      var hourDiff := (currentHour - favHour + 24) % 24;
      ghost var prev := stats;
      assert favorites[..j + 1] == favorites[..j] + [fav];
      WindowHasBucket(currentHour, favHour);
      if hourDiff < 6 {
        var statIndex := IndexOfHour(stats, favHour);
        assert stats[WINDOW - 1 - hourDiff].hour == favHour;
        assert statIndex == WINDOW - 1 - hourDiff by {
          BucketHourDiff(currentHour, statIndex);
        }
        if statIndex != -1 {
          stats := stats[statIndex := stats[statIndex].(count := stats[statIndex].count + 1)];
        }
      }
      forall k | 0 <= k < WINDOW
        ensures stats[k] == HourlyStatsOf(favorites[..j + 1], localHour, currentHour)[k]
      {
        CountAtSnoc(favorites[..j], fav, localHour, BucketHour(currentHour, k));
        if hourDiff < 6 && k != WINDOW - 1 - hourDiff {
          BucketHoursDistinct(currentHour, k, WINDOW - 1 - hourDiff);
        }
      }
      j := j + 1;
    }
    assert favorites[..|favorites|] == favorites;
    HistogramSum(favorites, localHour, currentHour);
  }

  // ---------------------------------------------------------------------------
  // formatHour
  // ---------------------------------------------------------------------------

  /** The decimal digit for 0..9. */
  function DigitChar(d: int): char
    requires 0 <= d < 10
  {
    "0123456789"[d]
  }

  /** The value of a decimal digit character. */
  function DigitValue(c: char): Option<nat>
  {
    if '0' <= c <= '9' then Some(c as int - '0' as int) else None
  }

  /** Decimal rendering of a natural number, without leading zeros. */
  function NatToString(n: nat): string
  {
    if n < 10 then [DigitChar(n)] else NatToString(n / 10) + [DigitChar(n % 10)]
  }

  /** Decimal rendering of an integer, as a template literal prints it when its
      magnitude is below 10^21 (larger ones print in exponent form). */
  function IntToString(n: int): string
  {
    if n < 0 then "-" + NatToString(-n) else NatToString(n)
  }

  /** Decimal parsing: None unless the string is a non-empty run of digits. */
  function ParseNat(s: string): Option<nat>
  {
    if s == [] then None
    else
      match DigitValue(s[|s| - 1])
      case None => None
      case Some(d) =>
        if |s| == 1 then Some(d)
        else
          match ParseNat(s[..|s| - 1])
          case None => None
          case Some(n) => Some(n * 10 + d)
  }

  /** Parsing a rendered natural number gives it back. */
  lemma {:induction false} ParseNatToString(n: nat)
    ensures ParseNat(NatToString(n)) == Some(n)
  {
    if n >= 10 {
      var s := NatToString(n);
      ParseNatToString(n / 10);
      assert s[..|s| - 1] == NatToString(n / 10);
    }
  }

  /** The hour on a 12-hour clock face: 12 for midnight and noon. */
  function Clock12(hour: int): (n: int)
    requires 0 <= hour < 24
    ensures 1 <= n <= 12 && n % 12 == hour % 12
  {
    if hour == 0 then 12 else if hour <= 12 then hour else hour - 12
  }

  /** The chart label of an hour of the day on a 12-hour clock. Any integer is
      accepted, as in the source (the digits are exact below 10^21 in magnitude);
      negative numbers fall into the AM branch. */
  function FormatHour(hour: int): (r: string)
    ensures 0 <= hour < 24 ==> r == NatToString(Clock12(hour)) + (if hour < 12 then " AM" else " PM")
  {
    if hour == 0 then "12 AM"
    else if hour < 12 then IntToString(hour) + " AM"
    else if hour == 12 then "12 PM"
    else IntToString(hour - 12) + " PM"
  }

  /** Reading a label "h AM" / "h PM" (h in 1..12) back as an hour of the day. */
  function ParseHour(s: string): (r: Option<int>)
    ensures r.Some? ==> 0 <= r.value < 24
  {
    if |s| < 4 then None
    else
      var digits, suffix := s[..|s| - 3], s[|s| - 3..];
      match ParseNat(digits)
      case None => None
      case Some(n) =>
        if !(1 <= n <= 12) then None
        else if suffix == " AM" then Some(if n == 12 then 0 else n)
        else if suffix == " PM" then Some(if n == 12 then 12 else n + 12)
        else None
  }

  /** Every label of an hour of the day reads back as that hour, so the 24
      labels are pairwise distinct. */
  lemma FormatHourRoundTrip(hour: int)
    requires 0 <= hour < 24
    ensures ParseHour(FormatHour(hour)) == Some(hour)
  {
    var n := Clock12(hour);
    var suffix := if hour < 12 then " AM" else " PM";
    ParseNatToString(n);
    ParseLabel(NatToString(n), suffix, n);
    assert FormatHour(hour) == NatToString(n) + suffix;
    assert (if suffix == " AM" then (if n == 12 then 0 else n) else (if n == 12 then 12 else n + 12)) == hour;
  }

  /** A label made of a number in 1..12 and a meridiem reads back as the hour the
      12-hour clock means by it. */
  lemma ParseLabel(digits: string, suffix: string, n: nat)
    requires ParseNat(digits) == Some(n) && 1 <= n <= 12
    requires suffix == " AM" || suffix == " PM"
    ensures ParseHour(digits + suffix) ==
      Some(if suffix == " AM" then (if n == 12 then 0 else n) else (if n == 12 then 12 else n + 12))
  {
    var s := digits + suffix;
    assert s[..|s| - 3] == digits;
    assert s[|s| - 3..] == suffix;
  }

  /** Distinct hours of the day get distinct labels. */
  lemma FormatHourInjective(h1: int, h2: int)
    requires 0 <= h1 < 24 && 0 <= h2 < 24 && h1 != h2
    ensures FormatHour(h1) != FormatHour(h2)
  {
    FormatHourRoundTrip(h1);
    FormatHourRoundTrip(h2);
  }

  /** The boundary labels of the 12-hour clock. */
  lemma FormatHourBoundaries()
    ensures FormatHour(0) == "12 AM" && FormatHour(1) == "1 AM" && FormatHour(11) == "11 AM"
    ensures FormatHour(12) == "12 PM" && FormatHour(13) == "1 PM" && FormatHour(23) == "11 PM"
  {
    assert NatToString(11) == "11";
  }

  // ---------------------------------------------------------------------------
  // A worked scenario
  // ---------------------------------------------------------------------------

  /** One favorite recorded at hour 14 and a query at hour 14: the last bucket
      (hour 14) counts 1 and the other five count 0. */
  lemma SingleFavoriteScenario(fav: FavoriteContact, localHour: int -> int, now: int)
    requires localHour(fav.timestamp) == 14 && localHour(now) == 14
    ensures HourlyStatsOf([fav], localHour, localHour(now)) ==
      [HourlyStats(9, 0), HourlyStats(10, 0), HourlyStats(11, 0),
       HourlyStats(12, 0), HourlyStats(13, 0), HourlyStats(14, 1)]
  {
    var r := HourlyStatsOf([fav], localHour, 14);
    forall k | 0 <= k < WINDOW ensures CountAt([fav], localHour, BucketHour(14, k)) == (if k == 5 then 1 else 0) {
      assert [fav][..0] == [];
    }
  }
}
