/** Cache capacities from memory ratios (internal/cache/size.go). */
module Budget {

  /** One configured cache: its name, the estimated cost of one entry, its ratio, and whether
      totalOfRatios adds that ratio: it leaves out three, whose caches are sized by the total all the same. */
  datatype Cache = Cache(name: string, cost: real, ratio: real, counted: bool)

  function SumRatios(cs: seq<Cache>): real {
    if cs == [] then 0.0 else cs[0].ratio + SumRatios(cs[1..])
  }

  function TotalOfRatios(cs: seq<Cache>): real {
    if cs == [] then 0.0
    else (if cs[0].counted then cs[0].ratio else 0.0) + TotalOfRatios(cs[1..])
  }

  function UncountedRatios(cs: seq<Cache>): real {
    if cs == [] then 0.0
    else (if cs[0].counted then 0.0 else cs[0].ratio) + UncountedRatios(cs[1..])
  }

  /** The memory a cache may use: its part of the target. */
  function Share(c: Cache, target: nat, total: real): real
    requires total > 0.0
  {
    target as real * (c.ratio / total)
  }

  /** calculateCacheMax; a negative ratio is a capacity set by hand. */
  function Capacity(c: Cache, target: nat, total: real): int
    requires total > 0.0 && c.cost > 0.0
  {
    if c.ratio < 0.0 then (-c.ratio).Floor
    else (Share(c, target, total) / c.cost).Floor
  }

  ghost predicate WellConfigured(cs: seq<Cache>) {
    forall c :: c in cs ==> c.cost > 0.0 && c.ratio >= 0.0
  }

  /** The capacity is the largest number of entries whose cost fits the cache's share. */
  lemma LargestThatFits(c: Cache, target: nat, total: real)
    requires total > 0.0 && c.cost > 0.0 && c.ratio >= 0.0
    ensures var n := Capacity(c, target, total);
            0 <= n && n as real * c.cost <= target as real * (c.ratio / total) < (n + 1) as real * c.cost
  {
    FloorFits(Share(c, target, total), c.cost) by {
      Quotient(c.ratio, total);
      Product(target as real, c.ratio / total);
    }
  }

  /** A negative ratio is the capacity itself, cut off to a whole number. */
  lemma HandSetCapacity(c: Cache, target: nat, total: real)
    requires total > 0.0 && c.cost > 0.0 && c.ratio < 0.0
    ensures var n := Capacity(c, target, total); 0 <= n && n as real <= -c.ratio < (n + 1) as real
  {
  }

  lemma FloorFits(share: real, cost: real)
    requires share >= 0.0 && cost > 0.0
    ensures var n := (share / cost).Floor; 0 <= n && n as real * cost <= share < (n + 1) as real * cost
  {
    var q := share / cost;
    Quotient(share, cost);
    Undo(share, cost, q);
    Between(share, cost, q, q.Floor as real, (q.Floor + 1) as real);
  }

  lemma Between(share: real, cost: real, q: real, low: real, high: real)
    requires cost > 0.0 && q * cost == share && low <= q < high
    ensures low * cost <= share < high * cost
  {
    Scale(low, q, cost);
    StrictScale(q, high, cost);
  }

  lemma Undo(a: real, b: real, q: real)
    requires b != 0.0 && q == a / b
    ensures q * b == a
  {
  }

  lemma Quotient(a: real, b: real)
    requires a >= 0.0 && b > 0.0
    ensures a / b >= 0.0
  {
  }

  lemma Product(a: real, b: real)
    requires a >= 0.0 && b >= 0.0
    ensures a * b >= 0.0
  {
  }

  lemma Scale(a: real, b: real, x: real)
    requires a <= b && x > 0.0
    ensures a * x <= b * x
  {
    Product(b - a, x);
  }

  lemma StrictScale(a: real, b: real, x: real)
    requires a < b && x > 0.0
    ensures a * x < b * x
  {
    assert (b - a) * x > 0.0;
  }

  function MemoryUsed(cs: seq<Cache>, target: nat, total: real): real
    requires total > 0.0 && WellConfigured(cs)
  {
    if cs == [] then 0.0
    else Capacity(cs[0], target, total) as real * cs[0].cost + MemoryUsed(cs[1..], target, total)
  }

  function EntryCosts(cs: seq<Cache>): real {
    if cs == [] then 0.0 else cs[0].cost + EntryCosts(cs[1..])
  }

  /** All caches full cost at most the target scaled by the sum of the ratios over their counted
      total, and fall short of it by less than one entry of each cache. */
  lemma {:induction false} MemoryBound(cs: seq<Cache>, target: nat, total: real)
    requires total > 0.0 && WellConfigured(cs)
    ensures MemoryUsed(cs, target, total) <= target as real * (SumRatios(cs) / total)
    ensures target as real * (SumRatios(cs) / total) - EntryCosts(cs) <= MemoryUsed(cs, target, total)
  {
    hide Capacity;
    if cs == [] {
      assert SumRatios(cs) / total == 0.0;
    } else {
      var c, rest := cs[0], cs[1..];
      MemoryBound(rest, target, total);
      LargestThatFits(c, target, total);
      Distribute(c.ratio, SumRatios(rest), total, target as real);
    }
  }

  lemma Distribute(a: real, b: real, total: real, target: real)
    requires total > 0.0
    ensures target * ((a + b) / total) == target * (a / total) + target * (b / total)
  {
    assert (a + b) / total == a / total + b / total;
  }

  lemma {:induction false} RatiosSplit(cs: seq<Cache>)
    ensures SumRatios(cs) == TotalOfRatios(cs) + UncountedRatios(cs)
  {
    if cs != [] {
      RatiosSplit(cs[1..]);
    }
  }

  lemma Quotients(a: real, b: real, q: real)
    requires b != 0.0 && q * b == a
    ensures a / b == q
  {
    assert (a / b - q) * b == 0.0;
  }

  lemma {:induction false} UncountedIsPositive(cs: seq<Cache>)
    requires WellConfigured(cs)
    ensures UncountedRatios(cs) >= 0.0 && EntryCosts(cs) >= 0.0
  {
    if cs != [] {
      UncountedIsPositive(cs[1..]);
    }
  }

  /** All caches full stay within the target, whatever the target is, exactly when no uncounted
      cache has a ratio. */
  lemma WithinTargetIff(cs: seq<Cache>)
    requires TotalOfRatios(cs) > 0.0 && WellConfigured(cs)
    ensures (forall target: nat :: MemoryUsed(cs, target, TotalOfRatios(cs)) <= target as real) <==>
            UncountedRatios(cs) == 0.0
  {
    hide MemoryUsed;
    UncountedIsPositive(cs);
    if UncountedRatios(cs) == 0.0 {
      forall target: nat
        ensures MemoryUsed(cs, target, TotalOfRatios(cs)) <= target as real
      {
        FullIsWithin(cs, target);
      }
    } else {
      PositiveQuotient(UncountedRatios(cs), TotalOfRatios(cs));
      var target := BeyondReach(EntryCosts(cs), UncountedRatios(cs) / TotalOfRatios(cs));
      ExcessIsUncounted(cs, target);
    }
  }

  lemma FullIsWithin(cs: seq<Cache>, target: nat)
    requires TotalOfRatios(cs) > 0.0 && WellConfigured(cs) && UncountedRatios(cs) == 0.0
    ensures MemoryUsed(cs, target, TotalOfRatios(cs)) <= target as real
  {
    RatiosSplit(cs);
    MemoryBound(cs, target, TotalOfRatios(cs));
    Quotients(TotalOfRatios(cs), TotalOfRatios(cs), 1.0);
  }

  lemma PositiveQuotient(a: real, b: real)
    requires a > 0.0 && b > 0.0
    ensures a / b > 0.0
  {
  }

  /** A whole number of which the part `r` is more than `cost`. */
  function BeyondReach(cost: real, r: real): (n: nat)
    requires cost >= 0.0 && r > 0.0
    ensures n as real * r > cost
  {
    Quotient(cost, r);
    Undo(cost, r, cost / r);
    StrictScale(cost / r, ((cost / r).Floor + 1) as real, r);
    (cost / r).Floor + 1
  }

  /** The caches exceed the target once the uncounted part of it is worth more than one entry each. */
  lemma ExcessIsUncounted(cs: seq<Cache>, target: nat)
    requires TotalOfRatios(cs) > 0.0 && WellConfigured(cs)
    ensures MemoryUsed(cs, target, TotalOfRatios(cs)) >=
            target as real + target as real * (UncountedRatios(cs) / TotalOfRatios(cs)) - EntryCosts(cs)
  {
    var total := TotalOfRatios(cs);
    RatiosSplit(cs);
    MemoryBound(cs, target, total);
    Distribute(total, UncountedRatios(cs), total, target as real);
    Quotients(total, total, 1.0);
  }

  /** The default configuration (internal/config/defaults.go), with the costs of entries left open. */
  const DEFAULT_NAMES := [
    "Account", "AccountNote", "AccountSettings", "AccountStats", "Application", "Block",
    "BlockIDs", "BoostOfIDs", "Client", "Emoji", "EmojiCategory", "Filter",
    "FilterKeyword", "FilterStatus", "Follow", "FollowIDs", "FollowRequest", "FollowRequestIDs",
    "InReplyToIDs", "Instance", "List", "ListEntry", "Marker", "Media",
    "Mention", "Move", "Notification", "Poll", "PollVote", "PollVoteIDs",
    "Report", "Status", "StatusBookmark", "StatusBookmarkIDs", "StatusFave", "StatusFaveIDs",
    "Tag", "ThreadMute", "Token", "Tombstone", "User", "UserMute",
    "UserMuteIDs", "Webfinger", "Visibility"
  ]

  function DefaultRatio(i: nat): real {
    match i
    case 0 => 5.0 case 1 => 1.0 case 2 => 0.1 case 3 => 2.0 case 4 => 0.1 case 5 => 2.0
    case 6 => 3.0 case 7 => 3.0 case 8 => 0.1 case 9 => 3.0 case 10 => 0.1 case 11 => 0.5
    case 12 => 0.5 case 13 => 0.5 case 14 => 2.0 case 15 => 4.0 case 16 => 2.0 case 17 => 2.0
    case 18 => 3.0 case 19 => 1.0 case 20 => 1.0 case 21 => 2.0 case 22 => 0.5 case 23 => 4.0
    case 24 => 2.0 case 25 => 0.1 case 26 => 2.0 case 27 => 1.0 case 28 => 2.0 case 29 => 2.0
    case 30 => 1.0 case 31 => 5.0 case 32 => 0.5 case 33 => 2.0 case 34 => 2.0 case 35 => 3.0
    case 36 => 2.0 case 37 => 0.2 case 38 => 0.75 case 39 => 0.5 case 40 => 0.25 case 41 => 2.0
    case 42 => 3.0 case 43 => 0.1 case 44 => 2.0
    case _ => 0.0
  }

  /** PollVoteIDs, UserMute and UserMuteIDs are not in the total. */
  predicate DefaultCounted(i: nat) {
    i != 29 && i != 41 && i != 42
  }

  const DEFAULT_TARGET := 100 * 1024 * 1024

  predicate IsDefault(cs: seq<Cache>) {
    && |cs| == |DEFAULT_NAMES|
    && forall i :: 0 <= i < |cs| ==>
         cs[i].name == DEFAULT_NAMES[i] && cs[i].ratio == DefaultRatio(i) && (cs[i].counted <==> DefaultCounted(i))
  }

  lemma {:induction false} CountedFrom(cs: seq<Cache>, i: nat)
    requires i < |cs|
    ensures TotalOfRatios(cs[i..]) == (if cs[i].counted then cs[i].ratio else 0.0) + TotalOfRatios(cs[i + 1..])
  {
    assert cs[i..][1..] == cs[i + 1..];
  }

  function DefaultFrom(i: nat): real
    decreases 45 - i
  {
    if i >= 45 then 0.0 else DefaultPart(i) + DefaultFrom(i + 1)
  }

  lemma {:induction false} DefaultTotalFrom(cs: seq<Cache>, i: nat)
    requires IsDefault(cs) && i <= 45
    ensures TotalOfRatios(cs[i..]) == DefaultFrom(i)
    decreases 45 - i
  {
    hide DefaultRatio;
    if i < 45 {
      CountedFrom(cs, i);
      DefaultTotalFrom(cs, i + 1);
    }
  }

  function DefaultPart(i: nat): real {
    if DefaultCounted(i) then DefaultRatio(i) else 0.0
  }

  lemma NextFive(i: nat)
    requires i + 5 <= 45
    ensures DefaultFrom(i) == DefaultPart(i) + DefaultPart(i + 1) + DefaultPart(i + 2) + DefaultPart(i + 3)
                              + DefaultPart(i + 4) + DefaultFrom(i + 5)
  {
    hide DefaultRatio;
    assert DefaultFrom(i + 3) == DefaultPart(i + 3) + DefaultPart(i + 4) + DefaultFrom(i + 5);
    assert DefaultFrom(i + 1) == DefaultPart(i + 1) + DefaultPart(i + 2) + DefaultFrom(i + 3);
  }

  /** The default ratios that are counted add up to 68.8, those that are not to 7. */
  lemma DefaultSum()
    ensures DefaultFrom(0) == 68.8
  {
    assert DefaultFrom(45) == 0.0;
    assert DefaultFrom(40) == 2.35 by { NextFive(40); }
    assert DefaultFrom(35) == 8.8 by { NextFive(35); }
    assert DefaultFrom(30) == 19.3 by { NextFive(30); }
    assert DefaultFrom(25) == 24.4 by { NextFive(25); }
    assert DefaultFrom(20) == 33.9 by { NextFive(20); }
    assert DefaultFrom(15) == 45.9 by { NextFive(15); }
    assert DefaultFrom(10) == 49.5 by { NextFive(10); }
    assert DefaultFrom(5) == 60.6 by { NextFive(5); }
    NextFive(0);
  }

  lemma {:induction false} DefaultUncountedFrom(cs: seq<Cache>, i: nat)
    requires IsDefault(cs) && i <= 45
    ensures UncountedRatios(cs[i..]) ==
            (if i <= 29 then 2.0 else 0.0) + (if i <= 41 then 2.0 else 0.0) + (if i <= 42 then 3.0 else 0.0)
    decreases 45 - i
  {
    if i < 45 {
      assert cs[i..][1..] == cs[i + 1..];
      DefaultUncountedFrom(cs, i + 1);
    }
  }

  /** With the default ratios and the default target of 100 MiB, the caches exceed the target when
      full, whatever their entries cost, as long as one entry of each fits into ten megabytes. */
  lemma TargetCanBeExceeded(cs: seq<Cache>)
    requires IsDefault(cs) && WellConfigured(cs) && EntryCosts(cs) <= 10000000.0
    ensures TotalOfRatios(cs) == 68.8 && UncountedRatios(cs) == 7.0
    ensures MemoryUsed(cs, DEFAULT_TARGET, TotalOfRatios(cs)) > DEFAULT_TARGET as real
  {
    hide IsDefault, MemoryUsed;
    DefaultTotalFrom(cs, 0);
    DefaultUncountedFrom(cs, 0);
    DefaultSum();
    assert cs[0..] == cs;
    ExcessIsUncounted(cs, DEFAULT_TARGET);
    Quotients(7.0, 68.8, 7.0 / 68.8);
  }
}
