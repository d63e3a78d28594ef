/**
 The showcase's rate limiter (showcase/src/lib/server/rate-limit.ts).

 The limiter keeps only the timestamps of the last minute.  A ghost log keeps all
 of them, and the limits are proved of the log, over any run of calls.
 */
module RateLimit {
  import opened Common

  datatype Bucket = Read | Mutation | Upload

  function Limit(bucket: Bucket): nat {
    match bucket
    case Read => 120
    case Mutation => 30
    case Upload => 10
  }

  const WINDOW_MS: nat := 60_000

  function BucketName(bucket: Bucket): string {
    match bucket
    case Read => "read"
    case Mutation => "mutation"
    case Upload => "upload"
  }

  function Key(clientIp: string, bucket: Bucket): string { clientIp + ":" + BucketName(bucket) }

  lemma NamesDiffer(bucket: Bucket, bucket': Bucket)
    requires bucket != bucket'
    ensures var a, b := BucketName(bucket), BucketName(bucket'); a[|a| - 3] != b[|b| - 3]
  {
  }

  /** An address may itself hold `:`; keys still never collide. */
  lemma KeyInjective(ip: string, bucket: Bucket, ip': string, bucket': Bucket)
    requires Key(ip, bucket) == Key(ip', bucket')
    ensures ip == ip' && bucket == bucket'
  {
    var k, a, b := Key(ip, bucket), BucketName(bucket), BucketName(bucket');
    assert k[|k| - 3] == a[|a| - 3] == b[|b| - 3];
    if bucket != bucket' { NamesDiffer(bucket, bucket'); }
    assert ip == k[..|ip|] && ip' == k[..|ip'|];
  }

  // --- timestamps ------------------------------------------------------------

  type Stamps = seq<int>

  /** The timestamps after `cutoff`. */
  function Recent(stamps: Stamps, cutoff: int): Stamps {
    if stamps == [] then []
    else (if stamps[0] > cutoff then [stamps[0]] else []) + Recent(stamps[1..], cutoff)
  }

  predicate Sorted(stamps: Stamps) { forall i, j :: 0 <= i < j < |stamps| ==> stamps[i] <= stamps[j] }

  /** Any `limit + 1` consecutive admissions span at least a window. */
  predicate Spaced(stamps: Stamps, limit: nat) {
    forall i, j :: 0 <= i && j == i + limit < |stamps| ==> stamps[j] - stamps[i] >= WINDOW_MS
  }

  lemma {:induction false} RecentTwice(stamps: Stamps, early: int, late: int)
    requires early <= late
    ensures Recent(Recent(stamps, early), late) == Recent(stamps, late)
  {
    if stamps != [] {
      RecentTwice(stamps[1..], early, late);
      if stamps[0] > early {
        assert Recent(stamps, early)[1..] == Recent(stamps[1..], early);
      } else {
        assert Recent(stamps, early) == Recent(stamps[1..], early) && Recent(stamps, late) == Recent(stamps[1..], late);
      }
    }
  }

  lemma {:induction false} RecentJoin(a: Stamps, b: Stamps, cutoff: int)
    ensures Recent(a + b, cutoff) == Recent(a, cutoff) + Recent(b, cutoff)
  {
    if a == [] {
      assert a + b == b;
    } else {
      assert (a + b)[1..] == a[1..] + b;
      RecentJoin(a[1..], b, cutoff);
    }
  }

  lemma {:induction false} RecentAll(stamps: Stamps, cutoff: int)
    requires forall i :: 0 <= i < |stamps| ==> stamps[i] > cutoff
    ensures Recent(stamps, cutoff) == stamps
  {
    if stamps != [] {
      assert forall i :: 0 <= i < |stamps[1..]| ==> stamps[1..][i] == stamps[i + 1];
      RecentAll(stamps[1..], cutoff);
    }
  }

  lemma {:induction false} RecentNone(stamps: Stamps, cutoff: int)
    requires forall i :: 0 <= i < |stamps| ==> stamps[i] <= cutoff
    ensures Recent(stamps, cutoff) == []
  {
    if stamps != [] {
      assert forall i :: 0 <= i < |stamps[1..]| ==> stamps[1..][i] == stamps[i + 1];
      RecentNone(stamps[1..], cutoff);
    }
  }

  lemma {:induction false} RecentIsLater(stamps: Stamps, cutoff: int)
    ensures forall i :: 0 <= i < |Recent(stamps, cutoff)| ==>
              Recent(stamps, cutoff)[i] > cutoff && Recent(stamps, cutoff)[i] in stamps
    ensures |Recent(stamps, cutoff)| <= |stamps|
    ensures Sorted(stamps) ==> Sorted(Recent(stamps, cutoff))
  {
    if stamps != [] {
      assert Sorted(stamps) ==> Sorted(stamps[1..]);
      RecentIsLater(stamps[1..], cutoff);
      assert forall i :: 0 <= i < |stamps[1..]| ==> stamps[1..][i] == stamps[i + 1];
    }
  }

  /** In a sorted log everything from a recent entry on is recent. */
  lemma RecentFrom(stamps: Stamps, cutoff: int, j: nat)
    requires Sorted(stamps) && j < |stamps| && stamps[j] > cutoff
    ensures |Recent(stamps, cutoff)| >= |stamps| - j
  {
    assert stamps == stamps[..j] + stamps[j..];
    RecentJoin(stamps[..j], stamps[j..], cutoff);
    RecentAll(stamps[j..], cutoff);
  }

  /** One more admission keeps the spacing, provided fewer than `limit` are recent. */
  lemma AdmissionKeepsSpacing(stamps: Stamps, limit: nat, now: int)
    requires limit > 0 && Sorted(stamps) && Spaced(stamps, limit)
    requires forall i :: 0 <= i < |stamps| ==> stamps[i] <= now
    requires |Recent(stamps, now - WINDOW_MS)| < limit
    ensures Sorted(stamps + [now]) && Spaced(stamps + [now], limit)
  {
    if |stamps| >= limit && stamps[|stamps| - limit] > now - WINDOW_MS {
      RecentFrom(stamps, now - WINDOW_MS, |stamps| - limit);
    }
  }

  /** The entries in the window that ends at `x`. */
  function InWindow(stamps: Stamps, x: int): Stamps {
    if stamps == [] then []
    else (if x - 60_000 < stamps[0] <= x then [stamps[0]] else []) + InWindow(stamps[1..], x)
  }

  lemma {:induction false} InWindowJoin(a: Stamps, b: Stamps, x: int)
    ensures InWindow(a + b, x) == InWindow(a, x) + InWindow(b, x)
    ensures |InWindow(b, x)| <= |b|
    decreases |a| + |b|
  {
    if a == [] {
      assert a + b == b;
      if b != [] { InWindowJoin([], b[1..], x); assert [] + b[1..] == b[1..]; }
    } else {
      assert (a + b)[1..] == a[1..] + b;
      InWindowJoin(a[1..], b, x);
    }
  }

  lemma {:induction false} NothingInWindow(stamps: Stamps, x: int)
    requires forall i :: 0 <= i < |stamps| ==> stamps[i] <= x - WINDOW_MS
    ensures InWindow(stamps, x) == []
  {
    if stamps != [] {
      assert forall i :: 0 <= i < |stamps[1..]| ==> stamps[1..][i] == stamps[i + 1];
      NothingInWindow(stamps[1..], x);
    }
  }

  /** A spaced log has at most `limit` entries in every window. */
  lemma {:induction false} AtMostLimitInAnyWindow(stamps: Stamps, limit: nat, x: int)
    requires Sorted(stamps) && Spaced(stamps, limit)
    ensures |InWindow(stamps, x)| <= limit
    decreases |stamps|
  {
    var n := |stamps|;
    if n > limit {
      if stamps[n - 1] > x {
        assert stamps == stamps[..n - 1] + [stamps[n - 1]];
        InWindowJoin(stamps[..n - 1], [stamps[n - 1]], x);
        assert InWindow([stamps[n - 1]], x) == [];
        AtMostLimitInAnyWindow(stamps[..n - 1], limit, x);
      } else {
        var k := n - limit;
        assert stamps[n - 1] - stamps[k - 1] >= WINDOW_MS;
        assert stamps == stamps[..k] + stamps[k..];
        NothingInWindow(stamps[..k], x);
        InWindowJoin(stamps[..k], stamps[k..], x);
      }
    } else {
      assert [] + stamps == stamps;
      InWindowJoin([], stamps, x);
    }
  }

  /** When the oldest of a full bucket leaves the window: the bucket is below its limit from then on, not before. */
  lemma RetryIsExact(stamps: Stamps, limit: nat, now: int, later: int)
    requires Sorted(stamps) && |stamps| == limit > 0 && now <= later
    requires forall i :: 0 <= i < |stamps| ==> now - WINDOW_MS < stamps[i] <= now
    ensures |Recent(stamps, later - WINDOW_MS)| < limit <==> later >= now + Max(0, stamps[0] + WINDOW_MS - now)
  {
    if stamps[0] > later - WINDOW_MS {
      RecentAll(stamps, later - WINDOW_MS);
    } else {
      RecentIsLater(stamps[1..], later - WINDOW_MS);
    }
  }

  // --- the limiter -----------------------------------------------------------

  type Table = map<string, Stamps>

  function Entry(table: Table, key: string): Stamps { if key in table then table[key] else [] }

  /** Every key pruned to the window, keys without timestamps dropped. */
  function Pruned(table: Table, now: int): Table {
    map k | k in table && Recent(table[k], now - WINDOW_MS) != [] :: Recent(table[k], now - WINDOW_MS)
  }

  /** How many admissions of a key count against its limit at time `now`. */
  function Load(log: Table, key: string, now: int): nat { |Recent(Entry(log, key), now - 60_000)| }

  /** `t` is the oldest first timestamp of the table. */
  predicate IsOldest(table: Table, t: int) {
    (exists k :: k in table && table[k] != [] && table[k][0] == t) && forall k :: k in table && table[k] != [] ==>
        t <= table[k][0]
  }

  /** The wait that `capacityRetryAfterMs` is to report. */
  ghost predicate IsCapacityWait(table: Table, now: int, ms: int) {
    if table == map[] then ms == 0 else exists t :: IsOldest(table, t) && ms == Max(0, t + WINDOW_MS - now)
  }

  datatype RateLimitResult = RateLimitResult(allowed: bool, bucket: Option<Bucket>, retryAfterMs: int)

  function Unique(buckets: seq<Bucket>): (r: seq<Bucket>)
    ensures forall b :: b in r <==> b in buckets
    ensures forall i, j :: 0 <= i < j < |r| ==> r[i] != r[j]
  {
    if buckets == [] then []
    else
      var front := Unique(buckets[..|buckets| - 1]);
      var last := buckets[|buckets| - 1];
      assert buckets == buckets[..|buckets| - 1] + [last];
      if last in front then front else front + [last]
  }

  /** The first of the buckets that is in a set. */
  function FirstIn(buckets: seq<Bucket>, chosen: set<Bucket>): (r: Option<Bucket>)
    ensures r.None? ==> forall i :: 0 <= i < |buckets| ==> buckets[i] !in chosen
    ensures r.Some? ==> exists i :: 0 <= i < |buckets| && buckets[i] == r.value && r.value in chosen &&
                                    forall j :: 0 <= j < i ==> buckets[j] !in chosen
  {
    if buckets == [] then None
    else if buckets[0] in chosen then Some(buckets[0])
    else
      var r := FirstIn(buckets[1..], chosen);
      assert buckets == [buckets[0]] + buckets[1..];
      r
  }

  lemma FirstInIs(buckets: seq<Bucket>, chosen: set<Bucket>, i: nat)
    requires i < |buckets| && buckets[i] in chosen && forall j :: 0 <= j < i ==> buckets[j] !in chosen
    ensures FirstIn(buckets, chosen) == Some(buckets[i])
  {
    var r := FirstIn(buckets, chosen);
    var k :| 0 <= k < |buckets| && buckets[k] == r.value && r.value in chosen && forall j :: 0 <= j < k ==>
        buckets[j] !in chosen;
    assert k == i;
  }

  /** Dropping repetitions leaves the first of any kind where it was. */
  lemma {:induction false} FirstOfUnique(buckets: seq<Bucket>, chosen: set<Bucket>)
    ensures FirstIn(Unique(buckets), chosen) == FirstIn(buckets, chosen)
    decreases |buckets|
  {
    if buckets != [] {
      var front, last := buckets[..|buckets| - 1], buckets[|buckets| - 1];
      FirstOfUnique(front, chosen);
      FirstOfLonger(front, last, chosen);
      FirstOfLonger(Unique(front), last, chosen);
      assert buckets == front + [last];
    }
  }

  lemma FirstOfLonger(front: seq<Bucket>, last: Bucket, chosen: set<Bucket>)
    ensures FirstIn(front + [last], chosen) ==
            if FirstIn(front, chosen).Some? then FirstIn(front, chosen) else if last in chosen then Some(last) else None
  {
    var all := front + [last];
    if FirstIn(front, chosen).Some? {
      var i :| 0 <= i < |front| && front[i] == FirstIn(front, chosen).value && front[i] in chosen &&
          forall j :: 0 <= j < i ==> front[j] !in chosen;
      FirstInIs(all, chosen, i);
    } else if last in chosen {
      FirstInIs(all, chosen, |front|);
    }
  }

  lemma {:induction false} UniqueKeepsFirst(buckets: seq<Bucket>)
    ensures if buckets == [] then Unique(buckets) == [] else Unique(buckets) != [] && Unique(buckets)[0] == buckets[0]
    decreases |buckets|
  {
    if buckets != [] { UniqueKeepsFirst(buckets[..|buckets| - 1]); }
  }

  /** The buckets of an address that are at their limit. */
  ghost function FullBuckets(log: Table, clientIp: string, now: int): set<Bucket> {
    set b: Bucket | Load(log, Key(clientIp, b), now) >= Limit(b)
  }

  /** The table holds exactly the part of the log that is still in the window. */
  ghost predicate Mirrors(table: Table, log: Table, now: int) {
    (forall k :: Entry(table, k) == Recent(Entry(log, k), now - WINDOW_MS)) && forall k :: k in table ==> table[k] != []
  }

  ghost predicate LogKeepsLimits(log: Table, latest: int) {
    (forall k :: Sorted(Entry(log, k)) && forall i :: 0 <= i < |Entry(log, k)| ==> Entry(log, k)[i] <= latest) &&
    forall ip, b :: Spaced(Entry(log, Key(ip, b)), Limit(b))
  }

  /** The table keys of a visitor's buckets. */
  function KeyList(clientIp: string, buckets: seq<Bucket>): (keys: seq<string>)
    ensures |keys| == |buckets| && forall i :: 0 <= i < |keys| ==> keys[i] == Key(clientIp, buckets[i])
  {
    seq(|buckets|, i requires 0 <= i < |buckets| => Key(clientIp, buckets[i]))
  }

  predicate Distinct<T(==)>(s: seq<T>) { forall i, j :: 0 <= i < j < |s| ==> s[i] != s[j] }

  function Elements<T>(s: seq<T>): set<T> { set x | x in s }

  /** The log with one admission recorded for every bucket. */
  ghost predicate Recorded(log: Table, log': Table, keys: set<string>, now: int) {
    forall k :: Entry(log', k) == Entry(log, k) + if k in keys then [now] else []
  }

  class RollingWindowRateLimiter {
    var timestamps: Table
    const maxKeys: nat
    /** All admissions ever, by key, and the time of the latest call. */
    ghost var log: Table
    ghost var latest: int

    ghost predicate Valid()
      reads this
    {
      |timestamps| <= maxKeys && Mirrors(timestamps, log, latest) && LogKeepsLimits(log, latest)
    }

    constructor (maxKeys: nat, ghost now: int)
      requires maxKeys >= 1
      ensures Valid() && log == map[] && latest == now && this.maxKeys == maxKeys
    {
      this.maxKeys := maxKeys;
      timestamps, log, latest := map[], map[], now;
    }

    method Prune(key: string, now: int) returns (retained: Stamps)
      modifies this`timestamps
      ensures retained == Recent(Entry(old(timestamps), key), now - WINDOW_MS)
      ensures timestamps == if retained == [] then old(timestamps) - {key} else old(timestamps)[key := retained]
    {
      var current := Entry(timestamps, key);
      retained := Recent(current, now - WINDOW_MS);
      if retained == [] {
        timestamps := timestamps - {key};
      } else {
        timestamps := timestamps[key := retained];
      }
    }

    method PruneAll(now: int)
      modifies this`timestamps
      ensures timestamps == Pruned(old(timestamps), now)
    {
      var todo := timestamps.Keys;
      while todo != {}
        invariant todo <= old(timestamps).Keys
        invariant forall k :: k in todo ==> k in timestamps && timestamps[k] == old(timestamps)[k]
        invariant forall k :: k !in todo ==>
          (k in timestamps <==> k in Pruned(old(timestamps), now)) &&
          (k in timestamps ==> timestamps[k] == Pruned(old(timestamps), now)[k])
      {
        var key :| key in todo;
        var retained := Recent(timestamps[key], now - WINDOW_MS);
        if retained == [] {
          timestamps := timestamps - {key};
        } else if |retained| != |timestamps[key]| {
          timestamps := timestamps[key := retained];
        } else {
          KeepsLength(timestamps[key], now - WINDOW_MS);
        }
        todo := todo - {key};
      }
    }

    method NewKeyCount(keys: seq<string>) returns (count: nat)
      requires Distinct(keys)
      ensures |timestamps.Keys + Elements(keys)| == |timestamps| + count
    {
      count := 0;
      ghost var all := timestamps.Keys;
      for i := 0 to |keys|
        invariant forall k :: k in all <==> k in timestamps || k in keys[..i]
        invariant |all| == |timestamps| + count
      {
        assert keys[..i + 1] == keys[..i] + [keys[i]];
        if keys[i] !in timestamps {
          count := count + 1;
          all := all + {keys[i]};
        }
      }
      assert keys[..|keys|] == keys;
      assert all == timestamps.Keys + Elements(keys);
    }

    method CapacityRetryAfterMs(now: int) returns (ms: int)
      requires forall k :: k in timestamps ==> timestamps[k] != []
      ensures IsCapacityWait(timestamps, now, ms)
    {
      var todo := timestamps.Keys;
      var oldest: Option<int> := None;
      while todo != {}
        invariant todo <= timestamps.Keys && (todo != timestamps.Keys ==> oldest.Some?)
        invariant forall k :: k in timestamps.Keys - todo ==> oldest.Some? && oldest.value <= timestamps[k][0]
        invariant oldest.Some? ==> exists k :: k in timestamps && timestamps[k][0] == oldest.value
      {
        var key :| key in todo;
        if oldest.None? || timestamps[key][0] < oldest.value { oldest := Some(timestamps[key][0]); }
        todo := todo - {key};
      }
      ms := if oldest.Some? then Max(0, oldest.value + WINDOW_MS - now) else 0;
      assert oldest.Some? ==> IsOldest(timestamps, oldest.value);
    }

    /** The first bucket at its limit, with the wait until it is below it. */
    method FirstFull(clientIp: string, buckets: seq<Bucket>, now: int) returns (full: Option<(Bucket, int)>)
      requires Mirrors(timestamps, log, now) && LogKeepsLimits(log, now)
      modifies this`timestamps
      ensures timestamps == old(timestamps)
      ensures full.None? <==> BelowLimits(log, clientIp, buckets, now)
      ensures full.Some? ==> FirstIn(buckets, FullBuckets(log, clientIp, now)) == Some(full.value.0)
      ensures full.Some? ==> full.value.0 in buckets && full.value.1 >= 0 &&
                             WaitIsExact(log, clientIp, full.value.0, now, full.value.1)
    {
      hide Mirrors, LogKeepsLimits, WaitIsExact, Recent, Key;
      for i := 0 to |buckets|
        invariant timestamps == old(timestamps)
        invariant forall j :: 0 <= j < i ==> Load(log, Key(clientIp, buckets[j]), now) < Limit(buckets[j])
      {
        var key := Key(clientIp, buckets[i]);
        PruningMirrored(timestamps, log, key, now);
        var stamps := Prune(key, now);
        if |stamps| >= Limit(buckets[i]) {
          FullBucket(log, clientIp, buckets[i], now);
          FirstInIs(buckets, FullBuckets(log, clientIp, now), i);
          return Some((buckets[i], Max(0, stamps[0] + WINDOW_MS - now)));
        }
      }
      return None;
    }

    method Record(keys: seq<string>, now: int)
      requires Mirrors(timestamps, log, now) && Distinct(keys)
      modifies this`timestamps, this`log
      ensures Mirrors(timestamps, log, now)
      ensures Recorded(old(log), log, Elements(keys), now)
      ensures timestamps.Keys == old(timestamps).Keys + Elements(keys)
    {
      hide Mirrors, Recorded, Recent;
      NothingRecorded(log, now);
      assert Elements(keys[..0]) == {};
      for i := 0 to |keys|
        invariant Mirrors(timestamps, log, now)
        invariant Recorded(old(log), log, Elements(keys[..i]), now)
        invariant timestamps.Keys == old(timestamps).Keys + Elements(keys[..i])
      {
        var key := keys[i];
        OneMoreElement(keys, i);
        RecordStep(timestamps, log, key, now);
        RecordedStep(old(log), log, Elements(keys[..i]), key, now);
        ghost var before := timestamps;
        RecordOne(key, now);
        assert timestamps.Keys == before.Keys + {key};
      }
      assert keys[..|keys|] == keys;
    }

    method RecordOne(key: string, now: int)
      requires Entry(timestamps, key) == Recent(Entry(timestamps, key), now - WINDOW_MS)
      modifies this`timestamps, this`log
      ensures timestamps == old(timestamps)[key := Entry(old(timestamps), key) + [now]]
      ensures log == old(log)[key := Entry(old(log), key) + [now]]
    {
      var stamps := Prune(key, now);
      timestamps := timestamps[key := stamps + [now]];
      log := log[key := Entry(log, key) + [now]];
    }

    method CheckAll(clientIp: string, buckets: seq<Bucket>, now: int) returns (r: RateLimitResult)
      requires Valid() && latest <= now
      modifies this
      ensures Valid() && latest == now
      ensures r.allowed <==>
              Roomy(Pruned(old(timestamps), now), Elements(KeyList(clientIp, buckets)), maxKeys) &&
              BelowLimits(old(log), clientIp, buckets, now)
      ensures if r.allowed then Recorded(old(log), log, Elements(KeyList(clientIp, buckets)), now) else log == old(log)
      ensures r.retryAfterMs >= 0 && (r.allowed ==> r.bucket.None? && r.retryAfterMs == 0)
      ensures !r.allowed ==> timestamps == Pruned(old(timestamps), now)
      ensures !Roomy(Pruned(old(timestamps), now), Elements(KeyList(clientIp, buckets)), maxKeys) ==>
                r.bucket == (if buckets == [] then None else Some(buckets[0])) &&
                    IsCapacityWait(timestamps, now, r.retryAfterMs)
      ensures !r.allowed && Roomy(Pruned(old(timestamps), now), Elements(KeyList(clientIp, buckets)), maxKeys) ==>
                r.bucket.Some? && r.bucket == FirstIn(buckets, FullBuckets(log, clientIp, now)) &&
                WaitIsExact(log, clientIp, r.bucket.value, now, r.retryAfterMs)
    {
      var uniqueBuckets := Unique(buckets);
      UniqueKeys(clientIp, buckets);
      UniqueKeepsFirst(buckets);
      FirstOfUnique(buckets, FullBuckets(log, clientIp, now));
      PruneAll(now);
      PrunedMirrors(old(timestamps), log, latest, now);
      latest := now;
      r := Decide(clientIp, uniqueBuckets, now);
    }

    /** The three loops of `checkAll`, on a pruned table. */
    method Decide(clientIp: string, buckets: seq<Bucket>, now: int) returns (r: RateLimitResult)
      requires Valid() && latest == now && Distinct(KeyList(clientIp, buckets))
      modifies this`timestamps, this`log
      ensures Valid()
      ensures r.allowed <==>
                Roomy(old(timestamps), Elements(KeyList(clientIp, buckets)), maxKeys) &&
                BelowLimits(old(log), clientIp, buckets, now)
      ensures if r.allowed then Recorded(old(log), log, Elements(KeyList(clientIp, buckets)), now) else log == old(log)
      ensures r.retryAfterMs >= 0 && (r.allowed ==> r.bucket.None? && r.retryAfterMs == 0)
      ensures !r.allowed ==> timestamps == old(timestamps)
      ensures !Roomy(old(timestamps), Elements(KeyList(clientIp, buckets)), maxKeys) ==>
                r.bucket == (if buckets == [] then None else Some(buckets[0])) &&
                    IsCapacityWait(timestamps, now, r.retryAfterMs)
      ensures !r.allowed && Roomy(old(timestamps), Elements(KeyList(clientIp, buckets)), maxKeys) ==>
                r.bucket.Some? && r.bucket == FirstIn(buckets, FullBuckets(log, clientIp, now)) &&
                WaitIsExact(log, clientIp, r.bucket.value, now, r.retryAfterMs)
    {
      hide LogKeepsLimits, Recorded, BelowLimits, WaitIsExact, Recent;
      var keys := KeyList(clientIp, buckets);
      var newKeyCount := NewKeyCount(keys);
      if |timestamps| + newKeyCount > maxKeys {
        var retry := CapacityRetryAfterMs(now);
        return RateLimitResult(false, if buckets == [] then None else Some(buckets[0]), retry);
      }
      var full := FirstFull(clientIp, buckets, now);
      if full.Some? {
        return RateLimitResult(false, Some(full.value.0), full.value.1);
      }
      Record(keys, now);
      RecordingKeepsLimits(old(log), log, clientIp, buckets, now, now);
      return RateLimitResult(true, None, 0);
    }
  }

  /** The table has room for the visitor's keys. */
  ghost predicate Roomy(table: Table, keys: set<string>, maxKeys: nat) { |table.Keys + keys| <= maxKeys }

  /** Every bucket asked for is below its limit. */
  ghost predicate BelowLimits(log: Table, clientIp: string, buckets: seq<Bucket>, now: int) {
    forall b :: b in buckets ==> Load(log, Key(clientIp, b), now) < Limit(b)
  }

  /** With no further admission, the bucket is below its limit from `now + ms` on and not earlier. */
  ghost predicate WaitIsExact(log: Table, clientIp: string, bucket: Bucket, now: int, ms: int) {
    forall later :: later >= now ==>
      (Load(log, Key(clientIp, bucket), later) < Limit(bucket) <==> later >= now + ms)
  }

  lemma OneMoreElement<T>(s: seq<T>, i: nat)
    requires i < |s| && Distinct(s)
    ensures Elements(s[..i + 1]) == Elements(s[..i]) + {s[i]} && s[i] !in Elements(s[..i])
  {
    assert s[..i + 1] == s[..i] + [s[i]];
  }

  lemma UniqueKeys(clientIp: string, buckets: seq<Bucket>)
    ensures Distinct(KeyList(clientIp, Unique(buckets)))
    ensures Elements(KeyList(clientIp, Unique(buckets))) == Elements(KeyList(clientIp, buckets))
  {
    var unique := Unique(buckets);
    var keys, all := KeyList(clientIp, unique), KeyList(clientIp, buckets);
    forall i, j | 0 <= i < j < |keys| ensures keys[i] != keys[j] {
      if keys[i] == keys[j] { KeyInjective(clientIp, unique[i], clientIp, unique[j]); }
    }
    forall k | k in all ensures k in keys {
      var i :| 0 <= i < |all| && all[i] == k;
      assert buckets[i] in unique;
      var j :| 0 <= j < |unique| && unique[j] == buckets[i];
      assert keys[j] == k;
    }
    forall k | k in keys ensures k in all {
      var i :| 0 <= i < |keys| && keys[i] == k;
      assert unique[i] in buckets;
      var j :| 0 <= j < |buckets| && unique[i] == buckets[j];
      assert all[j] == k;
    }
  }

  /** In a table that mirrors the log pruning a key changes nothing. */
  lemma PruningMirrored(table: Table, log: Table, key: string, now: int)
    requires Mirrors(table, log, now)
    ensures var retained := Recent(Entry(table, key), now - WINDOW_MS);
            retained == Recent(Entry(log, key), now - WINDOW_MS) &&
            table == if retained == [] then table - {key} else table[key := retained]
  {
    RecentTwice(Entry(log, key), now - WINDOW_MS, now - WINDOW_MS);
  }

  lemma RecordStep(table: Table, log: Table, key: string, now: int)
    requires Mirrors(table, log, now)
    ensures Entry(table, key) == Recent(Entry(table, key), now - WINDOW_MS)
    ensures Mirrors(table[key := Entry(table, key) + [now]], log[key := Entry(log, key) + [now]], now)
  {
    RecentTwice(Entry(log, key), now - WINDOW_MS, now - WINDOW_MS);
    RecentJoin(Entry(log, key), [now], now - WINDOW_MS);
    assert [now][1..] == [] && Recent([now], now - WINDOW_MS) == [now];
    var table', log' := table[key := Entry(table, key) + [now]], log[key := Entry(log, key) + [now]];
    forall k ensures Entry(table', k) == Recent(Entry(log', k), now - WINDOW_MS) {
      if k != key { assert Entry(table', k) == Entry(table, k) && Entry(log', k) == Entry(log, k); }
    }
  }

  lemma NothingRecorded(log: Table, now: int)
    ensures Recorded(log, log, {}, now)
  {
  }

  lemma RecordedStep(log: Table, log': Table, keys: set<string>, key: string, now: int)
    requires Recorded(log, log', keys, now) && key !in keys
    ensures Recorded(log, log'[key := Entry(log', key) + [now]], keys + {key}, now)
  {
    var log'' := log'[key := Entry(log', key) + [now]];
    forall k ensures Entry(log'', k) == Entry(log, k) + if k in keys + {key} then [now] else [] {
      if k == key { assert Entry(log', k) == Entry(log, k) + []; } else { assert Entry(log'', k) == Entry(log', k); }
    }
  }

  /** At the limit a bucket holds exactly `Limit` recent admissions, and waiting for the oldest is exact. */
  lemma FullBucket(log: Table, clientIp: string, bucket: Bucket, now: int)
    requires LogKeepsLimits(log, now) && Load(log, Key(clientIp, bucket), now) >= Limit(bucket)
    ensures var stamps := Recent(Entry(log, Key(clientIp, bucket)), now - WINDOW_MS);
            stamps != [] && WaitIsExact(log, clientIp, bucket, now, Max(0, stamps[0] + WINDOW_MS - now))
  {
    var all := Entry(log, Key(clientIp, bucket));
    var stamps := Recent(all, now - WINDOW_MS);
    RecentIsLater(all, now - WINDOW_MS);
    assert |stamps| <= Limit(bucket) by {
      AtMostLimitInAnyWindow(all, Limit(bucket), now);
      RecentIsInWindow(all, now);
    }
    forall later | later >= now
      ensures Load(log, Key(clientIp, bucket), later) < Limit(bucket) <==>
              later >= now + Max(0, stamps[0] + WINDOW_MS - now)
    {
      RecentTwice(all, now - WINDOW_MS, later - WINDOW_MS);
      RetryIsExact(stamps, Limit(bucket), now, later);
    }
  }

  lemma {:induction false} RecentIsInWindow(stamps: Stamps, now: int)
    requires forall i :: 0 <= i < |stamps| ==> stamps[i] <= now
    ensures Recent(stamps, now - WINDOW_MS) == InWindow(stamps, now)
  {
    if stamps != [] {
      assert forall i :: 0 <= i < |stamps[1..]| ==> stamps[1..][i] == stamps[i + 1];
      RecentIsInWindow(stamps[1..], now);
    }
  }

  lemma RecordingKeepsOrder(log: Table, log': Table, keys: set<string>, before: int, now: int, k: string)
    requires LogKeepsLimits(log, before) && before <= now && Recorded(log, log', keys, now)
    ensures Sorted(Entry(log', k)) && forall i :: 0 <= i < |Entry(log', k)| ==> Entry(log', k)[i] <= now
  {
    hide Spaced, Key;
    assert Sorted(Entry(log, k));
    assert Entry(log', k) == Entry(log, k) + if k in keys then [now] else [];
  }

  lemma RecordingKeepsSpacing(log: Table, log': Table, clientIp: string, buckets: seq<Bucket>, before: int, now: int,
                              ip: string, b: Bucket)
    requires LogKeepsLimits(log, before) && before <= now &&
             Recorded(log, log', Elements(KeyList(clientIp, buckets)), now)
    requires BelowLimits(log, clientIp, buckets, now)
    ensures Spaced(Entry(log', Key(ip, b)), Limit(b))
  {
    hide Spaced, Key, Sorted, Recent;
    var k := Key(ip, b);
    assert Entry(log', k) == Entry(log, k) + if k in Elements(KeyList(clientIp, buckets)) then [now] else [];
    assert Spaced(Entry(log, k), Limit(b)) && Sorted(Entry(log, k));
    if k in KeyList(clientIp, buckets) {
      var i :| 0 <= i < |buckets| && k == KeyList(clientIp, buckets)[i];
      KeyInjective(ip, b, clientIp, buckets[i]);
      AdmissionKeepsSpacing(Entry(log, k), Limit(b), now);
    } else {
      assert Entry(log, k) + [] == Entry(log, k);
    }
  }

  lemma RecordingKeepsLimits(log: Table, log': Table, clientIp: string, buckets: seq<Bucket>, before: int, now: int)
    requires LogKeepsLimits(log, before) && before <= now &&
             Recorded(log, log', Elements(KeyList(clientIp, buckets)), now)
    requires BelowLimits(log, clientIp, buckets, now)
    ensures LogKeepsLimits(log', now)
  {
    hide Spaced, Key, Sorted, Recent, Recorded, BelowLimits;
    forall k ensures Sorted(Entry(log', k)) && forall i :: 0 <= i < |Entry(log', k)| ==> Entry(log', k)[i] <= now {
      RecordingKeepsOrder(log, log', Elements(KeyList(clientIp, buckets)), before, now, k);
    }
    forall ip, b ensures Spaced(Entry(log', Key(ip, b)), Limit(b)) {
      RecordingKeepsSpacing(log, log', clientIp, buckets, before, now, ip, b);
    }
  }

  /** Over any run: each key has at most its limit of admissions in every window of a minute. */
  lemma LimitHoldsInEveryWindow(log: Table, latest: int, clientIp: string, bucket: Bucket, x: int)
    requires LogKeepsLimits(log, latest)
    ensures |InWindow(Entry(log, Key(clientIp, bucket)), x)| <= Limit(bucket)
  {
    AtMostLimitInAnyWindow(Entry(log, Key(clientIp, bucket)), Limit(bucket), x);
  }

  lemma {:induction false} KeepsLength(stamps: Stamps, cutoff: int)
    requires |Recent(stamps, cutoff)| == |stamps|
    ensures Recent(stamps, cutoff) == stamps
  {
    if stamps != [] {
      RecentIsLater(stamps[1..], cutoff);
      KeepsLength(stamps[1..], cutoff);
    }
  }

  /** A key leaves the table with its LAST timestamp, not with its first. */
  lemma KeyLeavesWithItsLast(table: Table, key: string, later: int)
    requires key in table && Sorted(table[key]) && table[key] != []
    ensures key in Pruned(table, later) <==> table[key][|table[key]| - 1] > later - WINDOW_MS
  {
    var stamps := table[key];
    if stamps[|stamps| - 1] > later - WINDOW_MS {
      RecentFrom(stamps, later - WINDOW_MS, |stamps| - 1);
    } else {
      RecentNone(stamps, later - WINDOW_MS);
    }
  }

  /** A table as `checkAll` leaves it after pruning: sorted, nothing empty, everything in the window. */
  ghost predicate InOrder(table: Table, now: int) {
    forall k :: k in table ==>
      table[k] != [] && Sorted(table[k]) && forall i :: 0 <= i < |table[k]| ==> now - WINDOW_MS < table[k][i] <= now
  }

  /** The limiter's table is always in this order at the time of the latest call. */
  lemma MirroredIsInOrder(table: Table, log: Table, latest: int)
    requires Mirrors(table, log, latest) && LogKeepsLimits(log, latest)
    ensures InOrder(table, latest)
  {
    hide Recent, Spaced, Key;
    forall k | k in table
      ensures table[k] != [] && Sorted(table[k]) && forall i :: 0 <= i < |table[k]| ==>
              latest - WINDOW_MS < table[k][i] <= latest
    {
      assert table[k] == Entry(table, k) == Recent(Entry(log, k), latest - WINDOW_MS);
      assert Sorted(Entry(log, k));
      RecentIsLater(Entry(log, k), latest - WINDOW_MS);
    }
  }

  /** The keys whose last timestamp leaves the window with the oldest one of the table. */
  function Leaving(table: Table, t: int): set<string> {
    set k | k in table && table[k] != [] && table[k][0] == t && table[k][|table[k]| - 1] == t
  }

  lemma OldestIsUnique(table: Table, t: int, u: int)
    requires IsOldest(table, t) && IsOldest(table, u)
    ensures t == u
  {
  }

  /** Before the reported moment no key leaves; at that moment exactly those leave that hold nothing but the oldest. */
  lemma KeysAfterTheWait(table: Table, now: int, t: int, later: int)
    requires InOrder(table, now) && IsOldest(table, t) && now <= later <= t + WINDOW_MS
    ensures Pruned(table, later).Keys == if later < t + WINDOW_MS then table.Keys else table.Keys - Leaving(table, t)
  {
    hide Recent, Pruned;
    forall k ensures k in Pruned(table, later) <==> k in table && (later < t + WINDOW_MS || k !in Leaving(table, t)) {
      PrunedIsThinner(table, later, k);
      if k in table { KeyLeavesWithItsLast(table, k, later); }
    }
  }

  lemma PrunedIsThinner(table: Table, later: int, k: string)
    ensures k in Pruned(table, later) ==> k in table
  {
  }

  /** Sooner than the reported wait there is no more room than now. */
  lemma SoonerIsFull(table: Table, keys: set<string>, maxKeys: nat, now: int, ms: int, t: int, sooner: int)
    requires InOrder(table, now) && IsOldest(table, t) && IsCapacityWait(table, now, ms) && !Roomy(table, keys, maxKeys)
    requires now <= sooner < now + ms
    ensures !Roomy(Pruned(table, sooner), keys, maxKeys)
  {
    WaitForOldest(table, now, ms, t);
    hide Recent, Pruned, InOrder, IsOldest, Leaving, IsCapacityWait;
    KeysAfterTheWait(table, now, t, sooner);
  }

  /** At that moment exactly the keys leave that hold nothing but the oldest. */
  lemma KeysAtTheWait(table: Table, now: int, ms: int, t: int)
    requires InOrder(table, now) && IsOldest(table, t) && IsCapacityWait(table, now, ms)
    ensures Pruned(table, now + ms).Keys == table.Keys - Leaving(table, t) && Leaving(table, t) <= table.Keys
  {
    WaitForOldest(table, now, ms, t);
    LeavingAreKeys(table, t);
    hide Recent, Pruned, InOrder, IsOldest, Leaving, IsCapacityWait;
    KeysAfterTheWait(table, now, t, now + ms);
  }

  lemma RoomOf(after: Table, table: Table, gone: set<string>, keys: set<string>, maxKeys: nat)
    requires after.Keys == table.Keys - gone && gone <= table.Keys
    ensures Roomy(after, keys, maxKeys) <==> |table.Keys + keys| - |gone - keys| <= maxKeys
  {
    RoomWithout(table.Keys, gone, keys);
  }

  /** The room after it. */
  lemma RoomAfterTheWait(table: Table, keys: set<string>, maxKeys: nat, now: int, ms: int, t: int)
    requires InOrder(table, now) && IsOldest(table, t) && IsCapacityWait(table, now, ms)
    ensures Roomy(Pruned(table, now + ms), keys, maxKeys) <==>
            |table.Keys + keys| - |Leaving(table, t) - keys| <= maxKeys
  {
    hide Recent, Pruned, InOrder, IsOldest, Leaving, IsCapacityWait, Roomy;
    KeysAtTheWait(table, now, ms, t);
    RoomOf(Pruned(table, now + ms), table, Leaving(table, t), keys, maxKeys);
  }

  /**
   The wait reported for a full table is never too long; it is enough exactly if as many
   keys as are too many, not counting those asked for, hold nothing but the oldest
   timestamp of the table.
   */
  lemma CapacityWaitIsEnoughIff(table: Table, keys: set<string>, maxKeys: nat, now: int, ms: int, t: int)
    requires InOrder(table, now) && IsOldest(table, t) && IsCapacityWait(table, now, ms) && !Roomy(table, keys, maxKeys)
    ensures ms == t + WINDOW_MS - now > 0
    ensures forall sooner :: now <= sooner < now + ms ==> !Roomy(Pruned(table, sooner), keys, maxKeys)
    ensures Roomy(Pruned(table, now + ms), keys, maxKeys) <==>
            |table.Keys + keys| - |Leaving(table, t) - keys| <= maxKeys
  {
    hide Recent, Pruned, InOrder, IsOldest, Leaving, IsCapacityWait, Roomy;
    WaitForOldest(table, now, ms, t);
    forall sooner | now <= sooner < now + ms ensures !Roomy(Pruned(table, sooner), keys, maxKeys) {
      SoonerIsFull(table, keys, maxKeys, now, ms, t, sooner);
    }
    RoomAfterTheWait(table, keys, maxKeys, now, ms, t);
  }

  lemma WaitForOldest(table: Table, now: int, ms: int, t: int)
    requires InOrder(table, now) && IsOldest(table, t) && IsCapacityWait(table, now, ms)
    ensures ms == t + WINDOW_MS - now > 0
  {
    hide InOrder;
    OldestInWindow(table, now, t);
    var u :| IsOldest(table, u) && ms == Max(0, u + WINDOW_MS - now);
    OldestIsUnique(table, t, u);
  }

  lemma LeavingAreKeys(table: Table, t: int)
    ensures Leaving(table, t) <= table.Keys
  {
  }

  lemma RoomWithout<T>(all: set<T>, gone: set<T>, asked: set<T>)
    requires gone <= all
    ensures |(all - gone) + asked| == |all + asked| - |gone - asked|
  {
    assert (all - gone) + asked == (all + asked) - (gone - asked);
    assert gone - asked <= all + asked;
  }

  lemma OldestInWindow(table: Table, now: int, t: int)
    requires InOrder(table, now) && IsOldest(table, t)
    ensures now - WINDOW_MS < t <= now
  {
    var k :| k in table && table[k][0] == t;
  }

  /** A slot is free then exactly if some key holds nothing but the oldest timestamp. */
  lemma SlotIsFreeIff(table: Table, now: int, ms: int, t: int)
    requires InOrder(table, now) && IsOldest(table, t) && IsCapacityWait(table, now, ms)
    ensures |Pruned(table, now + ms)| < |table| <==>
            exists k :: k in table && table[k] != [] && table[k][0] == t &&
                table[k][|table[k]| - 1] <= now + ms - WINDOW_MS
  {
    hide Recent, Pruned, InOrder, IsOldest, Leaving, IsCapacityWait;
    WaitForOldest(table, now, ms, t);
    KeysAtTheWait(table, now, ms, t);
    FewerRows(Pruned(table, now + ms), table, Leaving(table, t));
    if k :| k in table && table[k] != [] && table[k][0] == t && table[k][|table[k]| - 1] <= now + ms - WINDOW_MS {
      LastIsNotEarlier(table, now, k);
      LeavingIs(table, t, k);
    }
    if k :| k in Leaving(table, t) { LeavingIs(table, t, k); }
  }

  lemma FewerRows(after: Table, table: Table, gone: set<string>)
    requires after.Keys == table.Keys - gone && gone <= table.Keys
    ensures |after| < |table| <==> exists k :: k in gone
  {
    FewerKeys(table.Keys, gone);
    assert |after| == |after.Keys| && |table| == |table.Keys|;
  }

  lemma FewerKeys<T>(all: set<T>, gone: set<T>)
    requires gone <= all
    ensures |all - gone| < |all| <==> exists x :: x in gone
  {
    assert |all| == |all - gone| + |gone| by { assert all == (all - gone) + gone; }
  }

  lemma LeavingIs(table: Table, t: int, k: string)
    ensures k in Leaving(table, t) <==>
              k in table && table[k] != [] && table[k][0] == t && table[k][|table[k]| - 1] == t
  {
  }

  lemma LastIsNotEarlier(table: Table, now: int, k: string)
    requires InOrder(table, now) && k in table
    ensures table[k] != [] && table[k][0] <= table[k][|table[k]| - 1]
  {
  }

  function OneKey(): Table { map["a:read" := [0, 30_000]] }

  lemma OneKeyTable()
    ensures InOrder(OneKey(), 40_000) && IsOldest(OneKey(), 0) && Leaving(OneKey(), 0) == {}
  {
    assert OneKey()["a:read"][0] == 0;
  }

  /** A table of one key, full, and still full after the reported wait. */
  lemma CapacityWaitCanBeTooShort(ms: int)
    requires IsCapacityWait(OneKey(), 40_000, ms)
    ensures ms == 20_000 && !Roomy(Pruned(OneKey(), 40_000 + ms), {"b:read"}, 1)
  {
    hide Recent, Pruned, IsOldest, InOrder, Leaving, IsCapacityWait, Roomy, OneKey;
    OneKeyTable();
    WaitForOldest(OneKey(), 40_000, ms, 0);
    RoomAfterTheWait(OneKey(), {"b:read"}, 1, 40_000, ms, 0);
    TwoKeys();
  }

  lemma TwoKeys()
    ensures |OneKey().Keys + {"b:read"}| == 2 && {} - {"b:read"} == {}
  {
    assert "a:read"[0] != "b:read"[0];
    assert OneKey().Keys + {"b:read"} == {"a:read", "b:read"};
  }

  lemma PrunedEntry(table: Table, now: int, k: string)
    ensures Entry(Pruned(table, now), k) == Recent(Entry(table, k), now - WINDOW_MS)
  {
  }

  lemma PrunedMirrors(table: Table, log: Table, before: int, now: int)
    requires before <= now && Mirrors(table, log, before)
    ensures Mirrors(Pruned(table, now), log, now) && |Pruned(table, now)| <= |table|
  {
    hide Recent;
    forall k ensures Entry(Pruned(table, now), k) == Recent(Entry(log, k), now - WINDOW_MS) {
      PrunedEntry(table, now, k);
      RecentTwice(Entry(log, k), before - WINDOW_MS, now - WINDOW_MS);
    }
    Smaller(Pruned(table, now).Keys, table.Keys);
  }

  lemma Smaller<T>(a: set<T>, b: set<T>)
    requires a <= b
    ensures |a| <= |b|
  {
    assert b == a + (b - a);
  }
}
