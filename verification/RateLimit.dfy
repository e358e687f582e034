/** The fixed-window request limiter and the Redis counters behind it. */
module RateLimit {
  import opened Text

  /** A Redis counter; `expires` is the millisecond from which the key is gone. */
  datatype Counter = Counter(count: nat, expires: Option<int>)

  /** `window` is whole seconds, at least one. */
  datatype Limits = Limits(limit: int, window: nat)

  /**
   What becomes of a request's INCR: it is counted and answered, and a first request's Expire
   call takes effect some time later (None if that call fails); it is counted but the answer
   is an error; or it is an error and nothing is counted.
   */
  datatype Increment = Answered(expireAfter: Option<nat>) | Unanswered | Refused

  /** One request: its client, the millisecond it arrives, and its increment. */
  datatype Attempt = Attempt(ip: string, at: nat, incr: Increment)

  datatype Verdict = Passed | NoAddress | Failed | Exceeded

  type Counters = map<(string, int), Counter>

  function Bucket(c: Limits, at: nat): int
    requires c.window > 0
  {
    (at / 1000) / c.window
  }

  /** Redis has dropped every key whose time has come. */
  function Alive(counters: Counters, now: int): Counters {
    map k | k in counters && (counters[k].expires.None? || now < counters[k].expires.value) :: counters[k]
  }

  /** The key after INCR and, when INCR answered 1, EXPIRE. */
  function Incremented(c: Limits, before: Counters, a: Attempt): Counter
    requires c.window > 0
  {
    var key := (a.ip, Bucket(c, a.at));
    var prior := if key in before then before[key] else Counter(0, None);
    Counter(prior.count + 1,
            if prior.count == 0 && a.incr.Answered? && a.incr.expireAfter.Some?
            then Some(a.at + a.incr.expireAfter.value + 1000 * c.window)
            else prior.expires)
  }

  function Step(c: Limits, counters: Counters, a: Attempt): (Counters, Verdict)
    requires c.window > 0
  {
    var live := Alive(counters, a.at);
    if a.ip == "" then (live, NoAddress)
    else if a.incr.Refused? then (live, Failed)
    else
      var counter := Incremented(c, live, a);
      (live[(a.ip, Bucket(c, a.at)) := counter],
       if a.incr.Unanswered? then Failed else if counter.count > c.limit then Exceeded else Passed)
  }

  class Limiter {
    var counters: Counters

    method Handle(c: Limits, a: Attempt) returns (verdict: Verdict)
      requires c.window > 0
      modifies this
      ensures (counters, verdict) == Step(c, old(counters), a)
    {
      counters := Alive(counters, a.at);
      if a.ip == "" { return NoAddress; }
      var key := (a.ip, Bucket(c, a.at));
      if a.incr.Refused? { return Failed; }
      if key !in counters { counters := counters[key := Counter(0, None)]; }
      counters := counters[key := counters[key].(count := counters[key].count + 1)];
      var count := counters[key].count;
      if a.incr.Unanswered? {
        assert counters == Alive(old(counters), a.at)[key := Incremented(c, Alive(old(counters), a.at), a)];
        return Failed;
      }
      if count == 1 && a.incr.expireAfter.Some? {
        counters := counters[key := counters[key].(expires := Some(a.at + a.incr.expireAfter.value + 1000 * c.window))];
      }
      assert counters == Alive(old(counters), a.at)[key := Incremented(c, Alive(old(counters), a.at), a)];
      if count > c.limit { return Exceeded; }
      return Passed;
    }
  }

  // ---------------------------------------------------------------- runs

  function Run(c: Limits, run: seq<Attempt>): Counters
    requires c.window > 0
  {
    if run == [] then map[]
    else Step(c, Run(c, run[..|run| - 1]), run[|run| - 1]).0
  }

  /** The answer to the i-th request of a run. */
  function Answer(c: Limits, run: seq<Attempt>, i: nat): Verdict
    requires c.window > 0 && i < |run|
  {
    Step(c, Run(c, run[..i]), run[i]).1
  }

  predicate Ordered(run: seq<Attempt>) {
    forall i, j :: 0 <= i <= j < |run| ==> run[i].at <= run[j].at
  }

  predicate Counted(c: Limits, a: Attempt, ip: string, b: int)
    requires c.window > 0
  {
    a.ip == ip && !a.incr.Refused? && Bucket(c, a.at) == b
  }

  /** How many of these requests were counted for `ip` in bucket `b`. */
  function CountIn(c: Limits, run: seq<Attempt>, ip: string, b: int): nat
    requires c.window > 0
  {
    if run == [] then 0
    else CountIn(c, run[..|run| - 1], ip, b)
         + if Counted(c, run[|run| - 1], ip, b) then 1 else 0
  }

  /** A bucket is exactly the milliseconds between two multiples of the window. */
  lemma BucketBounds(c: Limits, at: nat, b: int)
    requires c.window > 0
    ensures b * c.window * 1000 <= at < (b + 1) * c.window * 1000 <==> b == Bucket(c, at)
  {
    var s, q := at / 1000, Bucket(c, at);
    assert q * c.window <= s < (q + 1) * c.window;
    if b < q { assert (b + 1) * c.window <= q * c.window by { Scale(b + 1, q, c.window); } }
    if b > q { assert (q + 1) * c.window <= b * c.window by { Scale(q + 1, b, c.window); } }
  }

  lemma Scale(a: int, b: int, w: nat)
    requires a <= b
    ensures a * w <= b * w
  {
  }

  /** Until a bucket is over, its key counts every request counted in it: expiry cannot reset it early. */
  ghost predicate Faithful(c: Limits, counters: Counters, run: seq<Attempt>, ip: string, b: int)
    requires c.window > 0
  {
    var n := CountIn(c, run, ip, b);
    if n == 0 then (ip, b) !in counters
    else (ip, b) in counters && counters[(ip, b)].count == n
         && (counters[(ip, b)].expires.Some? ==> counters[(ip, b)].expires.value >= (b + 1) * c.window * 1000)
  }

  lemma FaithfulStep(c: Limits, counters: Counters, run: seq<Attempt>, a: Attempt, ip: string, b: int)
    requires c.window > 0 && ip != ""
    requires Faithful(c, counters, run, ip, b) && a.at < (b + 1) * c.window * 1000
    ensures Faithful(c, Step(c, counters, a).0, run + [a], ip, b)
  {
    assert (run + [a])[..|run|] == run;
    BucketBounds(c, a.at, b);
    hide CountIn, Bucket;
    assert CountIn(c, run + [a], ip, b) == CountIn(c, run, ip, b) + if Counted(c, a, ip, b) then 1 else 0
      by { CountSnoc(c, run, a, ip, b); }
    assert (b + 1) * c.window * 1000 == b * c.window * 1000 + 1000 * c.window;
  }

  lemma CountSnoc(c: Limits, run: seq<Attempt>, a: Attempt, ip: string, b: int)
    requires c.window > 0
    ensures CountIn(c, run + [a], ip, b) == CountIn(c, run, ip, b) + if Counted(c, a, ip, b) then 1 else 0
  {
    assert (run + [a])[..|run|] == run;
  }

  lemma {:induction false} CountsFaithful(c: Limits, run: seq<Attempt>, ip: string, b: int)
    requires c.window > 0 && Ordered(run) && ip != ""
    requires run != [] ==> run[|run| - 1].at < (b + 1) * c.window * 1000
    ensures Faithful(c, Run(c, run), run, ip, b)
  {
    if run != [] {
      var n := |run| - 1;
      if n > 0 { assert run[n - 1].at <= run[n].at; }
      CountsFaithful(c, run[..n], ip, b);
      FaithfulStep(c, Run(c, run[..n]), run[..n], run[n], ip, b);
      assert run[..n] + [run[n]] == run;
    }
  }

  // ---------------------------------------------------------------- how long keys live

  /** A step drops the keys whose time has come and no other; it touches one key at most. */
  lemma KeysKept(c: Limits, counters: Counters, a: Attempt, k: (string, int))
    requires c.window > 0 && k != (a.ip, Bucket(c, a.at))
    ensures var after := Step(c, counters, a).0;
            && (k in after <==> k in counters && (counters[k].expires == None || a.at < counters[k].expires.value))
            && (k in after ==> after[k] == counters[k])
  {
  }

  /** No key outlives its time. */
  lemma KeysExpire(c: Limits, run: seq<Attempt>, k: (string, int))
    requires c.window > 0 && run != [] && k in Run(c, run) && Run(c, run)[k].expires.Some?
    ensures run[|run| - 1].at < Run(c, run)[k].expires.value
  {
    hide Bucket;
  }

  /** What the first counted request of a bucket does to its key's time. */
  function FirstExpiry(c: Limits, a: Attempt): Option<int> {
    if a.incr.Answered? && a.incr.expireAfter.Some? then Some(a.at + a.incr.expireAfter.value + 1000 * c.window) else None
  }

  predicate OpensBucket(c: Limits, run: seq<Attempt>, i: nat, ip: string, b: int)
    requires c.window > 0 && i < |run|
  {
    Counted(c, run[i], ip, b) && CountIn(c, run[..i], ip, b) == 0
  }

  /** A key's time is set once, by the first request counted in its bucket: window after the Expire call, or never. */
  lemma {:induction false} ExpiryFromFirst(c: Limits, run: seq<Attempt>, ip: string, b: int) returns (i: nat)
    requires c.window > 0 && Ordered(run) && ip != "" && (ip, b) in Run(c, run)
    ensures i < |run| && OpensBucket(c, run, i, ip, b) && Run(c, run)[(ip, b)].expires == FirstExpiry(c, run[i])
    ensures Run(c, run)[(ip, b)].count > 0
  {
    hide Bucket, CountIn, Ordered, FirstExpiry;
    var n := |run| - 1;
    var a, before := run[n], Run(c, run[..n]);
    OrderedPrefix(run);
    if (ip, b) in Alive(before, a.at) {
      i := ExpiryFromFirst(c, run[..n], ip, b);
      assert run[..n][..i] == run[..i];
    } else {
      i := n;
      NewKey(c, run, ip, b);
    }
  }

  lemma NewKey(c: Limits, run: seq<Attempt>, ip: string, b: int)
    requires c.window > 0 && run != [] && Ordered(run) && ip != "" && (ip, b) in Run(c, run)
    requires (ip, b) !in Alive(Run(c, run[..|run| - 1]), run[|run| - 1].at)
    ensures OpensBucket(c, run, |run| - 1, ip, b)
    ensures Run(c, run)[(ip, b)].expires == FirstExpiry(c, run[|run| - 1]) && Run(c, run)[(ip, b)].count == 1
  {
    var n := |run| - 1;
    var a := run[n];
    assert (ip, b) == (a.ip, Bucket(c, a.at)) && !a.incr.Refused?;
    BucketBounds(c, a.at, b);
    if n > 0 { assert run[n - 1].at <= run[n].at; }
    CountsFaithful(c, run[..n], ip, b);
    hide CountIn, Bucket;
  }

  /**
   On a clock that never goes back, an answered request passes exactly if fewer than `limit` of
   its client's requests were counted before it in its bucket.
   */
  lemma PassesFirst(c: Limits, run: seq<Attempt>, i: nat)
    requires c.window > 0 && Ordered(run) && i < |run|
    ensures Answer(c, run, i) ==
            if run[i].ip == "" then NoAddress
            else if !run[i].incr.Answered? then Failed
            else if CountIn(c, run[..i], run[i].ip, Bucket(c, run[i].at)) < c.limit then Passed
            else Exceeded
  {
    var a := run[i];
    if a.ip != "" {
      var b := Bucket(c, a.at);
      BucketBounds(c, a.at, b);
      if i > 0 { assert run[i - 1].at <= run[i].at; }
      CountsFaithful(c, run[..i], a.ip, b);
      hide CountIn, Bucket;
    }
  }

  // ---------------------------------------------------------------- how many get through

  /** How many of the requests that `which` picks were let through. */
  ghost function Tally(c: Limits, run: seq<Attempt>, which: Attempt -> bool): nat
    requires c.window > 0
  {
    if run == [] then 0
    else
      var n := |run| - 1;
      Tally(c, run[..n], which) + if which(run[n]) && Answer(c, run, n) == Passed then 1 else 0
  }

  lemma {:induction false} TallyMonotone(c: Limits, run: seq<Attempt>, p: Attempt -> bool, q: Attempt -> bool)
    requires c.window > 0 && forall a :: p(a) ==> q(a)
    ensures Tally(c, run, p) <= Tally(c, run, q)
  {
    if run != [] { TallyMonotone(c, run[..|run| - 1], p, q); }
  }

  lemma {:induction false} TallyUnion(c: Limits, run: seq<Attempt>, p: Attempt -> bool, q: Attempt -> bool, r: Attempt -> bool)
    requires c.window > 0 && forall a :: r(a) ==> p(a) || q(a)
    ensures Tally(c, run, r) <= Tally(c, run, p) + Tally(c, run, q)
  {
    if run != [] { TallyUnion(c, run[..|run| - 1], p, q, r); }
  }

  /** The requests of `ip` in `count` consecutive buckets from `first`. */
  ghost function InBuckets(c: Limits, ip: string, first: int, count: nat): Attempt -> bool
    requires c.window > 0
  {
    (a: Attempt) => a.ip == ip && first <= Bucket(c, a.at) < first + count
  }

  lemma {:induction false} OneBucket(c: Limits, run: seq<Attempt>, ip: string, b: int)
    requires c.window > 0 && Ordered(run)
    ensures var t, n := Tally(c, run, InBuckets(c, ip, b, 1)), CountIn(c, run, ip, b);
            t <= n && (t <= c.limit || t == 0)
  {
    if run != [] {
      var n := |run| - 1;
      OneBucket(c, run[..n], ip, b);
      PassesFirst(c, run, n);
    }
  }

  lemma {:induction false} ManyBuckets(c: Limits, run: seq<Attempt>, ip: string, first: int, count: nat)
    requires c.window > 0 && Ordered(run)
    ensures Tally(c, run, InBuckets(c, ip, first, count)) <= count * if c.limit > 0 then c.limit else 0
  {
    if count == 0 {
      NoBuckets(c, run, ip, first);
    } else {
      var limit := if c.limit > 0 then c.limit else 0;
      ManyBuckets(c, run, ip, first, count - 1);
      OneBucket(c, run, ip, first + count - 1);
      TallyUnion(c, run, InBuckets(c, ip, first, count - 1), InBuckets(c, ip, first + count - 1, 1),
                 InBuckets(c, ip, first, count));
      assert count * limit == (count - 1) * limit + limit;
    }
  }

  lemma {:induction false} NoBuckets(c: Limits, run: seq<Attempt>, ip: string, first: int)
    requires c.window > 0
    ensures Tally(c, run, InBuckets(c, ip, first, 0)) == 0
  {
    if run != [] { NoBuckets(c, run[..|run| - 1], ip, first); }
  }

  /** The requests of `ip` in the `windows` windows of time that start at `from`. */
  ghost function InTime(c: Limits, ip: string, from: nat, windows: nat): Attempt -> bool {
    (a: Attempt) => a.ip == ip && from <= a.at < from + windows * c.window * 1000
  }

  /** Any n windows of time, however placed, let through at most (n + 1) * limit requests of one client. */
  lemma IntervalBound(c: Limits, run: seq<Attempt>, ip: string, from: nat, windows: nat)
    requires c.window > 0 && Ordered(run)
    ensures Tally(c, run, InTime(c, ip, from, windows)) <= (windows + 1) * if c.limit > 0 then c.limit else 0
  {
    var first := Bucket(c, from);
    forall a: Attempt ensures InTime(c, ip, from, windows)(a) ==> InBuckets(c, ip, first, windows + 1)(a) {
      if InTime(c, ip, from, windows)(a) { TimeToBuckets(c, from, windows, a.at); }
    }
    TallyMonotone(c, run, InTime(c, ip, from, windows), InBuckets(c, ip, first, windows + 1));
    ManyBuckets(c, run, ip, first, windows + 1);
  }

  lemma TimeToBuckets(c: Limits, from: nat, windows: nat, at: nat)
    requires c.window > 0 && from <= at < from + windows * c.window * 1000
    ensures Bucket(c, from) <= Bucket(c, at) < Bucket(c, from) + windows + 1
  {
    var b, d := Bucket(c, from), Bucket(c, at);
    BucketBounds(c, from, b);
    BucketBounds(c, at, d);
    hide Bucket;
    var w := c.window;
    assert (b + 1) * w + windows * w == (b + windows + 1) * w;
    if d < b { Scale(d + 1, b, w); }
    if d >= b + windows + 1 { Scale(b + windows + 1, d, w); }
  }

  // ---------------------------------------------------------------- the bound is reached

  function Repeated(a: Attempt, times: nat): (r: seq<Attempt>)
    ensures |r| == times && forall i :: 0 <= i < times ==> r[i] == a
  {
    if times == 0 then [] else Repeated(a, times - 1) + [a]
  }

  lemma {:induction false} CountRepeated(c: Limits, before: seq<Attempt>, a: Attempt, times: nat, ip: string, b: int)
    requires c.window > 0
    ensures CountIn(c, before + Repeated(a, times), ip, b) ==
            CountIn(c, before, ip, b) + if Counted(c, a, ip, b) then times else 0
  {
    if times == 0 {
      assert before + Repeated(a, 0) == before;
    } else {
      CountRepeated(c, before, a, times - 1, ip, b);
      CountSnoc(c, before + Repeated(a, times - 1), a, ip, b);
      assert before + Repeated(a, times) == before + Repeated(a, times - 1) + [a];
    }
  }

  /** As long as the bucket has room, every further request of it passes. */
  lemma {:induction false} RepeatedPass(c: Limits, before: seq<Attempt>, a: Attempt, times: nat, which: Attempt -> bool)
    requires c.window > 0 && a.ip != "" && a.incr.Answered? && which(a)
    requires Ordered(before + Repeated(a, times))
    requires CountIn(c, before, a.ip, Bucket(c, a.at)) + times <= c.limit
    ensures Tally(c, before + Repeated(a, times), which) == Tally(c, before, which) + times
  {
    hide Bucket, CountIn, Answer, Ordered, Tally;
    if times == 0 {
      assert before + Repeated(a, 0) == before;
    } else {
      var run := before + Repeated(a, times);
      var n := |run| - 1;
      assert run[..n] == before + Repeated(a, times - 1) && run[n] == a;
      OrderedPrefix(run);
      RepeatedPass(c, before, a, times - 1, which);
      CountRepeated(c, before, a, times - 1, a.ip, Bucket(c, a.at));
      PassesFirst(c, run, n);
      TallySnoc(c, run, which);
    }
  }

  lemma OrderedPrefix(run: seq<Attempt>)
    requires Ordered(run) && run != []
    ensures Ordered(run[..|run| - 1])
  {
  }

  lemma TallySnoc(c: Limits, run: seq<Attempt>, which: Attempt -> bool)
    requires c.window > 0 && run != []
    ensures var n := |run| - 1;
            Tally(c, run, which) == Tally(c, run[..n], which) + if which(run[n]) && Answer(c, run, n) == Passed then 1 else 0
  {
  }

  /** `limit` requests at each of these times. */
  function Waves(c: Limits, ip: string, times: seq<nat>): (run: seq<Attempt>)
    requires c.limit > 0
    ensures forall a :: a in run ==> a.ip == ip && a.at in times
  {
    if times == [] then []
    else Waves(c, ip, times[..|times| - 1]) + Repeated(Attempt(ip, times[|times| - 1], Answered(Some(0))), c.limit)
  }

  /** Times in later and later buckets. */
  predicate Climbing(c: Limits, times: seq<nat>)
    requires c.window > 0
  {
    forall i, j :: 0 <= i < j < |times| ==> Bucket(c, times[i]) < Bucket(c, times[j])
  }

  lemma LaterBucket(c: Limits, x: nat, y: nat)
    requires c.window > 0 && Bucket(c, x) < Bucket(c, y)
    ensures x < y
  {
    var w := c.window * 1000;
    BucketBounds(c, x, Bucket(c, x));
    BucketBounds(c, y, Bucket(c, y));
    hide Bucket;
    Scale(Bucket(c, x) + 1, Bucket(c, y), w);
  }

  lemma {:induction false} NoneCounted(c: Limits, run: seq<Attempt>, ip: string, b: int)
    requires c.window > 0 && forall a :: a in run ==> !Counted(c, a, ip, b)
    ensures CountIn(c, run, ip, b) == 0
  {
    if run != [] { NoneCounted(c, run[..|run| - 1], ip, b); }
  }

  /** Before the last wave, everything was earlier and in other buckets. */
  lemma WaveBefore(c: Limits, ip: string, times: seq<nat>)
    requires c.window > 0 && c.limit > 0 && times != [] && Climbing(c, times)
    ensures var n := |times| - 1;
            forall a :: a in Waves(c, ip, times[..n]) ==> a.at < times[n] && Bucket(c, a.at) != Bucket(c, times[n])
  {
    hide Bucket, Waves;
    var n := |times| - 1;
    forall a | a in Waves(c, ip, times[..n]) ensures a.at < times[n] && Bucket(c, a.at) != Bucket(c, times[n]) {
      var i :| 0 <= i < n && times[i] == a.at;
      LaterBucket(c, times[i], times[n]);
    }
  }

  lemma OrderedAppend(run: seq<Attempt>, later: seq<Attempt>, at: nat)
    requires Ordered(run) && (forall a :: a in run ==> a.at < at) && (forall a :: a in later ==> a.at == at)
    ensures Ordered(run + later)
  {
    forall i, j | 0 <= i <= j < |run + later| ensures (run + later)[i].at <= (run + later)[j].at {
      if i < |run| <= j { assert run[i] in run && later[j - |run|] in later; }
      if |run| <= i { assert later[i - |run|] in later && later[j - |run|] in later; }
    }
  }

  lemma LastWave(c: Limits, ip: string, times: seq<nat>)
    requires c.limit > 0 && times != []
    ensures var n := |times| - 1;
            Waves(c, ip, times) == Waves(c, ip, times[..n]) + Repeated(Attempt(ip, times[n], Answered(Some(0))), c.limit)
  {
  }

  /** One more wave, in a bucket of its own, adds `limit` passes. */
  lemma WaveStep(c: Limits, ip: string, times: seq<nat>, which: Attempt -> bool)
    requires c.window > 0 && c.limit > 0 && ip != "" && Climbing(c, times) && times != []
    requires which(Attempt(ip, times[|times| - 1], Answered(Some(0))))
    requires Ordered(Waves(c, ip, times[..|times| - 1]))
    ensures Ordered(Waves(c, ip, times))
    ensures Tally(c, Waves(c, ip, times), which) == Tally(c, Waves(c, ip, times[..|times| - 1]), which) + c.limit
  {
    var n := |times| - 1;
    var before, a := Waves(c, ip, times[..n]), Attempt(ip, times[n], Answered(Some(0)));
    WaveBefore(c, ip, times);
    hide Bucket, CountIn, Answer, Repeated, Waves, Tally, Ordered, Climbing;
    NoneCounted(c, before, ip, Bucket(c, a.at));
    OrderedAppend(before, Repeated(a, c.limit), times[n]);
    LastWave(c, ip, times);
    RepeatedPass(c, before, a, c.limit, which);
  }

  /** Waves in different buckets all get through. */
  lemma {:induction false} WavesPass(c: Limits, ip: string, times: seq<nat>, which: Attempt -> bool)
    requires c.window > 0 && c.limit > 0 && ip != "" && Climbing(c, times)
    requires forall k :: 0 <= k < |times| ==> which(Attempt(ip, times[k], Answered(Some(0))))
    ensures Ordered(Waves(c, ip, times)) && Tally(c, Waves(c, ip, times), which) == |times| * c.limit
  {
    if times != [] {
      hide *;
      ClimbingPrefix(c, times);
      WavesPass(c, ip, times[..|times| - 1], which);
      WaveStep(c, ip, times, which);
      OneMore(|times|, c.limit);
    }
  }

  lemma ClimbingPrefix(c: Limits, times: seq<nat>)
    requires c.window > 0 && times != [] && Climbing(c, times)
    ensures Climbing(c, times[..|times| - 1])
  {
    hide Bucket;
  }

  lemma OneMore(a: int, b: int)
    ensures a * b == (a - 1) * b + b
  {
  }

  // ---------------------------------------------------------------- exactly how many an interval lets through

  /** The interval starts where a bucket does. */
  predicate Aligned(c: Limits, from: nat)
    requires c.window > 0
  {
    from % (c.window * 1000) == 0
  }

  /** The most that n windows of time can let through. */
  function Most(c: Limits, from: nat, windows: nat): int
    requires c.window > 0
  {
    (if Aligned(c, from) then windows else windows + 1) * c.limit
  }

  lemma AlignedBucket(c: Limits, from: nat)
    requires c.window > 0
    ensures Aligned(c, from) <==> from == Bucket(c, from) * c.window * 1000
  {
    var w, b := c.window * 1000, Bucket(c, from);
    BucketBounds(c, from, b);
    hide Bucket;
    assert b * w == b * c.window * 1000 && (b + 1) * w == b * w + w;
    Remainder(from, w, b);
  }

  lemma Remainder(x: nat, w: nat, b: int)
    requires w > 0 && b * w <= x < b * w + w
    ensures x % w == x - b * w
  {
    var q := x / w;
    assert q * w <= x < q * w + w;
    assert (q + 1) * w == q * w + w && (b + 1) * w == b * w + w;
    if q < b { Scale(q + 1, b, w); }
    if b < q { Scale(b + 1, q, w); }
  }

  /** An interval that starts with a bucket lets through no more than `limit` for each of its windows. */
  lemma AlignedBound(c: Limits, run: seq<Attempt>, ip: string, from: nat, windows: nat)
    requires c.window > 0 && c.limit > 0 && Ordered(run) && Aligned(c, from)
    ensures Tally(c, run, InTime(c, ip, from, windows)) <= windows * c.limit
  {
    var first := Bucket(c, from);
    AlignedBucket(c, from);
    forall a: Attempt ensures InTime(c, ip, from, windows)(a) ==> InBuckets(c, ip, first, windows)(a) {
      if InTime(c, ip, from, windows)(a) { AlignedTime(c, first, windows, a.at); }
    }
    TallyMonotone(c, run, InTime(c, ip, from, windows), InBuckets(c, ip, first, windows));
    ManyBuckets(c, run, ip, first, windows);
  }

  lemma AlignedTime(c: Limits, first: int, windows: nat, at: nat)
    requires c.window > 0
    requires first * c.window * 1000 <= at < first * c.window * 1000 + windows * c.window * 1000
    ensures first <= Bucket(c, at) < first + windows
  {
    var w, d := c.window, Bucket(c, at);
    BucketBounds(c, at, d);
    hide Bucket;
    assert first * w + windows * w == (first + windows) * w;
    if d < first { Scale(d + 1, first, w); }
    if d >= first + windows { Scale(first + windows, d, w); }
  }

  function BucketStart(c: Limits, b: int): nat
    requires c.window > 0
  {
    if b <= 0 then 0 else b * c.window * 1000
  }

  /** One time in each bucket the interval meets: its start, then the starts of the later buckets. */
  function Time(c: Limits, from: nat, k: nat): nat
    requires c.window > 0
  {
    if k == 0 then from else BucketStart(c, Bucket(c, from) + k)
  }

  function Times(c: Limits, from: nat, count: nat): (times: seq<nat>)
    requires c.window > 0
    ensures |times| == count && forall k :: 0 <= k < count ==> times[k] == Time(c, from, k)
  {
    seq(count, k requires 0 <= k < count => Time(c, from, k))
  }

  lemma StartInBucket(c: Limits, b: nat)
    requires c.window > 0
    ensures Bucket(c, BucketStart(c, b)) == b && BucketStart(c, b) == b * c.window * 1000
  {
    Scale(0, b, c.window);
    assert (b + 1) * c.window == b * c.window + c.window;
    BucketBounds(c, b * c.window * 1000, b);
  }

  lemma BucketNonnegative(c: Limits, at: nat)
    requires c.window > 0
    ensures Bucket(c, at) >= 0
  {
  }

  lemma TimeBucket(c: Limits, from: nat, k: nat)
    requires c.window > 0
    ensures Bucket(c, Time(c, from, k)) == Bucket(c, from) + k
  {
    hide Bucket, BucketStart;
    BucketNonnegative(c, from);
    if k > 0 { StartInBucket(c, Bucket(c, from) + k); }
  }

  lemma TimesClimb(c: Limits, from: nat, count: nat)
    requires c.window > 0
    ensures Climbing(c, Times(c, from, count))
  {
    hide Bucket, Times;
    forall i, j | 0 <= i < j < count ensures Bucket(c, Times(c, from, count)[i]) < Bucket(c, Times(c, from, count)[j]) {
      TimeBucket(c, from, i);
      TimeBucket(c, from, j);
    }
  }

  /** All but the last of n + 1 such times lie in n windows; the last too unless the interval is aligned. */
  lemma TimeInside(c: Limits, from: nat, windows: nat, k: nat)
    requires c.window > 0 && windows > 0 && k <= windows && (k == windows ==> !Aligned(c, from))
    ensures from <= Time(c, from, k) < from + windows * c.window * 1000
  {
    var w, b := c.window, Bucket(c, from);
    BucketNonnegative(c, from);
    BucketBounds(c, from, b);
    AlignedBucket(c, from);
    StartInBucket(c, b + k);
    hide Bucket, BucketStart, Aligned;
    assert (b + k) * w == b * w + k * w && (b + 1) * w == b * w + w;
    Scale(k, windows, w);
    if k < windows { Scale(k + 1, windows, w); assert (k + 1) * w == k * w + w; }
    if k == 0 { Scale(1, windows, w); } else { Scale(1, k, w); }
  }

  /** The bound of an interval is reached, however it lies. */
  lemma MostReached(c: Limits, ip: string, from: nat, windows: nat) returns (run: seq<Attempt>)
    requires c.window > 0 && c.limit > 0 && ip != "" && windows > 0
    ensures Ordered(run) && Tally(c, run, InTime(c, ip, from, windows)) == Most(c, from, windows)
  {
    hide Bucket, Time, Times, Aligned, Climbing, Waves, Tally, Ordered;
    var count := if Aligned(c, from) then windows else windows + 1;
    var times := Times(c, from, count);
    TimesClimb(c, from, count);
    forall k: nat | k < count ensures from <= times[k] < from + windows * c.window * 1000 {
      TimeInside(c, from, windows, k);
    }
    run := Waves(c, ip, times);
    WavesPass(c, ip, times, InTime(c, ip, from, windows));
  }

  lemma MostBound(c: Limits, run: seq<Attempt>, ip: string, from: nat, windows: nat)
    requires c.window > 0 && c.limit > 0 && Ordered(run)
    ensures Tally(c, run, InTime(c, ip, from, windows)) <= Most(c, from, windows)
  {
    if Aligned(c, from) {
      AlignedBound(c, run, ip, from, windows);
    } else {
      IntervalBound(c, run, ip, from, windows);
    }
  }

  /**
   `limit` requests per window hold of an interval exactly when it starts where a bucket does;
   every other interval of n windows can let through n + 1 times the limit, and no more.
   */
  lemma LimitHoldsExactly(c: Limits, ip: string, from: nat, windows: nat)
    requires c.window > 0 && c.limit > 0 && ip != "" && windows > 0
    ensures (forall run :: Ordered(run) ==> Tally(c, run, InTime(c, ip, from, windows)) <= windows * c.limit)
            <==> from % (c.window * 1000) == 0
    ensures forall run :: Ordered(run) ==> Tally(c, run, InTime(c, ip, from, windows)) <= Most(c, from, windows)
    ensures exists run :: Ordered(run) && Tally(c, run, InTime(c, ip, from, windows)) == Most(c, from, windows)
  {
    hide Tally, Ordered;
    forall run | Ordered(run) ensures Tally(c, run, InTime(c, ip, from, windows)) <= Most(c, from, windows) {
      MostBound(c, run, ip, from, windows);
    }
    var run := MostReached(c, ip, from, windows);
    assert (windows + 1) * c.limit == windows * c.limit + c.limit;
  }

  /** A burst around the end of a bucket gets twice the limit through within two milliseconds. */
  lemma BurstReachesBound(c: Limits, ip: string, edge: nat)
    requires c.window > 0 && c.limit > 0 && ip != "" && edge > 0 && Aligned(c, edge)
    ensures var run := Waves(c, ip, [edge - 1, edge]);
            Ordered(run) && Tally(c, run, (a: Attempt) => edge - 1 <= a.at <= edge) == 2 * c.limit
  {
    var times: seq<nat> := [edge - 1, edge];
    BucketsMeet(c, edge);
    assert Climbing(c, times);
    hide *;
    WavesPass(c, ip, times, (a: Attempt) => edge - 1 <= a.at <= edge);
  }

  lemma BucketsMeet(c: Limits, edge: nat)
    requires c.window > 0 && edge > 0 && Aligned(c, edge)
    ensures Bucket(c, edge - 1) < Bucket(c, edge)
  {
    AlignedBucket(c, edge);
    BucketBounds(c, edge - 1, Bucket(c, edge - 1));
    hide Bucket;
    if Bucket(c, edge) <= Bucket(c, edge - 1) { Scale(Bucket(c, edge), Bucket(c, edge - 1), c.window); }
  }
}
