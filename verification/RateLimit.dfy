/** The token bucket per key, over real arithmetic. */
module RateLimit {
  import opened Common
  import opened Rows

  datatype Options = Options(capacity: real, refillPerSec: real)

  datatype Bucket = Bucket(tokens: real, updatedAt: real)

  predicate Sound(o: Options) {
    o.capacity >= 1.0 && o.refillPerSec >= 0.0
  }

  function Min(a: real, b: real): real {
    if a <= b then a else b
  }

  /** The tokens that flow in over a span of milliseconds. */
  function Refill(o: Options, span: real): real {
    span / 1000.0 * o.refillPerSec
  }

  /** The bucket a call finds: full when the key is new, topped up only when the clock has advanced. */
  function Found(o: Options, bucket: Option<Bucket>, now: real): Bucket {
    match bucket
    case None => Bucket(o.capacity, now)
    case Some(b) =>
      if now > b.updatedAt then Bucket(Min(o.capacity, b.tokens + Refill(o, now - b.updatedAt)), now) else b
  }

  function Taken(o: Options, bucket: Option<Bucket>, now: real): (Bucket, bool) {
    var b := Found(o, bucket, now);
    if b.tokens < 1.0 then (b, false) else (b.(tokens := b.tokens - 1.0), true)
  }

  // ------------------------------------------------------------ one key's history

  function BucketAfter(o: Options, calls: seq<real>): Option<Bucket> {
    if calls == [] then None
    else Some(Taken(o, BucketAfter(o, calls[..|calls| - 1]), calls[|calls| - 1]).0)
  }

  predicate Granted(o: Options, calls: seq<real>, k: nat)
    requires k < |calls|
  {
    Taken(o, BucketAfter(o, calls[..k]), calls[k]).1
  }

  /** The latest time any of the first k + 1 calls has shown. */
  function Clock(calls: seq<real>, k: nat): real
    requires k < |calls|
  {
    if k == 0 || calls[k] > Clock(calls, k - 1) then calls[k] else Clock(calls, k - 1)
  }

  /** Grants among the calls from i up to but not including j. */
  function Grants(o: Options, calls: seq<real>, i: nat, j: nat): nat
    requires i <= j <= |calls|
  {
    if i == j then 0 else Grants(o, calls, i, j - 1) + if Granted(o, calls, j - 1) then 1 else 0
  }

  /** What would be left at the last call had the bucket been full at call i. */
  function Left(o: Options, calls: seq<real>, i: nat, j: nat): real
    requires i < j <= |calls|
  {
    o.capacity + Refill(o, Clock(calls, j - 1) - Clock(calls, i)) - Grants(o, calls, i, j) as real
  }

  lemma {:induction false} PrefixCalls(o: Options, calls: seq<real>, n: nat, k: nat)
    requires k < n <= |calls|
    ensures Clock(calls[..n], k) == Clock(calls, k)
    ensures Granted(o, calls[..n], k) == Granted(o, calls, k)
  {
    assert calls[..n][..k] == calls[..k];
    if k > 0 {
      PrefixCalls(o, calls, n, k - 1);
    }
  }

  lemma {:induction false} PrefixGrants(o: Options, calls: seq<real>, n: nat, i: nat, j: nat)
    requires i <= j <= n <= |calls|
    ensures Grants(o, calls[..n], i, j) == Grants(o, calls, i, j)
  {
    if i < j {
      PrefixGrants(o, calls, n, i, j - 1);
      PrefixCalls(o, calls, n, j - 1);
    }
  }

  lemma RefillAdds(o: Options, a: real, b: real, c: real)
    requires Sound(o)
    ensures Refill(o, b - a) + Refill(o, c - b) == Refill(o, c - a)
    ensures Refill(o, 0.0) == 0.0
    ensures a <= b ==> Refill(o, b - a) >= 0.0
  {
  }

  lemma {:induction false} ClockRises(calls: seq<real>, i: nat, j: nat)
    requires i <= j < |calls|
    ensures Clock(calls, i) <= Clock(calls, j) && calls[i] <= Clock(calls, j)
  {
    if i < j {
      ClockRises(calls, i, j - 1);
    }
  }

  /** The bucket's clock is the running maximum, and it is never overdrawn. */
  lemma {:induction false} BucketClock(o: Options, calls: seq<real>)
    requires Sound(o) && calls != []
    ensures BucketAfter(o, calls).Some?
    ensures BucketAfter(o, calls).value.updatedAt == Clock(calls, |calls| - 1)
    ensures 0.0 <= BucketAfter(o, calls).value.tokens <= o.capacity
  {
    var n := |calls| - 1;
    if n > 0 {
      var init := calls[..n];
      BucketClock(o, init);
      PrefixCalls(o, calls, n, n - 1);
      ClockRises(calls, n - 1, n);
      RefillAdds(o, Clock(calls, n - 1), calls[n], calls[n]);
    }
  }

  /**
   * Before its own token is taken, the last call finds the minimum, over every earlier call, of what a full bucket
   * there would leave.
   */
  lemma {:induction false} TokensAreExact(o: Options, calls: seq<real>)
    requires Sound(o) && calls != []
    ensures BucketAfter(o, calls).Some?
    ensures forall i :: 0 <= i < |calls| ==> BucketAfter(o, calls).value.tokens <= Left(o, calls, i, |calls|)
    ensures exists i :: 0 <= i < |calls| && BucketAfter(o, calls).value.tokens == Left(o, calls, i, |calls|)
  {
    var n := |calls| - 1;
    BucketClock(o, calls);
    if n == 0 {
      assert calls[..0] == [];
      assert Grants(o, calls, 0, 0) == 0;
      assert BucketAfter(o, calls).value.tokens == Left(o, calls, 0, 1);
    } else {
      var init := calls[..n];
      TokensAreExact(o, init);
      BucketClock(o, init);
      forall i | 0 <= i < n
        ensures BucketAfter(o, calls).value.tokens <= Left(o, calls, i, |calls|)
      {
        LeftStep(o, calls, i);
      }
      SelfLeft(o, calls);
      if Found(o, BucketAfter(o, init), calls[n]).tokens == o.capacity {
        assert BucketAfter(o, calls).value.tokens == Left(o, calls, n, |calls|);
      } else {
        var i :| 0 <= i < n && BucketAfter(o, init).value.tokens == Left(o, init, i, n);
        LeftStep(o, calls, i);
        assert BucketAfter(o, calls).value.tokens == Left(o, calls, i, |calls|);
      }
    }
  }

  lemma LeftStep(o: Options, calls: seq<real>, i: nat)
    requires Sound(o) && i < |calls| - 1
    ensures var n := |calls| - 1;
      Left(o, calls, i, |calls|)
        == Left(o, calls[..n], i, n) + Refill(o, Clock(calls, n) - Clock(calls, n - 1))
           - if Granted(o, calls, n) then 1.0 else 0.0
    ensures var n := |calls| - 1; Clock(calls[..n], n - 1) == Clock(calls, n - 1) <= Clock(calls, n)
  {
    hide Refill, Granted, Sound;
    var n := |calls| - 1;
    PrefixCalls(o, calls, n, n - 1);
    PrefixCalls(o, calls, n, i);
    PrefixGrants(o, calls, n, i, n);
    RefillAdds(o, Clock(calls, i), Clock(calls, n - 1), Clock(calls, n));
  }

  lemma SelfLeft(o: Options, calls: seq<real>)
    requires Sound(o) && calls != []
    ensures var n := |calls| - 1;
      Left(o, calls, n, |calls|) == o.capacity - if Granted(o, calls, n) then 1.0 else 0.0
  {
    var n := |calls| - 1;
    assert Grants(o, calls, n, n) == 0;
    RefillAdds(o, 0.0, 0.0, 0.0);
  }

  /** What a bucket that was full at call i still holds when the last call arrives. */
  function Offered(o: Options, calls: seq<real>, i: nat): real
    requires i < |calls|
  {
    var n := |calls| - 1;
    o.capacity + Refill(o, Clock(calls, n) - Clock(calls, i)) - Grants(o, calls, i, n) as real
  }

  lemma OfferedIsLeft(o: Options, calls: seq<real>, i: nat)
    requires i < |calls|
    ensures var n := |calls| - 1;
      Left(o, calls, i, |calls|) == Offered(o, calls, i) - if Granted(o, calls, n) then 1.0 else 0.0
  {
    hide Refill, Granted, Clock;
  }

  lemma LastCall(o: Options, calls: seq<real>)
    requires Sound(o) && calls != []
    ensures var n := |calls| - 1;
      var found := Found(o, BucketAfter(o, calls[..n]), calls[n]).tokens;
      && BucketAfter(o, calls).Some?
      && BucketAfter(o, calls).value.tokens == found - (if Granted(o, calls, n) then 1.0 else 0.0)
      && (Granted(o, calls, n) <==> found >= 1.0)
  {
    hide Refill;
  }

  /** A call is granted exactly when every earlier full bucket would still hold a token for it. */
  lemma GrantIsExact(o: Options, calls: seq<real>)
    requires Sound(o) && calls != []
    ensures Granted(o, calls, |calls| - 1) <==>
      forall i :: 0 <= i < |calls| ==> Offered(o, calls, i) >= 1.0
  {
    hide *;
    TokensAreExact(o, calls);
    LastCall(o, calls);
    forall i | 0 <= i < |calls|
      ensures Left(o, calls, i, |calls|)
        == Offered(o, calls, i) - if Granted(o, calls, |calls| - 1) then 1.0 else 0.0
    {
      OfferedIsLeft(o, calls, i);
    }
  }

  /** Over any stretch of calls, the grants are at most the capacity plus the refill of the time the stretch spans. */
  lemma WindowBound(o: Options, calls: seq<real>, i: nat, j: nat)
    requires Sound(o) && i < j <= |calls|
    ensures Grants(o, calls, i, j) as real <= o.capacity + Refill(o, Clock(calls, j - 1) - Clock(calls, i))
  {
    hide Refill, Granted, Clock, BucketAfter, Grants, Sound;
    TokensAreExact(o, calls[..j]);
    BucketClock(o, calls[..j]);
    PrefixGrants(o, calls, j, i, j);
    PrefixCalls(o, calls, j, i);
    PrefixCalls(o, calls, j, j - 1);
    assert Left(o, calls[..j], i, |calls[..j]|) >= 0.0;
  }

  // ------------------------------------------------------------ many keys

  datatype Call = Call(key: string, now: real)

  function TimesOf(history: seq<Call>, key: string): seq<real> {
    if history == [] then []
    else
      var last := history[|history| - 1];
      TimesOf(history[..|history| - 1], key) + if last.key == key then [last.now] else []
  }

  function BucketsAfter(o: Options, history: seq<Call>): map<string, Bucket> {
    if history == [] then map[]
    else
      var before, last := BucketsAfter(o, history[..|history| - 1]), history[|history| - 1];
      before[last.key := Taken(o, if last.key in before then Some(before[last.key]) else None, last.now).0]
  }

  /** A key's bucket is the fold of its own calls: other keys never touch it. */
  lemma {:induction false} KeysAreIndependent(o: Options, history: seq<Call>, key: string)
    ensures BucketAfter(o, TimesOf(history, key))
      == if key in BucketsAfter(o, history) then Some(BucketsAfter(o, history)[key]) else None
  {
    if history != [] {
      var init, last := history[..|history| - 1], history[|history| - 1];
      KeysAreIndependent(o, init, key);
      var times := TimesOf(init, key);
      if last.key == key {
        assert (times + [last.now])[..|times|] == times;
      } else {
        assert times + [] == times;
      }
    }
  }

  class RateLimiter {
    const opts: Options
    var buckets: map<string, Bucket>

    constructor (o: Options)
      requires Sound(o)
      ensures opts == o && buckets == map[]
    {
      opts, buckets := o, map[];
    }

    /** A capacity below one or a negative refill is refused. */
    static method Create(o: Options) returns (r: Option<RateLimiter>)
      ensures r.Some? <==> Sound(o)
      ensures r.Some? ==> fresh(r.value) && r.value.opts == o && r.value.buckets == map[]
    {
      if o.capacity < 1.0 || o.refillPerSec < 0.0 {
        return None;
      }
      var limiter := new RateLimiter(o);
      r := Some(limiter);
    }

    method Take(key: string, now: real, ghost history: seq<Call>) returns (granted: bool)
      requires buckets == BucketsAfter(opts, history)
      modifies this`buckets
      ensures buckets == BucketsAfter(opts, history + [Call(key, now)])
      ensures var times := TimesOf(history + [Call(key, now)], key);
        times != [] && granted == Granted(opts, times, |times| - 1)
    {
      ghost var after := history + [Call(key, now)];
      assert after[..|history|] == history;
      ghost var times := TimesOf(history, key);
      assert TimesOf(after, key) == times + [now] && (times + [now])[..|times|] == times;
      KeysAreIndependent(opts, history, key);
      var bucket;
      if key !in buckets {
        bucket := Bucket(opts.capacity, now);
      } else {
        bucket := buckets[key];
        if now > bucket.updatedAt {
          var refill := (now - bucket.updatedAt) / 1000.0 * opts.refillPerSec;
          assert refill == Refill(opts, now - bucket.updatedAt);
          bucket := Bucket(Min(opts.capacity, bucket.tokens + refill), now);
        }
      }
      granted := bucket.tokens >= 1.0;
      if granted {
        bucket := bucket.(tokens := bucket.tokens - 1.0);
      }
      assert (bucket, granted) == Taken(opts, if key in buckets then Some(buckets[key]) else None, now);
      buckets := buckets[key := bucket];
    }
  }
}
