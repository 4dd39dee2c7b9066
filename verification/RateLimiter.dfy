/** The token bucket that limits requests per client address. */
module RateLimiter {

  datatype Limits = Limits(rate: real, burst: real)

  datatype Level = Level(tokens: real, last: real)

  datatype Request = Request(key: string, at: real)

  function Min(a: real, b: real): real {
    if a <= b then a else b
  }

  /** What the rate brings between two instants. */
  function Earned(l: Limits, from: real, to: real): real {
    l.rate * (to - from)
  }

  function Refill(l: Limits, b: Level, now: real): real {
    Min(l.burst, b.tokens + Earned(l, b.last, now))
  }

  /** One call: what it leaves in the buckets, and whether it lets the request pass. */
  function Step(l: Limits, buckets: map<string, Level>, r: Request): (map<string, Level>, bool) {
    if r.key !in buckets then (buckets[r.key := Level(l.burst - 1.0, r.at)], true)
    else
      var t := TakeOne(l, buckets[r.key], r.at);
      (buckets[r.key := t.0], t.1)
  }

  function TakeOne(l: Limits, b: Level, now: real): (Level, bool) {
    var tokens := Refill(l, b, now);
    if tokens >= 1.0 then (Level(tokens - 1.0, now), true) else (Level(tokens, now), false)
  }

  /** The buckets after the first `n` requests. */
  function After(l: Limits, reqs: seq<Request>, n: nat): map<string, Level>
    requires n <= |reqs|
  {
    if n == 0 then map[] else Step(l, After(l, reqs, n - 1), reqs[n - 1]).0
  }

  /** Whether the request numbered `n` passes. */
  predicate Passes(l: Limits, reqs: seq<Request>, n: nat)
    requires n < |reqs|
  {
    Step(l, After(l, reqs, n), reqs[n]).1
  }

  /** How many requests of `key` pass, of those numbered from `i` up to `n`. */
  function Passed(l: Limits, reqs: seq<Request>, key: string, i: nat, n: nat): nat
    requires i <= n <= |reqs|
    decreases n - i
  {
    if i == n then 0
    else Passed(l, reqs, key, i, n - 1) + if reqs[n - 1].key == key && Passes(l, reqs, n - 1) then 1 else 0
  }

  /** The clock never goes back. */
  ghost predicate Ordered(reqs: seq<Request>) {
    forall i, j :: 0 <= i < j < |reqs| ==> reqs[i].at <= reqs[j].at
  }

  ghost predicate Sound(l: Limits) {
    l.rate >= 0.0 && l.burst >= 1.0
  }

  /** What a client could spend at `now`; an address never seen has a full bucket. */
  function Available(l: Limits, buckets: map<string, Level>, key: string, now: real): real {
    if key in buckets then Refill(l, buckets[key], now) else l.burst
  }

  lemma Grows(l: Limits, a: real, b: real, c: real)
    requires l.rate >= 0.0 && a <= b <= c
    ensures Earned(l, a, c) == Earned(l, a, b) + Earned(l, b, c)
    ensures Earned(l, a, b) >= 0.0 && Earned(l, b, c) >= 0.0
  {
  }

  lemma {:induction false} TokensStayInRange(l: Limits, reqs: seq<Request>, key: string, n: nat)
    requires Sound(l) && Ordered(reqs) && n <= |reqs| && key in After(l, reqs, n)
    ensures n > 0 && 0.0 <= After(l, reqs, n)[key].tokens <= l.burst && After(l, reqs, n)[key].last <= reqs[n - 1].at
  {
    hide Earned;
    var r, before := reqs[n - 1], After(l, reqs, n - 1);
    if key in before {
      TokensStayInRange(l, reqs, key, n - 1);
      Grows(l, before[key].last, r.at, r.at);
    }
  }

  /** One request of `key` itself: what it spends and what is left come out of what was there. */
  lemma OwnStep(l: Limits, buckets: map<string, Level>, r: Request, now: real)
    requires Sound(l) && r.at <= now
    ensures
      var s := Step(l, buckets, r);
      (if s.1 then 1.0 else 0.0) + Available(l, s.0, r.key, now)
        <= Available(l, buckets, r.key, r.at) + Earned(l, r.at, now)
  {
    Grows(l, r.at, r.at, now);
    hide Earned;
  }

  /** What has passed since request `i` and what is still available never exceed the burst and what the time brought. */
  lemma {:induction false} SpendingIsBounded(l: Limits, reqs: seq<Request>, key: string, i: nat, n: nat, now: real)
    requires Sound(l) && Ordered(reqs) && i <= n <= |reqs| && i < |reqs|
    requires reqs[i].at <= now && (n > 0 ==> reqs[n - 1].at <= now)
    ensures Passed(l, reqs, key, i, n) as real + Available(l, After(l, reqs, n), key, now)
              <= l.burst + Earned(l, reqs[i].at, now)
    decreases n - i
  {
    hide Earned;
    if i == n {
      Grows(l, reqs[i].at, now, now);
    } else {
      var r := reqs[n - 1];
      if r.key == key {
        SpendingIsBounded(l, reqs, key, i, n - 1, r.at);
        Grows(l, reqs[i].at, r.at, now);
        OwnStep(l, After(l, reqs, n - 1), r, now);
        hide Available, Step;
      } else {
        SpendingIsBounded(l, reqs, key, i, n - 1, now);
      }
    }
  }

  /** The bucket holds what is left since a request that found it full. */
  ghost predicate FullAt(l: Limits, reqs: seq<Request>, key: string, i: nat, n: nat, b: Level)
    requires i < n <= |reqs|
  {
    && reqs[i].key == key && reqs[i].at <= b.last <= reqs[n - 1].at
    && b.tokens == l.burst + Earned(l, reqs[i].at, b.last) - Passed(l, reqs, key, i, n) as real
  }

  lemma FullNow(l: Limits, reqs: seq<Request>, n: nat)
    requires 0 < n <= |reqs|
    requires Available(l, After(l, reqs, n - 1), reqs[n - 1].key, reqs[n - 1].at) == l.burst && Sound(l)
    ensures FullAt(l, reqs, reqs[n - 1].key, n - 1, n, After(l, reqs, n)[reqs[n - 1].key])
  {
    var r := reqs[n - 1];
    Grows(l, r.at, r.at, r.at);
    hide Earned;
    assert Passed(l, reqs, r.key, n - 1, n - 1) == 0;
    assert Passed(l, reqs, r.key, n - 1, n) == if Passes(l, reqs, n - 1) then 1 else 0;
  }

  lemma NotFullNow(l: Limits, reqs: seq<Request>, i: nat, n: nat)
    requires Sound(l) && Ordered(reqs) && i < n - 1 < |reqs|
    requires
      var r, before := reqs[n - 1], After(l, reqs, n - 1);
      r.key in before && Refill(l, before[r.key], r.at) != l.burst && FullAt(l, reqs, r.key, i, n - 1, before[r.key])
    ensures FullAt(l, reqs, reqs[n - 1].key, i, n, After(l, reqs, n)[reqs[n - 1].key])
  {
    var r, before := reqs[n - 1], After(l, reqs, n - 1);
    Grows(l, reqs[i].at, before[r.key].last, r.at);
    hide Earned;
  }

  lemma {:induction false} LevelSinceFull(l: Limits, reqs: seq<Request>, key: string, n: nat) returns (i: nat)
    requires Sound(l) && Ordered(reqs) && n <= |reqs| && key in After(l, reqs, n)
    ensures i < n && FullAt(l, reqs, key, i, n, After(l, reqs, n)[key])
  {
    hide Earned, Refill;
    var r, before := reqs[n - 1], After(l, reqs, n - 1);
    if r.key != key {
      i := LevelSinceFull(l, reqs, key, n - 1);
    } else if Available(l, before, key, r.at) == l.burst {
      i := n - 1;
      hide FullAt;
      FullNow(l, reqs, n);
    } else {
      i := LevelSinceFull(l, reqs, key, n - 1);
      hide FullAt;
      NotFullNow(l, reqs, i, n);
    }
  }

  /** The requests of `key` from `i` up to `n` leave room for one more at `now`. */
  ghost predicate HasRoom(l: Limits, reqs: seq<Request>, key: string, i: nat, n: nat, now: real)
    requires i < n <= |reqs|
  {
    Passed(l, reqs, key, i, n) as real + 1.0 <= l.burst + Earned(l, reqs[i].at, now)
  }

  /**
   What the limiter means: a request passes exactly when, for every earlier request
   of the same address, the requests passed since then and this one fit into the
   burst and what the time since then has brought.
   */
  lemma PassesIffEveryWindowHasRoom(l: Limits, reqs: seq<Request>, n: nat)
    requires Sound(l) && Ordered(reqs) && n < |reqs|
    ensures Passes(l, reqs, n) <==>
      forall i: nat :: i < n && reqs[i].key == reqs[n].key ==> HasRoom(l, reqs, reqs[n].key, i, n, reqs[n].at)
  {
    hide Passed, Earned;
    var key, now, buckets := reqs[n].key, reqs[n].at, After(l, reqs, n);
    if Passes(l, reqs, n) {
      forall i: nat | i < n
        ensures HasRoom(l, reqs, key, i, n, now)
      {
        SpendingIsBounded(l, reqs, key, i, n, now);
      }
    } else {
      var i := LevelSinceFull(l, reqs, key, n);
      Grows(l, reqs[i].at, buckets[key].last, now);
      assert !HasRoom(l, reqs, key, i, n, now);
    }
  }

  /** In any window the requests that pass number at most the burst and what the rate allows for its length. */
  lemma WindowBound(l: Limits, reqs: seq<Request>, key: string, i: nat, n: nat)
    requires Sound(l) && Ordered(reqs) && i < n <= |reqs|
    ensures Passed(l, reqs, key, i, n) as real <= l.burst + Earned(l, reqs[i].at, reqs[n - 1].at)
  {
    hide Passed, Available, Earned;
    var now := reqs[n - 1].at;
    SpendingIsBounded(l, reqs, key, i, n, now);
    SomethingIsLeft(l, reqs, key, n);
  }

  lemma SomethingIsLeft(l: Limits, reqs: seq<Request>, key: string, n: nat)
    requires Sound(l) && Ordered(reqs) && 0 < n <= |reqs|
    ensures Available(l, After(l, reqs, n), key, reqs[n - 1].at) >= 0.0
  {
    hide After, Earned;
    var buckets := After(l, reqs, n);
    if key in buckets {
      TokensStayInRange(l, reqs, key, n);
      Grows(l, buckets[key].last, reqs[n - 1].at, reqs[n - 1].at);
    }
  }

  lemma EarnedIs(l: Limits, from: real, to: real)
    ensures Earned(l, from, to) == l.rate * (to - from)
  {
  }

  /** A first request always passes, so the bound holds for it only with a burst of one or more. */
  lemma BoundNeedsABurst(l: Limits, r: Request)
    ensures Passed(l, [r], r.key, 0, 1) as real <= l.burst + l.rate * (r.at - r.at) <==> l.burst >= 1.0
  {
    assert Passes(l, [r], 0);
    assert Passed(l, [r], r.key, 0, 0) == 0;
    assert Passed(l, [r], r.key, 0, 1) == 1;
  }

  /** A client that leaves `1 / rate` between requests is never refused. */
  lemma SpacedRequestsPass(l: Limits, reqs: seq<Request>, n: nat)
    requires Sound(l) && l.rate > 0.0 && Ordered(reqs) && n < |reqs|
    requires forall i :: 0 <= i < n && reqs[i].key == reqs[n].key ==> reqs[n].at - reqs[i].at >= 1.0 / l.rate
    ensures Passes(l, reqs, n)
  {
    var key, buckets := reqs[n].key, After(l, reqs, n);
    if key in buckets {
      TokensStayInRange(l, reqs, key, n);
      var i := LastRequest(l, reqs, key, n);
      EarnsOne(l, reqs[i].at, reqs[n].at);
      hide Earned, After;
    }
  }

  lemma EarnsOne(l: Limits, from: real, to: real)
    requires l.rate > 0.0 && to - from >= 1.0 / l.rate
    ensures Earned(l, from, to) >= 1.0
  {
    assert l.rate * (1.0 / l.rate) == 1.0;
    assert l.rate * ((to - from) - 1.0 / l.rate) >= 0.0;
  }

  lemma {:induction false} LastRequest(l: Limits, reqs: seq<Request>, key: string, n: nat) returns (i: nat)
    requires n <= |reqs| && key in After(l, reqs, n)
    ensures i < n && reqs[i].key == key && After(l, reqs, n)[key].last == reqs[i].at
  {
    hide Earned;
    if reqs[n - 1].key == key {
      i := n - 1;
    } else {
      i := LastRequest(l, reqs, key, n - 1);
    }
  }

  /** The requests of one address among the first `n`. */
  function Own(reqs: seq<Request>, key: string, n: nat): (r: seq<Request>)
    requires n <= |reqs|
  {
    if n == 0 then []
    else Own(reqs, key, n - 1) + if reqs[n - 1].key == key then [reqs[n - 1]] else []
  }

  lemma {:induction false} PrefixDecides(l: Limits, reqs: seq<Request>, more: seq<Request>, n: nat)
    requires n <= |reqs|
    ensures After(l, reqs + more, n) == After(l, reqs, n)
  {
    if n > 0 {
      PrefixDecides(l, reqs, more, n - 1);
      assert (reqs + more)[n - 1] == reqs[n - 1];
    }
  }

  ghost predicate SameBucket(a: map<string, Level>, b: map<string, Level>, key: string) {
    && (key in a <==> key in b)
    && (key in a ==> a[key] == b[key])
  }

  lemma {:induction false} OwnRequestsDecide(l: Limits, reqs: seq<Request>, key: string, n: nat)
    requires n <= |reqs|
    ensures SameBucket(After(l, reqs, n), After(l, Own(reqs, key, n), |Own(reqs, key, n)|), key)
  {
    if n > 0 {
      OwnRequestsDecide(l, reqs, key, n - 1);
      if reqs[n - 1].key == key {
        var own := Own(reqs, key, n - 1);
        PrefixDecides(l, own, [reqs[n - 1]], |own|);
        assert Own(reqs, key, n) == own + [reqs[n - 1]];
      } else {
        assert Own(reqs, key, n) == Own(reqs, key, n - 1);
      }
    }
  }

  /** An address' requests are decided as if there were no others. */
  lemma KeysAreIndependent(l: Limits, reqs: seq<Request>, n: nat)
    requires n < |reqs|
    ensures
      var own := Own(reqs, reqs[n].key, n);
      Passes(l, reqs, n) == Passes(l, own + [reqs[n]], |own|)
  {
    var own := Own(reqs, reqs[n].key, n);
    OwnRequestsDecide(l, reqs, reqs[n].key, n);
    PrefixDecides(l, own, [reqs[n]], |own|);
  }

  // ---------------------------------------------------------------- the limiter

  class Bucket {
    var tokens: real
    var last: real

    constructor (tokens: real, last: real)
      ensures Now() == Level(tokens, last)
    {
      this.tokens, this.last := tokens, last;
    }

    ghost function Now(): Level
      reads this
    {
      Level(tokens, last)
    }

    /** Refills the bucket, then takes a token if there is one. */
    method Take(limits: Limits, now: real) returns (ok: bool)
      modifies this
      ensures (Now(), ok) == TakeOne(limits, old(Now()), now)
    {
      EarnedIs(limits, last, now);
      var earned := limits.rate * (now - last);
      assert earned == Earned(limits, last, now);
      hide Earned;
      tokens := tokens + earned;
      if tokens > limits.burst {
        tokens := limits.burst;
      }
      last := now;
      if tokens >= 1.0 {
        tokens := tokens - 1.0;
        return true;
      }
      return false;
    }
  }

  class RateLimiter {
    const limits: Limits
    var buckets: map<string, Bucket>

    constructor (ratePerSec: real, burst: real)
      ensures limits == Limits(ratePerSec, burst) && Valid() && View() == After(limits, [], 0)
    {
      limits, buckets := Limits(ratePerSec, burst), map[];
    }

    /** No two addresses share a bucket. */
    ghost predicate Valid()
      reads this
    {
      forall k, k' :: k in buckets && k' in buckets && k != k' ==> buckets[k] != buckets[k']
    }

    ghost function View(): map<string, Level>
      reads this, buckets.Values
    {
      map k | k in buckets :: buckets[k].Now()
    }

    method Allow(key: string, now: real) returns (ok: bool)
      requires Valid()
      modifies this, buckets.Values
      ensures Valid() && fresh(buckets.Values - old(buckets.Values))
      ensures View() == Step(limits, old(View()), Request(key, now)).0
      ensures ok == Step(limits, old(View()), Request(key, now)).1
    {
      if key !in buckets {
        var full := new Bucket(limits.burst - 1.0, now);
        buckets := buckets[key := full];
        return true;
      }
      hide TakeOne;
      ok := buckets[key].Take(limits, now);
    }
  }
}
