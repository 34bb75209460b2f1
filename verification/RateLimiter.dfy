/** The gateway's sliding-window rate limiter, measured against the full request history. */
module RateLimiter {
  datatype Key = Key(host: string, path: string, method_: string)

  const EXEMPT: set<string> := {"/health", "/docs", "/openapi.json", "/redoc"}

  predicate StartsWith(s: string, prefix: string) { prefix <= s }

  /** `method_` is already upper case. */
  function LimitFor(k: Key): nat {
    if k.path == "/auth/login" && k.method_ == "POST" then 5
    else if StartsWith(k.path, "/commands/") && k.method_ == "POST" then 10
    else 60
  }

  /** Five logins, ten commands, sixty of anything else. */
  lemma LimitTable(k: Key)
    ensures LimitFor(k) == 5 <==> k.path == "/auth/login" && k.method_ == "POST"
    ensures LimitFor(k) == 10 <==> |k.path| >= 10 && k.path[..10] == "/commands/" && k.method_ == "POST"
    ensures LimitFor(k) in {5, 10, 60}
  {
    if |k.path| >= 10 && k.path[..10] == "/commands/" {
      assert k.path[1] == 'c' && "/auth/login"[1] == 'a';
      assert "/commands/" <= k.path;
    }
  }

  predicate Ordered(s: seq<real>) {
    forall i, j :: 0 <= i < j < |s| ==> s[i] <= s[j]
  }

  /** Acceptances of the last 60 seconds, both ends included. */
  function Recent(s: seq<real>, now: real): nat {
    if s == [] then 0 else Recent(s[1..], now) + if now - s[0] <= 60.0 then 1 else 0
  }

  /** Acceptances `limit` or more apart in the list span more than 60 seconds. */
  predicate Spread(s: seq<real>, limit: nat) {
    forall i, j :: 0 <= i && i + limit <= j < |s| ==> s[j] - s[i] > 60.0
  }

  lemma {:induction false} RecentOfOld(s: seq<real>, now: real)
    requires forall i :: 0 <= i < |s| ==> now - s[i] > 60.0
    ensures Recent(s, now) == 0
  {
    if s != [] {
      RecentOfOld(s[1..], now);
    }
  }

  lemma {:induction false} RecentOfNew(s: seq<real>, now: real)
    requires forall i :: 0 <= i < |s| ==> now - s[i] <= 60.0
    ensures Recent(s, now) == |s|
  {
    if s != [] {
      RecentOfNew(s[1..], now);
    }
  }

  lemma {:induction false} RecentSplit(a: seq<real>, b: seq<real>, now: real)
    ensures Recent(a + b, now) == Recent(a, now) + Recent(b, now)
  {
    if a == [] {
      assert a + b == b;
    } else {
      assert (a + b)[1..] == a[1..] + b;
      RecentSplit(a[1..], b, now);
    }
  }

  /** Acceptances inside the closed window that starts at `from`. */
  function CountIn(s: seq<real>, from: real): nat {
    if s == [] then 0 else CountIn(s[1..], from) + if from <= s[0] <= from + 60.0 then 1 else 0
  }

  lemma {:induction false} CountInBounded(s: seq<real>, from: real)
    ensures CountIn(s, from) <= |s|
  {
    if s != [] {
      CountInBounded(s[1..], from);
    }
  }

  lemma {:induction false} CountInSplit(a: seq<real>, b: seq<real>, from: real)
    ensures CountIn(a + b, from) == CountIn(a, from) + CountIn(b, from)
  {
    if a == [] {
      assert a + b == b;
    } else {
      assert (a + b)[1..] == a[1..] + b;
      CountInSplit(a[1..], b, from);
    }
  }

  lemma {:induction false} CountInLate(s: seq<real>, from: real)
    requires forall i :: 0 <= i < |s| ==> s[i] > from + 60.0
    ensures CountIn(s, from) == 0
  {
    if s != [] {
      CountInLate(s[1..], from);
    }
  }

  /** Every closed 60-second window of a whole run holds at most `limit` acceptances. */
  lemma {:induction false} WindowNeverOverfull(s: seq<real>, limit: nat, from: real)
    requires Ordered(s) && Spread(s, limit)
    ensures CountIn(s, from) <= limit
  {
    if s == [] {
    } else if s[0] < from {
      WindowNeverOverfull(s[1..], limit, from);
    } else if |s| <= limit {
      CountInBounded(s, from);
    } else {
      assert s == s[..limit] + s[limit..];
      CountInSplit(s[..limit], s[limit..], from);
      CountInBounded(s[..limit], from);
      CountInLate(s[limit..], from);
    }
  }

  /** A bucket is the history minus a prefix that is too old to matter. */
  predicate Faithful(history: seq<real>, bucket: seq<real>, limit: nat, clock: real) {
    && Ordered(history) && Spread(history, limit)
    && (forall i :: 0 <= i < |history| ==> history[i] <= clock)
    && |bucket| <= |history| && bucket == history[|history| - |bucket|..]
    && (forall i :: 0 <= i < |history| - |bucket| ==> clock - history[i] > 60.0)
  }

  /** What is left after eviction is exactly the recent part of the history. */
  lemma CountBucket(history: seq<real>, bucket: seq<real>, limit: nat, now: real)
    requires Faithful(history, bucket, limit, now) && (bucket != [] ==> now - bucket[0] <= 60.0)
    ensures Recent(history, now) == |bucket|
  {
    var cut := |history| - |bucket|;
    assert history == history[..cut] + bucket;
    RecentSplit(history[..cut], bucket, now);
    RecentOfOld(history[..cut], now);
    forall i | 0 <= i < |bucket| ensures now - bucket[i] <= 60.0 {
      assert bucket[0] == history[cut] && bucket[i] == history[cut + i];
    }
    RecentOfNew(bucket, now);
  }

  /** Accepting below the limit keeps the spread. */
  lemma FaithfulAfterAccept(history: seq<real>, bucket: seq<real>, limit: nat, now: real)
    requires Faithful(history, bucket, limit, now) && |bucket| < limit
    ensures Faithful(history + [now], bucket + [now], limit, now)
  {
  }

  /** An eviction judged by an earlier clock is still right later. */
  lemma FaithfulLater(history: seq<real>, bucket: seq<real>, limit: nat, clock: real, now: real)
    requires Faithful(history, bucket, limit, clock) && clock <= now
    ensures Faithful(history, bucket, limit, now)
  {
  }

  /** The eviction loop. */
  method Evict(full: seq<real>, now: real, ghost history: seq<real>, ghost limit: nat) returns (bucket: seq<real>)
    requires Faithful(history, full, limit, now)
    ensures Faithful(history, bucket, limit, now)
    ensures |bucket| == Recent(history, now)
  {
    bucket := full;
    while bucket != [] && now - bucket[0] > 60.0
      invariant Faithful(history, bucket, limit, now)
      decreases |bucket|
    {
      bucket := bucket[1..];
    }
    CountBucket(history, bucket, limit, now);
  }

  /** Evict, then serve below the limit: exactly the answer the full history gives. */
  method Serve(full: seq<real>, now: real, ghost history: seq<real>, limit: nat)
    returns (served: bool, bucket: seq<real>, ghost history': seq<real>)
    requires Faithful(history, full, limit, now)
    ensures served <==> Recent(history, now) < limit
    ensures history' == history + if served then [now] else []
    ensures Faithful(history', bucket, limit, now)
  {
    bucket := Evict(full, now, history, limit);
    served, history' := |bucket| < limit, history;
    if served {
      FaithfulAfterAccept(history, bucket, limit, now);
      bucket, history' := bucket + [now], history + [now];
    }
  }

  function Listed(m: map<Key, seq<real>>, k: Key): seq<real> { if k in m then m[k] else [] }

  ghost predicate AllFaithful(accepted: map<Key, seq<real>>, hits: map<Key, seq<real>>, clock: real) {
    forall k :: Faithful(Listed(accepted, k), Listed(hits, k), LimitFor(k), clock)
  }

  lemma AllLater(accepted: map<Key, seq<real>>, hits: map<Key, seq<real>>, clock: real, now: real)
    requires AllFaithful(accepted, hits, clock) && clock <= now
    ensures AllFaithful(accepted, hits, now)
    ensures forall k :: Faithful(Listed(accepted, k), Listed(hits, k), LimitFor(k), now)
  {
    forall k ensures Faithful(Listed(accepted, k), Listed(hits, k), LimitFor(k), now) {
      FaithfulLater(Listed(accepted, k), Listed(hits, k), LimitFor(k), clock, now);
    }
  }

  /** One key's deque and history may be replaced by another faithful pair. */
  lemma ReplaceOne(accepted: map<Key, seq<real>>, hits: map<Key, seq<real>>, now: real, k: Key, history: seq<real>, bucket: seq<real>)
    requires AllFaithful(accepted, hits, now) && Faithful(history, bucket, LimitFor(k), now)
    ensures AllFaithful(accepted[k := history], hits[k := bucket], now)
  {
    forall j ensures Faithful(Listed(accepted[k := history], j), Listed(hits[k := bucket], j), LimitFor(j), now) {
      if j != k {
        assert Faithful(Listed(accepted, j), Listed(hits, j), LimitFor(j), now);
      }
    }
  }

  lemma NoWindowOverfull(accepted: map<Key, seq<real>>, hits: map<Key, seq<real>>, clock: real)
    requires AllFaithful(accepted, hits, clock)
    ensures forall k, from :: CountIn(Listed(accepted, k), from) <= LimitFor(k)
  {
    forall k, from ensures CountIn(Listed(accepted, k), from) <= LimitFor(k) {
      assert Faithful(Listed(accepted, k), Listed(hits, k), LimitFor(k), clock);
      WindowNeverOverfull(Listed(accepted, k), LimitFor(k), from);
    }
  }

  /** The deques of all keys, with the full history of served requests beside them. */
  class RateLimitMiddleware {
    var hits: map<Key, seq<real>>
    ghost var accepted: map<Key, seq<real>>
    ghost var clock: real

    ghost predicate Valid()
      reads this
    {
      AllFaithful(accepted, hits, clock)
    }

    constructor (now: real)
      ensures Valid() && clock == now && accepted == map[]
    {
      hits, accepted, clock := map[], map[], now;
    }

    /** One request against the deque of its key; no other key is touched. */
    method Admit(k: Key, now: real) returns (served: bool)
      requires Valid() && now >= clock
      modifies this
      ensures Valid() && clock == now
      ensures served <==> Recent(Listed(old(accepted), k), now) < LimitFor(k)
      ensures accepted == old(accepted)[k := Listed(accepted, k)]
      ensures Listed(accepted, k) == Listed(old(accepted), k) + if served then [now] else []
    {
      AllLater(accepted, hits, clock, now);
      var bucket;
      ghost var history;
      served, bucket, history := Serve(Listed(hits, k), now, Listed(accepted, k), LimitFor(k));
      ReplaceOne(accepted, hits, now, k, history, bucket);
      hits, accepted, clock := hits[k := bucket], accepted[k := history], now;
    }

    /**
      Exempt paths pass.  Any other request is served exactly when the full history of its key has
      room in the last 60 seconds; no other key notices, and over the whole run no closed 60-second
      window of any key holds more than its limit.
     */
    method Dispatch(k: Key, now: real) returns (served: bool)
      requires Valid() && now >= clock
      modifies this
      ensures Valid() && clock == now
      ensures served <==> k.path in {"/health", "/docs", "/openapi.json", "/redoc"} || Recent(Listed(old(accepted), k), now) < LimitFor(k)
      ensures forall j :: j != k ==> Listed(accepted, j) == Listed(old(accepted), j)
      ensures Listed(accepted, k) == Listed(old(accepted), k) + if served && k.path !in EXEMPT then [now] else []
      ensures forall j, from :: CountIn(Listed(accepted, j), from) <= LimitFor(j)
    {
      if k.path in EXEMPT {
        served := true;
        AllLater(accepted, hits, clock, now);
        clock := now;
      } else {
        served := Admit(k, now);
      }
      NoWindowOverfull(accepted, hits, clock);
    }
  }
}
