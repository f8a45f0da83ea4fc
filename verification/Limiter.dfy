/**
 The limiter object of internal/ratelimit/limiter.go: buckets found through a map and filed in one
 of two lists.  Every method is proved to compute the state function it is named after.
 */
module RateLimiter {
  import opened LimiterState

  // The list a bucket is linked into.
  datatype Owner = Unlinked | InActive | InBlocked

  datatype Bucket = Bucket(tokens: real, lastCheck: real, hits: nat, owner: Owner)

  function Value(b: Bucket): Entry {
    Entry(b.tokens, b.lastCheck, b.hits)
  }

  function Values(buckets: map<string, Bucket>): (r: map<string, Entry>)
    ensures r.Keys == buckets.Keys
  {
    map k | k in buckets :: Value(buckets[k])
  }

  lemma ValuesAt(buckets: map<string, Bucket>, key: string, b: Bucket)
    ensures key in buckets ==> Values(buckets)[key] == Value(buckets[key])
    ensures Values(buckets[key := b]) == Values(buckets)[key := Value(b)]
  {
  }

  class Limiter {
    const config: Config
    var buckets: map<string, Bucket>
    var active: seq<string>
    var blocked: seq<string>
    var oneShot: int

    ghost function Abs(): State
      reads this
    {
      State(Values(buckets), active, blocked, oneShot)
    }

    // Each bucket names the list that holds it.
    ghost predicate Filed()
      reads this
    {
      forall k :: k in buckets ==>
        buckets[k].owner == if k in active then InActive else if k in blocked then InBlocked else Unlinked
    }

    ghost predicate Valid()
      reads this
    {
      Filed() && Tidy(Abs())
    }

    constructor (config: Config)
      ensures Valid() && Abs() == EMPTY && this.config == config
    {
      this.config := config;
      buckets, active, blocked, oneShot := map[], [], [], 0;
      new;
      assert Once(map[]) == {};
    }

    // removeKey
    method RemoveKey(key: string)
      requires Valid() && key in buckets
      modifies this
      ensures Valid() && Abs() == Remove(old(Abs()), {key})
    {
      hide Without, Once, Tidy;
      Listed(Abs());
      RemoveKeepsTidy(Abs(), {key});
      RemoveOne(Abs(), key);
      RemoveLists(Abs(), {key});
      var b := buckets[key];
      buckets := buckets - {key};
      if b.hits == 1 && oneShot > 0 {
        oneShot := oneShot - 1;
      }
      match b.owner {
        case Unlinked =>
        case InActive =>
          WithoutNothing(blocked, {key});
          active := Without(active, {key});
        case InBlocked =>
          WithoutNothing(active, {key});
          blocked := Without(blocked, {key});
      }
      assert Values(buckets) == Values(old(buckets)) - {key};
    }

    // place
    method File(key: string, isBlocked: bool)
      requires Filed() && key in buckets
      requires key in active ==> key !in blocked
      modifies this
      ensures Filed() && Abs() == Place(old(Abs()), key, isBlocked)
    {
      hide Without;
      match buckets[key].owner {
        case Unlinked =>
          WithoutNothing(active, {key});
          WithoutNothing(blocked, {key});
        case InActive =>
          WithoutNothing(blocked, {key});
          active := Without(active, {key});
        case InBlocked =>
          WithoutNothing(active, {key});
          blocked := Without(blocked, {key});
      }
      if isBlocked {
        buckets := buckets[key := buckets[key].(owner := InBlocked)];
        blocked := [key] + blocked;
      } else {
        buckets := buckets[key := buckets[key].(owner := InActive)];
        active := [key] + active;
      }
      assert Values(buckets) == Values(old(buckets));
    }

    // One pass of evictLocked over one list, from its back.
    method EvictPass(fromActive: bool, onlyOneShot: bool, n: nat) returns (removed: nat)
      requires Valid()
      modifies this
      ensures Valid()
      ensures var picked := Take(Candidates(old(Abs()), fromActive, onlyOneShot), n);
              removed == |picked| && Abs() == Remove(old(Abs()), Elements(picked))
    {
      hide Tidy, Remove, Candidates, Elements, PassInvariant;
      ghost var s := Abs();
      ghost var gone: seq<string> := [];
      PassStarts(s, fromActive, onlyOneShot);
      removed := 0;
      var i := if fromActive then |active| else |blocked|;
      while i > 0 && removed < n
        invariant Valid() && 0 <= i && removed == |gone| <= n
        invariant PassInvariant(s, fromActive, onlyOneShot, gone, i)
        invariant Abs() == Remove(s, Elements(gone))
      {
        PassStep(s, fromActive, onlyOneShot, gone, i);
        var e := if fromActive then active[i - 1] else blocked[i - 1];
        var skip := onlyOneShot && buckets[e].hits > 1;
        if !skip {
          RemoveKey(e);
          gone := gone + [e];
          removed := removed + 1;
        }
        i := i - 1;
      }
      PassEnds(s, fromActive, onlyOneShot, gone, i, n);
    }

    // evictLocked
    method EvictLocked(n: int)
      requires Valid()
      modifies this
      ensures Valid() && Abs() == Evict(old(Abs()), n)
    {
      hide Tidy, Remove, Without, Scan, Rev, Once;
      assert Elements([]) == {};
      RemoveNothing(Abs());
      if n <= 0 {
        return;
      }
      FirstPass(Abs(), n);
      SecondPass(Abs(), n);
      ThirdPass(Abs(), n);
      NoOneShot(Abs());
      var removed := 0;
      if oneShot != 0 {
        removed := EvictPass(true, true, n);
      }
      if removed >= n {
        return;
      }
      var r := EvictPass(true, false, n - removed);
      removed := removed + r;
      if removed >= n {
        return;
      }
      r := EvictPass(false, false, n - removed);
    }

    // trimCount
    method Trim() returns (trim: int)
      ensures trim == TrimCount(config.maxKeys, |buckets|)
      ensures if |buckets| == 0 then trim == 0 else 1 <= trim <= |buckets|
      ensures trim <= 1 || trim as real <= config.maxKeys as real * 0.9
      ensures trim == |buckets| || trim as real > config.maxKeys as real * 0.9 - 1.0
    {
      trim := (config.maxKeys as real * 0.9).Floor;
      if trim < 1 {
        trim := 1;
      }
      if trim > |buckets| {
        trim := |buckets|;
      }
    }

    // The refill and the token decision of Allow.
    method Spend(bucket: Bucket, now: real) returns (b: Bucket, ok: bool)
      ensures Value(b) == Charge(config, Value(bucket), now) && b.owner == bucket.owner
      ensures ok == (Refill(config, Value(bucket), now) >= 1.0)
    {
      b := bucket.(hits := bucket.hits + 1);
      var elapsed := now - b.lastCheck;
      b := b.(tokens := b.tokens + elapsed * config.rate);
      if b.tokens > config.burst as real {
        b := b.(tokens := config.burst as real);
      }
      b := b.(lastCheck := now);
      if b.tokens < 1.0 {
        return b, false;
      }
      b := b.(tokens := b.tokens - 1.0);
      return b, true;
    }

    // The eviction a request for an unknown key may need first.
    method EvictForNewKey(key: string)
      requires Valid()
      modifies this
      ensures Valid() && Abs() == Ready(config, old(Abs()), key)
    {
      hide Tidy, Victims, TrimCount, MakeRoom, Evict;
      Listed(Abs());
      MakeRoomIs(config, Abs());
      if key !in buckets && config.maxKeys > 0 && |buckets| >= config.maxKeys {
        assert |Abs().entries| == |buckets| by { assert Abs().entries.Keys == buckets.Keys; }
        var trim := Trim();
        EvictLocked(trim);
      }
    }

    method Allow(key: string, now: real) returns (ok: bool)
      requires Valid()
      modifies this
      ensures Valid() && (Abs(), ok) == LimiterState.Allow(config, old(Abs()), key, now)
    {
      hide Tidy, Once, Without, Ready, Charge, Refill, Values, Place;
      Listed(Abs());
      AllowKeepsTidy(config, Abs(), key, now);
      if config.rate <= 0.0 {
        return true;
      }
      EvictForNewKey(key);
      ghost var m := Abs();
      Listed(m);
      var known := buckets;
      if key !in buckets {
        buckets := buckets[key := Bucket(config.burst as real, now, 0, Unlinked)];
        oneShot := oneShot + 1;
      }
      var b := buckets[key];
      ValuesAt(known, key, b);
      if b.hits == 1 {
        oneShot := oneShot - 1;
      }
      b, ok := Spend(b, now);
      buckets := buckets[key := b];
      ValuesAt(known, key, b);
      assert known[key := buckets[key]] == buckets;
      File(key, b.tokens < 1.0);
    }

    method SecondsUntilNextToken(key: string) returns (seconds: real)
      ensures seconds == Wait(config, Abs(), key)
    {
      if config.rate <= 0.0 {
        return 0.0;
      }
      if key !in buckets || buckets[key].tokens >= 1.0 {
        return 0.0;
      }
      var deficit := 1.0 - buckets[key].tokens;
      return deficit / config.rate;
    }

    // One list of cleanup, swept from its back up to the first key still in use.
    method SweepList(fromActive: bool, cutoff: real)
      requires Valid()
      modifies this
      ensures Valid()
      ensures Abs() == Remove(old(Abs()), StaleTail(old(Abs()).entries, Side(old(Abs()), fromActive), cutoff))
    {
      hide Tidy, Remove, SweepInvariant, StaleTail;
      ghost var s, gone: set<string> := Abs(), {};
      SweepStarts(s, fromActive, cutoff);
      while |if fromActive then active else blocked| > 0
        invariant Valid() && Abs() == Remove(s, gone)
        invariant SweepInvariant(s, fromActive, gone, cutoff)
        decreases |Side(Abs(), fromActive)|
      {
        SweepStep(s, fromActive, gone, cutoff);
        var l := if fromActive then active else blocked;
        var e := l[|l| - 1];
        if buckets[e].lastCheck >= cutoff {
          return;
        }
        BackRemoved(Abs(), fromActive);
        RemoveKey(e);
        gone := gone + {e};
      }
      SweepStep(s, fromActive, gone, cutoff);
    }

    method Cleanup(now: real)
      requires Valid()
      modifies this
      ensures Valid() && Abs() == Sweep(old(Abs()), now)
    {
      hide Tidy, Remove;
      SweepInTwo(Abs(), now);
      var cutoff := now - IDLE;
      SweepList(true, cutoff);
      SweepList(false, cutoff);
    }
  }
}
