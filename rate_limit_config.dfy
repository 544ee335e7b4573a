/** RateLimitConfig: one token bucket per client key, created on first use by
    whichever resolver sees the key first, in a single map shared by both
    resolvers. A bucket is its configuration only; the token arithmetic is the
    rate-limiting library's. */
module RateLimiting {
  import opened Wrappers

  datatype BucketKind = Shortening | Redirect

  /** A bucket's bandwidth: `capacity` tokens, refilled by `refillTokens`
      every `refillMinutes` minutes, all at once. */
  datatype Bucket = Bucket(kind: BucketKind, capacity: nat, refillTokens: nat, refillMinutes: nat)

  /** createShorteningBucket: 20 requests per minute. */
  function CreateShorteningBucket(): (b: Bucket)
    ensures b.kind == Shortening && b.capacity == 20
    ensures b.refillTokens == b.capacity && b.refillMinutes == 1
  {
    Bucket(Shortening, 20, 20, 1)
  }

  /** createRedirectBucket: 100 requests per minute. */
  function CreateRedirectBucket(): (b: Bucket)
    ensures b.kind == Redirect && b.capacity == 100
    ensures b.refillTokens == b.capacity && b.refillMinutes == 1
  {
    Bucket(Redirect, 100, 100, 1)
  }

  function CreateBucket(kind: BucketKind): (b: Bucket)
    ensures b.kind == kind
  {
    match kind
    case Shortening => CreateShorteningBucket()
    case Redirect => CreateRedirectBucket()
  }

  /** The map after a resolve, and the bucket the resolve returns. */
  datatype Resolution = Resolution(cache: map<string, Bucket>, bucket: Bucket)

  /** cache.computeIfAbsent(key, k -> create...Bucket()). */
  function Resolve(cache: map<string, Bucket>, key: string, kind: BucketKind): (r: Resolution)
    ensures key in r.cache && r.bucket == r.cache[key]
    ensures r.cache.Keys == cache.Keys + {key}
    ensures forall k :: k in cache ==> r.cache[k] == cache[k]
    ensures key !in cache ==> r.bucket == CreateBucket(kind)
  {
    if key in cache then Resolution(cache, cache[key])
    else
      var b := CreateBucket(kind);
      Resolution(cache[key := b], b)
  }

  /** A resolve of a key that is already present changes nothing and returns
      the stored bucket, whichever resolver asks. */
  lemma ResolvePresent(cache: map<string, Bucket>, key: string, kind: BucketKind)
    requires key in cache
    ensures Resolve(cache, key, kind) == Resolution(cache, cache[key])
  {
  }

  /** The shared map, updated in place by both resolvers. */
  class RateLimitConfig {
    var cache: map<string, Bucket>

    constructor ()
      ensures cache == map[]
    {
      cache := map[];
    }

    /** resolveShorteningBucket. */
    method ResolveShorteningBucket(key: string) returns (bucket: Bucket)
      modifies this
      ensures Resolution(cache, bucket) == Resolve(old(cache), key, Shortening)
    {
      if key !in cache {
        cache := cache[key := CreateShorteningBucket()];
      }
      bucket := cache[key];
    }

    /** resolveRedirectBucket. */
    method ResolveRedirectBucket(key: string) returns (bucket: Bucket)
      modifies this
      ensures Resolution(cache, bucket) == Resolve(old(cache), key, Redirect)
    {
      if key !in cache {
        cache := cache[key := CreateRedirectBucket()];
      }
      bucket := cache[key];
    }
  }

  // ---------------------------------------------------------------------------
  // A run of resolves

  /** One resolve call: the key and the resolver it went to. */
  datatype Lookup = Lookup(key: string, kind: BucketKind)

  /** The map after the resolves in `lookups`, in order. */
  function ResolveAll(cache: map<string, Bucket>, lookups: seq<Lookup>): (c: map<string, Bucket>)
    decreases |lookups|
  {
    if lookups == [] then cache
    else ResolveAll(Resolve(cache, lookups[0].key, lookups[0].kind).cache, lookups[1..])
  }

  /** The resolver that saw `key` first in `lookups`, if any did. */
  function FirstKind(lookups: seq<Lookup>, key: string): (k: Option<BucketKind>)
    ensures k.Some? <==> exists i :: 0 <= i < |lookups| && lookups[i].key == key
    ensures k.Some? ==> exists i :: 0 <= i < |lookups| && lookups[i] == Lookup(key, k.value)
                                    && forall j :: 0 <= j < i ==> lookups[j].key != key
    decreases |lookups|
  {
    if lookups == [] then None
    else if lookups[0].key == key then
      assert lookups[0] == Lookup(key, lookups[0].kind);
      Some(lookups[0].kind)
    else
      var k := FirstKind(lookups[1..], key);
      assert forall i :: 1 <= i < |lookups| ==> lookups[i] == lookups[1..][i - 1];
      k
  }

  /** First writer wins: after any run of resolves, a key that was present
      keeps its bucket, a key that was absent holds the bucket of the
      resolver that saw it first, and no other key appears. */
  lemma {:induction false} FirstResolverWins(cache: map<string, Bucket>, lookups: seq<Lookup>, key: string)
    ensures var c := ResolveAll(cache, lookups);
      key in c <==> key in cache || FirstKind(lookups, key).Some?
    ensures var c := ResolveAll(cache, lookups);
      key in cache ==> c[key] == cache[key]
    ensures var c := ResolveAll(cache, lookups);
      key !in cache && FirstKind(lookups, key).Some? ==> c[key] == CreateBucket(FirstKind(lookups, key).value)
    decreases |lookups|
  {
    if lookups != [] {
      var next := Resolve(cache, lookups[0].key, lookups[0].kind).cache;
      FirstResolverWins(next, lookups[1..], key);
    }
  }

  /** The shared map in action: a client whose first request was a redirect
      keeps the 100-per-minute bucket on the shortening endpoint too. */
  lemma RedirectFirstGovernsShortening(cache: map<string, Bucket>, key: string)
    requires key !in cache
    ensures var first := Resolve(cache, key, Redirect);
      var second := Resolve(first.cache, key, Shortening);
      second.bucket.kind == Redirect && second.bucket.capacity == 100
  {
  }
}
