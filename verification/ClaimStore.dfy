/** The in-memory idempotency store: claims with an optional time to live, evicted lazily. */
module ClaimStore {
  import opened Wrappers

  /** When a claim lapses; `Never` is Python's infinity. */
  datatype Expiry = At(time: real) | Never

  predicate Live(e: Expiry, now: real) {
    e.Never? || e.time > now
  }

  function ExpiryOf(now: real, ttl: Option<real>): Expiry {
    match ttl
    case Some(seconds) => At(now + seconds)
    case None => Never
  }

  type Claims = map<string, Expiry>

  predicate Held(claims: Claims, key: string, now: real) {
    key in claims && Live(claims[key], now)
  }

  function LiveOnly(claims: Claims, now: real): Claims {
    map k | k in claims && Live(claims[k], now) :: claims[k]
  }

  function Claimed(claims: Claims, key: string, now: real, ttl: Option<real>, maxEntries: int): Claims {
    (if |claims| >= maxEntries then LiveOnly(claims, now) else claims)[key := ExpiryOf(now, ttl)]
  }

  /** A claim sets its own key's expiry, and every other live claim stays. */
  lemma ClaimedAt(claims: Claims, key: string, now: real, ttl: Option<real>, maxEntries: int, other: string)
    ensures var after := Claimed(claims, key, now, ttl, maxEntries);
            && key in after && after[key] == ExpiryOf(now, ttl)
            && (other != key && Held(claims, other, now) ==> other in after && after[other] == claims[other])
  {
  }

  function Released(claims: Claims, key: string): Claims {
    claims - {key}
  }

  class InMemoryIdempotencyStore {
    var claims: Claims
    const maxEntries: int

    constructor (maxEntries: int)
      ensures claims == map[] && this.maxEntries == maxEntries
    {
      claims := map[];
      this.maxEntries := maxEntries;
    }

    /** `claim`: true for the first caller, false while a claim is live. */
    method Claim(key: string, ttl: Option<real>, now: real) returns (won: bool)
      modifies this
      ensures won == !Held(old(claims), key, now)
      ensures won ==> claims == Claimed(old(claims), key, now, ttl, maxEntries)
      ensures won ==> forall later | now <= later :: Held(claims, key, later) <==> ttl.None? || later < now + ttl.value
      ensures !won ==> claims == old(claims)
      ensures won ==> |claims| <= Max(maxEntries, |LiveOnly(old(claims), now)| + 1)
    {
      if key in claims && Live(claims[key], now) {
        return false;
      }
      if |claims| >= maxEntries {
        EvictExpired(now);
      }
      ghost var before := claims;
      claims := claims[key := ExpiryOf(now, ttl)];
      InsertedSize(before, key, ExpiryOf(now, ttl));
      won := true;
    }

    method Release(key: string)
      modifies this
      ensures claims == Released(old(claims), key)
    {
      claims := claims - {key};
    }

    /** `_evict_expired`. */
    method EvictExpired(now: real)
      modifies this
      ensures claims == LiveOnly(old(claims), now)
    {
      claims := map k | k in claims && Live(claims[k], now) :: claims[k];
    }
  }

  lemma InsertedSize(claims: Claims, key: string, e: Expiry)
    ensures |claims[key := e]| <= |claims| + 1
  {
    assert claims[key := e].Keys == claims.Keys + {key};
  }

  // ----- Eviction changes no answer -----

  datatype Request = Claim(key: string, ttl: Option<real>, now: real) | Release(key: string)

  function Apply(claims: Claims, r: Request, maxEntries: Option<int>): Claims {
    match r
    case Claim(key, ttl, now) =>
      if Held(claims, key, now) then claims
      else if maxEntries.Some? then Claimed(claims, key, now, ttl, maxEntries.value)
      else claims[key := ExpiryOf(now, ttl)]
    case Release(key) => Released(claims, key)
  }

  /** The answers to a sequence of requests; without a bound the table never evicts. */
  function Answers(claims: Claims, requests: seq<Request>, maxEntries: Option<int>): seq<bool>
    decreases |requests|
  {
    if requests == [] then []
    else
      var r := requests[0];
      var rest := Answers(Apply(claims, r, maxEntries), requests[1..], maxEntries);
      if r.Claim? then [!Held(claims, r.key, r.now)] + rest else rest
  }

  /** The table after a sequence of requests. */
  function TableAfter(claims: Claims, requests: seq<Request>, maxEntries: Option<int>): Claims
    decreases |requests|
  {
    if requests == [] then claims else TableAfter(Apply(claims, requests[0], maxEntries), requests[1..], maxEntries)
  }

  /** Times never go back, and start no earlier than `now`. */
  ghost predicate Clocked(requests: seq<Request>, now: real) {
    forall i | 0 <= i < |requests| && requests[i].Claim? ::
      && now <= requests[i].now
      && forall j | i <= j < |requests| && requests[j].Claim? :: requests[i].now <= requests[j].now
  }

  /** From `now` on, both tables hold the same live claims. */
  ghost predicate SameLive(a: Claims, b: Claims, now: real) {
    LiveOnly(a, now) == LiveOnly(b, now)
  }

  lemma SameLiveLater(a: Claims, b: Claims, now: real, later: real)
    requires SameLive(a, b, now) && now <= later
    ensures SameLive(a, b, later)
    ensures forall k :: Held(a, k, now) <==> Held(b, k, now)
  {
    forall k ensures Held(a, k, now) <==> Held(b, k, now)
      ensures Held(a, k, later) <==> Held(b, k, later)
      ensures Held(a, k, later) ==> a[k] == b[k]
    {
      assert Held(a, k, now) <==> k in LiveOnly(a, now);
      assert Held(b, k, now) <==> k in LiveOnly(b, now);
      if Held(a, k, now) {
        assert LiveOnly(a, now)[k] == LiveOnly(b, now)[k];
      }
    }
  }

  lemma ApplyKeepsSameLive(a: Claims, b: Claims, r: Request, maxEntries: int, now: real)
    requires SameLive(a, b, now) && (r.Claim? ==> r.now == now)
    ensures SameLive(Apply(a, r, Some(maxEntries)), Apply(b, r, None), now)
  {
    SameLiveLater(a, b, now, now);
    var a', b' := Apply(a, r, Some(maxEntries)), Apply(b, r, None);
    forall k ensures Held(a', k, now) <==> Held(b', k, now)
      ensures Held(a', k, now) ==> a'[k] == b'[k]
    {
      assert Held(a, k, now) <==> k in LiveOnly(a, now);
      assert Held(b, k, now) <==> k in LiveOnly(b, now);
      if Held(a, k, now) {
        assert LiveOnly(a, now)[k] == LiveOnly(b, now)[k];
      }
    }
  }

  /** The bounded table refines one that never evicts: under a clock that does not go back, every
      sequence of claims and releases gets the same answers from both. */
  lemma {:induction false} EvictionChangesNoAnswer(
    a: Claims, b: Claims, requests: seq<Request>, maxEntries: int, now: real)
    requires SameLive(a, b, now) && Clocked(requests, now)
    ensures Answers(a, requests, Some(maxEntries)) == Answers(b, requests, None)
    decreases |requests|
  {
    if requests != [] {
      var r := requests[0];
      var later := if r.Claim? then r.now else now;
      SameLiveLater(a, b, now, later);
      SameLiveLater(a, b, later, later);
      ApplyKeepsSameLive(a, b, r, maxEntries, later);
      assert Clocked(requests[1..], later) by {
        forall i, j | 0 <= i <= j < |requests[1..]| && requests[1..][i].Claim? && requests[1..][j].Claim?
          ensures later <= requests[1..][i].now <= requests[1..][j].now {
          assert requests[1..][i] == requests[i + 1] && requests[1..][j] == requests[j + 1];
        }
      }
      EvictionChangesNoAnswer(Apply(a, r, Some(maxEntries)), Apply(b, r, None), requests[1..], maxEntries, later);
    }
  }

  /** The bound of the table after each successful claim, on the table as a value. */
  lemma ClaimedSize(claims: Claims, key: string, now: real, ttl: Option<real>, maxEntries: int)
    ensures |Claimed(claims, key, now, ttl, maxEntries)| <= Max(maxEntries, |LiveOnly(claims, now)| + 1)
  {
    InsertedSize(claims, key, ExpiryOf(now, ttl));
    InsertedSize(LiveOnly(claims, now), key, ExpiryOf(now, ttl));
  }

  lemma NextRequest(claims: Claims, requests: seq<Request>, i: nat, maxEntries: Option<int>, answers: seq<bool>)
    requires i < |requests|
    ensures var (r, after) := (requests[i], Apply(claims, requests[i], maxEntries));
            && TableAfter(claims, requests[i..], maxEntries) == TableAfter(after, requests[i + 1..], maxEntries)
            && answers + Answers(claims, requests[i..], maxEntries)
               == (if r.Claim? then answers + [!Held(claims, r.key, r.now)] else answers)
                  + Answers(after, requests[i + 1..], maxEntries)
  {
    hide Apply, Held;
    assert requests[i..][1..] == requests[i + 1..];
  }

  lemma NoMoreRequests(claims: Claims, maxEntries: Option<int>)
    ensures Answers(claims, [], maxEntries) == [] && TableAfter(claims, [], maxEntries) == claims
  {
  }

  /** A store under a sequence of requests answers them, and ends up, as its table does. */
  method Drive(store: InMemoryIdempotencyStore, requests: seq<Request>) returns (answers: seq<bool>)
    modifies store
    ensures answers == Answers(old(store.claims), requests, Some(store.maxEntries))
    ensures store.claims == TableAfter(old(store.claims), requests, Some(store.maxEntries))
  {
    hide Answers, TableAfter, Held;
    answers := [];
    ghost var (first, bound) := (store.claims, Some(store.maxEntries));
    assert requests[0..] == requests;
    for i := 0 to |requests|
      invariant answers + Answers(store.claims, requests[i..], bound) == Answers(first, requests, bound)
      invariant TableAfter(store.claims, requests[i..], bound) == TableAfter(first, requests, bound)
    {
      NextRequest(store.claims, requests, i, bound, answers);
      match requests[i] {
        case Claim(key, ttl, now) =>
          var won := store.Claim(key, ttl, now);
          answers := answers + [won];
        case Release(key) =>
          store.Release(key);
      }
    }
    NoMoreRequests(store.claims, bound);
    assert requests[|requests|..] == [] && answers + [] == answers;
  }
}
