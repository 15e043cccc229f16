/** Pruning is invisible exactly when buckets refill in time; rates and the table are bounded. */
module RateLimitProofs {
  import opened Bytes
  import opened RateLimit

  // ---------------------------------------------------------------- pruning is unobservable

  /** A bucket in use: never below zero, never ahead of the clock. */
  ghost predicate BucketOk(b: Bucket, t: real) {
    b.tokens >= 0.0 && (b.last.Some? ==> b.last.value <= t)
  }

  /** A bucket that time has refilled. */
  ghost predicate Refilled(p: Params, b: Bucket, t: real) {
    b.last.Some? ==> b.last.value <= t && b.tokens + p.rate * (t - b.last.value) >= p.burst as real
  }

  /** The table knows the source's bucket, or has forgotten one that has refilled. */
  ghost predicate AgreeOn(p: Params, l: Limiter, k: Kept, ip: string, t: real) {
    && (ip in l.table ==> ip in k && k[ip] == l.table[ip].bucket && l.table[ip].seen <= t
                          && BucketOk(k[ip], l.table[ip].seen))
    && (ip in k && ip !in l.table ==> Refilled(p, k[ip], t))
  }

  /** The source is not evicted before its bucket has refilled. */
  ghost predicate Spared(p: Params, l: Limiter, ip: string, reqs: seq<Request>)
    decreases |reqs|
  {
    reqs != [] ==>
      && (ip in Gc(l, reqs[0].at).table && ip !in AllowStep(p, l, reqs[0]).table ==>
            Refilled(p, Gc(l, reqs[0].at).table[ip].bucket, reqs[0].at))
      && Spared(p, AllowStep(p, l, reqs[0]), ip, reqs[1..])
  }

  lemma {:induction false} NeverFullSpares(p: Params, l: Limiter, ip: string, reqs: seq<Request>)
    requires NeverFull(p, l, reqs)
    ensures Spared(p, l, ip, reqs)
    decreases |reqs|
  {
    if reqs == [] {
    } else {
      NeverFullSpares(p, AllowStep(p, l, reqs[0]), ip, reqs[1..]);
    }
  }

  lemma MulMono(r: real, a: real, b: real)
    requires r > 0.0 && a <= b
    ensures r * a <= r * b
  {
    assert r * (b - a) >= 0.0;
  }

  lemma MulPositive(r: real, a: real)
    requires r > 0.0 && a >= 0.0
    ensures r * a >= 0.0
  {
  }

  lemma RefilledStays(p: Params, b: Bucket, t: real, u: real)
    requires p.rate > 0.0 && Refilled(p, b, t) && t <= u
    ensures Refilled(p, b, u)
  {
    if b.last.Some? {
      MulMono(p.rate, t - b.last.value, u - b.last.value);
    }
  }

  /** Unseen for longer than the TTL means refilled, when the TTL is long enough to refill. */
  lemma StaleIsRefilled(p: Params, b: Bucket, seen: real, now: real)
    requires p.rate > 0.0 && p.burst as real <= p.rate * TTL
    requires BucketOk(b, seen) && now - seen > TTL
    ensures Refilled(p, b, now)
  {
    if b.last.Some? {
      var gone := now - b.last.value;
      assert TTL <= gone;
      MulMono(p.rate, TTL, gone);
      assert b.tokens + p.rate * gone >= p.burst as real;
    }
  }

  lemma GcAgrees(p: Params, l: Limiter, k: Kept, ip: string, t: real, now: real)
    requires p.rate > 0.0 && p.burst as real <= p.rate * TTL && AgreeOn(p, l, k, ip, t) && t <= now
    ensures AgreeOn(p, Gc(l, now), k, ip, now)
  {
    if ip in k && ip !in Gc(l, now).table {
      if ip in l.table {
        StaleIsRefilled(p, k[ip], l.table[ip].seen, now);
      } else {
        RefilledStays(p, k[ip], t, now);
      }
    }
  }

  lemma RefilledLevel(p: Params, b: Bucket, t: real)
    requires Refilled(p, b, t)
    ensures Level(p, b, t) == p.burst as real
  {
  }

  lemma TakeOk(p: Params, b: Bucket, t: real)
    requires ValidParams(p) && BucketOk(b, t)
    ensures BucketOk(Take(p, b, t), t)
  {
  }

  lemma OwnStepAgrees(p: Params, l: Limiter, k: Kept, t: real, r: Request)
    requires ValidParams(p) && p.burst as real <= p.rate * TTL && AgreeOn(p, l, k, r.ip, t) && t <= r.at
    ensures AllowAnswer(p, l, r) == Allows(p, BucketOf(p, k, r.ip), r.at)
    ensures AgreeOn(p, AllowStep(p, l, r), KeepStep(p, k, r.ip, r.at), r.ip, r.at)
  {
    GcAgrees(p, l, k, r.ip, t, r.at);
    if r.ip in Gc(l, r.at).table {
      TakeOk(p, k[r.ip], r.at);
    } else {
      RefilledLevel(p, BucketOf(p, k, r.ip), r.at);
      RefilledLevel(p, Fresh(p), r.at);
      assert Take(p, BucketOf(p, k, r.ip), r.at) == Take(p, Fresh(p), r.at);
      TakeOk(p, Fresh(p), r.at);
    }
  }

  lemma StepAgrees(p: Params, l: Limiter, k: Kept, ip: string, t: real, r: Request)
    requires ValidParams(p) && p.burst as real <= p.rate * TTL && AgreeOn(p, l, k, ip, t) && t <= r.at
    requires ip in Gc(l, r.at).table && ip !in AllowStep(p, l, r).table ==> Refilled(p, Gc(l, r.at).table[ip].bucket, r.at)
    ensures r.ip == ip ==> AllowAnswer(p, l, r) == Allows(p, BucketOf(p, k, ip), r.at)
    ensures AgreeOn(p, AllowStep(p, l, r), KeepStep(p, k, r.ip, r.at), ip, r.at)
  {
    if r.ip == ip {
      OwnStepAgrees(p, l, k, t, r);
    } else {
      GcAgrees(p, l, k, ip, t, r.at);
    }
  }

  /** What a source is told does not depend on pruning, or on evictions that come late enough. */
  lemma {:induction false} SourceUnobservable(p: Params, l: Limiter, k: Kept, ip: string, t: real, reqs: seq<Request>)
    requires ValidParams(p) && p.burst as real <= p.rate * TTL
    requires AgreeOn(p, l, k, ip, t) && Monotone(t, reqs) && Spared(p, l, ip, reqs)
    ensures |Answers(p, l, reqs)| == |KeptAnswers(p, k, reqs)| == |reqs|
    ensures forall i :: 0 <= i < |reqs| && reqs[i].ip == ip ==> Answers(p, l, reqs)[i] == KeptAnswers(p, k, reqs)[i]
    decreases |reqs|
  {
    if reqs == [] {
    } else {
      var r, rest := reqs[0], reqs[1..];
      var l', k' := AllowStep(p, l, r), KeepStep(p, k, r.ip, r.at);
      StepAgrees(p, l, k, ip, t, r);
      SourceUnobservable(p, l', k', ip, r.at, rest);
      forall i | 0 <= i < |reqs| && reqs[i].ip == ip ensures Answers(p, l, reqs)[i] == KeptAnswers(p, k, reqs)[i] {
        if i > 0 {
          assert rest[i - 1] == reqs[i] && Answers(p, l', rest)[i - 1] == KeptAnswers(p, k', rest)[i - 1];
        }
      }
    }
  }

  /** A limiter that prunes, and evicts only what has refilled, answers every run like one that
      keeps every bucket. */
  lemma PruningUnobservable(p: Params, l: Limiter, k: Kept, t: real, reqs: seq<Request>)
    requires ValidParams(p) && p.burst as real <= p.rate * TTL
    requires (forall ip :: AgreeOn(p, l, k, ip, t)) && Monotone(t, reqs) && (forall ip :: Spared(p, l, ip, reqs))
    ensures Answers(p, l, reqs) == KeptAnswers(p, k, reqs)
  {
    SourceUnobservable(p, l, k, "", t, reqs);
    forall i | 0 <= i < |reqs| ensures Answers(p, l, reqs)[i] == KeptAnswers(p, k, reqs)[i] {
      SourceUnobservable(p, l, k, reqs[i].ip, t, reqs);
    }
  }

  // ---------------------------------------------------------------- the rate bound

  /** Requests of one source that were let through. */
  function Admitted(ip: string, reqs: seq<Request>, answers: seq<bool>): nat
    requires |reqs| == |answers|
  {
    if reqs == [] then 0
    else (if reqs[0].ip == ip && answers[0] then 1 else 0) + Admitted(ip, reqs[1..], answers[1..])
  }

  lemma {:induction false} KeptLength(p: Params, k: Kept, reqs: seq<Request>)
    ensures |KeptAnswers(p, k, reqs)| == |reqs|
    decreases |reqs|
  {
    if reqs == [] {
    } else {
      KeptLength(p, KeepStep(p, k, reqs[0].ip, reqs[0].at), reqs[1..]);
    }
  }

  ghost predicate KeptOk(k: Kept, t: real) {
    forall ip :: ip in k ==> BucketOk(k[ip], t)
  }

  lemma LevelBetween(p: Params, b: Bucket, t: real)
    requires p.rate > 0.0 && BucketOk(b, t)
    ensures 0.0 <= Level(p, b, t) <= p.burst as real
  {
    if b.last.Some? {
      MulPositive(p.rate, t - b.last.value);
    }
  }

  /** A level grows at most at the rate. */
  lemma LevelGrows(p: Params, b: Bucket, t: real, u: real)
    requires p.rate > 0.0 && t <= u && BucketOk(b, t)
    ensures Level(p, b, u) <= Level(p, b, t) + p.rate * (u - t)
  {
    MulPositive(p.rate, u - t);
    if b.last.Some? {
      Distribute(p.rate, b.last.value, t, u);
    }
  }

  lemma LevelAfterTake(p: Params, b: Bucket, t: real)
    requires ValidParams(p) && BucketOk(b, t)
    ensures Level(p, Take(p, b, t), t) == Level(p, b, t) - (if Allows(p, b, t) then 1.0 else 0.0)
  {
  }

  lemma KeepStepOk(p: Params, k: Kept, ip: string, t: real, now: real)
    requires ValidParams(p) && KeptOk(k, t) && t <= now
    ensures KeptOk(KeepStep(p, k, ip, now), now) && BucketOk(BucketOf(p, k, ip), now)
  {
    TakeOk(p, BucketOf(p, k, ip), now);
  }

  /** Tokens of one source, before and after one request. */
  lemma Spend(p: Params, k: Kept, ip: string, t: real, r: Request)
    requires ValidParams(p) && KeptOk(k, t) && t <= r.at
    ensures var k' := KeepStep(p, k, r.ip, r.at);
      Level(p, BucketOf(p, k', ip), r.at) + Cost(p, k, ip, r)
      <= Level(p, BucketOf(p, k, ip), t) + p.rate * (r.at - t)
  {
    var b := BucketOf(p, k, ip);
    LevelGrows(p, b, t, r.at);
    KeepStepOk(p, k, r.ip, t, r.at);
    if r.ip == ip {
      LevelAfterTake(p, b, r.at);
    }
  }

  /** The tokens that arrive while the requests are served. */
  ghost function Earned(p: Params, t: real, reqs: seq<Request>): real
    decreases |reqs|
  {
    if reqs == [] then 0.0 else p.rate * (reqs[0].at - t) + Earned(p, reqs[0].at, reqs[1..])
  }

  lemma {:induction false} EarnedBound(p: Params, t: real, end: real, reqs: seq<Request>)
    requires p.rate > 0.0 && Monotone(t, reqs) && t <= end && forall r :: r in reqs ==> r.at <= end
    ensures Earned(p, t, reqs) <= p.rate * (end - t)
    decreases |reqs|
  {
    if reqs == [] {
      MulPositive(p.rate, end - t);
    } else {
      assert reqs[0] in reqs;
      EarnedBound(p, reqs[0].at, end, reqs[1..]);
      Distribute(p.rate, t, reqs[0].at, end);
    }
  }

  lemma Distribute(rate: real, t: real, mid: real, end: real)
    ensures rate * (end - t) == rate * (mid - t) + rate * (end - mid)
  {
  }

  /** The price of one request to the source `ip`. */
  ghost function Cost(p: Params, k: Kept, ip: string, r: Request): real {
    if r.ip == ip && Allows(p, BucketOf(p, k, r.ip), r.at) then 1.0 else 0.0
  }

  lemma FirstAdmitted(p: Params, k: Kept, ip: string, r: Request, rest: seq<Request>)
    requires |KeptAnswers(p, KeepStep(p, k, r.ip, r.at), rest)| == |rest|
    ensures |KeptAnswers(p, k, [r] + rest)| == |rest| + 1
    ensures Admitted(ip, [r] + rest, KeptAnswers(p, k, [r] + rest))
         == (if Cost(p, k, ip, r) == 1.0 then 1 else 0)
            + Admitted(ip, rest, KeptAnswers(p, KeepStep(p, k, r.ip, r.at), rest))
  {
    ConsParts(r, rest);
    ConsParts(Allows(p, BucketOf(p, k, r.ip), r.at), KeptAnswers(p, KeepStep(p, k, r.ip, r.at), rest));
  }

  lemma EarnedCons(p: Params, t: real, r: Request, rest: seq<Request>)
    ensures Earned(p, t, [r] + rest) == p.rate * (r.at - t) + Earned(p, r.at, rest)
  {
    ConsParts(r, rest);
  }

  lemma PaidStep(more: nat, cost: real, level: real, level': real, e: real, earned: real, gift: real, gifts: real)
    requires more as real <= level' + earned + gifts && level' + cost <= level + e + gift && (cost == 1.0 || cost == 0.0)
    ensures ((if cost == 1.0 then 1 else 0) + more) as real <= level + (e + earned) + (gift + gifts)
  {
  }

  /** Admissions are paid for by tokens in the bucket and tokens that arrive. */
  lemma {:induction false} AdmissionsArePaid(p: Params, k: Kept, ip: string, t: real, reqs: seq<Request>)
    requires ValidParams(p) && KeptOk(k, t) && Monotone(t, reqs)
    ensures |KeptAnswers(p, k, reqs)| == |reqs|
    ensures Admitted(ip, reqs, KeptAnswers(p, k, reqs)) as real
         <= Level(p, BucketOf(p, k, ip), t) + Earned(p, t, reqs)
    decreases |reqs|
  {
    if reqs == [] {
      LevelBetween(p, BucketOf(p, k, ip), t);
    } else {
      var r, rest := reqs[0], reqs[1..];
      var k' := KeepStep(p, k, r.ip, r.at);
      assert reqs == [r] + rest;
      KeepStepOk(p, k, r.ip, t, r.at);
      AdmissionsArePaid(p, k', ip, r.at, rest);
      FirstAdmitted(p, k, ip, r, rest);
      EarnedCons(p, t, r, rest);
      Spend(p, k, ip, t, r);
      PaidStep(Admitted(ip, rest, KeptAnswers(p, k', rest)), Cost(p, k, ip, r), Level(p, BucketOf(p, k, ip), t),
               Level(p, BucketOf(p, k', ip), r.at), p.rate * (r.at - t), Earned(p, r.at, rest), 0.0, 0.0);
    }
  }

  lemma AtMostBurstPlusRate(p: Params, k: Kept, ip: string, t: real, end: real, reqs: seq<Request>)
    requires ValidParams(p) && KeptOk(k, t) && Monotone(t, reqs) && t <= end
    requires forall r :: r in reqs ==> r.at <= end
    ensures |KeptAnswers(p, k, reqs)| == |reqs|
    ensures Admitted(ip, reqs, KeptAnswers(p, k, reqs)) as real <= p.burst as real + p.rate * (end - t)
  {
    AdmissionsArePaid(p, k, ip, t, reqs);
    EarnedBound(p, t, end, reqs);
    LevelBetween(p, BucketOf(p, k, ip), t);
  }

  lemma {:induction false} MonotoneSuffix(t: real, a: seq<Request>, b: seq<Request>, u: real)
    requires Monotone(t, a + b) && forall r :: r in b ==> u <= r.at
    ensures Monotone(u, b)
    decreases |a|
  {
    if a == [] {
      Unit0(b);
      if b != [] { assert b[0] in b; }
    } else {
      AppendParts(a, b);
      MonotoneSuffix(a[0].at, a[1..], b, u);
    }
  }

  // ---------------------------------------------------------------- the rate bound, whatever is forgotten

  /** The bucket the limiter would use for the source. */
  function BucketIn(p: Params, l: Limiter, ip: string): Bucket {
    if ip in l.table then l.table[ip].bucket else Fresh(p)
  }

  /** The request makes the limiter forget the source, by pruning or eviction, before its bucket
      has refilled. */
  ghost predicate Forgets(p: Params, l: Limiter, ip: string, r: Request) {
    ip in l.table && ip !in Room(p, l, r) && !Refilled(p, l.table[ip].bucket, r.at)
  }

  /** How often that happens in a run. */
  ghost function Losses(p: Params, l: Limiter, ip: string, reqs: seq<Request>): nat
    decreases |reqs|
  {
    if reqs == [] then 0
    else (if Forgets(p, l, ip, reqs[0]) then 1 else 0) + Losses(p, AllowStep(p, l, reqs[0]), ip, reqs[1..])
  }

  /** The full buckets that the source is given back too early. */
  ghost function Gifts(p: Params, l: Limiter, ip: string, reqs: seq<Request>): real
    decreases |reqs|
  {
    if reqs == [] then 0.0
    else (if Forgets(p, l, ip, reqs[0]) then p.burst as real else 0.0) + Gifts(p, AllowStep(p, l, reqs[0]), ip, reqs[1..])
  }

  lemma {:induction false} GiftsAreLosses(p: Params, l: Limiter, ip: string, reqs: seq<Request>)
    ensures Gifts(p, l, ip, reqs) == Copies(p.burst, Losses(p, l, ip, reqs)) as real
    decreases |reqs|
  {
    if reqs == [] {
    } else {
      GiftsAreLosses(p, AllowStep(p, l, reqs[0]), ip, reqs[1..]);
    }
  }

  function Copies(x: nat, n: nat): nat {
    if n == 0 then 0 else x + Copies(x, n - 1)
  }

  lemma {:induction false} CopiesMultiply(x: nat, n: nat)
    ensures Copies(x, n) == x * n
  {
    if n == 0 {
    } else {
      CopiesMultiply(x, n - 1);
      assert x * n == x + x * (n - 1);
    }
  }

  ghost predicate SourceOk(l: Limiter, ip: string, t: real) {
    ip in l.table ==> BucketOk(l.table[ip].bucket, t)
  }

  /** The price of one request to the source. */
  ghost function Price(p: Params, l: Limiter, ip: string, r: Request): real {
    if r.ip == ip && AllowAnswer(p, l, r) then 1.0 else 0.0
  }

  lemma KnownPays(p: Params, l: Limiter, ip: string, t: real, r: Request)
    requires ValidParams(p) && SourceOk(l, ip, t) && t <= r.at && ip in Room(p, l, r)
    ensures Level(p, BucketIn(p, AllowStep(p, l, r), ip), r.at) + Price(p, l, ip, r)
         <= Level(p, BucketIn(p, l, ip), t) + p.rate * (r.at - t)
    ensures SourceOk(AllowStep(p, l, r), ip, r.at)
  {
    KnownAfter(p, l, ip, r);
    var b := l.table[ip].bucket;
    LevelGrows(p, b, t, r.at);
    if r.ip == ip {
      LevelAfterTake(p, b, r.at);
      TakeOk(p, b, r.at);
    }
  }

  /** What a request leaves of a source that stays on record. */
  lemma KnownAfter(p: Params, l: Limiter, ip: string, r: Request)
    requires ip in Room(p, l, r)
    ensures ip in l.table && ip in AllowStep(p, l, r).table && (r.ip == ip ==> Filed(p, l, r) == l.table[ip].bucket)
    ensures AllowStep(p, l, r).table[ip].bucket
         == if r.ip == ip then Take(p, l.table[ip].bucket, r.at) else l.table[ip].bucket
  {
    assert ip in Gc(l, r.at).table && Gc(l, r.at).table[ip] == l.table[ip];
  }

  /** A forgotten source starts with a full bucket. */
  lemma ForgottenIsFull(p: Params, l: Limiter, ip: string, r: Request)
    requires ValidParams(p) && ip !in Room(p, l, r)
    ensures Level(p, BucketIn(p, AllowStep(p, l, r), ip), r.at) + Price(p, l, ip, r) == p.burst as real
    ensures SourceOk(AllowStep(p, l, r), ip, r.at)
  {
    TakeOk(p, Fresh(p), r.at);
    LevelAfterTake(p, Fresh(p), r.at);
    if r.ip == ip {
      assert r.ip !in Gc(l, r.at).table;
    }
  }

  lemma FullIsCovered(p: Params, b: Bucket, t: real, u: real)
    requires ValidParams(p) && BucketOk(b, t) && t <= u
    ensures p.burst as real <= Level(p, b, t) + p.rate * (u - t) + (if Refilled(p, b, u) then 0.0 else p.burst as real)
  {
    MulPositive(p.rate, u - t);
    LevelBetween(p, b, t);
    if Refilled(p, b, u) {
      RefilledLevel(p, b, u);
      LevelGrows(p, b, t, u);
    }
  }

  lemma ForgottenPays(p: Params, l: Limiter, ip: string, t: real, r: Request)
    requires ValidParams(p) && SourceOk(l, ip, t) && t <= r.at && ip !in Room(p, l, r)
    ensures p.burst as real
         <= Level(p, BucketIn(p, l, ip), t) + p.rate * (r.at - t) + (if Forgets(p, l, ip, r) then p.burst as real else 0.0)
  {
    if ip in l.table {
      FullIsCovered(p, l.table[ip].bucket, t, r.at);
    } else {
      MulPositive(p.rate, r.at - t);
    }
  }

  lemma Pays(p: Params, l: Limiter, ip: string, t: real, r: Request)
    requires ValidParams(p) && SourceOk(l, ip, t) && t <= r.at
    ensures Level(p, BucketIn(p, AllowStep(p, l, r), ip), r.at) + Price(p, l, ip, r)
         <= Level(p, BucketIn(p, l, ip), t) + p.rate * (r.at - t) + (if Forgets(p, l, ip, r) then p.burst as real else 0.0)
    ensures SourceOk(AllowStep(p, l, r), ip, r.at)
  {
    if ip in Room(p, l, r) {
      KnownPays(p, l, ip, t, r);
    } else {
      ForgottenIsFull(p, l, ip, r);
      ForgottenPays(p, l, ip, t, r);
    }
  }

  lemma {:induction false} AnswersLength(p: Params, l: Limiter, reqs: seq<Request>)
    ensures |Answers(p, l, reqs)| == |reqs|
    decreases |reqs|
  {
    if reqs == [] {
    } else {
      AnswersLength(p, AllowStep(p, l, reqs[0]), reqs[1..]);
    }
  }

  lemma FirstTold(p: Params, l: Limiter, ip: string, r: Request, rest: seq<Request>)
    requires |Answers(p, AllowStep(p, l, r), rest)| == |rest| && |Answers(p, l, [r] + rest)| == |rest| + 1
    ensures Admitted(ip, [r] + rest, Answers(p, l, [r] + rest))
         == (if Price(p, l, ip, r) == 1.0 then 1 else 0) + Admitted(ip, rest, Answers(p, AllowStep(p, l, r), rest))
    ensures Gifts(p, l, ip, [r] + rest)
         == (if Forgets(p, l, ip, r) then p.burst as real else 0.0) + Gifts(p, AllowStep(p, l, r), ip, rest)
  {
    ConsParts(r, rest);
    ConsParts(AllowAnswer(p, l, r), Answers(p, AllowStep(p, l, r), rest));
  }

  /** Admissions are paid for by tokens in the bucket, tokens that arrive, and one full bucket each
      time the source is forgotten too early. */
  lemma {:induction false} AdmissionsArePaidOr(p: Params, l: Limiter, ip: string, t: real, reqs: seq<Request>)
    requires ValidParams(p) && SourceOk(l, ip, t) && Monotone(t, reqs)
    ensures |Answers(p, l, reqs)| == |reqs|
    ensures Admitted(ip, reqs, Answers(p, l, reqs)) as real
         <= Level(p, BucketIn(p, l, ip), t) + Earned(p, t, reqs) + Gifts(p, l, ip, reqs)
    decreases |reqs|
  {
    AnswersLength(p, l, reqs);
    if reqs == [] {
      LevelBetween(p, BucketIn(p, l, ip), t);
    } else {
      var r, rest := reqs[0], reqs[1..];
      assert reqs == [r] + rest;
      Pays(p, l, ip, t, r);
      AdmissionsArePaidOr(p, AllowStep(p, l, r), ip, r.at, rest);
      PaidCons(p, l, ip, t, r, rest);
    }
  }

  /** The admissions of the first request and of the rest are paid for by the budgets of both. */
  lemma PaidCons(p: Params, l: Limiter, ip: string, t: real, r: Request, rest: seq<Request>)
    requires var l' := AllowStep(p, l, r);
      && |Answers(p, l', rest)| == |rest| && |Answers(p, l, [r] + rest)| == |rest| + 1
      && Level(p, BucketIn(p, l', ip), r.at) + Price(p, l, ip, r)
         <= Level(p, BucketIn(p, l, ip), t) + p.rate * (r.at - t) + (if Forgets(p, l, ip, r) then p.burst as real else 0.0)
      && Admitted(ip, rest, Answers(p, l', rest)) as real
         <= Level(p, BucketIn(p, l', ip), r.at) + Earned(p, r.at, rest) + Gifts(p, l', ip, rest)
    ensures Admitted(ip, [r] + rest, Answers(p, l, [r] + rest)) as real
         <= Level(p, BucketIn(p, l, ip), t) + Earned(p, t, [r] + rest) + Gifts(p, l, ip, [r] + rest)
  {
    var l' := AllowStep(p, l, r);
    FirstTold(p, l, ip, r, rest);
    EarnedCons(p, t, r, rest);
    PaidStep(Admitted(ip, rest, Answers(p, l', rest)), Price(p, l, ip, r), Level(p, BucketIn(p, l, ip), t),
             Level(p, BucketIn(p, l', ip), r.at), p.rate * (r.at - t), Earned(p, r.at, rest),
             if Forgets(p, l, ip, r) then p.burst as real else 0.0, Gifts(p, l', ip, rest));
  }

  lemma {:induction false} AnswersAppend(p: Params, l: Limiter, a: seq<Request>, b: seq<Request>)
    ensures Answers(p, l, a + b) == Answers(p, l, a) + Answers(p, After(p, l, a), b)
    decreases |a|
  {
    if a == [] {
      Unit0(b);
      Unit0(Answers(p, l, b));
    } else {
      AppendParts(a, b);
      AnswersAppend(p, AllowStep(p, l, a[0]), a[1..], b);
    }
  }

  lemma {:induction false} SourceOkAfter(p: Params, l: Limiter, ip: string, t: real, a: seq<Request>, b: seq<Request>, u: real)
    requires ValidParams(p) && SourceOk(l, ip, t) && Monotone(t, a + b) && t <= u
    requires forall r :: r in a ==> r.at <= u
    ensures SourceOk(After(p, l, a), ip, u)
    decreases |a|
  {
    if a == [] {
    } else {
      AppendParts(a, b);
      assert a[0] in a;
      Pays(p, l, ip, t, a[0]);
      SourceOkAfter(p, AllowStep(p, l, a[0]), ip, a[0].at, a[1..], b, u);
    }
  }

  /** Rate limiting on every run, full tables and floods included: in any window of length
      `end - start` a source is let in at most `burst + rate * (end - start)` times, and `burst`
      times more for each time in the window that it is forgotten before its bucket has refilled. */
  lemma WindowBound(p: Params, before: seq<Request>, window: seq<Request>, ip: string, t: real, start: real, end: real)
    requires ValidParams(p) && Monotone(t, before + window) && t <= start <= end
    requires (forall r :: r in before ==> r.at <= start) && (forall r :: r in window ==> start <= r.at <= end)
    ensures |Answers(p, EMPTY, before + window)| == |before| + |window|
    ensures Admitted(ip, window, Answers(p, EMPTY, before + window)[|before|..]) as real
         <= p.burst as real + p.rate * (end - start) + (p.burst * Losses(p, After(p, EMPTY, before), ip, window)) as real
  {
    var l := After(p, EMPTY, before);
    AnswersLength(p, EMPTY, before);
    AnswersLength(p, l, window);
    AnswersAppend(p, EMPTY, before, window);
    assert Answers(p, EMPTY, before + window)[|before|..] == Answers(p, l, window);
    SourceOkAfter(p, EMPTY, ip, t, before, window, start);
    MonotoneSuffix(t, before, window, start);
    AdmissionsArePaidOr(p, l, ip, start, window);
    GiftsAreLosses(p, l, ip, window);
    CopiesMultiply(p.burst, Losses(p, l, ip, window));
    EarnedBound(p, start, end, window);
    LevelBetween(p, BucketIn(p, l, ip), start);
  }

  /** Where a bucket refills within an entry's lifetime, a source that is not evicted too early is
      not forgotten too early. */
  lemma {:induction false} SparedLosesNothing(p: Params, l: Limiter, k: Kept, ip: string, t: real, reqs: seq<Request>)
    requires ValidParams(p) && p.burst as real <= p.rate * TTL
    requires AgreeOn(p, l, k, ip, t) && Monotone(t, reqs) && Spared(p, l, ip, reqs)
    ensures Losses(p, l, ip, reqs) == 0
    decreases |reqs|
  {
    if reqs == [] {
    } else {
      var r := reqs[0];
      GcAgrees(p, l, k, ip, t, r.at);
      StepAgrees(p, l, k, ip, t, r);
      SparedLosesNothing(p, AllowStep(p, l, r), KeepStep(p, k, r.ip, r.at), ip, r.at, reqs[1..]);
    }
  }

  // ---------------------------------------------------------------- when pruning shows

  /** `n` requests of one source at one moment. */
  function Volley(ip: string, t: real, n: nat): (reqs: seq<Request>)
    ensures |reqs| == n
  {
    if n == 0 then [] else [Request(ip, t, [])] + Volley(ip, t, n - 1)
  }

  function Yes(n: nat): (a: seq<bool>)
    ensures |a| == n
  {
    if n == 0 then [] else [true] + Yes(n - 1)
  }

  /** One source on record, last seen at `t`, when the last pruning was. */
  ghost predicate Alone(l: Limiter, ip: string, t: real) {
    l.lastGC == Some(t) && l.table.Keys == {ip} && l.table[ip].seen == t
    && l.table[ip].bucket.last == Some(t)
  }

  lemma AloneSpends(p: Params, l: Limiter, ip: string, t: real)
    requires ValidParams(p) && Alone(l, ip, t) && 1.0 <= l.table[ip].bucket.tokens <= p.burst as real
    ensures var r := Request(ip, t, []);
      && AllowAnswer(p, l, r) && !Full(p, l, r) && Alone(AllowStep(p, l, r), ip, t)
      && AllowStep(p, l, r).table[ip].bucket.tokens == l.table[ip].bucket.tokens - 1.0
  {
    assert Gc(l, t) == l;
    assert Level(p, l.table[ip].bucket, t) == l.table[ip].bucket.tokens;
  }

  /** A source alone with `n` tokens gets `n` requests of one moment through, whatever follows. */
  lemma {:induction false} VolleyPasses(p: Params, l: Limiter, ip: string, t: real, n: nat, more: seq<Request>)
    requires ValidParams(p) && Alone(l, ip, t) && n as real <= l.table[ip].bucket.tokens <= p.burst as real
    ensures Answers(p, l, Volley(ip, t, n) + more) == Yes(n) + Answers(p, After(p, l, Volley(ip, t, n)), more)
    ensures NeverFull(p, l, Volley(ip, t, n) + more) <==> NeverFull(p, After(p, l, Volley(ip, t, n)), more)
    ensures Alone(After(p, l, Volley(ip, t, n)), ip, t)
    decreases n
  {
    if n == 0 {
      Unit0(more);
      Unit0(Answers(p, l, more));
    } else {
      var r, rest := Request(ip, t, []), Volley(ip, t, n - 1);
      ConsParts(r, rest);
      Assoc([r], rest, more);
      ConsParts(r, rest + more);
      var l' := AllowStep(p, l, r);
      AloneSpends(p, l, ip, t);
      VolleyPasses(p, l', ip, t, n - 1, more);
      Assoc([true], Yes(n - 1), Answers(p, After(p, l', rest), more));
    }
  }

  /** A full volley passes whenever the table is empty after the pruning it triggers. */
  lemma FirstVolley(p: Params, l: Limiter, ip: string, t: real, more: seq<Request>)
    requires ValidParams(p) && Gc(l, t) == Limiter(map[], Some(t))
    ensures Answers(p, l, Volley(ip, t, p.burst) + more)
         == Yes(p.burst) + Answers(p, After(p, l, Volley(ip, t, p.burst)), more)
    ensures NeverFull(p, l, Volley(ip, t, p.burst) + more) <==> NeverFull(p, After(p, l, Volley(ip, t, p.burst)), more)
    ensures Alone(After(p, l, Volley(ip, t, p.burst)), ip, t)
  {
    var r, n := Request(ip, t, []), p.burst - 1;
    var rest := Volley(ip, t, n);
    ConsParts(r, rest);
    Assoc([r], rest, more);
    ConsParts(r, rest + more);
    var l' := AllowStep(p, l, r);
    assert l'.table[ip].bucket == Bucket(p.burst as real - 1.0, Some(t));
    assert Alone(l', ip, t);
    VolleyPasses(p, l', ip, t, n, more);
    Assoc([true], Yes(n), Answers(p, After(p, l', rest), more));
  }

  lemma {:induction false} VolleyMonotone(ip: string, t: real, n: nat, u: real, more: seq<Request>)
    requires u <= t && Monotone(t, more)
    ensures Monotone(u, Volley(ip, t, n) + more)
    ensures forall r :: r in Volley(ip, t, n) ==> r.at == t && r.ip == ip
    decreases n
  {
    if n == 0 {
      Unit0(more);
    } else {
      Assoc([Request(ip, t, [])], Volley(ip, t, n - 1), more);
      ConsParts(Request(ip, t, []), Volley(ip, t, n - 1) + more);
      VolleyMonotone(ip, t, n - 1, t, more);
    }
  }

  lemma {:induction false} AllAdmitted(ip: string, reqs: seq<Request>, answers: seq<bool>)
    requires |reqs| == |answers| && (forall r :: r in reqs ==> r.ip == ip)
    requires forall i :: 0 <= i < |answers| ==> answers[i]
    ensures Admitted(ip, reqs, answers) == |reqs|
  {
    if reqs == [] {
    } else {
      assert reqs[0] in reqs;
      AllAdmitted(ip, reqs[1..], answers[1..]);
    }
  }

  lemma {:induction false} YesIsTrue(n: nat)
    ensures forall i :: 0 <= i < n ==> Yes(n)[i]
  {
    if n == 0 {
    } else {
      YesIsTrue(n - 1);
    }
  }

  /** Two volleys, the second just after the first is forgotten but not yet refilled. */
  lemma PruningShows(p: Params, ip: string) returns (reqs: seq<Request>)
    requires ValidParams(p) && p.burst as real > p.rate * TTL
    ensures Monotone(0.0, reqs) && NeverFull(p, EMPTY, reqs)
    ensures Answers(p, EMPTY, reqs) != KeptAnswers(p, map[], reqs)
  {
    var t := RefillMoment(p.rate, p.burst as real);
    var first, second := Volley(ip, 0.0, p.burst), Volley(ip, t, p.burst);
    reqs := first + second;
    Unit0(second);
    VolleyMonotone(ip, t, p.burst, 0.0, []);
    VolleyMonotone(ip, t, p.burst, t, []);
    VolleyMonotone(ip, 0.0, p.burst, 0.0, second);
    FirstVolley(p, EMPTY, ip, 0.0, second);
    var l := After(p, EMPTY, first);
    assert Gc(l, t).table == map[];
    FirstVolley(p, l, ip, t, []);
    var yes := Yes(p.burst) + Yes(p.burst);
    assert Answers(p, EMPTY, reqs) == yes by { Unit0(Yes(p.burst)); }
    YesIsTrue(p.burst);
    assert forall i :: 0 <= i < |yes| ==> yes[i];
    TooMany(p, ip, t, reqs, yes);
  }

  /** A bucket that is kept cannot let two full volleys through before it has refilled. */
  lemma TooMany(p: Params, ip: string, t: real, reqs: seq<Request>, yes: seq<bool>)
    requires ValidParams(p) && t > 0.0 && p.rate * t < p.burst as real && Monotone(0.0, reqs)
    requires forall r :: r in reqs ==> r.ip == ip && r.at <= t
    requires |reqs| == |yes| == 2 * p.burst && forall i :: 0 <= i < |yes| ==> yes[i]
    ensures KeptAnswers(p, map[], reqs) != yes
  {
    AtMostBurstPlusRate(p, map[], ip, 0.0, t, reqs);
    AllAdmitted(ip, reqs, yes);
  }

  /** After the TTL, before the bucket is full again. */
  lemma RefillMoment(rate: real, b: real) returns (t: real)
    requires rate > 0.0 && b > rate * TTL
    ensures t > TTL && rate * t < b
  {
    t := (b / rate + TTL) / 2.0;
    assert rate * (b / rate) == b;
    assert b / rate > TTL by {
      if b / rate <= TTL { MulMono(rate, b / rate, TTL); }
    }
    assert rate * t == (rate * (b / rate) + rate * TTL) / 2.0;
  }

  /** Every eviction of the run comes after the bucket has refilled. */
  ghost predicate AllSpared(p: Params, reqs: seq<Request>) {
    forall ip :: Spared(p, EMPTY, ip, reqs)
  }

  /** Pruning is unobservable on all runs exactly when a bucket refills within the TTL. */
  lemma PruningUnobservableIff(p: Params)
    requires ValidParams(p)
    ensures (forall reqs :: Monotone(0.0, reqs) && AllSpared(p, reqs) ==>
               Answers(p, EMPTY, reqs) == KeptAnswers(p, map[], reqs))
       <==> p.burst as real <= p.rate * TTL
  {
    if p.burst as real <= p.rate * TTL {
      forall reqs | Monotone(0.0, reqs) && AllSpared(p, reqs)
        ensures Answers(p, EMPTY, reqs) == KeptAnswers(p, map[], reqs)
      {
        PruningUnobservable(p, EMPTY, map[], 0.0, reqs);
      }
    } else {
      var reqs := PruningShows(p, "192.0.2.1");
      forall ip {
        NeverFullSpares(p, EMPTY, ip, reqs);
      }
      assert AllSpared(p, reqs);
    }
  }

  // ---------------------------------------------------------------- the table stays bounded

  lemma {:induction false} StalestIsOldest(t: Table, order: seq<string>)
    requires (forall ip :: ip in order ==> ip in t) && "" !in order && order != []
    ensures Stalest(t, order) in order
    ensures forall ip :: ip in order ==> t[Stalest(t, order)].seen <= t[ip].seen
    decreases |order|
  {
    var n := |order| - 1;
    assert order == order[..n] + [order[n]];
    if n == 0 {
    } else {
      StalestIsOldest(t, order[..n]);
    }
  }

  /** Eviction removes one entry, and one with the smallest `seen`. */
  lemma EvictsOldest(t: Table, order: seq<string>)
    requires "" !in t && t != map[] && Lists(order, t)
    ensures exists gone :: gone in t && Evict(t, order) == t - {gone} && forall ip :: ip in t ==> t[gone].seen <= t[ip].seen
    ensures |Evict(t, order)| == |t| - 1
  {
    var x :| x in t;
    assert x in order;
    StalestIsOldest(t, order);
    var gone := Stalest(t, order);
    assert (t - {gone}).Keys == t.Keys - {gone};
  }

  /** The unnamed source is visited last and is strictly older than all others. */
  ghost predicate UnnamedLast(t: Table, order: seq<string>) {
    && order != [] && order[|order| - 1] == "" && "" in t
    && forall ip :: ip in t && ip != "" ==> t[""].seen < t[ip].seen
  }

  lemma StalestSnoc(t: Table, before: seq<string>, last: string)
    requires last in t
    ensures var prev := Stalest(t, before);
      Stalest(t, before + [last]) ==
        if prev == "" || prev !in t || t[last].seen < t[prev].seen then last else prev
  {
    assert (before + [last])[..|before|] == before;
  }

  lemma ListedBefore(t: Table, before: seq<string>, last: string)
    requires Lists(before + [last], t)
    ensures last in t && last !in before && forall ip :: ip in before <==> ip in t && ip != last
  {
    var order := before + [last];
    assert order[|before|] == last;
    assert forall ip :: ip in order <==> ip in before || ip == last;
    forall i | 0 <= i < |before| ensures before[i] != last {
      assert order[i] == before[i];
    }
  }

  lemma NothingChosenIff(t: Table, before: seq<string>, last: string)
    requires Lists(before + [last], t)
    ensures Stalest(t, before + [last]) == "" <==>
            last == "" && forall ip :: ip in before ==> t[""].seen < t[ip].seen
  {
    ListedBefore(t, before, last);
    StalestSnoc(t, before, last);
    if last == "" && before != [] {
      StalestIsOldest(t, before);
    }
  }

  /** The scan's sentinel is the empty name: exactly then does an eviction remove nothing. */
  lemma EvictsNothingIff(t: Table, order: seq<string>)
    requires t != map[] && Lists(order, t)
    ensures Evict(t, order) == t <==> UnnamedLast(t, order)
    ensures |Evict(t, order)| == |t| - (if UnnamedLast(t, order) then 0 else 1)
  {
    var x :| x in t;
    assert x in order;
    var before, last := order[..|order| - 1], order[|order| - 1];
    assert order == before + [last];
    ListedBefore(t, before, last);
    NothingChosenIff(t, before, last);
    StalestChosen(t, order);
    var gone := Stalest(t, order);
    if gone != "" {
      assert (t - {gone}).Keys == t.Keys - {gone};
    }
  }

  lemma {:induction false} StalestChosen(t: Table, order: seq<string>)
    requires forall ip :: ip in order ==> ip in t
    ensures Stalest(t, order) == "" || Stalest(t, order) in order
    decreases |order|
  {
    if order == [] {
    } else {
      var n := |order| - 1;
      StalestChosen(t, order[..n]);
    }
  }

  lemma GcShrinks(l: Limiter, now: real)
    ensures |Gc(l, now).table| <= |l.table| && Gc(l, now).table.Keys <= l.table.Keys
  {
    SubsetSize(Gc(l, now).table.Keys, l.table.Keys);
  }

  lemma PutSize(t: Table, ip: string, e: Entry)
    ensures |t[ip := e]| == |t| + (if ip in t then 0 else 1)
  {
    assert t[ip := e].Keys == t.Keys + {ip};
  }

  /** One request takes a table from within its bound to over it exactly when it finds the table
      full and the eviction, for want of a name, removes nothing. */
  lemma OverflowIff(p: Params, l: Limiter, r: Request)
    requires ValidParams(p) && |l.table| <= p.maxEntries
    requires Full(p, l, r) ==> Lists(r.order, Gc(l, r.at).table)
    ensures |AllowStep(p, l, r).table| > p.maxEntries <==>
            Full(p, l, r) && UnnamedLast(Gc(l, r.at).table, r.order)
  {
    GcShrinks(l, r.at);
    var t := Gc(l, r.at).table;
    PutSize(Room(p, l, r), r.ip, Entry(Take(p, Filed(p, l, r), r.at), r.at));
    if Full(p, l, r) {
      EvictsNothingIff(t, r.order);
    }
  }

  lemma NamedStays(p: Params, l: Limiter, r: Request)
    requires "" !in l.table && r.ip != ""
    ensures "" !in AllowStep(p, l, r).table
  {
  }

  /** With named sources the per-source table never outgrows its bound, whatever the requests and
      however the map is visited. */
  lemma {:induction false} AlwaysBounded(p: Params, l: Limiter, reqs: seq<Request>)
    requires ValidParams(p) && |l.table| <= p.maxEntries && "" !in l.table
    requires Scanned(p, l, reqs) && forall r :: r in reqs ==> r.ip != ""
    ensures |After(p, l, reqs).table| <= p.maxEntries
    decreases |reqs|
  {
    if reqs == [] {
    } else {
      GcShrinks(l, reqs[0].at);
      OverflowIff(p, l, reqs[0]);
      NamedStays(p, l, reqs[0]);
      AlwaysBounded(p, AllowStep(p, l, reqs[0]), reqs[1..]);
    }
  }

  // ---------------------------------------------------------------- an unnamed source

  function Name(i: nat): string {
    seq(i + 1, _ => 'x')
  }

  function Names(k: nat): seq<string> {
    seq(k, i requires 0 <= i => Name(i))
  }

  /** The unnamed source, seen at 0, and `k` named ones, seen at 1. */
  ghost predicate Crowd(l: Limiter, k: nat) {
    && l.lastGC == Some(0.0) && Lists(Names(k) + [""], l.table) && |l.table| == k + 1
    && "" in l.table && l.table[""].seen == 0.0
    && forall ip :: ip in l.table && ip != "" ==> l.table[ip].seen == 1.0
  }

  lemma CrowdGrows(p: Params, l: Limiter, k: nat)
    requires Crowd(l, k) && k + 1 < p.maxEntries
    ensures Crowd(AllowStep(p, l, Request(Name(k), 1.0, Names(k) + [""])), k + 1)
  {
    var r := Request(Name(k), 1.0, Names(k) + [""]);
    var l' := AllowStep(p, l, r);
    NameIsNew(k);
    assert Gc(l, 1.0) == l;
    PutSize(l.table, r.ip, Entry(Take(p, Fresh(p), 1.0), 1.0));
    NamesDiffer(k + 1);
    forall ip ensures ip in Names(k + 1) + [""] <==> ip in l'.table {
      OneMoreName(k, ip);
    }
  }

  lemma OneMoreName(k: nat, ip: string)
    ensures ip in Names(k + 1) + [""] <==> ip in Names(k) + [""] || ip == Name(k)
  {
    assert Names(k + 1) == Names(k) + [Name(k)];
  }

  lemma NamesDiffer(k: nat)
    ensures var order := Names(k) + [""];
      forall i, j :: 0 <= i < j < |order| ==> order[i] != order[j]
  {
    var order := Names(k) + [""];
    forall i, j | 0 <= i < j < |order| ensures order[i] != order[j] {
      assert j < k ==> |order[i]| == i + 1 && |order[j]| == j + 1;
    }
  }

  lemma NameIsNew(k: nat)
    ensures Name(k) !in Names(k) + [""]
  {
    forall i | 0 <= i < k ensures Names(k)[i] != Name(k) {
      assert |Names(k)[i]| == i + 1;
    }
  }

  lemma {:induction false} Fill(p: Params, l: Limiter, k: nat) returns (reqs: seq<Request>)
    requires ValidParams(p) && Crowd(l, k) && k < p.maxEntries
    ensures Scanned(p, l, reqs) && Monotone(1.0, reqs) && |After(p, l, reqs).table| == p.maxEntries + 1
    decreases p.maxEntries - k
  {
    var r := Request(Name(k), 1.0, Names(k) + [""]);
    assert Gc(l, 1.0) == l;
    NameIsNew(k);
    if k + 1 == p.maxEntries {
      reqs := [r];
      assert reqs[1..] == [];
      assert UnnamedLast(l.table, r.order);
      EvictsNothingIff(l.table, r.order);
      PutSize(l.table, r.ip, Entry(Take(p, Fresh(p), 1.0), 1.0));
    } else {
      CrowdGrows(p, l, k);
      var rest := Fill(p, AllowStep(p, l, r), k + 1);
      reqs := [r] + rest;
      ConsParts(r, rest);
    }
  }

  /** For every bound there is a run that exceeds it, if the empty name can be a source. */
  lemma UnnamedSourceOverflows(p: Params) returns (reqs: seq<Request>)
    requires ValidParams(p)
    ensures Monotone(0.0, reqs) && Scanned(p, EMPTY, reqs) && |After(p, EMPTY, reqs).table| == p.maxEntries + 1
  {
    var r := Request("", 0.0, []);
    var l := AllowStep(p, EMPTY, r);
    assert Gc(EMPTY, 0.0) == Limiter(map[], Some(0.0));
    assert l.table.Keys == {""};
    assert Names(0) + [""] == [""];
    assert |l.table| == 1 by { PutSize(map[], "", l.table[""]); }
    var rest := Fill(p, l, 0);
    reqs := [r] + rest;
    ConsParts(r, rest);
  }
}
