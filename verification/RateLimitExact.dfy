/** Exactly which requests the limiter lets in, in terms of the requests and answers before them. */
module RateLimitExact {
  import opened Bytes
  import opened RateLimit
  import opened RateLimitProofs

  /** Requests of the source that were let in at `s` or later. */
  function AdmittedSince(ip: string, s: real, reqs: seq<Request>, answers: seq<bool>): nat
    requires |reqs| == |answers|
  {
    if reqs == [] then 0
    else
      var n := |reqs| - 1;
      AdmittedSince(ip, s, reqs[..n], answers[..n]) + (if reqs[n].ip == ip && answers[n] && s <= reqs[n].at then 1 else 0)
  }

  /** One more admission at `t` fits the window that opens at `s`. */
  ghost predicate FitsSince(p: Params, ip: string, s: real, t: real, reqs: seq<Request>, answers: seq<bool>)
    requires |reqs| == |answers|
  {
    AdmittedSince(ip, s, reqs, answers) as real + 1.0 <= p.burst as real + p.rate * (t - s)
  }

  /** And every window that ends at `t`. */
  ghost predicate Conforms(p: Params, ip: string, t: real, reqs: seq<Request>, answers: seq<bool>)
    requires |reqs| == |answers|
  {
    forall s :: s <= t ==> FitsSince(p, ip, s, t, reqs, answers)
  }

  // ---------------------------------------------------------------- counting

  lemma SinceSnoc(ip: string, s: real, reqs: seq<Request>, answers: seq<bool>, r: Request, yes: bool)
    requires |reqs| == |answers|
    ensures AdmittedSince(ip, s, reqs + [r], answers + [yes])
         == AdmittedSince(ip, s, reqs, answers) + (if r.ip == ip && yes && s <= r.at then 1 else 0)
  {
    assert (reqs + [r])[..|reqs|] == reqs && (answers + [yes])[..|reqs|] == answers;
  }

  lemma {:induction false} NoneSince(ip: string, s: real, reqs: seq<Request>, answers: seq<bool>)
    requires |reqs| == |answers| && forall r :: r in reqs ==> r.at < s
    ensures AdmittedSince(ip, s, reqs, answers) == 0
  {
    if reqs == [] {
    } else {
      var n := |reqs| - 1;
      assert reqs[n] in reqs;
      NoneSince(ip, s, reqs[..n], answers[..n]);
    }
  }

  // ---------------------------------------------------------------- a level is the tightest window

  /** What the window that opens at `s` leaves at `t`. */
  ghost function Slack(p: Params, ip: string, s: real, t: real, reqs: seq<Request>, answers: seq<bool>): real
    requires |reqs| == |answers|
  {
    p.burst as real + p.rate * (t - s) - AdmittedSince(ip, s, reqs, answers) as real
  }

  /** No window leaves less than `level`. */
  ghost predicate AtMostSlack(p: Params, level: real, ip: string, t: real, reqs: seq<Request>, answers: seq<bool>)
    requires |reqs| == |answers|
  {
    forall s :: s <= t ==> level <= Slack(p, ip, s, t, reqs, answers)
  }

  /** Some window leaves no more than `level`. */
  ghost predicate AtLeastSlack(p: Params, level: real, ip: string, t: real, reqs: seq<Request>, answers: seq<bool>)
    requires |reqs| == |answers|
  {
    exists s :: s <= t && Slack(p, ip, s, t, reqs, answers) <= level
  }

  lemma LevelLater(p: Params, b: Bucket, t: real, u: real)
    requires p.rate > 0.0 && BucketOk(b, t) && t <= u
    ensures Level(p, b, u) == Min(p.burst as real, Level(p, b, t) + p.rate * (u - t))
  {
    MulPositive(p.rate, u - t);
    if b.last.Some? {
      Distribute(p.rate, b.last.value, t, u);
    }
  }

  lemma SlackLater(p: Params, ip: string, s: real, t: real, u: real, reqs: seq<Request>, answers: seq<bool>)
    requires |reqs| == |answers|
    ensures Slack(p, ip, s, u, reqs, answers) == Slack(p, ip, s, t, reqs, answers) + p.rate * (u - t)
  {
    Distribute(p.rate, s, t, u);
  }

  /** Time passes: windows that open after the last request are as good as new. */
  lemma AtMostLater(p: Params, b: Bucket, ip: string, t: real, u: real, reqs: seq<Request>, answers: seq<bool>)
    requires p.rate > 0.0 && BucketOk(b, t) && t <= u
    requires |reqs| == |answers| && forall r :: r in reqs ==> r.at <= t
    requires AtMostSlack(p, Level(p, b, t), ip, t, reqs, answers)
    ensures AtMostSlack(p, Level(p, b, u), ip, u, reqs, answers)
  {
    LevelLater(p, b, t, u);
    forall s | s <= u ensures Level(p, b, u) <= Slack(p, ip, s, u, reqs, answers) {
      if s <= t {
        SlackLater(p, ip, s, t, u, reqs, answers);
      } else {
        NoneSince(ip, s, reqs, answers);
        MulPositive(p.rate, u - s);
      }
    }
  }

  lemma AtLeastLater(p: Params, b: Bucket, ip: string, t: real, u: real, reqs: seq<Request>, answers: seq<bool>)
    requires p.rate > 0.0 && BucketOk(b, t) && t <= u && |reqs| == |answers|
    requires AtLeastSlack(p, Level(p, b, t), ip, t, reqs, answers)
    ensures AtLeastSlack(p, Level(p, b, u), ip, u, reqs, answers)
  {
    LevelLater(p, b, t, u);
    var s :| s <= t && Slack(p, ip, s, t, reqs, answers) <= Level(p, b, t);
    SlackLater(p, ip, s, t, u, reqs, answers);
    if Slack(p, ip, s, u, reqs, answers) > Level(p, b, u) {
      FullIsEnough(p, Level(p, b, u), ip, u, reqs, answers);
    }
  }

  lemma FullIsEnough(p: Params, level: real, ip: string, t: real, reqs: seq<Request>, answers: seq<bool>)
    requires |reqs| == |answers| && level >= p.burst as real
    ensures AtLeastSlack(p, level, ip, t, reqs, answers)
  {
    assert Slack(p, ip, t, t, reqs, answers) <= level;
  }

  /** One request at `t`, let in or not. */
  lemma SlackSnoc(p: Params, ip: string, s: real, t: real, reqs: seq<Request>, answers: seq<bool>, r: Request, yes: bool)
    requires |reqs| == |answers| && r.at == t && s <= t
    ensures Slack(p, ip, s, t, reqs + [r], answers + [yes])
         == Slack(p, ip, s, t, reqs, answers) - (if r.ip == ip && yes then 1.0 else 0.0)
  {
    SinceSnoc(ip, s, reqs, answers, r, yes);
  }

  lemma AtMostSnoc(p: Params, level: real, ip: string, reqs: seq<Request>, answers: seq<bool>, r: Request, yes: bool)
    requires |reqs| == |answers| && AtMostSlack(p, level, ip, r.at, reqs, answers)
    ensures AtMostSlack(p, level - (if r.ip == ip && yes then 1.0 else 0.0), ip, r.at, reqs + [r], answers + [yes])
  {
    forall s | s <= r.at
      ensures level - (if r.ip == ip && yes then 1.0 else 0.0) <= Slack(p, ip, s, r.at, reqs + [r], answers + [yes])
    {
      SlackSnoc(p, ip, s, r.at, reqs, answers, r, yes);
    }
  }

  lemma AtLeastSnoc(p: Params, level: real, ip: string, reqs: seq<Request>, answers: seq<bool>, r: Request, yes: bool)
    requires |reqs| == |answers| && AtLeastSlack(p, level, ip, r.at, reqs, answers)
    ensures AtLeastSlack(p, level - (if r.ip == ip && yes then 1.0 else 0.0), ip, r.at, reqs + [r], answers + [yes])
  {
    var s :| s <= r.at && Slack(p, ip, s, r.at, reqs, answers) <= level;
    SlackSnoc(p, ip, s, r.at, reqs, answers, r, yes);
  }

  // ---------------------------------------------------------------- the limiter that keeps every bucket

  /** The source's level, `past` and `told` being all requests so far and their answers. */
  ghost predicate Exact(p: Params, k: Kept, ip: string, t: real, past: seq<Request>, told: seq<bool>) {
    && |past| == |told| && KeptOk(k, t) && (forall r :: r in past ==> r.at <= t)
    && AtMostSlack(p, Level(p, BucketOf(p, k, ip), t), ip, t, past, told)
    && AtLeastSlack(p, Level(p, BucketOf(p, k, ip), t), ip, t, past, told)
  }

  lemma SlackAtStart(p: Params, ip: string, s: real, t: real)
    requires p.rate > 0.0 && s <= t
    ensures p.burst as real <= Slack(p, ip, s, t, [], [])
  {
    MulPositive(p.rate, t - s);
    assert AdmittedSince(ip, s, [], []) == 0;
  }

  lemma StartExact(p: Params, ip: string, t: real)
    requires ValidParams(p)
    ensures Exact(p, map[], ip, t, [], [])
  {
    forall s | s <= t ensures p.burst as real <= Slack(p, ip, s, t, [], []) {
      SlackAtStart(p, ip, s, t);
    }
    FullIsEnough(p, p.burst as real, ip, t, [], []);
  }

  lemma ExactLater(p: Params, k: Kept, ip: string, t: real, u: real, past: seq<Request>, told: seq<bool>)
    requires ValidParams(p) && Exact(p, k, ip, t, past, told) && t <= u
    ensures Exact(p, k, ip, u, past, told)
  {
    AtMostLater(p, BucketOf(p, k, ip), ip, t, u, past, told);
    AtLeastLater(p, BucketOf(p, k, ip), ip, t, u, past, told);
  }

  lemma ExactAnswers(p: Params, k: Kept, ip: string, t: real, past: seq<Request>, told: seq<bool>)
    requires Exact(p, k, ip, t, past, told)
    ensures Allows(p, BucketOf(p, k, ip), t) <==> Conforms(p, ip, t, past, told)
  {
    var level := Level(p, BucketOf(p, k, ip), t);
    if level >= 1.0 {
      forall s | s <= t ensures FitsSince(p, ip, s, t, past, told) {
        assert level <= Slack(p, ip, s, t, past, told);
      }
    } else {
      var s :| s <= t && Slack(p, ip, s, t, past, told) <= level;
      assert !FitsSince(p, ip, s, t, past, told);
    }
  }

  lemma LevelAfterStep(p: Params, k: Kept, ip: string, r: Request)
    requires ValidParams(p) && KeptOk(k, r.at)
    ensures var yes := Allows(p, BucketOf(p, k, r.ip), r.at);
      Level(p, BucketOf(p, KeepStep(p, k, r.ip, r.at), ip), r.at)
      == Level(p, BucketOf(p, k, ip), r.at) - (if r.ip == ip && yes then 1.0 else 0.0)
    ensures KeptOk(KeepStep(p, k, r.ip, r.at), r.at)
  {
    KeepStepOk(p, k, r.ip, r.at, r.at);
    if r.ip == ip {
      LevelAfterTake(p, BucketOf(p, k, ip), r.at);
    }
  }

  lemma ExactStep(p: Params, k: Kept, ip: string, past: seq<Request>, told: seq<bool>, r: Request)
    requires ValidParams(p) && Exact(p, k, ip, r.at, past, told)
    ensures Exact(p, KeepStep(p, k, r.ip, r.at), ip, r.at, past + [r], told + [Allows(p, BucketOf(p, k, r.ip), r.at)])
  {
    var level, yes := Level(p, BucketOf(p, k, ip), r.at), Allows(p, BucketOf(p, k, r.ip), r.at);
    LevelAfterStep(p, k, ip, r);
    AtMostSnoc(p, level, ip, past, told, r, yes);
    AtLeastSnoc(p, level, ip, past, told, r, yes);
  }

  lemma {:induction false} KeptFromHere(p: Params, k: Kept, ip: string, t: real, past: seq<Request>, told: seq<bool>,
                                        reqs: seq<Request>, i: nat)
    requires ValidParams(p) && Exact(p, k, ip, t, past, told) && Monotone(t, reqs) && i < |reqs| && reqs[i].ip == ip
    ensures |KeptAnswers(p, k, reqs)| == |reqs|
    ensures KeptAnswers(p, k, reqs)[i]
       <==> Conforms(p, ip, reqs[i].at, past + reqs[..i], told + KeptAnswers(p, k, reqs)[..i])
    decreases |reqs|
  {
    var r, rest := reqs[0], reqs[1..];
    var yes, k' := Allows(p, BucketOf(p, k, r.ip), r.at), KeepStep(p, k, r.ip, r.at);
    KeptLength(p, k, reqs);
    ExactLater(p, k, ip, t, r.at, past, told);
    if i == 0 {
      ExactAnswers(p, k, ip, r.at, past, told);
      Unit0(past);
      Unit0(told);
    } else {
      ExactStep(p, k, ip, past, told, r);
      KeptFromHere(p, k', ip, r.at, past + [r], told + [yes], rest, i - 1);
      Shifted(past, r, rest, i - 1);
      Shifted(told, yes, KeptAnswers(p, k', rest), i - 1);
      assert [r] + rest == reqs;
    }
  }

  lemma Shifted<T>(past: seq<T>, x: T, rest: seq<T>, i: nat)
    requires i < |rest|
    ensures past + ([x] + rest)[..i + 1] == past + [x] + rest[..i] && ([x] + rest)[i + 1] == rest[i]
  {
  }

  /** A limiter that keeps every bucket lets a request in if and only if, in every window that ends
      with it, the admissions of its source stay within `burst + rate * length`. */
  lemma KeptIsExact(p: Params, t: real, reqs: seq<Request>, i: nat)
    requires ValidParams(p) && Monotone(t, reqs) && i < |reqs|
    ensures |KeptAnswers(p, map[], reqs)| == |reqs|
    ensures KeptAnswers(p, map[], reqs)[i]
       <==> Conforms(p, reqs[i].ip, reqs[i].at, reqs[..i], KeptAnswers(p, map[], reqs)[..i])
  {
    StartExact(p, reqs[i].ip, t);
    KeptFromHere(p, map[], reqs[i].ip, t, [], [], reqs, i);
    Unit0(reqs[..i]);
    Unit0(KeptAnswers(p, map[], reqs)[..i]);
  }

  // ---------------------------------------------------------------- the limiter itself

  lemma {:induction false} SameSince(ip: string, s: real, reqs: seq<Request>, a: seq<bool>, b: seq<bool>)
    requires |reqs| == |a| == |b| && forall i :: 0 <= i < |reqs| && reqs[i].ip == ip ==> a[i] == b[i]
    ensures AdmittedSince(ip, s, reqs, a) == AdmittedSince(ip, s, reqs, b)
  {
    if reqs == [] {
    } else {
      var n := |reqs| - 1;
      SameSince(ip, s, reqs[..n], a[..n], b[..n]);
    }
  }

  lemma SameConforms(p: Params, ip: string, t: real, reqs: seq<Request>, a: seq<bool>, b: seq<bool>)
    requires |reqs| == |a| == |b| && forall i :: 0 <= i < |reqs| && reqs[i].ip == ip ==> a[i] == b[i]
    requires Conforms(p, ip, t, reqs, a)
    ensures Conforms(p, ip, t, reqs, b)
  {
    forall s | s <= t ensures FitsSince(p, ip, s, t, reqs, b) {
      SameSince(ip, s, reqs, a, b);
      assert FitsSince(p, ip, s, t, reqs, a);
    }
  }

  /** And so does the limiter itself, pruning and evicting, where a bucket refills within an
      entry's lifetime and the source is not evicted before it has refilled. */
  lemma AnswersAreExact(p: Params, t: real, reqs: seq<Request>, i: nat)
    requires ValidParams(p) && p.burst as real <= p.rate * TTL && Monotone(t, reqs) && i < |reqs|
    requires Spared(p, EMPTY, reqs[i].ip, reqs)
    ensures |Answers(p, EMPTY, reqs)| == |reqs|
    ensures Answers(p, EMPTY, reqs)[i]
       <==> Conforms(p, reqs[i].ip, reqs[i].at, reqs[..i], Answers(p, EMPTY, reqs)[..i])
  {
    var ip, a, b := reqs[i].ip, Answers(p, EMPTY, reqs), KeptAnswers(p, map[], reqs);
    SourceUnobservable(p, EMPTY, map[], ip, t, reqs);
    KeptIsExact(p, t, reqs, i);
    assert a[i] == b[i];
    if Conforms(p, ip, reqs[i].at, reqs[..i], b[..i]) {
      SameConforms(p, ip, reqs[i].at, reqs[..i], b[..i], a[..i]);
    }
    if Conforms(p, ip, reqs[i].at, reqs[..i], a[..i]) {
      SameConforms(p, ip, reqs[i].at, reqs[..i], a[..i], b[..i]);
    }
  }

  /** The source's level is no lower than its windows ask for, whatever has been forgotten. */
  ghost predicate Fair(p: Params, l: Limiter, ip: string, t: real, past: seq<Request>, told: seq<bool>) {
    |past| == |told| && SourceOk(l, ip, t) && AtLeastSlack(p, Level(p, BucketIn(p, l, ip), t), ip, t, past, told)
  }

  lemma FreshIsFull(p: Params, t: real)
    ensures Level(p, Fresh(p), t) == p.burst as real
  {
  }

  lemma FairIn(p: Params, b: Bucket, ip: string, t: real, past: seq<Request>, told: seq<bool>, r: Request)
    requires ValidParams(p) && BucketOk(b, t) && t <= r.at && |past| == |told|
    requires AtLeastSlack(p, Level(p, b, t), ip, t, past, told)
    ensures BucketOk(b, r.at) && AtLeastSlack(p, Level(p, b, r.at), ip, r.at, past, told)
  {
    AtLeastLater(p, b, ip, t, r.at, past, told);
  }

  lemma FairFresh(p: Params, ip: string, past: seq<Request>, told: seq<bool>, r: Request)
    requires ValidParams(p) && |past| == |told|
    ensures BucketOk(Fresh(p), r.at) && AtLeastSlack(p, Level(p, Fresh(p), r.at), ip, r.at, past, told)
  {
    FreshIsFull(p, r.at);
    FullIsEnough(p, p.burst as real, ip, r.at, past, told);
  }

  /** The bucket that answers a request of the source. */
  lemma FairFiled(p: Params, l: Limiter, t: real, past: seq<Request>, told: seq<bool>, r: Request)
    requires ValidParams(p) && Fair(p, l, r.ip, t, past, told) && t <= r.at
    ensures BucketOk(Filed(p, l, r), r.at) && AtLeastSlack(p, Level(p, Filed(p, l, r), r.at), r.ip, r.at, past, told)
  {
    if r.ip in Gc(l, r.at).table {
      FairIn(p, l.table[r.ip].bucket, r.ip, t, past, told, r);
    } else {
      FairFresh(p, r.ip, past, told, r);
    }
  }

  lemma FairOwnStep(p: Params, l: Limiter, t: real, past: seq<Request>, told: seq<bool>, r: Request)
    requires ValidParams(p) && Fair(p, l, r.ip, t, past, told) && t <= r.at
    ensures Fair(p, AllowStep(p, l, r), r.ip, r.at, past + [r], told + [AllowAnswer(p, l, r)])
  {
    var b := Filed(p, l, r);
    FairFiled(p, l, t, past, told, r);
    TakeOk(p, b, r.at);
    LevelAfterTake(p, b, r.at);
    AtLeastSnoc(p, Level(p, b, r.at), r.ip, past, told, r, AllowAnswer(p, l, r));
  }

  lemma FairOtherStep(p: Params, l: Limiter, ip: string, t: real, past: seq<Request>, told: seq<bool>, r: Request)
    requires ValidParams(p) && Fair(p, l, ip, t, past, told) && t <= r.at && r.ip != ip
    ensures Fair(p, AllowStep(p, l, r), ip, r.at, past + [r], told + [AllowAnswer(p, l, r)])
  {
    if ip in Room(p, l, r) {
      KnownAfter(p, l, ip, r);
      FairIn(p, l.table[ip].bucket, ip, t, past, told, r);
    } else {
      FairFresh(p, ip, past, told, r);
    }
    AtLeastSnoc(p, Level(p, BucketIn(p, AllowStep(p, l, r), ip), r.at), ip, past, told, r, AllowAnswer(p, l, r));
  }

  lemma {:induction false} RefusedFromHere(p: Params, l: Limiter, ip: string, t: real, past: seq<Request>, told: seq<bool>,
                                           reqs: seq<Request>, i: nat)
    requires ValidParams(p) && Fair(p, l, ip, t, past, told) && Monotone(t, reqs) && i < |reqs| && reqs[i].ip == ip
    ensures |Answers(p, l, reqs)| == |reqs|
    ensures Answers(p, l, reqs)[i] || !Conforms(p, ip, reqs[i].at, past + reqs[..i], told + Answers(p, l, reqs)[..i])
    decreases |reqs|
  {
    var r, rest := reqs[0], reqs[1..];
    var yes, l' := AllowAnswer(p, l, r), AllowStep(p, l, r);
    AnswersLength(p, l, reqs);
    if i == 0 {
      FairFiled(p, l, t, past, told, r);
      RefusedNow(p, Level(p, Filed(p, l, r), r.at), ip, r.at, past, told);
      Unit0(past);
      Unit0(told);
    } else {
      if r.ip == ip {
        FairOwnStep(p, l, t, past, told, r);
      } else {
        FairOtherStep(p, l, ip, t, past, told, r);
      }
      RefusedFromHere(p, l', ip, r.at, past + [r], told + [yes], rest, i - 1);
      Shifted(past, r, rest, i - 1);
      Shifted(told, yes, Answers(p, l', rest), i - 1);
      assert [r] + rest == reqs;
    }
  }

  lemma RefusedNow(p: Params, level: real, ip: string, t: real, past: seq<Request>, told: seq<bool>)
    requires |past| == |told| && AtLeastSlack(p, level, ip, t, past, told)
    ensures level >= 1.0 || !Conforms(p, ip, t, past, told)
  {
    var s :| s <= t && Slack(p, ip, s, t, past, told) <= level;
    if level < 1.0 {
      assert !FitsSince(p, ip, s, t, past, told);
    }
  }

  /** On every run, whatever is pruned or evicted: a request is refused only if admitting it would
      take the admissions of its source in some window over `burst + rate * length`. */
  lemma RefusedIsOver(p: Params, t: real, reqs: seq<Request>, i: nat)
    requires ValidParams(p) && Monotone(t, reqs) && i < |reqs|
    ensures |Answers(p, EMPTY, reqs)| == |reqs|
    ensures !Answers(p, EMPTY, reqs)[i] ==>
              !Conforms(p, reqs[i].ip, reqs[i].at, reqs[..i], Answers(p, EMPTY, reqs)[..i])
  {
    FreshIsFull(p, t);
    FullIsEnough(p, p.burst as real, reqs[i].ip, t, [], []);
    RefusedFromHere(p, EMPTY, reqs[i].ip, t, [], [], reqs, i);
    Unit0(reqs[..i]);
    Unit0(Answers(p, EMPTY, reqs)[..i]);
  }

  // ---------------------------------------------------------------- the table stays recent

  /** The last pruning was less than a minute ago and left only what was seen in the five minutes before. */
  ghost predicate Recent(l: Limiter, t: real) {
    && l.lastGC.Some? && l.lastGC.value <= t < l.lastGC.value + 60.0
    && forall ip :: ip in l.table ==> l.lastGC.value - l.table[ip].seen <= 300.0 && l.table[ip].seen <= t
  }

  lemma GcRecent(l: Limiter, t: real, now: real)
    requires (l == EMPTY || Recent(l, t)) && t <= now
    ensures Recent(Gc(l, now), now)
  {
  }

  lemma StepRecent(p: Params, l: Limiter, t: real, r: Request)
    requires (l == EMPTY || Recent(l, t)) && t <= r.at
    ensures Recent(AllowStep(p, l, r), r.at)
  {
    GcRecent(l, t, r.at);
    forall ip | ip in AllowStep(p, l, r).table && ip != r.ip
      ensures ip in Gc(l, r.at).table && AllowStep(p, l, r).table[ip] == Gc(l, r.at).table[ip]
    {
    }
  }

  lemma {:induction false} RecentAfter(p: Params, l: Limiter, t: real, reqs: seq<Request>)
    requires (l == EMPTY || Recent(l, t)) && Monotone(t, reqs) && reqs != []
    ensures Recent(After(p, l, reqs), reqs[|reqs| - 1].at)
    decreases |reqs|
  {
    StepRecent(p, l, t, reqs[0]);
    if |reqs| == 1 {
      assert reqs[1..] == [];
    } else {
      RecentAfter(p, AllowStep(p, l, reqs[0]), reqs[0].at, reqs[1..]);
    }
  }

  /** The table prunes itself: after every request of every run, whoever is on record was seen in
      the last six minutes. */
  lemma AgeBound(p: Params, t: real, reqs: seq<Request>, ip: string)
    requires Monotone(t, reqs) && reqs != [] && ip in After(p, EMPTY, reqs).table
    ensures reqs[|reqs| - 1].at - After(p, EMPTY, reqs).table[ip].seen < 360.0
  {
    RecentAfter(p, EMPTY, t, reqs);
  }

  ghost predicate SeenLately(l: Limiter, ip: string, now: real) {
    ip in l.table && now - l.table[ip].seen <= 300.0
  }

  /** A minute has passed since the last pruning. */
  ghost predicate PruningDue(l: Limiter, now: real) {
    l.lastGC.None? || now - l.lastGC.value >= 60.0
  }

  /** A request puts its source on record as seen now, and takes off record only what was not seen
      for more than five minutes, and that once a minute, or, for a new source in a full table, one entry that has been
      unseen for longest of those seen lately. */
  lemma StepTable(p: Params, l: Limiter, r: Request, ip: string)
    requires ValidParams(p) && ip in l.table && ip != r.ip && "" !in l.table
    requires Full(p, l, r) ==> Lists(r.order, Gc(l, r.at).table)
    ensures var l' := AllowStep(p, l, r);
      && r.ip in l'.table && l'.table[r.ip].seen == r.at
      && (ip in l'.table ==> l'.table[ip] == l.table[ip])
      && (ip !in l'.table ==>
            || (PruningDue(l, r.at) && r.at - l.table[ip].seen > 300.0)
            || (!SeenLately(l, r.ip, r.at) && |l.table| >= p.maxEntries
                && forall x :: SeenLately(l, x, r.at) ==> l.table[ip].seen <= l.table[x].seen))
      && l'.lastGC == if PruningDue(l, r.at) then Some(r.at) else l.lastGC
  {
    var g := Gc(l, r.at).table;
    SubsetSize(g.Keys, l.table.Keys);
    if ip in g && ip !in AllowStep(p, l, r).table {
      EvictsOldest(g, r.order);
      var gone :| gone in g && Evict(g, r.order) == g - {gone} && forall x :: x in g ==> g[gone].seen <= g[x].seen;
      assert ip == gone;
      forall x | SeenLately(l, x, r.at) ensures x in g && g[x] == l.table[x] {
      }
    }
  }
}
