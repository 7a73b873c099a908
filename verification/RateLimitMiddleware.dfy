/** The two limits in front of the API: every request, and job creation on top of it
    (backend/app/rate_limit.py). */
module RateLimitMiddleware {
  import opened Wrappers
  import opened TokenBucket
  import opened RateLimiter

  datatype Request = Request(verb: string, path: string, client: Client)

  /** Limits per minute; 0 or less switches a limit off. */
  datatype Settings = Settings(requestsPerMinute: int, jobsPerMinute: int)

  datatype Response = Forwarded(headline: Option<(nat, int)>) | TooMany(seconds: int, limit: nat)

  predicate Exempt(r: Request) {
    r.verb == "OPTIONS" || r.path == "/health" || r.path == "/ready"
  }

  predicate CreatesJob(r: Request) {
    r.verb == "POST" && (r.path == "/api/files/upload" || r.path == "/api/jobs/without-file")
  }

  /** Whether a request is held against the first limit, and against the second. */
  predicate CountsAsRequest(r: Request, s: Settings) {
    !Exempt(r) && s.requestsPerMinute > 0
  }

  predicate CountsAsJob(r: Request, s: Settings) {
    !Exempt(r) && CreatesJob(r) && s.jobsPerMinute > 0
  }

  // ----- Specification on values.

  /** A limiter is remembered under its rate. */
  datatype Limit = Limit(perMinute: nat, state: LimiterState)

  datatype Limits = Limits(requests: Option<Limit>, jobs: Option<Limit>)

  ghost predicate ValidLimits(l: Limits) {
    && (l.requests.Some? ==> l.requests.value.perMinute > 0 && l.requests.value.state.Valid())
    && (l.jobs.Some? ==> l.jobs.value.perMinute > 0 && l.jobs.value.state.Valid())
  }

  const MAX_CLIENTS := 10000

  function NewLimit(perMinute: nat): Limit {
    Limit(perMinute, Empty(perMinute as real, perMinute as real / 60.0, MAX_CLIENTS))
  }

  lemma NewLimitValid(perMinute: nat)
    requires perMinute > 0
    ensures NewLimit(perMinute).state.Valid()
  {
    assert perMinute as real / 60.0 > 0.0;
  }

  /** A changed rate starts a new limiter; a limit that is off keeps the old one for later. */
  function Current(stored: Option<Limit>, perMinute: int): Option<Limit> {
    if perMinute <= 0 then stored
    else if stored.None? || stored.value.perMinute != perMinute then Some(NewLimit(perMinute))
    else stored
  }

  function Charge(l: Limit, k: Client, now: real): (r: Limit)
    requires l.state.Valid()
    ensures r.perMinute == l.perMinute && r.state.Valid()
  {
    CheckedValid(l.state, k, now);
    l.(state := Checked(l.state, k, now))
  }

  lemma CurrentValid(stored: Option<Limit>, perMinute: int)
    requires stored.Some? ==> stored.value.perMinute > 0 && stored.value.state.Valid()
    ensures var l := Current(stored, perMinute);
            && (l.Some? ==> l.value.perMinute > 0 && l.value.state.Valid())
            && (perMinute > 0 ==> l.Some? && l.value.perMinute == perMinute)
  {
    if perMinute > 0 {
      NewLimitValid(perMinute);
    }
  }

  datatype Answer = Answer(limits: Limits, response: Response)

  function Refusal(d: Decision, perMinute: nat): Response {
    TooMany(HeaderSeconds(d.retryAfter), perMinute)
  }

  /** now and later are the clock readings of the two checks. */
  function Dispatched(l: Limits, s: Settings, r: Request, now: real, later: real): (a: Answer)
    requires ValidLimits(l)
    ensures ValidLimits(a.limits)
  {
    if Exempt(r) then Answer(l, Forwarded(None))
    else
      CurrentValid(l.requests, s.requestsPerMinute);
      CurrentValid(l.jobs, s.jobsPerMinute);
      var requests := Current(l.requests, s.requestsPerMinute);
      var jobs := if CreatesJob(r) then Current(l.jobs, s.jobsPerMinute) else l.jobs;
      if s.requestsPerMinute <= 0 then CheckJobs(Limits(requests, jobs), s, r, later, None)
      else
        var d, charged := Verdict(requests.value.state, r.client, now), Some(Charge(requests.value, r.client, now));
        if !d.allowed then Answer(Limits(charged, jobs), Refusal(d, s.requestsPerMinute))
        else CheckJobs(Limits(charged, jobs), s, r, later, Some((s.requestsPerMinute, d.remaining)))
  }

  /** The second check, for requests that passed the first. */
  function CheckJobs(l: Limits, s: Settings, r: Request, now: real, headline: Option<(nat, int)>): (a: Answer)
    requires ValidLimits(l)
    requires CreatesJob(r) && s.jobsPerMinute > 0 ==> l.jobs.Some? && l.jobs.value.perMinute == s.jobsPerMinute
    ensures ValidLimits(a.limits)
  {
    if !CreatesJob(r) || s.jobsPerMinute <= 0 then Answer(l, Forwarded(headline))
    else
      var d, charged := Verdict(l.jobs.value.state, r.client, now), Some(Charge(l.jobs.value, r.client, now));
      if !d.allowed then Answer(l.(jobs := charged), Refusal(d, s.jobsPerMinute))
      else
        Answer(l.(jobs := charged),
               Forwarded(if headline.Some? then headline else Some((s.jobsPerMinute, d.remaining))))
  }

  // ----- The middleware.

  function Own(l: RateLimiter?): set<object>
    reads l
  {
    if l == null then {} else {l} + l.buckets.Values
  }

  ghost predicate ValidLimiter(l: RateLimiter?)
    reads l, Own(l)
  {
    l != null ==> l.perMinute > 0 && l.Valid()
  }

  function LimitOf(l: RateLimiter?): Option<Limit>
    reads l, Own(l)
  {
    if l == null then None else Some(Limit(l.perMinute, l.State()))
  }

  /** The stored limiter, or a new one when the configured rate is another. */
  method Limiter(l: RateLimiter?, perMinute: int) returns (c: RateLimiter?)
    requires ValidLimiter(l)
    ensures ValidLimiter(c) && LimitOf(c) == Current(LimitOf(l), perMinute)
    ensures c == l || (c != null && fresh(c) && c.buckets.Values == {})
  {
    c := l;
    if perMinute > 0 && (l == null || l.perMinute != perMinute) {
      c := new RateLimiter(perMinute);
      assert c.State() == Empty(perMinute as real, perMinute as real / 60.0, MAX_CLIENTS);
      assert c.buckets.Keys == c.State().table.Keys;
    }
  }

  class RateLimitMiddleware {
    var requests: RateLimiter?
    var jobs: RateLimiter?

    function LimitsNow(): Limits
      reads this, requests, jobs, Own(requests), Own(jobs)
    {
      Limits(LimitOf(requests), LimitOf(jobs))
    }

    ghost predicate Valid()
      reads this, requests, jobs, Own(requests), Own(jobs)
    {
      ValidLimiter(requests) && ValidLimiter(jobs) && Own(requests) !! Own(jobs) && this !in Own(requests) + Own(jobs)
    }

    constructor ()
      ensures Valid() && LimitsNow() == Limits(None, None)
    {
      requests, jobs := null, null;
    }

    /** Looks up a limiter before any check. */
    method RefreshRequests(perMinute: int)
      requires Valid()
      modifies this`requests
      ensures Valid() && LimitOf(requests) == Current(old(LimitOf(requests)), perMinute)
      ensures fresh(Own(requests) - old(Own(requests)))
    {
      hide ValidLimiter, LimitOf, Current;
      var l := Limiter(requests, perMinute);
      assert l != requests ==> Own(l) == {l};
      requests := l;
    }

    method RefreshJobs(perMinute: int)
      requires Valid()
      modifies this`jobs
      ensures Valid() && LimitOf(jobs) == Current(old(LimitOf(jobs)), perMinute)
      ensures fresh(Own(jobs) - old(Own(jobs)))
    {
      hide ValidLimiter, LimitOf, Current;
      var l := Limiter(jobs, perMinute);
      assert l != jobs ==> Own(l) == {l};
      jobs := l;
    }

    /** One check; the other limiter is untouched. */
    method Ask(limiter: RateLimiter, k: Client, now: real) returns (d: Decision)
      requires Valid() && (limiter == requests || limiter == jobs)
      modifies Own(limiter)
      ensures Valid() && fresh(Own(limiter) - old(Own(limiter)))
      ensures old(LimitOf(limiter)).value.state.Valid()
      ensures d == Verdict(old(LimitOf(limiter)).value.state, k, now)
      ensures limiter == requests ==>
                LimitsNow() == old(LimitsNow()).(requests := Some(Charge(old(LimitOf(requests)).value, k, now)))
      ensures limiter == jobs ==>
                LimitsNow() == old(LimitsNow()).(jobs := Some(Charge(old(LimitOf(jobs)).value, k, now)))
    {
      hide Checked, Verdict, LimiterState.Valid, BucketState.Valid, NoDup;
      d := limiter.Check(k, now);
    }

    method Refresh(s: Settings, r: Request)
      requires Valid()
      modifies this
      ensures Valid() && fresh(Own(requests) - old(Own(requests))) && fresh(Own(jobs) - old(Own(jobs)))
      ensures LimitsNow() == Limits(Current(old(LimitOf(requests)), s.requestsPerMinute),
                                    if CreatesJob(r) then Current(old(LimitOf(jobs)), s.jobsPerMinute)
                                    else old(LimitOf(jobs)))
    {
      hide Valid, LimitOf, Current;
      RefreshRequests(s.requestsPerMinute);
      if CreatesJob(r) {
        RefreshJobs(s.jobsPerMinute);
      }
    }

    method DispatchJob(s: Settings, r: Request, now: real, first: Option<(nat, int)>) returns (response: Response)
      requires Valid() && (CreatesJob(r) && s.jobsPerMinute > 0 ==> jobs != null && jobs.perMinute == s.jobsPerMinute)
      modifies Own(jobs)
      ensures Valid() && ValidLimits(old(LimitsNow()))
      ensures Answer(LimitsNow(), response) == CheckJobs(old(LimitsNow()), s, r, now, first)
    {
      LimitsAreValid();
      hide LimiterState.Valid, Valid, Charge, Verdict;
      var headline := first;
      if CreatesJob(r) && s.jobsPerMinute > 0 {
        var d := Ask(jobs, r.client, now);
        if !d.allowed {
          return Refusal(d, jobs.perMinute);
        }
        if headline.None? {
          headline := Some((jobs.perMinute, d.remaining));
        }
      }
      return Forwarded(headline);
    }

    /** One reading of the clock for each check. */
    method Dispatch(s: Settings, r: Request, now: real, later: real) returns (response: Response)
      requires Valid()
      modifies this, Own(requests), Own(jobs)
      ensures Valid() && ValidLimits(old(LimitsNow()))
      ensures Answer(LimitsNow(), response) == Dispatched(old(LimitsNow()), s, r, now, later)
    {
      LimitsAreValid();
      hide LimiterState.Valid, Valid, Charge, Verdict, NewLimit, CheckJobs, Refusal;
      if Exempt(r) {
        return Forwarded(None);
      }
      Refresh(s, r);
      var headline := None;
      if s.requestsPerMinute > 0 {
        var d := Ask(requests, r.client, now);
        if !d.allowed {
          return Refusal(d, requests.perMinute);
        }
        headline := Some((requests.perMinute, d.remaining));
      }
      response := DispatchJob(s, r, later, headline);
    }

    lemma LimitsAreValid()
      requires Valid()
      ensures ValidLimits(LimitsNow())
    {
    }
  }

  // ----- Whole runs. The settings are read anew for every request and may change.

  datatype Arrival = Arrival(request: Request, settings: Settings, now: real, later: real)

  function Start(perMinute: nat): (l: LimiterState)
    requires perMinute > 0
    ensures l.Valid() && l.order == []
  {
    NewLimitValid(perMinute);
    NewLimit(perMinute).state
  }

  function LimitsAfter(arrivals: seq<Arrival>): (l: Limits)
    ensures ValidLimits(l)
  {
    if arrivals == [] then Limits(None, None)
    else
      var last := arrivals[|arrivals| - 1];
      Dispatched(LimitsAfter(arrivals[..|arrivals| - 1]), last.settings, last.request, last.now, last.later).limits
  }

  /** The answer to the last arrival. */
  function LastResponse(arrivals: seq<Arrival>): Response
    requires arrivals != []
  {
    var last := arrivals[|arrivals| - 1];
    Dispatched(LimitsAfter(arrivals[..|arrivals| - 1]), last.settings, last.request, last.now, last.later).response
  }

  /** A limiter running alone: its rate, and what it has been asked since it was started. */
  datatype Solo = Off | On(perMinute: Positive, events: seq<Event>)

  type Positive = n: nat | n > 0 witness 1

  /** A changed rate starts anew; while the limit is off nothing happens. */
  function AtRate(solo: Solo, perMinute: int): Solo {
    if perMinute <= 0 then solo
    else if solo.Off? || solo.perMinute != perMinute then On(perMinute, [])
    else solo
  }

  function Asked(solo: Solo, e: Event): Solo
    requires solo.On?
  {
    solo.(events := solo.events + [e])
  }

  predicate Allows(solo: Solo, e: Event)
    requires solo.On?
  {
    Verdict(Run(Start(solo.perMinute), solo.events), e.key, e.now).allowed
  }

  /** The first limiter is asked for every request but probes and preflights. */
  function NextRequests(requests: Solo, a: Arrival): Solo {
    if !CountsAsRequest(a.request, a.settings) then requests
    else Asked(AtRate(requests, a.settings.requestsPerMinute), Event(a.request.client, a.now))
  }

  /** The first limiter lets the arrival through. */
  predicate PassesFirst(requests: Solo, a: Arrival) {
    CountsAsRequest(a.request, a.settings) ==>
      Allows(AtRate(requests, a.settings.requestsPerMinute), Event(a.request.client, a.now))
  }

  /** The second limiter is asked for the job creations that the first lets through. */
  function NextJobs(requests: Solo, jobs: Solo, a: Arrival): Solo {
    if !CountsAsJob(a.request, a.settings) then jobs
    else
      var current := AtRate(jobs, a.settings.jobsPerMinute);
      if PassesFirst(requests, a) then Asked(current, Event(a.request.client, a.later)) else current
  }

  /** No limiter the arrival is held against refuses it. */
  predicate Passes(requests: Solo, jobs: Solo, a: Arrival) {
    && PassesFirst(requests, a)
    && (CountsAsJob(a.request, a.settings) ==>
          Allows(AtRate(jobs, a.settings.jobsPerMinute), Event(a.request.client, a.later)))
  }

  function RequestSolo(arrivals: seq<Arrival>): Solo {
    if arrivals == [] then Off else NextRequests(RequestSolo(arrivals[..|arrivals| - 1]), arrivals[|arrivals| - 1])
  }

  function JobSolo(arrivals: seq<Arrival>): Solo {
    if arrivals == [] then Off
    else
      var init := arrivals[..|arrivals| - 1];
      NextJobs(RequestSolo(init), JobSolo(init), arrivals[|arrivals| - 1])
  }

  function AsLimit(solo: Solo): Option<Limit> {
    match solo
    case Off => None
    case On(perMinute, events) => Some(Limit(perMinute, Run(Start(perMinute), events)))
  }

  lemma CurrentIsAtRate(solo: Solo, perMinute: int)
    ensures Current(AsLimit(solo), perMinute) == AsLimit(AtRate(solo, perMinute))
  {
    hide Checked, LimiterState.Valid;
  }

  lemma ChargeIsAsked(solo: Solo, e: Event)
    requires solo.On?
    ensures AsLimit(solo).value.state.Valid()
    ensures Some(Charge(AsLimit(solo).value, e.key, e.now)) == AsLimit(Asked(solo, e))
    ensures Verdict(AsLimit(solo).value.state, e.key, e.now).allowed <==> Allows(solo, e)
  {
    assert (solo.events + [e])[..|solo.events + [e]| - 1] == solo.events;
    hide Checked, LimiterState.Valid;
  }

  lemma JobCheckStep(l: Limits, s: Settings, r: Request, now: real, headline: Option<(nat, int)>, jobs: Solo)
    requires ValidLimits(l) && l.jobs == if CreatesJob(r) then AsLimit(AtRate(jobs, s.jobsPerMinute)) else AsLimit(jobs)
    requires CreatesJob(r) && s.jobsPerMinute > 0 ==> l.jobs.Some? && l.jobs.value.perMinute == s.jobsPerMinute
    ensures var a, e := CheckJobs(l, s, r, now, headline), Event(r.client, now);
            && a.limits.requests == l.requests
            && (if CreatesJob(r) && s.jobsPerMinute > 0 then
                  && a.limits.jobs == AsLimit(Asked(AtRate(jobs, s.jobsPerMinute), e))
                  && (a.response.Forwarded? <==> Allows(AtRate(jobs, s.jobsPerMinute), e))
                else
                  a.limits.jobs == AsLimit(jobs) && a.response.Forwarded?)
  {
    hide LimiterState.Valid, Verdict, Charge, AsLimit, Allows;
    if CreatesJob(r) && s.jobsPerMinute > 0 {
      ChargeIsAsked(AtRate(jobs, s.jobsPerMinute), Event(r.client, now));
    }
  }

  lemma DispatchStep(l: Limits, a: Arrival, requests: Solo, jobs: Solo)
    requires ValidLimits(l) && l == Limits(AsLimit(requests), AsLimit(jobs))
    ensures var d := Dispatched(l, a.settings, a.request, a.now, a.later);
            && d.limits == Limits(AsLimit(NextRequests(requests, a)), AsLimit(NextJobs(requests, jobs, a)))
            && (d.response.Forwarded? <==> Passes(requests, jobs, a))
  {
    hide LimiterState.Valid, Verdict, Charge, CheckJobs, Current, AsLimit, Allows;
    var r, s := a.request, a.settings;
    if !Exempt(r) {
      CurrentValid(l.requests, s.requestsPerMinute);
      CurrentValid(l.jobs, s.jobsPerMinute);
      CurrentIsAtRate(requests, s.requestsPerMinute);
      CurrentIsAtRate(jobs, s.jobsPerMinute);
      var current := if CreatesJob(r) then Current(l.jobs, s.jobsPerMinute) else l.jobs;
      if s.requestsPerMinute > 0 {
        ChargeIsAsked(AtRate(requests, s.requestsPerMinute), Event(r.client, a.now));
        var limit := Current(l.requests, s.requestsPerMinute).value;
        var d, charged := Verdict(limit.state, r.client, a.now), Some(Charge(limit, r.client, a.now));
        if d.allowed {
          JobCheckStep(Limits(charged, current), s, r, a.later, Some((s.requestsPerMinute, d.remaining)), jobs);
        }
      } else {
        JobCheckStep(Limits(Current(l.requests, s.requestsPerMinute), current), s, r, a.later, None, jobs);
      }
    }
  }

  /** The two limits decompose, whatever happens to the settings: each limiter is in the state of running alone since
      its rate last changed, the jobs limiter on exactly the job creations the requests limiter admitted. */
  lemma {:induction false} LimitersRunAlone(arrivals: seq<Arrival>)
    ensures LimitsAfter(arrivals) == Limits(AsLimit(RequestSolo(arrivals)), AsLimit(JobSolo(arrivals)))
  {
    if arrivals != [] {
      var init, a := arrivals[..|arrivals| - 1], arrivals[|arrivals| - 1];
      LimitersRunAlone(init);
      hide Dispatched, AsLimit, NextRequests, NextJobs, Passes;
      DispatchStep(LimitsAfter(init), a, RequestSolo(init), JobSolo(init));
    }
  }

  /** A request is forwarded exactly when no limiter it is held against, running alone, refuses it. */
  lemma ForwardedIff(init: seq<Arrival>, a: Arrival)
    ensures LastResponse(init + [a]).Forwarded? <==> Passes(RequestSolo(init), JobSolo(init), a)
  {
    assert (init + [a])[..|init + [a]| - 1] == init;
    LimitersRunAlone(init);
    hide Dispatched, AsLimit, Passes;
    DispatchStep(LimitsAfter(init), a, RequestSolo(init), JobSolo(init));
  }

  // ----- What a response says.

  function StateOf(solo: Solo): LimiterState
    requires solo.On?
  {
    Run(Start(solo.perMinute), solo.events)
  }

  /** n more checks like e. */
  function Repeated(solo: Solo, e: Event, n: nat): (r: Solo)
    requires solo.On?
    ensures r.On?
  {
    if n == 0 then solo else Asked(Repeated(solo, e, n - 1), e)
  }

  /** After check e of a limiter running alone, the same client is refused again a second before the given wait is
      over, and admitted when it is. */
  ghost predicate ExactWait(solo: Solo, e: Event, seconds: int)
    requires solo.On?
  {
    && seconds >= 1 && Allows(Asked(solo, e), Event(e.key, e.now + seconds as real))
    && (seconds > 1 ==> !Allows(Asked(solo, e), Event(e.key, e.now + (seconds - 1) as real)))
  }

  /** After check e of a limiter running alone, exactly so many more checks are admitted at that instant. */
  ghost predicate ExactRemaining(solo: Solo, e: Event, remaining: int)
    requires solo.On?
  {
    remaining >= 0 && forall n: nat :: Allows(Repeated(Asked(solo, e), e, n), e) <==> n < remaining
  }

  lemma OwnBucket(solo: Solo, e: Event) returns (b: BucketState)
    requires solo.On?
    ensures b.Valid() && e.key in StateOf(Asked(solo, e)).table
    ensures StateOf(Asked(solo, e)).table[e.key] == AfterCheck(b, e.now)
    ensures Verdict(StateOf(solo), e.key, e.now) == Decide(b, e.now)
    ensures e.key in StateOf(solo).table ==> b == StateOf(solo).table[e.key]
  {
    hide AfterCheck, Decide, Touch, Verdict;
    var l := StateOf(solo);
    assert (solo.events + [e])[..|solo.events + [e]| - 1] == solo.events;
    OwnCheck(l, e.key, e.now);
    b := if e.key in l.table then l.table[e.key] else Fresh(l.capacity, l.rate, e.now);
  }

  lemma WaitIsExact(solo: Solo, e: Event)
    requires solo.On? && !Allows(solo, e)
    ensures ExactWait(solo, e, HeaderSeconds(Verdict(StateOf(solo), e.key, e.now).retryAfter))
  {
    hide AfterCheck, Decide, Verdict, Run, Start, HeaderSeconds;
    var b := OwnBucket(solo, e);
    var seconds := HeaderSeconds(Decide(b, e.now).retryAfter);
    HeaderIsExact(b, e.now);
    var at := OwnBucket(Asked(solo, e), Event(e.key, e.now + seconds as real));
    var early := OwnBucket(Asked(solo, e), Event(e.key, e.now + (seconds - 1) as real));
  }

  lemma {:induction false} RepeatedBucket(solo: Solo, e: Event, n: nat)
    requires solo.On? && e.key in StateOf(solo).table && StateOf(solo).table[e.key].Valid()
    ensures e.key in StateOf(Repeated(solo, e, n)).table
    ensures StateOf(Repeated(solo, e, n)).table[e.key] == After(StateOf(solo).table[e.key], Repeat(e.now, n))
  {
    hide AfterCheck, Decide, Verdict, Run, Start;
    if n > 0 {
      RepeatedBucket(solo, e, n - 1);
      RepeatSnoc(e.now, n - 1);
      AfterSplit(StateOf(solo).table[e.key], Repeat(e.now, n - 1), [e.now]);
      assert After(After(StateOf(solo).table[e.key], Repeat(e.now, n - 1)), [e.now])
          == AfterCheck(After(StateOf(solo).table[e.key], Repeat(e.now, n - 1)), e.now);
      var b := OwnBucket(Repeated(solo, e, n - 1), e);
    }
  }

  lemma RemainingIsExactFor(solo: Solo, e: Event)
    requires solo.On?
    ensures ExactRemaining(solo, e, Verdict(StateOf(solo), e.key, e.now).remaining)
  {
    hide AfterCheck, Verdict, Run, Start;
    var b := OwnBucket(solo, e);
    var next := Asked(solo, e);
    RefillStep(b, e.now);
    forall n: nat ensures Allows(Repeated(next, e, n), e) <==> n < Decide(b, e.now).remaining {
      RepeatedBucket(next, e, n);
      var last := OwnBucket(Repeated(next, e, n), e);
      RemainingIsExact(b, e.now, n + 1, n);
      RepeatSnoc(e.now, n);
      DecisionsSplit(AfterCheck(b, e.now), Repeat(e.now, n), [e.now]);
      assert Decisions(AfterCheck(b, e.now), Repeat(e.now, n + 1))[n] == Decide(last, e.now);
    }
  }

  /** Who is asked: the first limiter for all but preflights and health probes, the second for the two routes that
      create jobs; a limit of 0 or less is not asked. */
  lemma WhoIsAsked(r: Request, s: Settings)
    ensures CountsAsRequest(r, s) <==>
              r.verb != "OPTIONS" && r.path !in ["/health", "/ready"] && s.requestsPerMinute > 0
    ensures CountsAsJob(r, s) <==>
              r.verb == "POST" && r.path in ["/api/files/upload", "/api/jobs/without-file"] && s.jobsPerMinute > 0
  {
    assert "POST" != "OPTIONS" && "/api/files/upload" != "/health" && "/api/files/upload" != "/ready";
    assert "/api/jobs/without-file" != "/health" && "/api/jobs/without-file" != "/ready";
  }

  /** What a response says about the limiter that speaks: a refusal names the rate of the one that refused and exactly
      the wait after which it admits the client again; a forwarded request carries the rate of the first one asked
      and exactly how many more checks that one admits at the instant, or nothing if none was asked. */
  ghost predicate Tells(response: Response, requests: Solo, jobs: Solo, a: Arrival) {
    var s, k := a.settings, a.request.client;
    var first, second := AtRate(requests, s.requestsPerMinute), AtRate(jobs, s.jobsPerMinute);
    if !PassesFirst(requests, a) then
      && response.TooMany? && response.limit == s.requestsPerMinute
      && ExactWait(first, Event(k, a.now), response.seconds)
    else if CountsAsJob(a.request, s) && !Allows(second, Event(k, a.later)) then
      && response.TooMany? && response.limit == s.jobsPerMinute
      && ExactWait(second, Event(k, a.later), response.seconds)
    else if CountsAsRequest(a.request, s) then
      && response.Forwarded? && response.headline.Some? && response.headline.value.0 == s.requestsPerMinute
      && ExactRemaining(first, Event(k, a.now), response.headline.value.1)
    else if CountsAsJob(a.request, s) then
      && response.Forwarded? && response.headline.Some? && response.headline.value.0 == s.jobsPerMinute
      && ExactRemaining(second, Event(k, a.later), response.headline.value.1)
    else
      response == Forwarded(None)
  }

  lemma JobResponseTells(l: Limits, a: Arrival, headline: Option<(nat, int)>, requests: Solo, jobs: Solo)
    requires ValidLimits(l) && CreatesJob(a.request) && !Exempt(a.request) && a.settings.jobsPerMinute > 0
    requires l.jobs == AsLimit(AtRate(jobs, a.settings.jobsPerMinute))
    requires PassesFirst(requests, a) && (headline.None? <==> !CountsAsRequest(a.request, a.settings))
    requires headline.Some? ==>
               && headline.value.0 == a.settings.requestsPerMinute
               && ExactRemaining(AtRate(requests, a.settings.requestsPerMinute), Event(a.request.client, a.now),
                                 headline.value.1)
    ensures Tells(CheckJobs(l, a.settings, a.request, a.later, headline).response, requests, jobs, a)
  {
    hide LimiterState.Valid, Verdict, Charge, PassesFirst, Exempt, CreatesJob, HeaderSeconds, ExactWait, ExactRemaining,
         Run, Start;
    var solo, e := AtRate(jobs, a.settings.jobsPerMinute), Event(a.request.client, a.later);
    ChargeIsAsked(solo, e);
    RemainingIsExactFor(solo, e);
    if !Allows(solo, e) {
      WaitIsExact(solo, e);
    }
  }

  lemma ArrivalTells(l: Limits, a: Arrival, requests: Solo, jobs: Solo)
    requires ValidLimits(l) && l == Limits(AsLimit(requests), AsLimit(jobs))
    ensures Tells(Dispatched(l, a.settings, a.request, a.now, a.later).response, requests, jobs, a)
  {
    hide LimiterState.Valid, Verdict, Charge, CheckJobs, Current, HeaderSeconds, ExactWait, ExactRemaining, Run, Start,
         CreatesJob, Exempt;
    var r, s := a.request, a.settings;
    if !Exempt(r) {
      CurrentValid(l.requests, s.requestsPerMinute);
      CurrentValid(l.jobs, s.jobsPerMinute);
      CurrentIsAtRate(requests, s.requestsPerMinute);
      CurrentIsAtRate(jobs, s.jobsPerMinute);
      var current := if CreatesJob(r) then Current(l.jobs, s.jobsPerMinute) else l.jobs;
      var asked, headline := Current(l.requests, s.requestsPerMinute), None;
      if s.requestsPerMinute > 0 {
        var solo, e := AtRate(requests, s.requestsPerMinute), Event(r.client, a.now);
        ChargeIsAsked(solo, e);
        RemainingIsExactFor(solo, e);
        if !Allows(solo, e) {
          WaitIsExact(solo, e);
          return;
        }
        var d := Verdict(asked.value.state, r.client, a.now);
        asked, headline := Some(Charge(asked.value, r.client, a.now)), Some((s.requestsPerMinute, d.remaining));
      }
      NextCheckTells(Limits(asked, current), a, headline, requests, jobs);
    }
  }

  lemma NextCheckTells(l: Limits, a: Arrival, headline: Option<(nat, int)>, requests: Solo, jobs: Solo)
    requires ValidLimits(l) && !Exempt(a.request) && PassesFirst(requests, a)
    requires CreatesJob(a.request) && a.settings.jobsPerMinute > 0 ==>
               l.jobs == AsLimit(AtRate(jobs, a.settings.jobsPerMinute))
    requires headline.None? <==> !CountsAsRequest(a.request, a.settings)
    requires headline.Some? ==>
               && headline.value.0 == a.settings.requestsPerMinute
               && ExactRemaining(AtRate(requests, a.settings.requestsPerMinute), Event(a.request.client, a.now),
                                 headline.value.1)
    ensures CreatesJob(a.request) && a.settings.jobsPerMinute > 0 ==>
              l.jobs.Some? && l.jobs.value.perMinute == a.settings.jobsPerMinute
    ensures Tells(CheckJobs(l, a.settings, a.request, a.later, headline).response, requests, jobs, a)
  {
    hide LimiterState.Valid, Verdict, Charge, PassesFirst, Exempt, CreatesJob, HeaderSeconds, ExactWait, ExactRemaining,
         Run, Start;
    if CreatesJob(a.request) && a.settings.jobsPerMinute > 0 {
      JobResponseTells(l, a, headline, requests, jobs);
    }
  }

  /** In every run, every response tells the truth about the limiters running alone. */
  lemma ResponseTells(init: seq<Arrival>, a: Arrival)
    ensures Tells(LastResponse(init + [a]), RequestSolo(init), JobSolo(init), a)
  {
    hide LimiterState.Valid, Verdict, Charge, CheckJobs, Current, HeaderSeconds, ExactWait, ExactRemaining, AsLimit,
         Run, Start, Tells;
    assert (init + [a])[..|init + [a]| - 1] == init;
    LimitersRunAlone(init);
    ArrivalTells(LimitsAfter(init), a, RequestSolo(init), JobSolo(init));
  }

  // ----- How many jobs a client can create.

  /** The job creations of a client that were held against the limit and forwarded, since its rate last changed. */
  function ForwardedJobs(arrivals: seq<Arrival>, k: Client): nat {
    if arrivals == [] then 0
    else
      var init, last := arrivals[..|arrivals| - 1], arrivals[|arrivals| - 1];
      var before := ForwardedJobs(init, k);
      if !CountsAsJob(last.request, last.settings) then before
      else
        (if AtRate(JobSolo(init), last.settings.jobsPerMinute) == JobSolo(init) then before else 0)
        + if last.request.client == k && LastResponse(arrivals).Forwarded? then 1 else 0
  }

  function JobAnswers(solo: Solo, k: Client): seq<Decision> {
    if solo.Off? then [] else Answers(Start(solo.perMinute), solo.events, k)
  }

  lemma AnswersGrow(solo: Solo, e: Event)
    requires solo.On?
    ensures Admitted(JobAnswers(Asked(solo, e), e.key)) ==
            Admitted(JobAnswers(solo, e.key)) + if Allows(solo, e) then 1 else 0
    ensures forall k :: k != e.key ==> JobAnswers(Asked(solo, e), k) == JobAnswers(solo, k)
  {
    var l, es := Start(solo.perMinute), solo.events;
    assert (es + [e])[..|es + [e]| - 1] == es;
    AdmittedSnoc(Answers(l, es, e.key), Verdict(Run(l, es), e.key, e.now));
  }

  lemma NoAnswersYet(k: Client)
    ensures Admitted(JobAnswers(Off, k)) == 0
  {
  }

  lemma NoAnswersAtFirst(solo: Solo, perMinute: int, k: Client)
    ensures AtRate(solo, perMinute) != solo ==> JobAnswers(AtRate(solo, perMinute), k) == []
  {
  }

  /** The jobs forwarded for a client are the admissions of the jobs limiter running alone. */
  lemma {:induction false} ForwardedJobsAreAdmitted(arrivals: seq<Arrival>, k: Client)
    ensures ForwardedJobs(arrivals, k) == Admitted(JobAnswers(JobSolo(arrivals), k))
  {
    hide LastResponse, PassesFirst, LimitsAfter, JobAnswers, Allows, RequestSolo, Run, Start;
    NoAnswersYet(k);
    if arrivals != [] {
      var init, last := arrivals[..|arrivals| - 1], arrivals[|arrivals| - 1];
      ForwardedJobsAreAdmitted(init, k);
      ForwardedIff(init, last);
      assert arrivals == init + [last];
      if CountsAsJob(last.request, last.settings) {
        var current := AtRate(JobSolo(init), last.settings.jobsPerMinute);
        NoAnswersAtFirst(JobSolo(init), last.settings.jobsPerMinute, k);
        AnswersGrow(current, Event(last.request.client, last.later));
      }
    }
  }

  /** While few other clients create jobs in between, a client's forwarded jobs since the rate last changed never
      exceed one minute's worth plus the rate times the forward movement of the clock. */
  lemma JobRateBound(arrivals: seq<Arrival>, k: Client)
    requires JobSolo(arrivals).On? && AtMostBetween(JobSolo(arrivals).events, k, HalfUp(MAX_CLIENTS))
    requires TimesOf(JobSolo(arrivals).events, k) != []
    ensures var ts, perMinute := TimesOf(JobSolo(arrivals).events, k), JobSolo(arrivals).perMinute;
            ForwardedJobs(arrivals, k) as real
              <= perMinute as real + Gain(perMinute as real / 60.0, Forward(ts[0], ts[1..]))
  {
    hide JobSolo, TimesOf, AtMostBetween, Answers, PrivateAnswers, ForwardedJobs, Admitted, Gain, Forward, Start;
    var solo := JobSolo(arrivals);
    StartIs(solo.perMinute);
    ForwardedJobsAreAdmitted(arrivals, k);
    RefinesPrivateBuckets(Start(solo.perMinute), solo.events, k);
    PrivateBound(Start(solo.perMinute), TimesOf(solo.events, k));
  }

  lemma StartIs(perMinute: nat)
    requires perMinute > 0
    ensures var l := Start(perMinute);
            l.capacity == perMinute as real && l.rate == perMinute as real / 60.0 && l.maxClients == MAX_CLIENTS
  {
  }

  lemma PrivateBound(l: LimiterState, ts: seq<real>)
    requires l.Valid() && ts != []
    ensures Admitted(PrivateAnswers(l, ts)) as real <= l.capacity + Gain(l.rate, Forward(ts[0], ts[1..]))
  {
    hide Gain, Forward, Admitted, Decisions;
    RateBound(Fresh(l.capacity, l.rate, ts[0]), ts);
  }
}
