/** Per-client buckets in a bounded least-recently-used table
    (backend/app/rate_limit.py). */
module RateLimiter {
  import opened TokenBucket

  /** A client is its API key (a digest of it) or, without one, its address. */
  datatype Client = ByKey(digest: string) | ByAddress(host: string)

  /** `order` lists the clients in the table, least recently used first. */
  datatype LimiterState = LimiterState(capacity: real, rate: real, maxClients: nat,
                                       order: seq<Client>, table: map<Client, BucketState>) {
    ghost predicate Valid() {
      rate > 0.0 && capacity >= 1.0 && KeysMatch() && BucketsMatch()
    }

    ghost predicate KeysMatch() {
      NoDup(order) && table.Keys == Elements(order)
    }

    ghost predicate BucketsMatch() {
      forall k :: k in table ==> table[k].Valid() && table[k].capacity == capacity && table[k].rate == rate
    }
  }

  ghost predicate NoDup(s: seq<Client>) {
    forall i, j :: 0 <= i < j < |s| ==> s[i] != s[j]
  }

  function Empty(capacity: real, rate: real, maxClients: nat): LimiterState {
    LimiterState(capacity, rate, maxClients, [], map[])
  }

  function Elements(s: seq<Client>): set<Client> {
    set x | x in s
  }

  function Without(order: seq<Client>, key: Client): (r: seq<Client>)
    ensures forall x :: x in r ==> x in order
    ensures NoDup(order) ==> NoDup(r) && Elements(r) == Elements(order) - {key}
  {
    if order == [] then []
    else if order[0] == key then order[1..]
    else
      var rest := Without(order[1..], key);
      assert forall j :: 1 <= j < |order| ==> order[j] == order[1..][j - 1];
      assert NoDup(order) ==> order[0] !in order[1..];
      assert Elements(order) == {order[0]} + Elements(order[1..]);
      assert Elements([order[0]] + rest) == {order[0]} + Elements(rest);
      [order[0]] + rest
  }

  /** Drops the `n` least recently used clients. */
  function Evict(l: LimiterState, n: nat): LimiterState
    requires n <= |l.order|
  {
    l.(order := l.order[n..], table := map k | k in l.table && k in l.order[n..] :: l.table[k])
  }

  /** Drops the least recently used half when the table is full. */
  function MakeRoom(l: LimiterState): LimiterState {
    if |l.order| >= l.maxClients then Evict(l, |l.order| / 2) else l
  }

  /** The table just before the client's bucket is asked: the client is now the most recent one. */
  function Touch(l: LimiterState, key: Client, now: real): (r: LimiterState)
    ensures key in r.table
  {
    if key in l.table then
      l.(order := Without(l.order, key) + [key])
    else
      var room := MakeRoom(l);
      room.(order := room.order + [key], table := room.table[key := Fresh(l.capacity, l.rate, now)])
  }

  lemma TouchNew(l: LimiterState, key: Client, now: real)
    requires key !in l.table
    ensures var room, t := MakeRoom(l), Touch(l, key, now);
            && t.order == room.order + [key] && t.table == room.table[key := Fresh(l.capacity, l.rate, now)]
            && t.capacity == room.capacity && t.rate == room.rate && t.maxClients == room.maxClients
  {
    hide MakeRoom;
  }

  function Checked(l: LimiterState, key: Client, now: real): LimiterState {
    var t := Touch(l, key, now);
    t.(table := t.table[key := AfterCheck(t.table[key], now)])
  }

  function Verdict(l: LimiterState, key: Client, now: real): Decision
    requires l.Valid()
  {
    TouchValid(l, key, now);
    Decide(Touch(l, key, now).table[key], now)
  }

  lemma SnocNoDup(s: seq<Client>, x: Client)
    requires NoDup(s) && x !in s
    ensures NoDup(s + [x]) && Elements(s + [x]) == Elements(s) + {x}
  {
  }

  lemma PopFront(s: seq<Client>)
    requires NoDup(s) && s != []
    ensures NoDup(s[1..]) && Elements(s[1..]) == Elements(s) - {s[0]}
  {
    TailNoDup(s, 1);
    assert Elements(s) == {s[0]} + Elements(s[1..]);
  }

  lemma TailNoDup(s: seq<Client>, n: nat)
    requires NoDup(s) && n <= |s|
    ensures NoDup(s[n..]) && Elements(s[n..]) <= Elements(s)
  {
    assert forall i :: 0 <= i < |s[n..]| ==> s[n..][i] == s[n + i];
  }

  lemma EvictValid(l: LimiterState, n: nat)
    requires l.Valid() && n <= |l.order|
    ensures Evict(l, n).Valid()
  {
    hide BucketState.Valid;
    TailNoDup(l.order, n);
    assert Evict(l, n).table.Keys == Elements(l.order[n..]);
  }

  lemma TouchValid(l: LimiterState, key: Client, now: real)
    requires l.Valid()
    ensures Touch(l, key, now).Valid()
  {
    var t := Touch(l, key, now);
    if key in l.table {
      SnocNoDup(Without(l.order, key), key);
      assert t.KeysMatch();
    } else {
      EvictValid(l, |l.order| / 2);
      SnocNoDup(MakeRoom(l).order, key);
      assert t.table.Keys == MakeRoom(l).table.Keys + {key};
      assert t.KeysMatch();
    }
  }

  lemma CheckedValid(l: LimiterState, key: Client, now: real)
    requires l.Valid()
    ensures Checked(l, key, now).Valid()
  {
    hide Gain, Wait, Touch;
    TouchValid(l, key, now);
    RefillStep(Touch(l, key, now).table[key], now);
    assert Checked(l, key, now).table.Keys == Touch(l, key, now).table.Keys;
  }

  lemma ValidParts(l: LimiterState)
    requires l.Valid()
    ensures l.rate > 0.0 && l.capacity >= 1.0 && l.KeysMatch() && l.BucketsMatch()
  {
  }

  class RateLimiter {
    const perMinute: nat
    const capacity: real
    const refillPerSecond: real
    const maxClients: nat
    var order: seq<Client>
    var buckets: map<Client, Bucket>

    ghost predicate Valid()
      reads this, buckets.Values
    {
      && State().Valid()
      && forall j, k :: j in buckets && k in buckets && j != k ==> buckets[j] != buckets[k]
    }

    function State(): LimiterState
      reads this, buckets.Values
    {
      LimiterState(capacity, refillPerSecond, maxClients, order, map k | k in buckets :: buckets[k].State())
    }

    /** `burst` of 0 means the default burst: one minute's worth. */
    constructor (perMinute: nat, burst: nat := 0, maxClients: nat := 10000)
      requires perMinute > 0
      ensures Valid() && this.perMinute == perMinute
      ensures State() == Empty((if burst == 0 then perMinute else burst) as real, perMinute as real / 60.0, maxClients)
    {
      this.perMinute := perMinute;
      this.capacity := (if burst == 0 then perMinute else burst) as real;
      this.refillPerSecond := perMinute as real / 60.0;
      this.maxClients := maxClients;
      order := [];
      buckets := map[];
    }

    method DropOldest(n: nat)
      requires n <= |order| && NoDup(order) && buckets.Keys == Elements(order)
      modifies this`order, this`buckets
      ensures order == old(order)[n..]
      ensures buckets.Keys == Elements(order)
      ensures forall k :: k in buckets ==> k in old(buckets) && buckets[k] == old(buckets)[k]
    {
      hide NoDup, Elements;
      for i := 0 to n
        invariant order == old(order)[i..] && NoDup(order) && buckets.Keys == Elements(order)
        invariant forall k :: k in buckets ==> k in old(buckets) && buckets[k] == old(buckets)[k]
      {
        PopFront(order);
        buckets := buckets - {order[0]};
        order := order[1..];
      }
    }

    /** Makes room for a new client when the table is full. */
    method MakeTableRoom()
      requires Valid()
      modifies this`order, this`buckets
      ensures State() == MakeRoom(old(State()))
      ensures buckets.Keys == Elements(order)
      ensures forall k :: k in buckets ==> k in old(buckets) && buckets[k] == old(buckets)[k]
    {
      hide LimiterState.Valid, BucketState.Valid, NoDup;
      ValidParts(State());
      assert State().table.Keys == buckets.Keys;
      if |order| >= maxClients {
        DropOldest(|order| / 2);
        assert State().table == MakeRoom(old(State())).table;
      }
    }

    /** Adds a bucket for a new client, the most recent one. */
    method Add(key: Client, now: real) returns (bucket: Bucket)
      requires Valid() && key !in buckets
      modifies this`order, this`buckets
      ensures key in buckets && bucket == buckets[key] && fresh(bucket)
      ensures forall j :: j in buckets && j != key ==> j in old(buckets) && buckets[j] == old(buckets)[j]
      ensures State() == Touch(old(State()), key, now)
    {
      hide LimiterState.Valid, BucketState.Valid, NoDup, Elements, MakeRoom, Without, Touch;
      TouchNew(State(), key, now);
      MakeTableRoom();
      ghost var room := State();
      bucket := new Bucket(capacity, refillPerSecond, now);
      buckets := buckets[key := bucket];
      order := order + [key];
      assert State().table == room.table[key := Fresh(capacity, refillPerSecond, now)];
    }

    /** Finds or creates the client's bucket and makes the client the most recent one. */
    method Locate(key: Client, now: real) returns (bucket: Bucket)
      requires Valid()
      modifies this`order, this`buckets
      ensures Valid() && key in buckets && bucket == buckets[key]
      ensures fresh(buckets.Values - old(buckets.Values))
      ensures State() == Touch(old(State()), key, now)
    {
      hide LimiterState.Valid, BucketState.Valid, NoDup, Elements, MakeRoom, Without;
      ghost var before := State();
      TouchValid(before, key, now);
      if key in buckets {
        bucket := buckets[key];
        order := Without(order, key) + [key];
        assert State().table == before.table;
      } else {
        hide Touch;
        bucket := Add(key, now);
      }
    }

    method Check(key: Client, now: real) returns (d: Decision)
      requires Valid()
      modifies this`order, this`buckets, buckets.Values
      ensures Valid() && fresh(buckets.Values - old(buckets.Values))
      ensures State() == Checked(old(State()), key, now)
      ensures d == Verdict(old(State()), key, now)
    {
      hide LimiterState.Valid, BucketState.Valid, AfterCheck, Decide, Touch;
      ghost var before := State();
      TouchValid(before, key, now);
      CheckedValid(before, key, now);
      var bucket := Locate(key, now);
      label asked:
      ValidParts(State());
      d := bucket.TryAcquire(now);
      assert forall k :: k in buckets && k != key ==> buckets[k].State() == old@asked(buckets[k].State());
      assert State().table == Checked(before, key, now).table;
    }
  }

  // ----- Whole runs over all clients.

  datatype Event = Event(key: Client, now: real)

  function Run(l: LimiterState, es: seq<Event>): (r: LimiterState)
    requires l.Valid()
    ensures r.Valid() && (r.capacity, r.rate, r.maxClients) == (l.capacity, l.rate, l.maxClients)
  {
    if es == [] then l
    else
      var before := Run(l, es[..|es| - 1]);
      CheckedValid(before, es[|es| - 1].key, es[|es| - 1].now);
      Checked(before, es[|es| - 1].key, es[|es| - 1].now)
  }

  /** What the bounded limiter answered client `k` during the run. */
  function Answers(l: LimiterState, es: seq<Event>, k: Client): seq<Decision>
    requires l.Valid()
  {
    if es == [] then []
    else
      var init, last := es[..|es| - 1], es[|es| - 1];
      if last.key == k then Answers(l, init, k) + [Verdict(Run(l, init), k, last.now)] else Answers(l, init, k)
  }

  function TimesOf(es: seq<Event>, k: Client): seq<real> {
    if es == [] then []
    else if es[|es| - 1].key == k then TimesOf(es[..|es| - 1], k) + [es[|es| - 1].now]
    else TimesOf(es[..|es| - 1], k)
  }

  /** The other clients that checked in after the last check of `k`. */
  function Since(es: seq<Event>, k: Client): set<Client> {
    if es == [] || es[|es| - 1].key == k then {}
    else Since(es[..|es| - 1], k) + {es[|es| - 1].key}
  }

  /** At most `n` distinct other clients check in between any two consecutive checks of `k`. */
  ghost predicate AtMostBetween(es: seq<Event>, k: Client, n: nat) {
    es != [] ==>
      && AtMostBetween(es[..|es| - 1], k, n)
      && (es[|es| - 1].key == k && TimesOf(es[..|es| - 1], k) != [] ==> |Since(es[..|es| - 1], k)| <= n)
  }

  function HalfUp(n: nat): nat {
    n - n / 2
  }

  /** The clients used more recently than `k`. */
  function Newer(order: seq<Client>, k: Client): set<Client> {
    if order == [] then {}
    else if order[0] == k then Elements(order[1..])
    else Newer(order[1..], k)
  }

  lemma {:induction false} NewerSize(order: seq<Client>, k: Client, i: nat)
    requires NoDup(order) && i < |order| && order[i] == k
    ensures Newer(order, k) == Elements(order[i + 1..])
    ensures |Newer(order, k)| == |order| - 1 - i
  {
    if i == 0 {
      SetSize(order[1..]);
    } else {
      NewerSize(order[1..], k, i - 1);
      assert order[1..][i..] == order[i + 1..];
    }
  }

  lemma {:induction false} SetSize(s: seq<Client>)
    requires NoDup(s)
    ensures |Elements(s)| == |s|
  {
    if s != [] {
      SetSize(s[1..]);
      assert Elements(s) == {s[0]} + Elements(s[1..]);
    }
  }

  lemma {:induction false} NewerSnoc(order: seq<Client>, k: Client, x: Client)
    requires k in order
    ensures Newer(order + [x], k) == Newer(order, k) + {x}
  {
    assert (order + [x])[1..] == order[1..] + [x];
    if order[0] == k {
      assert Elements(order[1..] + [x]) == Elements(order[1..]) + {x};
    } else {
      NewerSnoc(order[1..], k, x);
    }
  }

  lemma {:induction false} NewerAfterMove(order: seq<Client>, k: Client, x: Client)
    requires NoDup(order) && k in order && x in order && k != x
    ensures Newer(Without(order, x) + [x], k) == Newer(order, k) + {x}
  {
    var rest := order[1..];
    TailNoDup(order, 1);
    if order[0] == x {
      NewerSnoc(rest, k, x);
    } else {
      var moved := Without(rest, x) + [x];
      assert Without(order, x) + [x] == [order[0]] + moved;
      assert ([order[0]] + moved)[1..] == moved;
      if order[0] == k {
        assert Elements(moved) == Elements(Without(rest, x)) + {x};
      } else {
        NewerAfterMove(rest, k, x);
      }
    }
  }

  lemma {:induction false} NewerOfTail(order: seq<Client>, k: Client, n: nat)
    requires NoDup(order) && k in order && n <= |order|
    ensures k in order[n..] <==> |Newer(order, k)| < |order| - n
    ensures k in order[n..] ==> Newer(order[n..], k) == Newer(order, k)
  {
    var i :| 0 <= i < |order| && order[i] == k;
    NewerSize(order, k, i);
    if i >= n {
      assert order[n..][i - n] == k;
      TailNoDup(order, n);
      NewerSize(order[n..], k, i - n);
      assert order[n..][i - n + 1..] == order[i + 1..];
    }
  }

  /** A client in the table survives another client's check exactly unless that check comes from
      a new client, finds the table full, and enough others are more recent. */
  lemma {:induction false} DroppedExactly(l: LimiterState, k: Client, x: Client, now: real)
    requires l.Valid() && k in l.table && x != k
    ensures k !in Checked(l, x, now).table <==>
            x !in l.table && |l.order| >= l.maxClients && |Newer(l.order, k)| >= HalfUp(|l.order|)
    ensures k in Checked(l, x, now).table ==>
            && Checked(l, x, now).table[k] == l.table[k]
            && Newer(Checked(l, x, now).order, k) == Newer(l.order, k) + {x}
  {
    hide LimiterState.Valid, BucketState.Valid, AfterCheck, Newer, Without;
    ValidParts(l);
    if x in l.table {
      NewerAfterMove(l.order, k, x);
    } else if |l.order| >= l.maxClients {
      NewerOfTail(l.order, k, |l.order| / 2);
      if k in l.order[|l.order| / 2..] {
        NewerSnoc(l.order[|l.order| / 2..], k, x);
      }
    } else {
      NewerSnoc(l.order, k, x);
    }
  }

  /** The private bucket a client would have in an unbounded limiter, after the checks at `ts`. */
  function Private(l: LimiterState, ts: seq<real>): BucketState {
    if ts == [] then Fresh(l.capacity, l.rate, 0.0)
    else After(Fresh(l.capacity, l.rate, ts[0]), ts)
  }

  function PrivateAnswers(l: LimiterState, ts: seq<real>): seq<Decision>
    requires l.rate > 0.0
  {
    if ts == [] then [] else Decisions(Fresh(l.capacity, l.rate, ts[0]), ts)
  }

  lemma {:induction false} PrivateStep(l: LimiterState, ts: seq<real>, now: real)
    requires l.rate > 0.0 && l.capacity >= 1.0
    ensures Private(l, ts).Valid() && Private(l, ts).capacity == l.capacity && Private(l, ts).rate == l.rate
    ensures ts != [] ==> Private(l, ts).updated == ts[|ts| - 1]
    ensures var b := if ts == [] then Fresh(l.capacity, l.rate, now) else Private(l, ts);
            && b.Valid()
            && Private(l, ts + [now]) == AfterCheck(b, now)
            && PrivateAnswers(l, ts + [now]) == PrivateAnswers(l, ts) + [Decide(b, now)]
  {
    hide Gain, Wait;
    if ts == [] {
      assert ts + [now] == [now] && [now][1..] == [];
      var b := Fresh(l.capacity, l.rate, now);
      assert After(b, [now]) == After(AfterCheck(b, now), []);
    } else {
      var b := Fresh(l.capacity, l.rate, ts[0]);
      TokensStayInRange(b, ts);
      DecisionsSplit(b, ts, [now]);
      AfterSplit(b, ts, [now]);
    }
  }

  lemma {:induction false} AfterSplit(b: BucketState, xs: seq<real>, ys: seq<real>)
    ensures After(b, xs + ys) == After(After(b, xs), ys)
    decreases xs
  {
    if xs == [] {
      assert xs + ys == ys;
    } else {
      assert (xs + ys)[1..] == xs[1..] + ys;
      AfterSplit(AfterCheck(b, xs[0]), xs[1..], ys);
    }
  }

  // While few others check in, k's entry is the private bucket; once dropped, many have checked in since.
  ghost predicate Follows(l: LimiterState, es: seq<Event>, k: Client)
    requires l.Valid()
  {
    var r, ts := Run(l, es), TimesOf(es, k);
    if ts == [] then k !in r.table
    else if k in r.table then Newer(r.order, k) == Since(es, k) && r.table[k] == Private(l, ts)
    else |Since(es, k)| > HalfUp(l.maxClients)
  }

  lemma {:induction false} FollowsStep(l: LimiterState, es: seq<Event>, k: Client)
    requires l.Valid() && es != []
    requires Follows(l, es[..|es| - 1], k) && AtMostBetween(es, k, HalfUp(l.maxClients))
    ensures Follows(l, es, k)
    ensures es[|es| - 1].key == k && TimesOf(es[..|es| - 1], k) != [] ==> k in Run(l, es[..|es| - 1]).table
  {
    hide LimiterState.Valid, BucketState.Valid, AfterCheck, Decide, After, Decisions, Checked, Newer, Touch;
    var init, last := es[..|es| - 1], es[|es| - 1];
    var before, ts := Run(l, init), TimesOf(init, k);
    ValidParts(l);
    ValidParts(before);
    var after := Run(l, es);
    assert after == Checked(before, last.key, last.now);
    if last.key == k {
      PrivateStep(l, ts, last.now);
      OwnCheck(before, k, last.now);
    } else if ts != [] && k in before.table {
      DroppedExactly(before, k, last.key, last.now);
      if k !in after.table {
        assert last.key !in Newer(before.order, k) by {
          NewerInOrder(before.order, k);
        }
        assert |Since(es, k)| == |Newer(before.order, k)| + 1;
      }
    } else {
      StaysOut(before, k, last.key, last.now);
      assert |Since(es, k)| >= |Since(init, k)| by {
        SubsetSize(Since(init, k), Since(es, k));
      }
    }
  }

  lemma StaysOut(l: LimiterState, k: Client, x: Client, now: real)
    requires k !in l.table && x != k
    ensures k !in Checked(l, x, now).table
  {
  }

  lemma SubsetSize(a: set<Client>, b: set<Client>)
    requires a <= b
    ensures |a| <= |b|
  {
    assert b == a + (b - a);
  }

  lemma {:induction false} NewerInOrder(order: seq<Client>, k: Client)
    ensures forall x :: x in Newer(order, k) ==> x in order
  {
    if order != [] {
      NewerInOrder(order[1..], k);
    }
  }

  lemma {:induction false} OwnCheck(l: LimiterState, k: Client, now: real)
    requires l.Valid()
    ensures l.rate > 0.0 && l.capacity >= 1.0
    ensures k in Checked(l, k, now).table && Newer(Checked(l, k, now).order, k) == {}
    ensures var b := if k in l.table then l.table[k] else Fresh(l.capacity, l.rate, now);
            Checked(l, k, now).table[k] == AfterCheck(b, now) && Verdict(l, k, now) == Decide(b, now)
    ensures Checked(l, k, now).table[k].updated == now
  {
    CheckedValid(l, k, now);
    hide BucketState.Valid, AfterCheck, Decide;
    var order := Checked(l, k, now).order;
    NewerSize(order, k, |order| - 1);
  }

  lemma {:induction false} FollowsAlways(l: LimiterState, es: seq<Event>, k: Client)
    requires l.Valid() && l.order == [] && AtMostBetween(es, k, HalfUp(l.maxClients))
    ensures Follows(l, es, k)
  {
    if es != [] {
      FollowsAlways(l, es[..|es| - 1], k);
      FollowsStep(l, es, k);
    }
  }

  /** The bounded limiter refines one private bucket per client forever, for each client between whose
      consecutive checks at most half the table size (rounded up) of distinct other clients check in. */
  lemma {:induction false} RefinesPrivateBuckets(l: LimiterState, es: seq<Event>, k: Client)
    requires l.Valid() && l.order == [] && AtMostBetween(es, k, HalfUp(l.maxClients))
    ensures Answers(l, es, k) == PrivateAnswers(l, TimesOf(es, k))
  {
    hide LimiterState.Valid, BucketState.Valid, AfterCheck, Decide, After, Decisions, Checked, Newer, Touch, Verdict;
    if es != [] {
      var init, last := es[..|es| - 1], es[|es| - 1];
      RefinesPrivateBuckets(l, init, k);
      FollowsAlways(l, init, k);
      FollowsStep(l, es, k);
      if last.key == k {
        var ts := TimesOf(init, k);
        OwnCheck(Run(l, init), k, last.now);
        ValidParts(l);
        PrivateStep(l, ts, last.now);
      }
    }
  }

  // ----- Eviction is never to a client's disadvantage, however many others check in.

  ghost predicate Ahead(l: LimiterState, es: seq<Event>, k: Client)
    requires l.Valid()
  {
    var r, ts := Run(l, es), TimesOf(es, k);
    var mine, theirs := Admitted(Answers(l, es, k)), Admitted(PrivateAnswers(l, ts));
    && mine >= theirs
    && (ts == [] ==> k !in r.table)
    && (k in r.table && ts != [] ==>
          && r.table[k].updated == Private(l, ts).updated
          && mine as real + r.table[k].tokens >= theirs as real + Private(l, ts).tokens)
  }

  lemma {:induction false} AdmittedSnoc(ds: seq<Decision>, d: Decision)
    ensures Admitted(ds + [d]) == Admitted(ds) + if d.allowed then 1 else 0
  {
    if ds == [] {
      assert ds + [d] == [d];
    } else {
      assert (ds + [d])[1..] == ds[1..] + [d];
      AdmittedSnoc(ds[1..], d);
    }
  }

  lemma AheadAfterOwnCheck(mine: nat, theirs: nat, b: BucketState, p: BucketState, now: real)
    requires b.Valid() && p.Valid() && b.rate == p.rate && b.capacity == p.capacity
    requires b.updated == p.updated || b.tokens == b.capacity
    requires mine >= theirs && mine as real + b.tokens >= theirs as real + p.tokens
    ensures var mine', theirs' := mine + (if Decide(b, now).allowed then 1 else 0),
                                  theirs + (if Decide(p, now).allowed then 1 else 0);
            && mine' >= theirs'
            && mine' as real + AfterCheck(b, now).tokens >= theirs' as real + AfterCheck(p, now).tokens
  {
    hide Gain, Wait;
    RefillStep(b, now);
    RefillStep(p, now);
    if b.updated != p.updated {
      assert Available(b, now) == b.capacity >= Available(p, now);
    }
  }

  lemma {:induction false} AnswersMatchTimes(l: LimiterState, es: seq<Event>, k: Client)
    requires l.Valid()
    ensures |Answers(l, es, k)| == |TimesOf(es, k)|
  {
    hide Verdict, Run;
    if es != [] {
      AnswersMatchTimes(l, es[..|es| - 1], k);
    }
  }

  lemma {:induction false} AheadAlways(l: LimiterState, es: seq<Event>, k: Client)
    requires l.Valid() && l.order == []
    ensures Ahead(l, es, k)
  {
    hide LimiterState.Valid, AfterCheck, Decide, After, Decisions, Checked, Newer, Touch, Verdict;
    ValidParts(l);
    if es != [] {
      var init, last := es[..|es| - 1], es[|es| - 1];
      AheadAlways(l, init, k);
      var before, ts := Run(l, init), TimesOf(init, k);
      ValidParts(l);
      ValidParts(before);
      if last.key == k {
        var b := if k in before.table then before.table[k] else Fresh(l.capacity, l.rate, last.now);
        OwnCheck(before, k, last.now);
        PrivateStep(l, ts, last.now);
        var p := if ts == [] then Fresh(l.capacity, l.rate, last.now) else Private(l, ts);
        var mine, theirs := Admitted(Answers(l, init, k)), Admitted(PrivateAnswers(l, ts));
        AdmittedSnoc(Answers(l, init, k), Decide(b, last.now));
        AdmittedSnoc(PrivateAnswers(l, ts), Decide(p, last.now));
        if ts == [] {
          AnswersMatchTimes(l, init, k);
        }
        AheadAfterOwnCheck(mine, theirs, b, p, last.now);
        PrivateStep(l, ts + [last.now], last.now);
      } else {
        if k in before.table {
          DroppedExactly(before, k, last.key, last.now);
        } else {
          StaysOut(before, k, last.key, last.now);
        }
      }
    }
  }

  /** For any run and any number of clients: the bounded limiter has always admitted at least as many
      of a client's checks as its private bucket would have. */
  lemma {:induction false} EvictionNeverCostsAdmissions(l: LimiterState, es: seq<Event>, k: Client)
    requires l.Valid() && l.order == []
    ensures Admitted(Answers(l, es, k)) >= Admitted(PrivateAnswers(l, TimesOf(es, k)))
  {
    AheadAlways(l, es, k);
  }

  // ----- Size of the table.

  lemma {:induction false} TableSize(l: LimiterState, es: seq<Event>)
    requires l.Valid() && l.order == []
    ensures |Run(l, es).table| == |Run(l, es).order| <= if l.maxClients >= 2 then l.maxClients else 2
  {
    if es != [] {
      TableSize(l, es[..|es| - 1]);
    }
    var r := Run(l, es);
    SetSize(r.order);
    assert r.table.Keys == Elements(r.order);
  }

  /** The table never holds more than max_clients entries, in every run, exactly when max_clients is at
      least 2: dropping half of one entry drops nothing. */
  lemma {:induction false} TableBoundIff(l: LimiterState)
    requires l.Valid() && l.order == []
    ensures (forall es: seq<Event> :: |Run(l, es).table| <= l.maxClients) <==> l.maxClients >= 2
  {
    if l.maxClients >= 2 {
      forall es: seq<Event> ensures |Run(l, es).table| <= l.maxClients {
        TableSize(l, es);
      }
    } else {
      var es := Overfull(l);
    }
  }

  lemma {:induction false} Overfull(l: LimiterState) returns (es: seq<Event>)
    requires l.Valid() && l.order == [] && l.maxClients < 2
    ensures |Run(l, es).table| > l.maxClients
  {
    hide Checked, LimiterState.Valid;
    var a, b := ByAddress("a"), ByAddress("b");
    es := [Event(a, 0.0), Event(b, 0.0)];
    assert es[..1] == [Event(a, 0.0)] && es[..1][..0] == [];
    SmallTableGrows(Run(l, []), a, 0.0);
    SmallTableGrows(Run(l, es[..1]), b, 0.0);
    TableSize(l, es);
  }

  // Dropping half of at most one entry drops nothing.
  lemma SmallTableGrows(l: LimiterState, x: Client, now: real)
    requires l.Valid() && |l.order| <= 1 && x !in l.order
    ensures Checked(l, x, now).order == l.order + [x]
  {
    hide BucketState.Valid, AfterCheck;
  }

  // ----- Half a table is the best bound for refining private buckets.

  const TARGET := ByKey("")

  function Stranger(i: nat): Client {
    ByAddress(seq(i, _ => 'x'))
  }

  function Strangers(from: nat, n: nat): set<Client> {
    if n == 0 then {} else Strangers(from, n - 1) + {Stranger(from + n - 1)}
  }

  /** n strangers check in at time 0, one after the other. */
  function Crowd(from: nat, n: nat): seq<Event> {
    if n == 0 then [] else Crowd(from, n - 1) + [Event(Stranger(from + n - 1), 0.0)]
  }

  function OwnChecks(n: nat): seq<Event> {
    if n == 0 then [] else OwnChecks(n - 1) + [Event(TARGET, 0.0)]
  }

  lemma {:induction false} StrangersDiffer(from: nat, n: nat)
    ensures |Strangers(from, n)| == n && TARGET !in Strangers(from, n)
    ensures forall i: nat :: Stranger(i) in Strangers(from, n) <==> from <= i < from + n
  {
    if n > 0 {
      StrangersDiffer(from, n - 1);
      forall i: nat, j: nat ensures Stranger(i) == Stranger(j) ==> i == j {
        assert |Stranger(i).host| == i && |Stranger(j).host| == j;
      }
    }
  }

  lemma RunSnoc(l: LimiterState, es: seq<Event>, e: Event)
    requires l.Valid()
    ensures Run(l, es + [e]) == Checked(Run(l, es), e.key, e.now)
    ensures Answers(l, es + [e], e.key) == Answers(l, es, e.key) + [Verdict(Run(l, es), e.key, e.now)]
    ensures TimesOf(es + [e], e.key) == TimesOf(es, e.key) + [e.now]
    ensures forall k :: k != e.key ==>
              TimesOf(es + [e], k) == TimesOf(es, k) && Since(es + [e], k) == Since(es, k) + {e.key}
    ensures Since(es + [e], e.key) == {}
  {
    hide Checked, Verdict, LimiterState.Valid;
    assert (es + [e])[..|es + [e]| - 1] == es;
  }

  lemma BetweenSnoc(es: seq<Event>, e: Event, k: Client, n: nat)
    requires AtMostBetween(es, k, n)
    requires e.key == k && TimesOf(es, k) != [] ==> |Since(es, k)| <= n
    ensures AtMostBetween(es + [e], k, n)
  {
    assert (es + [e])[..|es + [e]| - 1] == es;
  }

  lemma NewcomerJoins(s: LimiterState, x: Client, now: real)
    requires s.Valid() && x !in s.table && |s.order| < s.maxClients && x != TARGET
    ensures Checked(s, x, now).table.Keys == s.table.Keys + {x}
    ensures TARGET in s.table ==> |Newer(Checked(s, x, now).order, TARGET)| == |Newer(s.order, TARGET)| + 1
  {
    hide BucketState.Valid, AfterCheck;
    if TARGET in s.table {
      DroppedExactly(s, TARGET, x, now);
      NewerInOrder(s.order, TARGET);
    }
  }

  lemma OthersAnswer(l: LimiterState, es: seq<Event>, e: Event)
    requires l.Valid() && e.key != TARGET
    ensures Answers(l, es + [e], TARGET) == Answers(l, es, TARGET)
  {
    assert (es + [e])[..|es + [e]| - 1] == es;
  }

  ghost predicate FreshFrom(s: LimiterState, from: nat) {
    forall i: nat | i >= from :: Stranger(i) !in s.table
  }

  lemma StrangerJoins(s: LimiterState, i: nat)
    requires s.Valid() && |s.order| == |s.table| < s.maxClients && FreshFrom(s, i)
    ensures var t := Checked(s, Stranger(i), 0.0);
            && |t.table| == |s.table| + 1 && FreshFrom(t, i + 1) && (TARGET in t.table <==> TARGET in s.table)
            && (TARGET in s.table ==> |Newer(t.order, TARGET)| == |Newer(s.order, TARGET)| + 1)
  {
    hide LimiterState.Valid, Checked, Newer, Stranger;
    StrangerApart(i);
    NewcomerJoins(s, Stranger(i), 0.0);
    OneMore(s.table.Keys, Stranger(i));
    assert |Checked(s, Stranger(i), 0.0).table.Keys| == |s.table.Keys| + 1;
  }

  /** A crowd that fits into the table drops nobody. */
  lemma {:induction false} CrowdJoins(l: LimiterState, es: seq<Event>, from: nat, n: nat)
    requires l.Valid() && l.order == [] && |Run(l, es).table| + n <= l.maxClients && FreshFrom(Run(l, es), from)
    ensures var s, r := Run(l, es), Run(l, es + Crowd(from, n));
            && |r.table| == |s.table| + n && FreshFrom(r, from + n)
            && (TARGET in r.table <==> TARGET in s.table)
            && (TARGET in s.table ==> |Newer(r.order, TARGET)| == |Newer(s.order, TARGET)| + n)
  {
    hide Checked, Verdict, LimiterState.Valid, Newer, Run, TimesOf, Since, Answers, Stranger, FreshFrom;
    if n == 0 {
      assert es + Crowd(from, 0) == es;
    } else {
      var shorter, e := es + Crowd(from, n - 1), Event(Stranger(from + n - 1), 0.0);
      CrowdJoins(l, es, from, n - 1);
      assert es + Crowd(from, n) == shorter + [e];
      RunSnoc(l, shorter, e);
      TableSize(l, shorter);
      StrangerJoins(Run(l, shorter), from + n - 1);
    }
  }

  lemma OneMore(a: set<Client>, x: Client)
    requires x !in a
    ensures |a + {x}| == |a| + 1
  {
  }

  lemma StrangerApart(i: nat)
    ensures Stranger(i) != TARGET && forall j: nat :: Stranger(j) == Stranger(i) ==> j == i
  {
    forall j: nat ensures Stranger(j) == Stranger(i) ==> j == i {
      assert |Stranger(i).host| == i && |Stranger(j).host| == j;
    }
  }

  /** What a crowd does to the target: nothing it is asked, and n more others since its last check. */
  lemma {:induction false} CrowdPasses(l: LimiterState, es: seq<Event>, from: nat, n: nat, gap: nat)
    requires l.Valid() && AtMostBetween(es, TARGET, gap)
    ensures TimesOf(es + Crowd(from, n), TARGET) == TimesOf(es, TARGET)
    ensures Answers(l, es + Crowd(from, n), TARGET) == Answers(l, es, TARGET)
    ensures Since(es + Crowd(from, n), TARGET) == Since(es, TARGET) + Strangers(from, n)
    ensures AtMostBetween(es + Crowd(from, n), TARGET, gap)
  {
    hide LimiterState.Valid, AtMostBetween, TimesOf, Since, Answers, Stranger, Run;
    if n == 0 {
      assert es + Crowd(from, 0) == es;
    } else {
      var shorter, e := es + Crowd(from, n - 1), Event(Stranger(from + n - 1), 0.0);
      CrowdPasses(l, es, from, n - 1, gap);
      assert es + Crowd(from, n) == shorter + [e];
      StrangerApart(from + n - 1);
      RunSnoc(l, shorter, e);
      OthersAnswer(l, shorter, e);
      BetweenSnoc(shorter, e, TARGET, gap);
    }
  }

  /** The target's own checks: it is the most recent entry and nobody is dropped. */
  lemma {:induction false} TargetChecks(l: LimiterState, es: seq<Event>, n: nat, gap: nat)
    requires l.Valid() && l.order == [] && n > 0 && |Run(l, es).table| < l.maxClients
    requires TARGET !in Run(l, es).table && TimesOf(es, TARGET) == [] && AtMostBetween(es, TARGET, gap)
    ensures var s, r, all := Run(l, es), Run(l, es + OwnChecks(n)), es + OwnChecks(n);
            && r.table.Keys == s.table.Keys + {TARGET} && |Newer(r.order, TARGET)| == 0
            && TimesOf(all, TARGET) == Repeat(0.0, n) && Since(all, TARGET) == {} && AtMostBetween(all, TARGET, gap)
  {
    hide LimiterState.Valid, AtMostBetween, TimesOf, Since, Answers, Checked, Verdict, Newer, Run;
    var shorter, e := es + OwnChecks(n - 1), Event(TARGET, 0.0);
    assert es + OwnChecks(n) == shorter + [e];
    TableSize(l, es);
    if n == 1 {
      assert shorter == es && Repeat(0.0, 1) == [0.0];
    } else {
      TargetChecks(l, es, n - 1, gap);
      RepeatSnoc(0.0, n - 1);
    }
    RunSnoc(l, shorter, e);
    BetweenSnoc(shorter, e, TARGET, gap);
    OwnCheck(Run(l, shorter), TARGET, 0.0);
    OwnCheckKeys(Run(l, shorter));
  }

  lemma OwnCheckKeys(s: LimiterState)
    requires TARGET in s.table || |s.order| < s.maxClients
    ensures Checked(s, TARGET, 0.0).table.Keys == s.table.Keys + {TARGET}
  {
    hide AfterCheck;
  }

  lemma {:induction false} RepeatSnoc(t: real, n: nat)
    ensures Repeat(t, n + 1) == Repeat(t, n) + [t]
  {
    if n > 0 {
      RepeatSnoc(t, n - 1);
    }
  }

  lemma StartsFresh(l: LimiterState, gap: nat)
    requires l.Valid() && l.order == []
    ensures Run(l, []) == l && |l.table| == 0 && TARGET !in l.table && FreshFrom(l, 0)
    ensures TimesOf([], TARGET) == [] && Since([], TARGET) == {} && AtMostBetween([], TARGET, gap)
    ensures l.capacity.Floor >= 1
  {
    assert l.table.Keys == {};
  }

  lemma StillFresh(s: LimiterState, t: LimiterState, from: nat)
    requires FreshFrom(s, from) && TARGET !in s.table && t.table.Keys == s.table.Keys + {TARGET}
    ensures FreshFrom(t, from) && TARGET in t.table && |t.table| == |s.table| + 1
  {
    OneMore(s.table.Keys, TARGET);
    assert |t.table.Keys| == |t.table|;
  }

  lemma Filled(l: LimiterState, n: nat, gap: nat)
    requires l.Valid() && l.order == [] && n <= l.maxClients
    ensures var s, es := Run(l, Crowd(0, n)), Crowd(0, n);
            && |s.table| == n && FreshFrom(s, n) && TARGET !in s.table
            && TimesOf(es, TARGET) == [] && AtMostBetween(es, TARGET, gap)
  {
    hide LimiterState.Valid, Run, TimesOf, Since, Newer, Checked, AtMostBetween, FreshFrom, Answers, Crowd, Strangers,
         Stranger;
    StartsFresh(l, gap);
    CrowdJoins(l, [], 0, n);
    CrowdPasses(l, [], 0, n, gap);
    assert [] + Crowd(0, n) == Crowd(0, n);
  }

  /** The target spends its tokens in a table that has room for half of it (rounded up) more. */
  lemma TokensSpent(l: LimiterState, gap: nat) returns (es: seq<Event>)
    requires l.Valid() && l.order == [] && l.maxClients >= 2 && gap == HalfUp(l.maxClients) + 1
    ensures AtMostBetween(es, TARGET, gap) && Since(es, TARGET) == {}
    ensures TimesOf(es, TARGET) == Repeat(0.0, l.capacity.Floor)
    ensures var s := Run(l, es);
            && FreshFrom(s, l.maxClients - gap) && TARGET in s.table && |s.table| == l.maxClients - gap + 1
            && |Newer(s.order, TARGET)| == 0
  {
    var fill := l.maxClients - gap;
    StartsFresh(l, gap);
    hide LimiterState.Valid, Run, TimesOf, Since, Newer, Checked, AtMostBetween, FreshFrom, Crowd, OwnChecks, Repeat;
    Filled(l, fill, gap);
    TargetChecks(l, Crowd(0, fill), l.capacity.Floor, gap);
    es := Crowd(0, fill) + OwnChecks(l.capacity.Floor);
    StillFresh(Run(l, Crowd(0, fill)), Run(l, es), fill);
  }

  /** Then it is dropped by a crowd one larger than half the table. */
  lemma Prelude(l: LimiterState, gap: nat) returns (es: seq<Event>)
    requires l.Valid() && l.order == [] && l.maxClients >= 2 && gap == HalfUp(l.maxClients) + 1
    ensures AtMostBetween(es, TARGET, gap) && |Since(es, TARGET)| <= gap
    ensures TARGET !in Run(l, es).table && TimesOf(es, TARGET) == Repeat(0.0, l.capacity.Floor)
  {
    var fill := l.maxClients - gap;
    hide LimiterState.Valid, Run, TimesOf, Since, Newer, Checked, AtMostBetween, FreshFrom, Answers;
    var spent := TokensSpent(l, gap);
    CrowdJoins(l, spent, fill, gap - 1);
    var third := spent + Crowd(fill, gap - 1);
    var last := Event(Stranger(fill + gap - 1), 0.0);
    es := spent + Crowd(fill, gap);
    CrowdPasses(l, spent, fill, gap, gap);
    StrangersDiffer(fill, gap);
    assert {} + Strangers(fill, gap) == Strangers(fill, gap);
    assert es == third + [last];
    RunSnoc(l, third, last);
    TableSize(l, third);
    DroppedAtLast(Run(l, third), fill + gap - 1);
  }

  lemma DroppedAtLast(s: LimiterState, i: nat)
    requires s.Valid() && TARGET in s.table && FreshFrom(s, i)
    requires |s.order| == s.maxClients && |Newer(s.order, TARGET)| == HalfUp(s.maxClients)
    ensures TARGET !in Checked(s, Stranger(i), 0.0).table
  {
    StrangerApart(i);
    DroppedExactly(s, TARGET, Stranger(i), 0.0);
  }

  lemma AdmittedAgain(l: LimiterState, es: seq<Event>)
    requires l.Valid() && TARGET !in Run(l, es).table
    ensures Verdict(Run(l, es), TARGET, 0.0).allowed
  {
    hide Run, Checked, Verdict;
    OwnCheck(Run(l, es), TARGET, 0.0);
  }

  lemma RefusedInPrivate(l: LimiterState)
    requires l.Valid()
    ensures var ds := PrivateAnswers(l, Repeat(0.0, l.capacity.Floor + 1));
            |ds| == l.capacity.Floor + 1 && !ds[l.capacity.Floor].allowed
  {
    var b, burst := Fresh(l.capacity, l.rate, 0.0), l.capacity.Floor;
    BurstAtOneInstant(b, 0.0, burst + 1, burst);
  }

  /** With one other client more than half the table (rounded up) in between, some run gets other answers than a
      private bucket, whatever the limit and the size of the table: the bound of the refinement is the best one. */
  lemma HalfTableIsBest(l: LimiterState) returns (es: seq<Event>)
    requires l.Valid() && l.order == [] && l.maxClients >= 2
    ensures AtMostBetween(es, TARGET, HalfUp(l.maxClients) + 1)
    ensures Answers(l, es, TARGET) != PrivateAnswers(l, TimesOf(es, TARGET))
  {
    var gap := HalfUp(l.maxClients) + 1;
    var before := Prelude(l, gap);
    var e := Event(TARGET, 0.0);
    es := before + [e];
    hide LimiterState.Valid, Run, AtMostBetween, Answers, PrivateAnswers, Verdict, TimesOf, Since, Decisions;
    RunSnoc(l, before, e);
    BetweenSnoc(before, e, TARGET, gap);
    AdmittedAgain(l, before);
    RefusedInPrivate(l);
    RepeatSnoc(0.0, l.capacity.Floor);
    var mine, theirs := Answers(l, es, TARGET), PrivateAnswers(l, TimesOf(es, TARGET));
    assert mine[|mine| - 1].allowed && !theirs[|theirs| - 1].allowed;
  }
}
