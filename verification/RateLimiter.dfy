/** The sliding-window rate limiter of the server (handlers.cpp). */
module RateLimiter {

  /** A request in lock order; times are steady-clock nanoseconds. */
  datatype Request = Request(ip: string, now: int)

  const LIMIT := 20
  const WINDOW := 60_000_000_000
  const SHARDS := 16
  const SHARD_CAP := 4096

  // ----- the rule, on the whole log of requests

  /** How many of the times lie within the window that ends now. */
  function Recent(times: seq<int>, now: int): nat {
    if times == [] then 0
    else Recent(times[..|times| - 1], now) + if now - times[|times| - 1] <= WINDOW then 1 else 0
  }

  /** Fewer than 20 of the admissions so far lie within the last 60 seconds. */
  predicate Allowed(admitted: seq<int>, now: int) {
    Recent(admitted, now) < LIMIT
  }

  /** The times at which requests of one address were admitted, had nothing ever been forgotten. */
  function Admissions(log: seq<Request>, ip: string): (times: seq<int>)
    ensures |times| <= |log|
  {
    if log == [] then []
    else
      var times, last := Admissions(log[..|log| - 1], ip), log[|log| - 1];
      if last.ip == ip && Allowed(times, last.now) then times + [last.now] else times
  }

  /** No request of this address came after `now`. */
  predicate NotBefore(log: seq<Request>, ip: string, now: int) {
    forall k :: 0 <= k < |log| && log[k].ip == ip ==> log[k].now <= now
  }

  /** Requests of one address come in the order of their times. */
  predicate InOrder(log: seq<Request>) {
    forall i, j :: 0 <= i < j < |log| && log[i].ip == log[j].ip ==> log[i].now <= log[j].now
  }

  predicate Sorted(times: seq<int>) {
    forall i, j :: 0 <= i < j < |times| ==> times[i] <= times[j]
  }

  lemma InOrderStep(log: seq<Request>, ip: string, now: int)
    ensures InOrder(log + [Request(ip, now)]) <==> InOrder(log) && NotBefore(log, ip, now)
  {
    var more := log + [Request(ip, now)];
    if InOrder(more) {
      assert forall k :: 0 <= k < |log| ==> more[k] == log[k];
      assert more[|log|] == Request(ip, now);
      assert forall i, j :: 0 <= i < j < |log| && log[i].ip == log[j].ip ==> more[i].now <= more[j].now;
    }
  }

  /** The k-th admission belongs to a request. */
  lemma {:induction false} AdmissionIsRequest(log: seq<Request>, ip: string, k: nat)
    requires k < |Admissions(log, ip)|
    ensures exists r :: 0 <= r < |log| && log[r] == Request(ip, Admissions(log, ip)[k])
  {
    var front, last := log[..|log| - 1], log[|log| - 1];
    if k < |Admissions(front, ip)| {
      AdmissionIsRequest(front, ip, k);
      var r :| 0 <= r < |front| && front[r] == Request(ip, Admissions(front, ip)[k]);
      assert log[r] == front[r];
    } else {
      assert log[|log| - 1] == Request(ip, Admissions(log, ip)[k]);
    }
  }

  lemma AdmissionsBound(log: seq<Request>, ip: string, now: int)
    requires NotBefore(log, ip, now)
    ensures forall k :: 0 <= k < |Admissions(log, ip)| ==> Admissions(log, ip)[k] <= now
  {
    forall k | 0 <= k < |Admissions(log, ip)| ensures Admissions(log, ip)[k] <= now {
      AdmissionIsRequest(log, ip, k);
    }
  }

  lemma {:induction false} AdmissionsSorted(log: seq<Request>, ip: string)
    requires InOrder(log)
    ensures Sorted(Admissions(log, ip))
  {
    if log != [] {
      var front, last := log[..|log| - 1], log[|log| - 1];
      assert log == front + [last];
      InOrderStep(front, last.ip, last.now);
      AdmissionsSorted(front, ip);
      if last.ip == ip {
        AdmissionsBound(front, ip, last.now);
      }
    }
  }

  lemma {:induction false} NoneRecent(times: seq<int>, now: int)
    requires forall k :: 0 <= k < |times| ==> now - times[k] > WINDOW
    ensures Recent(times, now) == 0
  {
    if times != [] {
      NoneRecent(times[..|times| - 1], now);
    }
  }

  /** Counting times that are old up to some point and recent from there on. */
  lemma {:induction false} CutCounts(times: seq<int>, cut: nat, now: int)
    requires cut <= |times|
    requires forall k :: 0 <= k < cut ==> now - times[k] > WINDOW
    requires forall k :: cut <= k < |times| ==> now - times[k] <= WINDOW
    ensures Recent(times, now) == |times| - cut
  {
    if |times| == cut {
      NoneRecent(times, now);
    } else {
      CutCounts(times[..|times| - 1], cut, now);
    }
  }

  lemma {:induction false} RecentTail(times: seq<int>, cut: nat, now: int)
    requires cut <= |times|
    ensures (forall k :: 0 <= k < cut ==> now - times[k] > WINDOW) ==> Recent(times, now) <= |times| - cut
    ensures (forall k :: cut <= k < |times| ==> now - times[k] <= WINDOW) ==> Recent(times, now) >= |times| - cut
  {
    if |times| == cut {
      if forall k :: 0 <= k < cut ==> now - times[k] > WINDOW {
        NoneRecent(times, now);
      }
    } else {
      RecentTail(times[..|times| - 1], cut, now);
    }
  }

  lemma RefusedTimes(times: seq<int>, now: int)
    requires Sorted(times)
    ensures !Allowed(times, now) <==> |times| >= LIMIT && now - times[|times| - LIMIT] <= WINDOW
  {
    RecentBound(times, now);
    if |times| >= LIMIT {
      var cut := |times| - LIMIT;
      RecentTail(times, cut, now);
      RecentTail(times, cut + 1, now);
    }
  }

  /** A request is refused exactly when the 20th last admission is still within the window. */
  lemma RefusedExactly(log: seq<Request>, ip: string, now: int)
    requires InOrder(log)
    ensures var a := Admissions(log, ip);
      !Allowed(a, now) <==> |a| >= LIMIT && now - a[|a| - LIMIT] <= WINDOW
  {
    hide Allowed, Recent;
    AdmissionsSorted(log, ip);
    RefusedTimes(Admissions(log, ip), now);
  }

  /**
   Why the order of clock readings matters: after 20 admissions at time 0 and one past their window, a request
   that read the clock at time 1 but comes last finds its window popped and is admitted against the rule.
   */
  lemma LateRequestSlipsThrough()
    ensures var times := seq(LIMIT, _ => 0);
      var deq := PopOld(times, WINDOW + 1) + [WINDOW + 1];
      && Allowed(times, WINDOW + 1) && |PopOld(deq, 1)| < LIMIT && !Allowed(times + [WINDOW + 1], 1)
  {
    var times := seq(LIMIT, _ => 0);
    NoneRecent(times, WINDOW + 1);
    CutCounts(times + [WINDOW + 1], 0, 1);
    hide Recent;
    PoppedAll(times, WINDOW + 1);
  }

  lemma {:induction false} PoppedAll(times: seq<int>, now: int)
    requires forall k :: 0 <= k < |times| ==> now - times[k] > WINDOW
    ensures PopOld(times, now) == []
  {
    if times != [] {
      PoppedAll(times[1..], now);
    }
  }

  lemma {:induction false} RecentBound(times: seq<int>, now: int)
    ensures Recent(times, now) <= |times|
  {
    if times != [] {
      RecentBound(times[..|times| - 1], now);
    }
  }

  /** Any 21 consecutive admissions of one address span more than 60 seconds. */
  lemma {:induction false} AdmissionsSpread(log: seq<Request>, ip: string, i: nat)
    requires InOrder(log) && i + LIMIT < |Admissions(log, ip)|
    ensures Admissions(log, ip)[i + LIMIT] - Admissions(log, ip)[i] > WINDOW
  {
    var front, last := log[..|log| - 1], log[|log| - 1];
    assert log == front + [last];
    InOrderStep(front, last.ip, last.now);
    var a := Admissions(front, ip);
    if i + LIMIT < |a| {
      AdmissionsSpread(front, ip, i);
    } else {
      RefusedExactly(front, ip, last.now);
    }
  }

  // ----- the deques

  /** Dropping times from the front until the first is within the window. */
  function PopOld(times: seq<int>, now: int): (kept: seq<int>)
    ensures |kept| <= |times| && kept == times[|times| - |kept|..]
    ensures kept != [] ==> now - kept[0] <= WINDOW
    ensures forall k :: 0 <= k < |times| - |kept| ==> now - times[k] > WINDOW
  {
    if times == [] || now - times[0] <= WINDOW then times else PopOld(times[1..], now)
  }

  /** An admission that no future request can find in its window. */
  ghost predicate Expired(log: seq<Request>, ip: string, t: int) {
    forall now: int :: NotBefore(log, ip, now) ==> now - t > WINDOW
  }

  /** The deque of an address: its admissions without some expired ones in front. */
  ghost predicate Remembers(deq: seq<int>, log: seq<Request>, ip: string) {
    var a := Admissions(log, ip);
    && |deq| <= |a| && deq == a[|a| - |deq|..]
    && forall k :: 0 <= k < |a| - |deq| ==> Expired(log, ip, a[k])
  }

  lemma ExpiredNow(log: seq<Request>, ip: string, t: int, now: int)
    requires Expired(log, ip, t) && NotBefore(log, ip, now)
    ensures now - t > WINDOW
  {
  }

  lemma StaysExpired(log: seq<Request>, ip: string, t: int, r: Request)
    requires Expired(log, ip, t)
    ensures Expired(log + [r], ip, t)
  {
    var more := log + [r];
    forall later: int | NotBefore(more, ip, later) ensures later - t > WINDOW {
      assert forall j :: 0 <= j < |log| ==> more[j] == log[j];
      assert NotBefore(log, ip, later);
    }
  }

  /** An admission outside the window of the newest request of its address has expired. */
  lemma NowExpired(log: seq<Request>, ip: string, t: int, now: int)
    requires now - t > WINDOW
    ensures Expired(log + [Request(ip, now)], ip, t)
  {
    var more := log + [Request(ip, now)];
    assert more[|log|] == Request(ip, now);
  }

  /** What popping leaves of the admissions; all that came before is outside the window. */
  lemma PoppedSuffix(deq: seq<int>, log: seq<Request>, ip: string, now: int)
    requires NotBefore(log, ip, now) && Remembers(deq, log, ip)
    ensures var a, kept := Admissions(log, ip), PopOld(deq, now);
      && |kept| <= |a| && kept == a[|a| - |kept|..] && (kept != [] ==> now - kept[0] <= WINDOW)
      && forall k :: 0 <= k < |a| - |kept| ==> now - a[k] > WINDOW
  {
    hide Admissions, Expired, NotBefore;
    var a, kept := Admissions(log, ip), PopOld(deq, now);
    forall k | 0 <= k < |a| - |kept| ensures now - a[k] > WINDOW {
      if k < |a| - |deq| {
        ExpiredNow(log, ip, a[k], now);
      } else {
        assert a[k] == deq[k - (|a| - |deq|)];
      }
    }
  }

  lemma SortedTail(times: seq<int>, cut: nat, now: int)
    requires Sorted(times) && cut <= |times| && (cut < |times| ==> now - times[cut] <= WINDOW)
    ensures forall k :: cut <= k < |times| ==> now - times[k] <= WINDOW
  {
    forall k | cut <= k < |times| ensures now - times[k] <= WINDOW {
      assert cut < k ==> times[cut] <= times[k];
    }
  }

  /** After popping, the length of the deque is the number of recent admissions. */
  lemma PoppedCounts(deq: seq<int>, log: seq<Request>, ip: string, now: int)
    requires InOrder(log) && NotBefore(log, ip, now) && Remembers(deq, log, ip)
    ensures |PopOld(deq, now)| == Recent(Admissions(log, ip), now)
  {
    hide Admissions, Remembers, NotBefore, InOrder, PopOld, Recent, Sorted;
    PoppedSuffix(deq, log, ip, now);
    AdmissionsSorted(log, ip);
    var a, kept := Admissions(log, ip), PopOld(deq, now);
    var cut := |a| - |kept|;
    assert kept != [] ==> a[cut] == kept[0];
    SortedTail(a, cut, now);
    CutCounts(a, cut, now);
  }

  /** One decision keeps the deque faithful. */
  lemma DecisionRemembers(deq: seq<int>, log: seq<Request>, ip: string, now: int)
    requires NotBefore(log, ip, now) && Remembers(deq, log, ip)
    ensures var kept, more := PopOld(deq, now), log + [Request(ip, now)];
      Remembers(if Allowed(Admissions(log, ip), now) then kept + [now] else kept, more, ip)
  {
    hide Admissions, Expired, NotBefore, PopOld, Allowed, Remembers;
    PoppedSuffix(deq, log, ip, now);
    AdmissionsStep(log, ip, now);
    var a, kept, more := Admissions(log, ip), PopOld(deq, now), log + [Request(ip, now)];
    var cut := |a| - |kept|;
    forall k | 0 <= k < cut ensures Expired(more, ip, a[k]) {
      NowExpired(log, ip, a[k], now);
    }
    if Allowed(a, now) {
      AppendedSuffix(a, kept, cut, now);
      SuffixRemembers(kept + [now], a + [now], cut, more, ip);
    } else {
      SuffixRemembers(kept, a, cut, more, ip);
    }
  }

  lemma AppendedSuffix(a: seq<int>, kept: seq<int>, cut: nat, t: int)
    requires cut <= |a| && kept == a[cut..]
    ensures (a + [t])[cut..] == kept + [t] && forall k :: 0 <= k < cut ==> (a + [t])[k] == a[k]
  {
  }

  lemma SuffixRemembers(kept: seq<int>, a: seq<int>, cut: nat, log: seq<Request>, ip: string)
    requires a == Admissions(log, ip) && cut <= |a| && kept == a[cut..] && forall k :: 0 <= k < cut ==> Expired(log, ip, a[k])
    ensures Remembers(kept, log, ip)
  {
    hide Admissions, Expired;
  }

  lemma AdmissionsStep(log: seq<Request>, ip: string, now: int)
    ensures Admissions(log + [Request(ip, now)], ip)
         == if Allowed(Admissions(log, ip), now) then Admissions(log, ip) + [now] else Admissions(log, ip)
  {
    var more := log + [Request(ip, now)];
    assert more[..|log|] == log && more[|log|] == Request(ip, now);
  }

  lemma OtherAdmissions(log: seq<Request>, ip: string, r: Request)
    requires r.ip != ip
    ensures Admissions(log + [r], ip) == Admissions(log, ip)
  {
    var more := log + [r];
    assert more[..|log|] == log && more[|log|] == r;
  }

  /** Requests of other addresses leave a deque faithful. */
  lemma OtherRemembers(deq: seq<int>, log: seq<Request>, ip: string, r: Request)
    requires Remembers(deq, log, ip) && r.ip != ip
    ensures Remembers(deq, log + [r], ip)
  {
    hide Expired, Admissions;
    OtherAdmissions(log, ip, r);
    var a := Admissions(log, ip);
    forall k | 0 <= k < |a| - |deq| ensures Expired(log + [r], ip, a[k]) {
      StaysExpired(log, ip, a[k], r);
    }
  }

  // ----- shards

  type History = map<string, seq<int>>

  function DequeOf(h: History, ip: string): seq<int> {
    if ip in h then h[ip] else []
  }

  predicate NoEmpty(h: History) {
    forall ip :: ip in h ==> h[ip] != []
  }

  function NonEmptyPart(h: History): History {
    map ip | ip in h && h[ip] != [] :: h[ip]
  }

  /** Erasing every address whose deque is empty. */
  method EvictEmpty(h: History) returns (kept: History)
    ensures kept == NonEmptyPart(h)
    ensures forall ip :: (ip in kept <==> ip in h && h[ip] != []) && (ip in kept ==> kept[ip] == h[ip])
    ensures NoEmpty(h) ==> kept == h
  {
    kept := h;
    var keys := h.Keys;
    while keys != {}
      invariant keys <= h.Keys
      invariant kept == map ip | ip in h && (ip in keys || h[ip] != []) :: h[ip]
      decreases |keys|
    {
      var ip :| ip in keys;
      if kept[ip] == [] {
        kept := kept - {ip};
      }
      keys := keys - {ip};
    }
  }

  predicate Appears(log: seq<Request>, ip: string) {
    exists k :: 0 <= k < |log| && log[k].ip == ip
  }

  /** The shard of an address. */
  function ShardOf(hash: string -> nat, ip: string): (s: nat)
    ensures s < SHARDS
  {
    hash(ip) % SHARDS
  }

  /**
   Every address is remembered by its own shard, and the shards know exactly the addresses that
   were ever seen: no deque is ever empty between requests.
   */
  ghost predicate Tracks(shards: seq<History>, log: seq<Request>, hash: string -> nat) {
    && |shards| == SHARDS && InOrder(log)
    && (forall ip: string :: TracksAddress(shards[ShardOf(hash, ip)], log, ip))
    && forall s :: 0 <= s < SHARDS ==> NoEmpty(shards[s])
  }

  ghost predicate TracksAddress(h: History, log: seq<Request>, ip: string) {
    Remembers(DequeOf(h, ip), log, ip) && (ip in h <==> Appears(log, ip))
  }

  lemma NothingTracked(hash: string -> nat)
    ensures Tracks(seq(SHARDS, _ => map[]), [], hash)
  {
  }

  /** The deque of an address after a request, and the shards that hold it. */
  function NewDeque(deq: seq<int>, log: seq<Request>, ip: string, now: int): seq<int> {
    if Allowed(Admissions(log, ip), now) then PopOld(deq, now) + [now] else PopOld(deq, now)
  }

  function Recorded(shards: seq<History>, hash: string -> nat, ip: string, deq: seq<int>): (r: seq<History>)
    requires |shards| == SHARDS
    ensures |r| == SHARDS
  {
    shards[ShardOf(hash, ip) := shards[ShardOf(hash, ip)][ip := deq]]
  }

  /** Recording an address changes what its shard holds for it and nothing else. */
  lemma RecordedDeque(shards: seq<History>, hash: string -> nat, ip: string, deq: seq<int>, other: string)
    requires |shards| == SHARDS
    ensures var h, h' := shards[ShardOf(hash, other)], Recorded(shards, hash, ip, deq)[ShardOf(hash, other)];
      && DequeOf(h', other) == (if other == ip then deq else DequeOf(h, other))
      && (other in h' <==> other == ip || other in h)
  {
    hide ShardOf;
  }

  lemma AddressStep(h: History, h': History, log: seq<Request>, ip: string, now: int, other: string)
    requires TracksAddress(h, log, other) && NotBefore(log, ip, now)
    requires DequeOf(h', other) == if other == ip then NewDeque(DequeOf(h, ip), log, ip, now) else DequeOf(h, other)
    requires other in h' <==> other == ip || other in h
    ensures TracksAddress(h', log + [Request(ip, now)], other)
  {
    hide Remembers, Admissions, Allowed, NotBefore, PopOld, Appears, DequeOf;
    var r := Request(ip, now);
    AppearsStep(log, r, other);
    if other == ip {
      DecisionRemembers(DequeOf(h, ip), log, ip, now);
    } else {
      OtherRemembers(DequeOf(h, other), log, other, r);
    }
  }

  /** A recorded deque is not empty: the request is in it, or 20 earlier ones are. */
  lemma NewDequeIsFull(deq: seq<int>, log: seq<Request>, ip: string, now: int)
    requires InOrder(log) && NotBefore(log, ip, now) && Remembers(deq, log, ip)
    ensures |PopOld(deq, now)| == Recent(Admissions(log, ip), now) && NewDeque(deq, log, ip, now) != []
  {
    hide Admissions, Recent, InOrder, NotBefore, Remembers, PopOld;
    PoppedCounts(deq, log, ip, now);
  }

  /** One request recorded in its shard. */
  lemma TracksStep(shards: seq<History>, log: seq<Request>, hash: string -> nat, ip: string, now: int)
    requires Tracks(shards, log, hash) && NotBefore(log, ip, now)
    ensures |shards| == SHARDS
    ensures var old' := DequeOf(shards[ShardOf(hash, ip)], ip);
      var deq := NewDeque(old', log, ip, now);
      && |PopOld(old', now)| == Recent(Admissions(log, ip), now) && NoEmpty(shards[ShardOf(hash, ip)][ip := deq])
      && Tracks(Recorded(shards, hash, ip, deq), log + [Request(ip, now)], hash)
  {
    hide Remembers, Admissions, Recent, InOrder, NotBefore, PopOld, Appears, NewDeque, ShardOf, DequeOf;
    assert TracksAddress(shards[ShardOf(hash, ip)], log, ip);
    var old' := DequeOf(shards[ShardOf(hash, ip)], ip);
    NewDequeIsFull(old', log, ip, now);
    InOrderStep(log, ip, now);
    var after := Recorded(shards, hash, ip, NewDeque(old', log, ip, now));
    forall other: string ensures TracksAddress(after[ShardOf(hash, other)], log + [Request(ip, now)], other) {
      assert TracksAddress(shards[ShardOf(hash, other)], log, other);
      RecordedDeque(shards, hash, ip, NewDeque(old', log, ip, now), other);
      hide TracksAddress, Recorded;
      AddressStep(shards[ShardOf(hash, other)], after[ShardOf(hash, other)], log, ip, now, other);
    }
  }

  /** What the code does to a shard, given the popped deque. */
  function AfterPop(h: History, ip: string, kept: seq<int>, now: int): History {
    h[ip := if |kept| < LIMIT then kept + [now] else kept]
  }

  lemma RecordStep(shards: seq<History>, log: seq<Request>, hash: string -> nat, ip: string, now: int)
    requires Tracks(shards, log, hash) && NotBefore(log, ip, now)
    ensures |shards| == SHARDS
    ensures var s := ShardOf(hash, ip);
      var kept := PopOld(DequeOf(shards[s], ip), now);
      && (|kept| < LIMIT <==> Allowed(Admissions(log, ip), now)) && NoEmpty(AfterPop(shards[s], ip, kept, now))
      && Tracks(shards[s := AfterPop(shards[s], ip, kept, now)], log + [Request(ip, now)], hash)
  {
    hide Tracks, Admissions, Recent, NotBefore, PopOld, NoEmpty, ShardOf, DequeOf;
    TracksStep(shards, log, hash, ip, now);
  }

  /** The pop_front loop. */
  method PopFront(deq: seq<int>, now: int) returns (kept: seq<int>)
    ensures kept == PopOld(deq, now)
  {
    hide PopOld;
    kept := deq;
    while kept != [] && now - kept[0] > WINDOW
      invariant PopOld(kept, now) == PopOld(deq, now)
    {
      PopStep(kept, now);
      kept := kept[1..];
    }
    PopDone(kept, now);
  }

  /** The decision on a popped deque, and the shard that keeps it. */
  method Decide(h: History, ip: string, popped: seq<int>, now: int) returns (ok: bool, history: History)
    requires NoEmpty(AfterPop(h, ip, popped, now))
    ensures ok <==> |popped| < LIMIT
    ensures history == AfterPop(h, ip, popped, now)
  {
    hide NoEmpty, NonEmptyPart;
    ok := |popped| < LIMIT;
    var deq := if ok then popped + [now] else popped;
    history := h[ip := deq];
    if ok && |history| > SHARD_CAP {
      history := EvictEmpty(history);
    }
  }

  class Limiter {
    const hash: string -> nat
    var shards: seq<History>
    ghost var log: seq<Request>

    constructor (hash: string -> nat)
      ensures Valid() && log == []
    {
      this.hash := hash;
      shards := seq(SHARDS, _ => map[]);
      log := [];
      new;
      NothingTracked(hash);
    }

    ghost predicate Valid()
      reads this
    {
      Tracks(shards, log, hash)
    }

    /** rate_limit_allow: decides as if one map had kept every admission. */
    method Allow(ip: string, now: int) returns (ok: bool)
      requires Valid() && NotBefore(log, ip, now)
      modifies this
      ensures Valid() && log == old(log) + [Request(ip, now)]
      ensures ok <==> Allowed(Admissions(old(log), ip), now)
    {
      RecordStep(shards, log, hash, ip, now);
      hide Tracks, Admissions, Allowed, NotBefore, PopOld, NoEmpty, ShardOf, DequeOf, AfterPop;
      var s := ShardOf(hash, ip);
      var deq := PopFront(DequeOf(shards[s], ip), now);
      var history;
      ok, history := Decide(shards[s], ip, deq, now);
      shards := shards[s := history];
      log := log + [Request(ip, now)];
    }
  }

  /** The cap on a shard never frees anything: the shards hold every address that was ever seen. */
  lemma AddressesStay(shards: seq<History>, log: seq<Request>, hash: string -> nat, ip: string)
    requires Tracks(shards, log, hash)
    ensures |shards| == SHARDS && (ip in shards[ShardOf(hash, ip)] <==> Appears(log, ip))
  {
    hide Remembers, Appears;
    assert TracksAddress(shards[ShardOf(hash, ip)], log, ip);
  }

  lemma PopStep(times: seq<int>, now: int)
    requires times != [] && now - times[0] > WINDOW
    ensures PopOld(times, now) == PopOld(times[1..], now)
  {
  }

  lemma PopDone(times: seq<int>, now: int)
    requires times == [] || now - times[0] <= WINDOW
    ensures PopOld(times, now) == times
  {
  }

  lemma AppearsStep(log: seq<Request>, r: Request, ip: string)
    ensures Appears(log + [r], ip) <==> Appears(log, ip) || r.ip == ip
  {
    var more := log + [r];
    if Appears(log, ip) {
      var k :| 0 <= k < |log| && log[k].ip == ip;
      assert more[k].ip == ip;
    }
    if r.ip == ip {
      assert more[|log|].ip == ip;
    }
    if Appears(more, ip) && r.ip != ip {
      var k :| 0 <= k < |more| && more[k].ip == ip;
      assert log[k].ip == ip;
    }
  }
}
