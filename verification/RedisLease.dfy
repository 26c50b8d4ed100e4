/** The Redis lease (app/infra/redis_lease.py): a key with a time to live, three atomic scripts, and a
  manager that decides when its lease is lost. Times are in milliseconds of one non-decreasing clock. */
module RedisLease {
  import opened Common

  // ---------------------------------------------------------------- the key and its scripts

  datatype Hold = Hold(owner: string, deadline: int)

  /** Who holds the key at time t; an expired key does not exist. */
  function Owner(key: Option<Hold>, t: int): Option<string> {
    if key.Some? && t < key.value.deadline then Some(key.value.owner) else None
  }

  datatype Op = Acquire | Renew | Release

  /** The key after a script ran at time t. */
  function Apply(key: Option<Hold>, op: Op, who: string, ttl: int, t: int): Option<Hold> {
    match op
    case Acquire => if ttl > 0 && Owner(key, t).None? then Some(Hold(who, t + ttl)) else key
    case Renew => if Owner(key, t) == Some(who) then Some(Hold(who, t + ttl)) else key
    case Release => if Owner(key, t) == Some(who) then None else key
  }

  /** Whether the script replied 1. */
  predicate Granted(key: Option<Hold>, op: Op, who: string, ttl: int, t: int) {
    match op
    case Acquire => ttl > 0 && Owner(key, t).None?
    case Renew => Owner(key, t) == Some(who)
    case Release => Owner(key, t) == Some(who)
  }

  class RedisKey {
    var hold: Option<Hold>

    /** exists, then psetex */
    method EvalAcquire(who: string, ttl: int, now: int) returns (reply: int)
      requires ttl > 0
      modifies this
      ensures hold == Apply(old(hold), Acquire, who, ttl, now)
      ensures reply == if Granted(old(hold), Acquire, who, ttl, now) then 1 else 0
      ensures if old(hold).Some? && now < old(hold).value.deadline then reply == 0 && hold == old(hold)
              else reply == 1 && hold == Some(Hold(who, now + ttl))
    {
      if hold.Some? && now < hold.value.deadline {
        return 0;
      }
      hold := Some(Hold(who, now + ttl));
      return 1;
    }

    /** get, compare, del */
    method EvalRelease(who: string, now: int) returns (reply: int)
      modifies this
      ensures hold == Apply(old(hold), Release, who, 0, now)
      ensures reply == if Granted(old(hold), Release, who, 0, now) then 1 else 0
      ensures if old(hold).Some? && now < old(hold).value.deadline && old(hold).value.owner == who
              then reply == 1 && hold == None else reply == 0 && hold == old(hold)
    {
      if hold.Some? && now < hold.value.deadline && hold.value.owner == who {
        hold := None;
        return 1;
      }
      return 0;
    }

    /** get, compare, pexpire */
    method EvalRenew(who: string, ttl: int, now: int) returns (reply: int)
      modifies this
      ensures hold == Apply(old(hold), Renew, who, ttl, now)
      ensures reply == if Granted(old(hold), Renew, who, ttl, now) then 1 else 0
      ensures if old(hold).Some? && now < old(hold).value.deadline && old(hold).value.owner == who
              then reply == 1 && hold == Some(Hold(who, now + ttl)) else reply == 0 && hold == old(hold)
    {
      if hold.Some? && now < hold.value.deadline && hold.value.owner == who {
        hold := Some(hold.value.(deadline := now + ttl));
        return 1;
      }
      return 0;
    }
  }

  // ---------------------------------------------------------------- runs of many managers

  datatype Event = Event(op: Op, who: string, at: int)

  /** Each manager uses one time to live for all its calls. */
  type Ttl = string -> int

  function KeyAfter(ttl: Ttl, evs: seq<Event>): Option<Hold> {
    if evs == [] then None
    else
      var e := evs[|evs|-1];
      Apply(KeyAfter(ttl, evs[..|evs|-1]), e.op, e.who, ttl(e.who), e.at)
  }

  predicate Reply(ttl: Ttl, evs: seq<Event>, i: nat)
    requires i < |evs|
  {
    Granted(KeyAfter(ttl, evs[..i]), evs[i].op, evs[i].who, ttl(evs[i].who), evs[i].at)
  }

  ghost predicate Timed(evs: seq<Event>) {
    forall i, j :: 0 <= i <= j < |evs| ==> evs[i].at <= evs[j].at
  }

  /** A moment of the run: time t, after the first i events and before the rest. */
  ghost predicate Moment(evs: seq<Event>, i: nat, t: int) {
    && i <= |evs|
    && (i > 0 ==> evs[i-1].at <= t)
    && (i < |evs| ==> t <= evs[i].at)
  }

  predicate HoldsAt(ttl: Ttl, evs: seq<Event>, i: nat, t: int, who: string)
    requires i <= |evs|
  {
    Owner(KeyAfter(ttl, evs[..i]), t) == Some(who)
  }

  predicate AcquiredBy(e: Event, who: string) { e.op == Acquire && e.who == who }

  ghost predicate AcquiresOnce(evs: seq<Event>, who: string) {
    forall i, j :: 0 <= i < j < |evs| && AcquiredBy(evs[i], who) ==> !AcquiredBy(evs[j], who)
  }

  lemma {:induction false} HolderAcquired(ttl: Ttl, evs: seq<Event>, i: nat, t: int, who: string) returns (a: nat)
    requires i <= |evs| && HoldsAt(ttl, evs, i, t, who)
    ensures a < i && AcquiredBy(evs[a], who) && Reply(ttl, evs, a)
  {
    var e := evs[i-1];
    assert evs[..i][..i-1] == evs[..i-1];
    if AcquiredBy(e, who) && Reply(ttl, evs, i - 1) {
      a := i - 1;
    } else if HoldsAt(ttl, evs, i - 1, t, who) {
      a := HolderAcquired(ttl, evs, i - 1, t, who);
    } else {
      a := HolderAcquired(ttl, evs, i - 1, e.at, who);
    }
  }

  /** An owner that does not hold the key, and does not acquire again, never holds it later. */
  lemma {:induction false} LostForever(ttl: Ttl, evs: seq<Event>, i: nat, t: int, k: nat, v: int, who: string)
    requires Timed(evs) && Moment(evs, i, t) && Moment(evs, k, v) && i <= k && t <= v
    requires forall x :: i <= x < k ==> !AcquiredBy(evs[x], who)
    requires !HoldsAt(ttl, evs, i, t, who)
    ensures !HoldsAt(ttl, evs, k, v, who)
    decreases k
  {
    if i < k {
      assert evs[..k][..k-1] == evs[..k-1];
      LostForever(ttl, evs, i, t, k - 1, evs[k-1].at, who);
    }
  }

  /** Every owner holds the key over at most one contiguous stretch of time. */
  lemma OneInterval(ttl: Ttl, evs: seq<Event>, who: string, i: nat, t: int, j: nat, u: int, k: nat, v: int)
    requires Timed(evs) && AcquiresOnce(evs, who)
    requires Moment(evs, i, t) && Moment(evs, j, u) && Moment(evs, k, v)
    requires i <= j <= k && t <= u <= v
    requires HoldsAt(ttl, evs, i, t, who) && HoldsAt(ttl, evs, k, v, who)
    ensures HoldsAt(ttl, evs, j, u, who)
  {
    var a := HolderAcquired(ttl, evs, i, t, who);
    if !HoldsAt(ttl, evs, j, u, who) {
      LostForever(ttl, evs, j, u, k, v, who);
    }
  }

  /** Stretches of different owners never interleave: once another owner has held the key in between,
    the first does not hold it again. */
  lemma IntervalsAreDisjoint(ttl: Ttl, evs: seq<Event>, a: string, b: string,
                             i: nat, t: int, j: nat, u: int, k: nat, v: int)
    requires Timed(evs) && AcquiresOnce(evs, a) && a != b
    requires Moment(evs, i, t) && Moment(evs, j, u) && Moment(evs, k, v)
    requires i <= j <= k && t <= u <= v
    requires HoldsAt(ttl, evs, i, t, a) && HoldsAt(ttl, evs, j, u, b)
    ensures !HoldsAt(ttl, evs, k, v, a)
  {
    if HoldsAt(ttl, evs, k, v, a) {
      OneInterval(ttl, evs, a, i, t, j, u, k, v);
    }
  }

  /** An acquire or a renewal that was answered 1. */
  predicate Extends(ttl: Ttl, evs: seq<Event>, a: nat)
    requires a < |evs|
  {
    evs[a].op != Release && Reply(ttl, evs, a)
  }

  /** After an acquire or a renewal granted at time t0, the owner holds the key until t0 + ttl unless it
    releases. */
  lemma {:induction false} HoldsUntilTtl(ttl: Ttl, evs: seq<Event>, a: nat, k: nat, t: int)
    requires Timed(evs) && a < k && Moment(evs, k, t)
    requires Extends(ttl, evs, a)
    requires forall x :: a < x < k && evs[x].op == Release ==> evs[x].who != evs[a].who
    requires t < evs[a].at + ttl(evs[a].who)
    ensures HoldsAt(ttl, evs, k, t, evs[a].who)
    ensures KeyAfter(ttl, evs[..k]).value.deadline >= evs[a].at + ttl(evs[a].who)
    decreases k
  {
    assert evs[..k][..k-1] == evs[..k-1];
    if k > a + 1 {
      HoldsUntilTtl(ttl, evs, a, k - 1, evs[k-1].at);
    }
  }

  /** So nobody else gets the lock in that time. */
  lemma ExcludesOthers(ttl: Ttl, evs: seq<Event>, a: nat, b: nat)
    requires Timed(evs) && a < b < |evs|
    requires Extends(ttl, evs, a) && evs[b].op == Acquire
    requires forall x :: a < x < b && evs[x].op == Release ==> evs[x].who != evs[a].who
    requires evs[b].at < evs[a].at + ttl(evs[a].who)
    ensures !Reply(ttl, evs, b)
  {
    HoldsUntilTtl(ttl, evs, a, b, evs[b].at);
  }

  /** Grant a still counts for its owner at time t, after the first k events. */
  ghost predicate InForce(ttl: Ttl, evs: seq<Event>, a: nat, k: nat, t: int, who: string)
    requires k <= |evs|
  {
    && a < k && evs[a].who == who && Extends(ttl, evs, a)
    && t < evs[a].at + ttl(who)
    && forall x :: a < x < k && evs[x].op == Release ==> evs[x].who != who
  }

  /** Whoever holds the key does so by a grant still in force. */
  lemma {:induction false} HeldByGrant(ttl: Ttl, evs: seq<Event>, k: nat, t: int, who: string) returns (a: nat)
    requires Timed(evs) && Moment(evs, k, t) && HoldsAt(ttl, evs, k, t, who)
    ensures InForce(ttl, evs, a, k, t, who)
    ensures KeyAfter(ttl, evs[..k]).value.deadline == evs[a].at + ttl(who)
    decreases k
  {
    var e := evs[k-1];
    assert evs[..k][..k-1] == evs[..k-1];
    if e.who == who && e.op != Release && Reply(ttl, evs, k - 1) {
      a := k - 1;
    } else {
      a := HeldByGrant(ttl, evs, k - 1, e.at, who);
    }
  }

  /** Who holds the key at a moment is exactly what the replies say: an owner holds it if and only if some
    acquire or renewal of its own was answered 1 less than its time to live ago and it has not released
    since. */
  lemma HoldsIff(ttl: Ttl, evs: seq<Event>, k: nat, t: int, who: string)
    requires Timed(evs) && Moment(evs, k, t)
    ensures HoldsAt(ttl, evs, k, t, who) <==> exists a: nat :: InForce(ttl, evs, a, k, t, who)
  {
    if HoldsAt(ttl, evs, k, t, who) {
      var a := HeldByGrant(ttl, evs, k, t, who);
    }
    if a: nat :| InForce(ttl, evs, a, k, t, who) {
      HoldsUntilTtl(ttl, evs, a, k, t);
    }
  }

  /** And the replies are exactly what the holder says: an acquire is granted if and only if nobody holds the
    key, a renewal or a release if and only if the caller does. */
  lemma RepliesIff(ttl: Ttl, evs: seq<Event>, i: nat)
    requires i < |evs|
    ensures Reply(ttl, evs, i) <==>
      if evs[i].op == Acquire then ttl(evs[i].who) > 0 && forall who :: !HoldsAt(ttl, evs, i, evs[i].at, who)
      else HoldsAt(ttl, evs, i, evs[i].at, evs[i].who)
  {
    var held := Owner(KeyAfter(ttl, evs[..i]), evs[i].at);
    if held.Some? {
      assert HoldsAt(ttl, evs, i, evs[i].at, held.value);
    }
  }

  /** A renewal answered 0, or any release, is final for an owner that acquires once. */
  lemma ZeroIsFinal(ttl: Ttl, evs: seq<Event>, r: nat, k: nat, v: int)
    requires Timed(evs) && r < k && Moment(evs, k, v)
    requires evs[r].op == Release || (evs[r].op == Renew && !Reply(ttl, evs, r))
    requires exists a :: 0 <= a < r && AcquiredBy(evs[a], evs[r].who)
    requires AcquiresOnce(evs, evs[r].who)
    ensures !HoldsAt(ttl, evs, k, v, evs[r].who)
  {
    assert evs[..r+1][..r] == evs[..r];
    LostForever(ttl, evs, r + 1, evs[r].at, k, v, evs[r].who);
  }

  // ---------------------------------------------------------------- the manager

  datatype Check = Current(owner: Option<string>) | Unreachable

  /** The consecutive-failure counter and the start of its window; 0.0 means no window. */
  datatype Monitor = Monitor(failures: nat, first: real)

  const FAILURE_THRESHOLD := 10
  const FAILURE_WINDOW := 60.0
  const MAX_RENEW_RETRIES := 5

  function Failed(m: Monitor, now: real): Monitor {
    if m.first == 0.0 then m.(first := now)
    else if now - m.first > FAILURE_WINDOW then Monitor(1, now)
    else m.(failures := m.failures + 1)
  }

  function Observe(m: Monitor, c: Check, now: real): Monitor {
    if c.Current? then Monitor(0, 0.0) else Failed(m, now)
  }

  datatype RenewReply = Refreshed | Mismatch | Error | Cancelled

  ghost predicate AbandonsAt(replies: seq<RenewReply>, k: nat)
    requires k < |replies|
  {
    && Cancelled !in replies[..k+1]
    && (replies[k] == Mismatch
        || (k >= 4 && forall i :: k - 4 <= i <= k ==> replies[i] == Error))
  }

  /** The renewer gives up: before any cancellation it saw a mismatch or five errors in a row. */
  ghost predicate Abandons(replies: seq<RenewReply>) {
    exists k :: 0 <= k < |replies| && AbandonsAt(replies, k)
  }

  class RedisLeaseManager {
    const owner: string
    const ttl: int  // seconds
    var failures: nat
    var firstFailureTime: real
    var giveUp: bool

    ghost function View(): Monitor
      reads this
    {
      Monitor(failures, firstFailureTime)
    }

    constructor (owner: string, ttl: int)
      ensures this.owner == owner && this.ttl == ttl && !giveUp && View() == Monitor(0, 0.0)
    {
      this.owner, this.ttl := owner, ttl;
      failures, firstFailureTime, giveUp := 0, 0.0, false;
    }

    /** Without a positive time to live nothing is sent. */
    method Acquire(key: RedisKey, now: int) returns (acquired: bool)
      modifies key
      ensures key.hold == Apply(old(key.hold), Op.Acquire, owner, ttl * 1000, now)
      ensures acquired <==> Granted(old(key.hold), Op.Acquire, owner, ttl * 1000, now)
    {
      if ttl <= 0 {
        return false;
      }
      var reply := key.EvalAcquire(owner, ttl * 1000, now);
      return reply == 1;
    }

    method IsOwned(check: Check, now: real) returns (owned: bool)
      modifies this`failures, this`firstFailureTime
      ensures giveUp ==> !owned && View() == old(View())
      ensures !giveUp ==> View() == Observe(old(View()), check, now)
      ensures !giveUp && check.Current? ==> failures == 0 && firstFailureTime == 0.0
      ensures !giveUp && check.Unreachable? ==>
        if old(firstFailureTime) == 0.0 then failures == old(failures) && firstFailureTime == now
        else if now - old(firstFailureTime) > 60.0 then failures == 1 && firstFailureTime == now
        else failures == old(failures) + 1 && firstFailureTime == old(firstFailureTime)
      ensures !giveUp && check.Current? ==> (owned <==> check.owner == Some(owner))
      ensures !giveUp && check.Unreachable? ==> (owned <==> failures < 10)
    {
      if giveUp {
        return false;
      }
      if check.Current? {
        failures, firstFailureTime := 0, 0.0;
        return check.owner == Some(owner);
      }
      if firstFailureTime == 0.0 {
        firstFailureTime := now;
      } else if now - firstFailureTime > FAILURE_WINDOW {
        failures, firstFailureTime := 1, now;
      } else {
        failures := failures + 1;
      }
      return failures < FAILURE_THRESHOLD;
    }

    /** The background renewer, on the replies it gets until it stops. */
    method RenewLoop(replies: seq<RenewReply>)
      modifies this`giveUp
      ensures giveUp <==> old(giveUp) || Abandons(replies)
    {
      var renewFailures := 0;
      for i := 0 to |replies|
        invariant giveUp == old(giveUp)
        invariant Cancelled !in replies[..i]
        invariant 0 <= renewFailures < MAX_RENEW_RETRIES && renewFailures <= i
        invariant forall x :: i - renewFailures <= x < i ==> replies[x] == Error
        invariant renewFailures < i ==> replies[i - renewFailures - 1] == Refreshed
        invariant forall k :: 0 <= k < i ==> !AbandonsAt(replies, k)
      {
        assert replies[..i+1] == replies[..i] + [replies[i]];
        match replies[i]
        case Refreshed =>
          renewFailures := 0;
        case Mismatch =>
          assert AbandonsAt(replies, i);
          giveUp := true;
          return;
        case Cancelled =>
          forall k | i <= k < |replies| ensures !AbandonsAt(replies, k) {
            assert replies[..k+1][i] == Cancelled;
          }
          return;
        case Error =>
          renewFailures := renewFailures + 1;
          if renewFailures >= MAX_RENEW_RETRIES {
            assert AbandonsAt(replies, i);
            giveUp := true;
            return;
          }
      }
    }
  }

  // ---------------------------------------------------------------- the failure window

  datatype Sample = Sample(check: Check, now: real)

  function MonitorAfter(m: Monitor, samples: seq<Sample>): Monitor {
    if samples == [] then m
    else
      var last := samples[|samples|-1];
      Observe(MonitorAfter(m, samples[..|samples|-1]), last.check, last.now)
  }

  /** A non-decreasing monotonic clock. */
  ghost predicate Clocked(samples: seq<Sample>) {
    && (forall i :: 0 <= i < |samples| ==> samples[i].now >= 0.0)
    && (forall i, j :: 0 <= i <= j < |samples| ==> samples[i].now <= samples[j].now)
  }

  /** The counter counts failed checks at the end of the run, all inside the current window. */
  ghost predicate Counted(m: Monitor, samples: seq<Sample>) {
    && m.failures <= |samples|
    && (m.first == 0.0 ==> m.failures == 0)
    && (forall i :: |samples| - m.failures <= i < |samples| ==>
         samples[i].check.Unreachable? && m.first <= samples[i].now <= m.first + FAILURE_WINDOW)
    && (samples != [] ==> m.first <= samples[|samples|-1].now)
  }

  lemma {:induction false} CounterIsCounted(samples: seq<Sample>)
    requires Clocked(samples)
    ensures Counted(MonitorAfter(Monitor(0, 0.0), samples), samples)
  {
    if samples != [] {
      var init := samples[..|samples|-1];
      CounterIsCounted(init);
    }
  }

  /** A lost verdict from an unreachable Redis rests on ten failed checks in a row within one window. */
  lemma LostVerdictIsSound(samples: seq<Sample>)
    requires Clocked(samples) && MonitorAfter(Monitor(0, 0.0), samples).failures >= FAILURE_THRESHOLD
    ensures var n := |samples|;
      && n >= FAILURE_THRESHOLD
      && (forall i :: n - FAILURE_THRESHOLD <= i < n ==> samples[i].check.Unreachable?)
      && samples[n-1].now - samples[n - FAILURE_THRESHOLD].now <= FAILURE_WINDOW
  {
    CounterIsCounted(samples);
  }

  /** A stretch of failed checks at the given times. */
  function Outage(times: seq<real>): seq<Sample> {
    seq(|times|, i requires 0 <= i < |times| => Sample(Unreachable, times[i]))
  }

  ghost predicate WithinWindow(times: seq<real>) {
    && (forall i, j :: 0 <= i <= j < |times| ==> times[i] <= times[j])
    && (times != [] ==> times[0] >= 0.0 && times[|times|-1] - times[0] <= FAILURE_WINDOW)
  }

  /** The first z checks fall on clock value 0.0, the others later. */
  ghost predicate LaterFrom(times: seq<real>, z: nat) {
    z <= |times| && forall i :: 0 <= i < |times| ==> (times[i] > 0.0 <==> i >= z)
  }

  lemma OutageSnoc(m: Monitor, times: seq<real>, k: nat)
    requires k < |times|
    ensures MonitorAfter(m, Outage(times)[..k+1]) == Failed(MonitorAfter(m, Outage(times)[..k]), times[k])
  {
    assert Outage(times)[..k+1][..k] == Outage(times)[..k];
  }

  /** While no check is more than a window past the first failure, each one counts. */
  lemma {:induction false} Climbs(m: Monitor, times: seq<real>, lo: nat, k: nat)
    requires lo <= k <= |times|
    requires var f := MonitorAfter(m, Outage(times)[..lo]).first;
      f != 0.0 && forall i :: lo <= i < k ==> times[i] - f <= FAILURE_WINDOW
    ensures var s := MonitorAfter(m, Outage(times)[..lo]);
      MonitorAfter(m, Outage(times)[..k]) == Monitor(s.failures + (k - lo), s.first)
    decreases k
  {
    if lo < k {
      Climbs(m, times, lo, k - 1);
      OutageSnoc(m, times, k - 1);
    }
  }

  lemma LateOutageIsNoticed(m: Monitor, times: seq<real>) returns (k: nat)
    requires m.first == 0.0 ==> m.failures == 0
    requires |times| >= 19 && WithinWindow(times) && times[0] > 0.0
    ensures 0 < k <= 19 && MonitorAfter(m, Outage(times)[..k]).failures >= FAILURE_THRESHOLD
  {
    assert Outage(times)[..0] == [];
    if m.first == 0.0 {
      OutageSnoc(m, times, 0);
      Climbs(m, times, 1, 11);
      k := 11;
    } else if times[9] - m.first <= FAILURE_WINDOW {
      Climbs(m, times, 0, 10);
      k := 10;
    } else {
      var r := 0;
      while times[r] - m.first <= FAILURE_WINDOW
        invariant 0 <= r <= 9
        invariant forall i :: 0 <= i < r ==> times[i] - m.first <= FAILURE_WINDOW
        decreases 9 - r
      {
        r := r + 1;
      }
      Climbs(m, times, 0, r);
      OutageSnoc(m, times, r);
      Climbs(m, times, r + 1, r + 10);
      k := r + 10;
    }
  }

  lemma {:induction false} OutageSplits(m: Monitor, times: seq<real>, z: nat, k: nat)
    requires z + k <= |times|
    ensures MonitorAfter(m, Outage(times)[..z + k])
         == MonitorAfter(MonitorAfter(m, Outage(times)[..z]), Outage(times[z..])[..k])
  {
    if k > 0 {
      OutageSplits(m, times, z, k - 1);
      OutageSnoc(m, times, z + k - 1);
      OutageSnoc(MonitorAfter(m, Outage(times)[..z]), times[z..], k - 1);
    } else {
      assert Outage(times[z..])[..0] == [];
    }
  }

  /** Checks at clock value 0.0 open no window and restart none. */
  lemma {:induction false} ZerosOpenNothing(m: Monitor, times: seq<real>, z: nat, k: nat)
    requires m.first >= 0.0 && LaterFrom(times, z) && k <= z && WithinWindow(times)
    ensures MonitorAfter(m, Outage(times)[..k]).first == m.first
    ensures m.first == 0.0 ==> MonitorAfter(m, Outage(times)[..k]) == m
  {
    if k > 0 {
      ZerosOpenNothing(m, times, z, k - 1);
      OutageSnoc(m, times, k - 1);
      assert times[k-1] == 0.0;
    } else {
      assert Outage(times)[..0] == [];
    }
  }

  /** Nineteen failed checks in a row inside one window, all later than clock value 0.0, always include a lost
    verdict, whatever the monitor's state before and whatever fails at 0.0 before them, also when the
    monitor's window restarts midway. */
  lemma OutageIsNoticed(m: Monitor, times: seq<real>, z: nat) returns (k: nat)
    requires m.first == 0.0 ==> m.failures == 0
    requires z > 0 ==> m.first >= 0.0
    requires WithinWindow(times) && LaterFrom(times, z) && |times| - z >= 19
    ensures z < k <= z + 19 && MonitorAfter(m, Outage(times)[..k]).failures >= FAILURE_THRESHOLD
  {
    assert Outage(times)[..0] == [];
    if z > 0 {
      ZerosOpenNothing(m, times, z, z);
    }
    var after := MonitorAfter(m, Outage(times)[..z]);
    k := LateOutageIsNoticed(after, times[z..]);
    OutageSplits(m, times, z, k);
    k := z + k;
  }

  /** A fresh monitor after the first k of these failed checks. */
  function FailedChecks(times: seq<real>, k: nat): Monitor
    requires k <= |times|
  {
    MonitorAfter(Monitor(0, 0.0), Outage(times)[..k])
  }

  lemma {:induction false} FreshOutageCount(times: seq<real>, z: nat, k: nat)
    requires WithinWindow(times) && LaterFrom(times, z) && k <= |times|
    ensures FailedChecks(times, k) == if k <= z then Monitor(0, 0.0) else Monitor(k - z - 1, times[z])
  {
    if k <= z {
      ZerosOpenNothing(Monitor(0, 0.0), times, z, k);
    } else {
      FreshOutageCount(times, z, k - 1);
      OutageSnoc(Monitor(0, 0.0), times, k - 1);
    }
  }

  /** A fresh monitor: failed checks within one window include a lost verdict if and only if at least eleven
    of them come later than clock value 0.0. The first of these opens the window uncounted. */
  lemma FreshOutageIff(times: seq<real>, z: nat)
    requires WithinWindow(times) && LaterFrom(times, z)
    ensures |times| - z >= 11 <==>
      exists k :: 0 <= k <= |times| && FailedChecks(times, k).failures >= FAILURE_THRESHOLD
  {
    if |times| - z >= 11 {
      FreshOutageCount(times, z, z + 11);
      assert FailedChecks(times, z + 11).failures >= FAILURE_THRESHOLD;
    } else {
      forall k | 0 <= k <= |times| ensures FailedChecks(times, k).failures < FAILURE_THRESHOLD {
        FreshOutageCount(times, z, k);
      }
    }
  }

  /** Eighteen need not: nine checks end one window and nine begin the next. */
  lemma EighteenMayGoUnnoticed(m: Monitor, times: seq<real>)
    requires m == MonitorAfter(Monitor(0, 0.0), [Sample(Unreachable, 1.0)])
    requires times == seq(18, i => if i < 9 then 61.0 else 61.5)
    ensures WithinWindow(times)
    ensures forall k :: 0 <= k <= 18 ==> MonitorAfter(m, Outage(times)[..k]).failures < FAILURE_THRESHOLD
  {
    assert [Sample(Unreachable, 1.0)][..0] == [];
    assert m == Monitor(0, 1.0);
    assert Outage(times)[..0] == [];
    Climbs(m, times, 0, 9);
    OutageSnoc(m, times, 9);
    forall k | 0 <= k <= 18 ensures MonitorAfter(m, Outage(times)[..k]).failures < FAILURE_THRESHOLD {
      if k <= 9 {
        Climbs(m, times, 0, k);
      } else {
        Climbs(m, times, 10, k);
      }
    }
  }
}
